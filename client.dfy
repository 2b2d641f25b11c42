/**
 * The controller handle (Controller): a fixed device index, the latest
 * hardware snapshot, a latch array with one flag per button, and an optional
 * button mapping; its trigger and stick accessors apply a fixed dead-zone
 * threshold to the raw snapshot.
 */
module Client {
  import opened Wrappers

  /** Buttons.LENGTH: the number of logical button identifiers. */
  const ButtonCount: nat := 17

  /** The fixed cut-off below which a trigger or stick reading counts as rest noise. */
  const Threshold: real := 0.05

  function Abs(x: real): real { if x < 0.0 then -x else x }

  /** Result of asking the hardware layer for the device name. */
  datatype NameLookup = Named(name: string) | Unplugged

  /** The hardware device handle: its number, whether it is connected, and what a name query answers. */
  datatype ControllerIndex = ControllerIndex(number: int, connected: bool, lookup: NameLookup)

  /** One frame's analog readings. */
  datatype ControllerState = ControllerState(
    leftTrigger: real, rightTrigger: real,
    leftStickX: real, leftStickY: real,
    rightStickX: real, rightStickY: real)

  /** A button-mapping profile, stored and handed back by reference only. */
  class MappingEntry {
  }

  /** r is the trigger reading raw after the dead zone: raw itself when pulled past the threshold, else 0. */
  predicate TriggerFiltered(raw: real, r: real)
  {
    (r == 0.0 || r == raw) && (r != 0.0 <==> raw > Threshold)
  }

  /** r is the stick reading raw after the dead zone: raw itself when deflected past the threshold either way, else 0. */
  predicate StickFiltered(raw: real, r: real)
  {
    (r == 0.0 || r == raw) && (r != 0.0 <==> Abs(raw) > Threshold)
  }

  /** The one-sided dead zone of the trigger accessors. */
  function FilterTrigger(raw: real): (r: real)
    ensures TriggerFiltered(raw, r)
    ensures Abs(r) <= Abs(raw)
  {
    if raw > Threshold then raw else 0.0
  }

  /** The two-sided dead zone of the stick accessors, with no rescaling. */
  function FilterStick(raw: real): (r: real)
    ensures StickFiltered(raw, r)
    ensures Abs(r) <= Abs(raw)
  {
    if Abs(raw) > Threshold then raw else 0.0
  }

  /** Filtering a filtered reading changes nothing. */
  lemma FiltersIdempotent(raw: real)
    ensures FilterTrigger(FilterTrigger(raw)) == FilterTrigger(raw)
    ensures FilterStick(FilterStick(raw)) == FilterStick(raw)
  {
  }

  /** On the non-negative readings a trigger reports, the two filters agree; a negative trigger reading reads as 0. */
  lemma TriggerIsOneSidedStick(raw: real)
    ensures raw >= 0.0 ==> FilterTrigger(raw) == FilterStick(raw)
    ensures raw < 0.0 ==> FilterTrigger(raw) == 0.0
  {
  }

  class Controller {
    var mapping: MappingEntry?
    const index: ControllerIndex
    var state: Option<ControllerState>
    const states: array<bool>

    constructor (index: ControllerIndex)
      ensures this.index == index
      ensures fresh(states) && states.Length == ButtonCount
      ensures forall b :: 0 <= b < states.Length ==> !states[b]
      ensures mapping == null && state == None
    {
      this.index := index;
      this.states := new bool[ButtonCount](_ => false);
      this.mapping := null;
      this.state := None;
    }

    /** The controller's number, fixed with the index at construction. */
    function GetNumber(): (n: int)
      ensures n == index.number
    {
      index.number
    }

    function GetIndex(): (i: ControllerIndex)
      ensures i == index
    {
      index
    }

    /** The unfiltered snapshot of the last update; None before the first one. */
    function GetState(): (s: Option<ControllerState>)
      reads this
      ensures s == state
    {
      state
    }

    method UpdateState(s: ControllerState)
      modifies this
      ensures state == Some(s)
      ensures mapping == old(mapping)
      ensures states[..] == old(states[..])
    {
      state := Some(s);
    }

    /** The device name; empty when the device is disconnected or the query finds it unplugged. */
    function GetName(): (name: string)
      ensures !index.connected || index.lookup.Unplugged? ==> name == ""
      ensures index.connected && index.lookup.Named? ==> name == index.lookup.name
    {
      if index.connected then
        match index.lookup
        case Named(n) => n
        case Unplugged => ""
      else ""
    }

    function GetLTriggerValue(): (r: real)
      reads this
      requires state.Some?
      ensures TriggerFiltered(state.value.leftTrigger, r)
    {
      FilterTrigger(state.value.leftTrigger)
    }

    function GetRTriggerValue(): (r: real)
      reads this
      requires state.Some?
      ensures TriggerFiltered(state.value.rightTrigger, r)
    {
      FilterTrigger(state.value.rightTrigger)
    }

    function GetLThumbStickXValue(): (r: real)
      reads this
      requires state.Some?
      ensures StickFiltered(state.value.leftStickX, r)
    {
      FilterStick(state.value.leftStickX)
    }

    function GetLThumbStickYValue(): (r: real)
      reads this
      requires state.Some?
      ensures StickFiltered(state.value.leftStickY, r)
    {
      FilterStick(state.value.leftStickY)
    }

    function GetRThumbStickXValue(): (r: real)
      reads this
      requires state.Some?
      ensures StickFiltered(state.value.rightStickX, r)
    {
      FilterStick(state.value.rightStickX)
    }

    function GetRThumbStickYValue(): (r: real)
      reads this
      requires state.Some?
      ensures StickFiltered(state.value.rightStickY, r)
    {
      FilterStick(state.value.rightStickY)
    }

    method SetMapping(m: MappingEntry?)
      modifies this
      ensures mapping == m
      ensures state == old(state)
      ensures states[..] == old(states[..])
    {
      mapping := m;
    }

    /** The assigned mapping, or null when none has been set. */
    function GetMapping(): (m: MappingEntry?)
      reads this
      ensures m == mapping
    {
      mapping
    }
  }

  /**
   * A caller's view: a new controller has no mapping and all latches clear;
   * an update is what GetState then returns, and the filtered accessors read
   * it; setting a mapping makes GetMapping return it.
   */
  method ControllerLifecycle(index: ControllerIndex, s: ControllerState, m: MappingEntry)
  {
    var c := new Controller(index);
    assert c.GetNumber() == index.number;
    assert c.GetMapping() == null;
    assert forall b :: 0 <= b < ButtonCount ==> !c.states[b];
    c.UpdateState(s);
    assert c.GetState() == Some(s);
    assert c.GetMapping() == null && c.GetNumber() == index.number;
    assert StickFiltered(s.leftStickX, c.GetLThumbStickXValue());
    c.SetMapping(m);
    assert c.GetMapping() == m && c.GetState() == Some(s);
  }
}
