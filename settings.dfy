/**
 * The persisted controller settings (ControllerOptions): three clamped
 * scalars, loaded from "key:value" lines and saved back as three lines.
 */
module Settings {
  import opened Wrappers
  import opened Decimal

  const DeadZoneKey: string := "deadZone"
  const RotationSpeedKey: string := "rotationSpeed"
  const MouseSpeedKey: string := "mouseSpeed"

  /** The three settings as one value. */
  datatype Settings = Settings(deadZone: real, rotationSpeed: real, mouseSpeed: real)

  function Defaults(): Settings { Settings(0.1, 20.0, 30.0) }

  /** MathHelper.clamp. */
  function Clamp(v: real, lo: real, hi: real): (r: real)
    requires lo <= hi
    ensures lo <= r <= hi
    ensures lo <= v <= hi ==> r == v
    ensures v < lo ==> r == lo
    ensures v > hi ==> r == hi
  {
    if v < lo then lo else if v > hi then hi else v
  }

  predicate KnownKey(key: string) { key == DeadZoneKey || key == RotationSpeedKey || key == MouseSpeedKey }

  /** Lower end of a setting's slider range. */
  function Lower(key: string): real
    requires KnownKey(key)
  {
    if key == DeadZoneKey then 0.0 else 1.0
  }

  /** Upper end of a setting's slider range. */
  function Upper(key: string): real
    requires KnownKey(key)
  {
    if key == DeadZoneKey then 1.0 else 50.0
  }

  function Get(s: Settings, key: string): real
    requires KnownKey(key)
  {
    if key == DeadZoneKey then s.deadZone
    else if key == RotationSpeedKey then s.rotationSpeed
    else s.mouseSpeed
  }

  /** Every setting lies in its slider range. */
  predicate InRange(s: Settings)
  {
    && 0.0 <= s.deadZone <= 1.0
    && 1.0 <= s.rotationSpeed <= 50.0
    && 1.0 <= s.mouseSpeed <= 50.0
  }

  // ---- splitting a line: Splitter.on(':').omitEmptyStrings().limit(2) ----

  /** s without its leading colons. */
  function DropColons(s: string): (r: string)
    ensures |r| <= |s|
    ensures r == [] || r[0] != ':'
  {
    if s != [] && s[0] == ':' then DropColons(s[1..]) else s
  }

  /** Index of the first colon of s, or |s| when there is none. */
  function ColonIndex(s: string): (k: nat)
    ensures k <= |s| && ':' !in s[..k]
    ensures k < |s| ==> s[k] == ':'
  {
    if s == [] || s[0] == ':' then 0
    else
      var k := 1 + ColonIndex(s[1..]);
      assert s[..k] == [s[0]] + s[1..][..k - 1];
      k
  }

  /** The non-empty colon-separated pieces of s, left to right (the unlimited split). */
  function Pieces(s: string): seq<string>
    decreases |s|
  {
    var t := DropColons(s);
    if t == [] then []
    else
      var k := ColonIndex(t);
      [t[..k]] + (if k == |t| then [] else Pieces(t[k + 1..]))
  }

  /**
   * The two iterator.next() calls on the limited split: the first non-empty
   * piece as key, and as value the rest of the line after the key's colon
   * with its leading colons dropped (the limit is reached, so the rest is
   * returned whole). None when either piece is missing.
   */
  function SplitOption(line: string): (r: Option<(string, string)>)
    ensures r.Some? ==> r.value.0 != [] && ':' !in r.value.0 && r.value.1 != [] && r.value.1[0] != ':'
  {
    var t := DropColons(line);
    var k := ColonIndex(t);
    if t == [] || k == |t| then None
    else
      var value := DropColons(t[k + 1..]);
      if value == [] then None else Some((t[..k], value))
  }

  /** line is split into a pair whose key is key. */
  predicate Defines(line: string, key: string)
  {
    SplitOption(line).Some? && SplitOption(line).value.0 == key
  }

  // ---- the key/value compound ----

  /** The compound the first loop of the load builds: each good line put in turn. */
  function Collect(lines: seq<string>): map<string, string>
  {
    if lines == [] then map[]
    else
      Put(Collect(lines[..|lines| - 1]), lines[|lines| - 1])
  }

  /** Putting one more line into the compound. */
  function Put(m: map<string, string>, line: string): map<string, string>
  {
    match SplitOption(line)
    case None => m
    case Some(kv) => m[kv.0 := kv.1]
  }

  lemma CollectAppend(lines: seq<string>, line: string)
    ensures Collect(lines + [line]) == Put(Collect(lines), line)
  {
    assert (lines + [line])[..|lines|] == lines;
  }

  /** The value a loaded compound gives one setting: the clamped number, or the prior value. */
  function Field(m: map<string, string>, key: string, prior: Settings): real
    requires KnownKey(key)
  {
    if key in m then
      match ParseDouble(m[key])
      case Some(v) => Clamp(v, Lower(key), Upper(key))
      case None => Get(prior, key)
    else Get(prior, key)
  }

  /** The settings after the second loop of the load has visited every key of m. */
  function ApplyAll(m: map<string, string>, prior: Settings): Settings
  {
    Settings(Field(m, DeadZoneKey, prior), Field(m, RotationSpeedKey, prior), Field(m, MouseSpeedKey, prior))
  }

  /** One visit of the second load loop: a known key whose value parses sets its own field, clamped. */
  function ApplyOption(s: Settings, key: string, value: string): Settings
  {
    if KnownKey(key) && ParseDouble(value).Some? then
      var v := Clamp(ParseDouble(value).value, Lower(key), Upper(key));
      if key == DeadZoneKey then s.(deadZone := v)
      else if key == RotationSpeedKey then s.(rotationSpeed := v)
      else s.(mouseSpeed := v)
    else s
  }

  /** Visiting one more key of the compound, in any order, moves ApplyAll along by that key. */
  lemma ApplyAllVisit(m: map<string, string>, keys: set<string>, key: string, prior: Settings)
    requires key in keys && keys <= m.Keys
    ensures ApplyAll(m - (keys - {key}), prior) == ApplyOption(ApplyAll(m - keys, prior), key, m[key])
  {
    var before, after := m - keys, m - (keys - {key});
    assert key !in before && key in after && after[key] == m[key];
    forall k | KnownKey(k) && k != key
      ensures (k in after) == (k in before) && (k in after ==> after[k] == before[k])
    {
    }
  }

  /** The settings after loading the options file (None: the file does not exist). */
  function Loaded(file: Option<seq<string>>, prior: Settings): (r: Settings)
    ensures InRange(prior) ==> InRange(r)
    ensures file.None? ==> r == prior
  {
    match file
    case None => prior
    case Some(lines) => ApplyAll(Collect(lines), prior)
  }

  /** The lines the save writes, with DecimalFormat's locale separator sep. */
  function SavedLinesIn(s: Settings, sep: char): seq<string>
    requires InRange(s)
  {
    [ DeadZoneKey + ":" + FormatIn(s.deadZone, sep),
      RotationSpeedKey + ":" + FormatIn(s.rotationSpeed, sep),
      MouseSpeedKey + ":" + FormatIn(s.mouseSpeed, sep) ]
  }

  /** The lines the save writes, with '.' as decimal separator. */
  function SavedLines(s: Settings): seq<string>
    requires InRange(s)
  {
    SavedLinesIn(s, '.')
  }

  /** Each setting rounded to the hundredths "0.0#" keeps. */
  function RoundedSettings(s: Settings): Settings
    requires InRange(s)
  {
    Settings(Rounded(s.deadZone), Rounded(s.rotationSpeed), Rounded(s.mouseSpeed))
  }

  // ---- properties of the split ----

  lemma {:induction false} DropColonsSuffix(s: string)
    ensures s[|s| - |DropColons(s)|..] == DropColons(s)
  {
    if s != [] && s[0] == ':' {
      DropColonsSuffix(s[1..]);
      assert s[1..][|s| - 1 - |DropColons(s)|..] == s[|s| - |DropColons(s)|..];
    }
  }

  lemma PiecesDropColons(s: string)
    ensures Pieces(DropColons(s)) == Pieces(s)
  {
    assert DropColons(DropColons(s)) == DropColons(s);
  }

  /**
   * The split agrees with the unlimited split: a line gives a pair exactly
   * when it has at least two non-empty pieces; the key is the first piece,
   * and the value holds all the other pieces.
   */
  lemma SplitIsFirstPiece(line: string)
    ensures SplitOption(line).Some? <==> |Pieces(line)| >= 2
    ensures SplitOption(line).Some? ==>
      SplitOption(line).value.0 == Pieces(line)[0] && Pieces(SplitOption(line).value.1) == Pieces(line)[1..]
  {
    var t := DropColons(line);
    if t != [] {
      var k := ColonIndex(t);
      if k < |t| {
        var rest := t[k + 1..];
        PiecesDropColons(rest);
        assert Pieces(line) == [t[..k]] + Pieces(rest);
        assert DropColons(rest) == [] <==> Pieces(rest) == [];
      }
    }
  }

  /** a is a tail of b. */
  predicate IsSuffix(a: string, b: string) { |a| <= |b| && b[|b| - |a|..] == a }

  lemma SuffixTransitive(a: string, b: string, c: string)
    requires IsSuffix(a, b) && IsSuffix(b, c)
    ensures IsSuffix(a, c)
  {
    assert c[|c| - |b|..][|b| - |a|..] == c[|c| - |a|..];
  }

  lemma SliceIsSuffix(s: string, i: nat)
    requires i <= |s|
    ensures IsSuffix(s[i..], s)
  {
  }

  /** The value is the end of the line itself, with the colons inside it kept. */
  lemma SplitValueIsSuffix(line: string)
    requires SplitOption(line).Some?
    ensures IsSuffix(SplitOption(line).value.1, line)
  {
    var t := DropColons(line);
    var rest := t[ColonIndex(t) + 1..];
    assert SplitOption(line).value.1 == DropColons(rest);
    assert IsSuffix(rest, line) by {
      SuffixOfDropColons(line);
      SliceIsSuffix(t, ColonIndex(t) + 1);
      SuffixTransitive(rest, t, line);
    }
    SuffixOfDropColons(rest);
    SuffixTransitive(DropColons(rest), rest, line);
  }

  lemma SuffixOfDropColons(s: string)
    ensures IsSuffix(DropColons(s), s)
  {
    DropColonsSuffix(s);
  }

  lemma {:induction false} ColonIndexAfter(key: string, rest: string)
    requires ':' !in key && rest != [] && rest[0] == ':'
    ensures ColonIndex(key + rest) == |key|
  {
    if key != [] {
      assert (key + rest)[1..] == key[1..] + rest;
      ColonIndexAfter(key[1..], rest);
    } else {
      assert key + rest == rest;
    }
  }

  /** A line "key:value" with no colon in key and value starting with another character splits into (key, value). */
  lemma SplitKeyValue(key: string, value: string)
    requires key != [] && ':' !in key && value != [] && value[0] != ':'
    ensures SplitOption(key + ":" + value) == Some((key, value))
  {
    var line := key + ":" + value;
    assert line == key + ([':'] + value);
    assert line[0] == key[0];
    ColonIndexAfter(key, [':'] + value);
    assert line[..|key|] == key;
    assert line[|key| + 1..] == value;
  }

  // ---- properties of the compound ----

  /** When a key has several good lines, the value of the last of them is the one kept. */
  lemma {:induction false} CollectLastWins(lines: seq<string>, i: nat, key: string)
    requires i < |lines| && Defines(lines[i], key)
    requires forall j :: i < j < |lines| ==> !Defines(lines[j], key)
    ensures key in Collect(lines) && Collect(lines)[key] == SplitOption(lines[i]).value.1
  {
    var init := lines[..|lines| - 1];
    if i < |lines| - 1 {
      forall j | i < j < |init| ensures !Defines(init[j], key) {
        assert init[j] == lines[j];
      }
      CollectLastWins(init, i, key);
    }
  }

  lemma PutHasKey(m: map<string, string>, line: string, key: string)
    ensures key in Put(m, line) <==> key in m || Defines(line, key)
  {
  }

  /** A key is in the compound exactly when some line defines it. */
  lemma {:induction false} CollectHasKey(lines: seq<string>, key: string)
    ensures key in Collect(lines) <==> exists j :: 0 <= j < |lines| && Defines(lines[j], key)
  {
    if lines != [] {
      var init := lines[..|lines| - 1];
      var last := lines[|lines| - 1];
      assert Collect(lines) == Put(Collect(init), last);
      PutHasKey(Collect(init), last, key);
      CollectHasKey(init, key);
      if exists j :: 0 <= j < |init| && Defines(init[j], key) {
        var j :| 0 <= j < |init| && Defines(init[j], key);
        assert lines[j] == init[j];
      }
      if exists j :: 0 <= j < |lines| && Defines(lines[j], key) {
        var j :| 0 <= j < |lines| && Defines(lines[j], key);
        if j < |init| {
          assert init[j] == lines[j];
        }
      }
    }
  }

  /** Inserting a line that does not define key changes nothing the compound says about key. */
  lemma {:induction false} CollectIgnores(a: seq<string>, line: string, b: seq<string>, key: string)
    requires !Defines(line, key)
    ensures key in Collect(a + [line] + b) <==> key in Collect(a + b)
    ensures key in Collect(a + b) ==> Collect(a + [line] + b)[key] == Collect(a + b)[key]
    decreases |b|
  {
    if b == [] {
      assert a + [line] + b == a + [line];
      assert a + b == a;
      CollectAppend(a, line);
    } else {
      var b', last := b[..|b| - 1], b[|b| - 1];
      assert a + [line] + b == (a + [line] + b') + [last];
      assert a + b == (a + b') + [last];
      CollectIgnores(a, line, b', key);
      CollectAppend(a + [line] + b', last);
      CollectAppend(a + b', last);
    }
  }

  // ---- properties of the load ----

  /** Loading a file gives each known setting the last value for its key: clamped when it parses, the prior value when not. */
  lemma LoadLastLineWins(lines: seq<string>, i: nat, key: string, prior: Settings)
    requires KnownKey(key)
    requires i < |lines| && Defines(lines[i], key)
    requires forall j :: i < j < |lines| ==> !Defines(lines[j], key)
    ensures Get(Loaded(Some(lines), prior), key) ==
      match ParseDouble(SplitOption(lines[i]).value.1)
      case Some(v) => Clamp(v, Lower(key), Upper(key))
      case None => Get(prior, key)
  {
    CollectLastWins(lines, i, key);
  }

  /** A known setting that no line defines keeps its prior value. */
  lemma LoadKeepsUndefined(lines: seq<string>, key: string, prior: Settings)
    requires KnownKey(key)
    requires forall j :: 0 <= j < |lines| ==> !Defines(lines[j], key)
    ensures Get(Loaded(Some(lines), prior), key) == Get(prior, key)
  {
    CollectHasKey(lines, key);
  }

  /** A line affects no setting other than the one its key names. */
  lemma LoadLineAffectsOnlyItsKey(a: seq<string>, line: string, b: seq<string>, key: string, prior: Settings)
    requires KnownKey(key) && !Defines(line, key)
    ensures Get(Loaded(Some(a + [line] + b), prior), key) == Get(Loaded(Some(a + b), prior), key)
  {
    CollectIgnores(a, line, b, key);
  }

  /** A bad line, or a line with an unknown key, can be dropped from the file without changing the load. */
  lemma LoadIgnoresLine(a: seq<string>, line: string, b: seq<string>, prior: Settings)
    requires SplitOption(line).None? || !KnownKey(SplitOption(line).value.0)
    ensures Loaded(Some(a + [line] + b), prior) == Loaded(Some(a + b), prior)
  {
    LoadLineAffectsOnlyItsKey(a, line, b, DeadZoneKey, prior);
    LoadLineAffectsOnlyItsKey(a, line, b, RotationSpeedKey, prior);
    LoadLineAffectsOnlyItsKey(a, line, b, MouseSpeedKey, prior);
  }

  /** A file with one good line per known key loads as the compound of those three values. */
  lemma CollectOnePerKey(dv: string, rv: string, mv: string)
    requires dv != [] && dv[0] != ':' && rv != [] && rv[0] != ':' && mv != [] && mv[0] != ':'
    ensures Collect([DeadZoneKey + ":" + dv, RotationSpeedKey + ":" + rv, MouseSpeedKey + ":" + mv])
         == map[DeadZoneKey := dv, RotationSpeedKey := rv, MouseSpeedKey := mv]
  {
    var lines := [DeadZoneKey + ":" + dv, RotationSpeedKey + ":" + rv, MouseSpeedKey + ":" + mv];
    assert Collect(lines[..1]) == map[DeadZoneKey := dv] by {
      SplitKeyValue(DeadZoneKey, dv);
      assert lines[..1] == [] + [lines[0]];
      CollectAppend([], lines[0]);
    }
    assert Collect(lines[..2]) == map[DeadZoneKey := dv, RotationSpeedKey := rv] by {
      SplitKeyValue(RotationSpeedKey, rv);
      assert lines[..2] == lines[..1] + [lines[1]];
      CollectAppend(lines[..1], lines[1]);
    }
    SplitKeyValue(MouseSpeedKey, mv);
    assert lines == lines[..2] + [lines[2]];
    CollectAppend(lines[..2], lines[2]);
  }

  /** The three lines a save writes in a given locale, read back as the compound. */
  lemma CollectSaved(s: Settings, sep: char)
    requires InRange(s)
    ensures Collect(SavedLinesIn(s, sep)) == map[
      DeadZoneKey := FormatIn(s.deadZone, sep),
      RotationSpeedKey := FormatIn(s.rotationSpeed, sep),
      MouseSpeedKey := FormatIn(s.mouseSpeed, sep)]
  {
    CollectOnePerKey(FormatIn(s.deadZone, sep), FormatIn(s.rotationSpeed, sep), FormatIn(s.mouseSpeed, sep));
  }

  /** Loading what a save wrote gives every setting back rounded to hundredths, whatever the prior settings. */
  lemma SaveLoadRoundTrip(s: Settings, prior: Settings)
    requires InRange(s)
    ensures Loaded(Some(SavedLines(s)), prior) == RoundedSettings(s)
  {
    CollectSaved(s, '.');
    ParseFormat(s.deadZone);
    ParseFormat(s.rotationSpeed);
    ParseFormat(s.mouseSpeed);
    RoundedInRange(s.deadZone, 0, 1);
    RoundedInRange(s.rotationSpeed, 1, 50);
    RoundedInRange(s.mouseSpeed, 1, 50);
  }

  /** Settings with at most two decimals survive a save and a load exactly. */
  lemma SaveLoadRestores(s: Settings, prior: Settings)
    requires InRange(s)
    requires TwoDecimals(s.deadZone) && TwoDecimals(s.rotationSpeed) && TwoDecimals(s.mouseSpeed)
    ensures Loaded(Some(SavedLines(s)), prior) == s
  {
    SaveLoadRoundTrip(s, prior);
    RoundedOfTwoDecimals(s.deadZone);
    RoundedOfTwoDecimals(s.rotationSpeed);
    RoundedOfTwoDecimals(s.mouseSpeed);
  }

  /** Saving, loading and saving again writes the same lines as the first save. */
  lemma SaveLoadSaveStable(s: Settings, prior: Settings)
    requires InRange(s)
    ensures InRange(Loaded(Some(SavedLines(s)), prior))
    ensures SavedLines(Loaded(Some(SavedLines(s)), prior)) == SavedLines(s)
  {
    var r := RoundedSettings(s);
    assert Loaded(Some(SavedLines(s)), prior) == r by {
      SaveLoadRoundTrip(s, prior);
    }
    RoundedInRange(s.deadZone, 0, 1);
    RoundedInRange(s.rotationSpeed, 1, 50);
    RoundedInRange(s.mouseSpeed, 1, 50);
    FormatRounded(s.deadZone, '.');
    FormatRounded(s.rotationSpeed, '.');
    FormatRounded(s.mouseSpeed, '.');
  }

  /**
   * As written, the save formats with the JVM's default locale. Where that
   * locale's decimal separator is ',' (German, French, ...), the next load
   * cannot parse any of the three values, so every setting falls back.
   */
  lemma CommaLocaleLosesSettings(s: Settings, prior: Settings)
    requires InRange(s)
    ensures Loaded(Some(SavedLinesIn(s, ',')), prior) == prior
  {
    CollectSaved(s, ',');
    ParseFormatInRejects(s.deadZone, ',');
    ParseFormatInRejects(s.rotationSpeed, ',');
    ParseFormatInRejects(s.mouseSpeed, ',');
  }

  /** No file: the settings stay at the defaults. */
  lemma NoFileKeepsDefaults()
    ensures Loaded(None, Defaults()) == Settings(0.1, 20.0, 30.0)
  {
  }

  /** A file with one value that is not a number: the other two are applied, and that one keeps its default. */
  lemma BadNumberScenario()
    ensures Loaded(Some(["deadZone:0.5", "rotationSpeed:abc", "mouseSpeed:15.0"]), Defaults())
         == Settings(0.5, 20.0, 15.0)
  {
    var dv, rv, mv := "0.5", "abc", "15.0";
    assert DeadZoneKey + ":" + dv == "deadZone:0.5";
    assert RotationSpeedKey + ":" + rv == "rotationSpeed:abc";
    assert MouseSpeedKey + ":" + mv == "mouseSpeed:15.0";
    CollectOnePerKey(dv, rv, mv);
    ParseExamples();
    ApplyOnePerKey(dv, rv, mv, Defaults());
  }

  lemma ApplyOnePerKey(dv: string, rv: string, mv: string, prior: Settings)
    ensures ApplyAll(map[DeadZoneKey := dv, RotationSpeedKey := rv, MouseSpeedKey := mv], prior)
         == Settings(
              if ParseDouble(dv).Some? then Clamp(ParseDouble(dv).value, 0.0, 1.0) else prior.deadZone,
              if ParseDouble(rv).Some? then Clamp(ParseDouble(rv).value, 1.0, 50.0) else prior.rotationSpeed,
              if ParseDouble(mv).Some? then Clamp(ParseDouble(mv).value, 1.0, 50.0) else prior.mouseSpeed)
  {
    var m := map[DeadZoneKey := dv, RotationSpeedKey := rv, MouseSpeedKey := mv];
    assert |DeadZoneKey| == 8 && |RotationSpeedKey| == 13 && |MouseSpeedKey| == 10;
    assert m[DeadZoneKey] == dv && m[RotationSpeedKey] == rv && m[MouseSpeedKey] == mv;
  }

  /** The settings store. Each field always lies in its slider range. */
  class ControllerOptions {
    var deadZone: real
    var rotationSpeed: real
    var mouseSpeed: real

    function Value(): Settings
      reads this
    {
      Settings(deadZone, rotationSpeed, mouseSpeed)
    }

    predicate Valid()
      reads this
    {
      InRange(Value())
    }

    /** Starts from the defaults and loads the options file (None: it does not exist). */
    constructor (file: Option<seq<string>>)
      ensures Valid()
      ensures Value() == Loaded(file, Defaults())
    {
      deadZone := 0.1;
      rotationSpeed := 20.0;
      mouseSpeed := 30.0;
      new;
      LoadOptions(file);
    }

    method SetDeadZone(value: real)
      requires Valid()
      modifies this
      ensures Valid()
      ensures Value() == old(Value()).(deadZone := Clamp(value, 0.0, 1.0))
    {
      deadZone := Clamp(value, 0.0, 1.0);
    }

    method SetRotationSpeed(value: real)
      requires Valid()
      modifies this
      ensures Valid()
      ensures Value() == old(Value()).(rotationSpeed := Clamp(value, 1.0, 50.0))
    {
      rotationSpeed := Clamp(value, 1.0, 50.0);
    }

    method SetMouseSpeed(value: real)
      requires Valid()
      modifies this
      ensures Valid()
      ensures Value() == old(Value()).(mouseSpeed := Clamp(value, 1.0, 50.0))
    {
      mouseSpeed := Clamp(value, 1.0, 50.0);
    }

    method LoadOptions(file: Option<seq<string>>)
      requires Valid()
      modifies this
      ensures Valid()
      ensures Value() == Loaded(file, old(Value()))
    {
      if file.None? {
        return;
      }
      var lines := file.value;
      var compound: map<string, string> := map[];
      for i := 0 to |lines|
        invariant compound == Collect(lines[..i])
        invariant Value() == old(Value())
      {
        assert lines[..i + 1] == lines[..i] + [lines[i]];
        CollectAppend(lines[..i], lines[i]);
        match SplitOption(lines[i])
        case Some(kv) =>
          compound := compound[kv.0 := kv.1];
        case None =>
          // a bad option is skipped
      }
      assert lines[..|lines|] == lines;

      ghost var prior := Value();
      var keys := compound.Keys;
      assert compound - keys == map[];
      while keys != {}
        invariant keys <= compound.Keys
        invariant Valid()
        invariant Value() == ApplyAll(compound - keys, prior)
        decreases |keys|
      {
        var key :| key in keys;
        ApplyAllVisit(compound, keys, key, prior);
        var value := compound[key];
        if key == DeadZoneKey {
          var parsed := ParseDouble(value);
          if parsed.Some? {
            SetDeadZone(parsed.value);
          }
        }
        if key == RotationSpeedKey {
          var parsed := ParseDouble(value);
          if parsed.Some? {
            SetRotationSpeed(parsed.value);
          }
        }
        if key == MouseSpeedKey {
          var parsed := ParseDouble(value);
          if parsed.Some? {
            SetMouseSpeed(parsed.value);
          }
        }
        keys := keys - {key};
      }
      assert compound - {} == compound;
    }

    /** The save, formatting with sep, the decimal separator of the JVM's default locale. */
    method SaveOptions(sep: char) returns (lines: seq<string>)
      requires Valid()
      ensures |lines| == 3
      ensures lines == SavedLinesIn(Value(), sep)
    {
      lines := [];
      lines := lines + [DeadZoneKey + ":" + FormatIn(deadZone, sep)];
      lines := lines + [RotationSpeedKey + ":" + FormatIn(rotationSpeed, sep)];
      lines := lines + [MouseSpeedKey + ":" + FormatIn(mouseSpeed, sep)];
    }

    function GetDeadZone(): (r: real)
      reads this
      requires Valid()
      ensures 0.0 <= r <= 1.0 && r == Value().deadZone
    {
      deadZone
    }

    function GetRotationSpeed(): (r: real)
      reads this
      requires Valid()
      ensures 1.0 <= r <= 50.0 && r == Value().rotationSpeed
    {
      rotationSpeed
    }

    function GetMouseSpeed(): (r: real)
      reads this
      requires Valid()
      ensures 1.0 <= r <= 50.0 && r == Value().mouseSpeed
    {
      mouseSpeed
    }
  }
}
