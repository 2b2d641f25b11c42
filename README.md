# Controllable: controller handle and settings store

A Dafny model of two pieces of the Controllable mod's client-side input handling. Both come from `src/main/java/com/mrcrayfish/controllable/client/`.

- **`ControllerOptions`** (module `Settings`, file `settings.dfy`) is the settings store. It holds three values: the dead zone, clamped to [0, 1], and the rotation and mouse speeds, each clamped to [1, 50]. The defaults are 0.1, 20.0 and 30.0. The store loads once from a line-oriented `key:value` file. Bad lines are skipped, a later duplicate key wins, unknown keys are ignored, and a value that does not parse leaves its field alone. Saving writes exactly three lines in `0.0#` format.
- **`Controller`** (module `Client`, file `client.dfy`) is the handle for one connected gamepad. It has a fixed device index, the latest hardware snapshot (which an update replaces wholesale), a latch array with one flag per logical button, and an optional mapping profile. Its trigger and stick accessors apply a fixed 0.05 dead zone. Triggers use a one-sided cut-off and sticks cut off on the absolute value. Neither rescales.

Two supporting modules:

- `Decimal` (`decimal.dfy`) models the two library calls the store depends on: `Double.parseDouble`, limited to plain decimal notation, and `DecimalFormat("0.0#")`.
- `Wrappers` (`wrappers.dfy`) defines `Option`.

How the Java maps onto the model:

- The options file's contents are a parameter, `Option<seq<string>>`, where `None` means the file does not exist. A save returns its lines.
- Values are exact `real`s.
- `CompoundNBT` is a `map<string, string>`. The load visits its keys in an unspecified order, using a `:|` choice.
- The optional mapping is a nullable reference to an opaque `MappingEntry` class.

The method `Client.ControllerLifecycle` is a client of the `Controller` class. It shows what a caller can conclude from the contracts alone: the mapping is null until it is set, every latch starts clear, and an update is what `GetState` then returns.

Details of the code the model follows:

- `Splitter.on(':').omitEmptyStrings().limit(2)` skips a line only when it has fewer than two non-empty pieces:
  - leading colons are dropped;
  - the key is the first non-empty piece;
  - the value is the rest of the line after the key's colon, minus any leading colons, and it keeps every later colon.

  So "a::b:c" loads key `a` with value `b:c`.
- `Controller.java` has no accessor for its latch array. The model only allocates it, all false.
- The mapping is a nullable reference (`MappingEntry?`), null until set.
- `DecimalFormat("0.0#")` formats with the decimal separator of the JVM's default locale. The save takes that separator as a parameter, `sep`, like the file contents.

## Model

| member | source | states |
|---|---|---|
| `Settings.Clamp` | src/main/java/com/mrcrayfish/controllable/client/settings/ControllerOptions.java:29 | `MathHelper.clamp`: the result lies in [lo, hi]. It is the input when the input is in range, and the nearer bound otherwise. |
| `Settings.ControllerOptions.SetDeadZone` | src/main/java/com/mrcrayfish/controllable/client/settings/ControllerOptions.java:28-30 | Stores the value clamped to [0, 1]; the other two settings are unchanged and the range invariant is kept. |
| `Settings.ControllerOptions.SetRotationSpeed` | src/main/java/com/mrcrayfish/controllable/client/settings/ControllerOptions.java:37-39 | Stores the value clamped to [1, 50]; nothing else changes. |
| `Settings.ControllerOptions.SetMouseSpeed` | src/main/java/com/mrcrayfish/controllable/client/settings/ControllerOptions.java:46-48 | Stores the value clamped to [1, 50]; nothing else changes. |
| `Settings.ControllerOptions.constructor` | src/main/java/com/mrcrayfish/controllable/client/settings/ControllerOptions.java:57-66 | Starts from the defaults 0.1 / 20.0 / 30.0 and ends in the state a load from the defaults gives, inside the ranges. |
| `Settings.NoFileKeepsDefaults` | src/main/java/com/mrcrayfish/controllable/client/settings/ControllerOptions.java:72-75 | With no options file, the settings stay 0.1, 20.0 and 30.0. |
| `Settings.Loaded` | src/main/java/com/mrcrayfish/controllable/client/settings/ControllerOptions.java:68-123 | A load from in-range settings leaves every field in range, because loaded values go through the clamps. A missing file changes nothing. |
| `Settings.ControllerOptions.LoadOptions` | src/main/java/com/mrcrayfish/controllable/client/settings/ControllerOptions.java:68-123 | First loop: the compound equals `Collect` of the lines read so far. Second loop: the store ends as `Loaded(file, old state)`, whatever order the keys are visited in. |
| `Settings.ApplyAllVisit` | src/main/java/com/mrcrayfish/controllable/client/settings/ControllerOptions.java:93-95 | Visiting any one more key of the compound advances the result by exactly that key's update, so key-set iteration order is irrelevant. |
| `Settings.SplitOption` | src/main/java/com/mrcrayfish/controllable/client/settings/ControllerOptions.java:84-85 | A successful split has a non-empty, colon-free key and a non-empty value that does not start with a colon. |
| `Settings.SplitIsFirstPiece` | src/main/java/com/mrcrayfish/controllable/client/settings/ControllerOptions.java:84-90 | A line yields a pair exactly when it has at least two non-empty colon-separated pieces, so any other line is skipped. The key is the first piece, and the value holds all the remaining pieces. |
| `Settings.SplitValueIsSuffix` | src/main/java/com/mrcrayfish/controllable/client/settings/ControllerOptions.java:84-85 | The value is the tail of the line itself: colons after the first piece stay in it (the limit of two). |
| `Settings.SplitKeyValue` | src/main/java/com/mrcrayfish/controllable/client/settings/ControllerOptions.java:84-85 | "key:value" with a colon-free key, and a value that does not start with a colon, splits into exactly (key, value). |
| `Settings.CollectLastWins` | src/main/java/com/mrcrayfish/controllable/client/settings/ControllerOptions.java:80-91 | When several good lines carry a key, the compound holds the value from the last of them. |
| `Settings.CollectHasKey` | src/main/java/com/mrcrayfish/controllable/client/settings/ControllerOptions.java:80-91 | A key is in the compound if and only if some line splits into a pair with that key. |
| `Settings.CollectIgnores` | src/main/java/com/mrcrayfish/controllable/client/settings/ControllerOptions.java:80-91 | Inserting anywhere a line that does not define a key changes neither that key's presence nor its value. |
| `Settings.LoadLastLineWins` | src/main/java/com/mrcrayfish/controllable/client/settings/ControllerOptions.java:93-116 | A known setting takes the last value its key has in the file, clamped when it parses. When that value fails to parse, the setting keeps its prior value. |
| `Settings.LoadKeepsUndefined` | src/main/java/com/mrcrayfish/controllable/client/settings/ControllerOptions.java:93-116 | A known setting that no line defines keeps its prior value. |
| `Settings.LoadLineAffectsOnlyItsKey` | src/main/java/com/mrcrayfish/controllable/client/settings/ControllerOptions.java:99-110 | A line changes no setting other than the one its own key names, whatever its value and wherever it stands in the file. |
| `Settings.LoadIgnoresLine` | src/main/java/com/mrcrayfish/controllable/client/settings/ControllerOptions.java:86-110 | A line that does not split, or whose key is not one of the three, can be removed from the file without changing the load. |
| `Settings.BadNumberScenario` | src/main/java/com/mrcrayfish/controllable/client/settings/ControllerOptions.java:97-115 | `deadZone:0.5`, `rotationSpeed:abc`, `mouseSpeed:15.0` loads as 0.5 / 20.0 / 15.0. The unparsable key keeps its default, and the other keys are still applied. |
| `Settings.ControllerOptions.SaveOptions` | src/main/java/com/mrcrayfish/controllable/client/settings/ControllerOptions.java:125-137 | Returns exactly three lines, `deadZone:`, `rotationSpeed:` and `mouseSpeed:` in that order, each followed by its value in `0.0#` written with the locale's decimal separator `sep` (`SavedLinesIn`; with '.' that is `SavedLines`). It reads the store and changes nothing, so saving twice gives identical lines. |
| `Settings.SaveLoadRoundTrip` | src/main/java/com/mrcrayfish/controllable/client/settings/ControllerOptions.java:129-131 | Loading the saved lines, over any prior settings, gives every value back rounded to hundredths. |
| `Settings.SaveLoadRestores` | src/main/java/com/mrcrayfish/controllable/client/settings/ControllerOptions.java:129-131 | Values with at most two decimals come back exactly after a save and a load. |
| `Settings.SaveLoadSaveStable` | src/main/java/com/mrcrayfish/controllable/client/settings/ControllerOptions.java:129-131 | Save, load, save writes the same three lines as the first save. |
| `Settings.CommaLocaleLosesSettings` | src/main/java/com/mrcrayfish/controllable/client/settings/ControllerOptions.java:24 | As written: under a default locale with decimal comma, the next load parses none of the saved values, so every setting keeps its prior value (see Findings). |
| `Settings.ControllerOptions.GetDeadZone` | src/main/java/com/mrcrayfish/controllable/client/settings/ControllerOptions.java:139-142 | Returns the stored dead zone, which lies in [0, 1]. |
| `Settings.ControllerOptions.GetRotationSpeed` | src/main/java/com/mrcrayfish/controllable/client/settings/ControllerOptions.java:144-147 | Returns the stored rotation speed, which lies in [1, 50]. |
| `Settings.ControllerOptions.GetMouseSpeed` | src/main/java/com/mrcrayfish/controllable/client/settings/ControllerOptions.java:149-152 | Returns the stored mouse speed, which lies in [1, 50]. |
| `Decimal.RoundHalfEven` | src/main/java/com/mrcrayfish/controllable/client/settings/ControllerOptions.java:24 | DecimalFormat's default HALF_EVEN rounding: the result is within one half of the input, and an exact tie goes to the even neighbour. |
| `Decimal.ParseFormat` | src/main/java/com/mrcrayfish/controllable/client/settings/ControllerOptions.java:129-131 | `Double.parseDouble` of a `0.0#` numeral gives the value rounded to hundredths. |
| `Decimal.NatToDigitsRoundTrip` | src/main/java/com/mrcrayfish/controllable/client/settings/ControllerOptions.java:129-131 | The integer part printed by the formatter reads back as the same number. |
| `Decimal.ParseDecimal` | src/main/java/com/mrcrayfish/controllable/client/settings/ControllerOptions.java:101-109 | A plain decimal `whole.frac` parses as the integer value of `whole` plus the fraction value of `frac`. |
| `Decimal.ParseFormatInRejects` | src/main/java/com/mrcrayfish/controllable/client/settings/ControllerOptions.java:24 | With a decimal separator other than '.', the formatted value is not something `Double.parseDouble` accepts. |
| `Decimal.ParseExamples` | src/main/java/com/mrcrayfish/controllable/client/settings/ControllerOptions.java:101-109 | "0.5" and "15.0" parse as numbers; "abc" fails to parse. |
| `Client.FilterTrigger` | src/main/java/com/mrcrayfish/controllable/client/Controller.java:93 | The one-sided dead zone gives either 0 or exactly the raw value. The result is non-zero if and only if the raw value exceeds 0.05, and its magnitude never exceeds the raw magnitude. |
| `Client.FilterStick` | src/main/java/com/mrcrayfish/controllable/client/Controller.java:113 | The two-sided dead zone gives either 0 or exactly the raw value, with no rescaling. The result is non-zero if and only if the absolute raw value exceeds 0.05, and its magnitude never exceeds the raw magnitude. |
| `Client.FiltersIdempotent` | src/main/java/com/mrcrayfish/controllable/client/Controller.java:113 | Filtering an already filtered reading changes nothing, for both filters. |
| `Client.TriggerIsOneSidedStick` | src/main/java/com/mrcrayfish/controllable/client/Controller.java:91-114 | On non-negative readings the trigger filter agrees with the stick filter; a negative trigger reading gives 0. |
| `Client.Controller.constructor` | src/main/java/com/mrcrayfish/controllable/client/Controller.java:11-20 | Stores the index and allocates a fresh latch array of `Buttons.LENGTH` slots, all false. The mapping is null and there is no snapshot yet. |
| `Client.Controller.GetNumber` | src/main/java/com/mrcrayfish/controllable/client/Controller.java:27-30 | Returns the fixed index's number; `index` is a `const`, so no method changes it. |
| `Client.Controller.GetIndex` | src/main/java/com/mrcrayfish/controllable/client/Controller.java:38-41 | Returns the index given at construction. |
| `Client.Controller.GetState` | src/main/java/com/mrcrayfish/controllable/client/Controller.java:50-53 | Returns the raw snapshot of the last update, or None (null) before the first one. |
| `Client.Controller.UpdateState` | src/main/java/com/mrcrayfish/controllable/client/Controller.java:60-63 | Replaces the snapshot, so `GetState` returns it. Mapping and latch array contents are unchanged, and the index is constant. |
| `Client.Controller.GetName` | src/main/java/com/mrcrayfish/controllable/client/Controller.java:70-84 | The device name when connected and the query succeeds. The empty string when the device is disconnected or the query reports it unplugged. |
| `Client.Controller.GetLTriggerValue` | src/main/java/com/mrcrayfish/controllable/client/Controller.java:91-94 | The left trigger raw value when above 0.05, else 0, and never anything else. |
| `Client.Controller.GetRTriggerValue` | src/main/java/com/mrcrayfish/controllable/client/Controller.java:101-104 | The right trigger raw value when above 0.05, else 0, and never anything else. |
| `Client.Controller.GetLThumbStickXValue` | src/main/java/com/mrcrayfish/controllable/client/Controller.java:111-114 | The left stick X raw value when its magnitude exceeds 0.05, else 0. No rescaling. |
| `Client.Controller.GetLThumbStickYValue` | src/main/java/com/mrcrayfish/controllable/client/Controller.java:121-124 | The left stick Y raw value when its magnitude exceeds 0.05, else 0. No rescaling. |
| `Client.Controller.GetRThumbStickXValue` | src/main/java/com/mrcrayfish/controllable/client/Controller.java:131-134 | The right stick X raw value when its magnitude exceeds 0.05, else 0. No rescaling. |
| `Client.Controller.GetRThumbStickYValue` | src/main/java/com/mrcrayfish/controllable/client/Controller.java:141-144 | The right stick Y raw value when its magnitude exceeds 0.05, else 0. No rescaling. |
| `Client.Controller.SetMapping` | src/main/java/com/mrcrayfish/controllable/client/Controller.java:151-154 | After the call the mapping is the given reference. Snapshot and latches are unchanged. |
| `Client.Controller.GetMapping` | src/main/java/com/mrcrayfish/controllable/client/Controller.java:161-165 | Returns the stored mapping reference: null until set, then the last one set. |

## Left out

- File I/O is not modelled: `File`, the streams, `IOUtils.readLines`, `PrintWriter`, the `FileNotFoundException` and the outer catch around the load. The file's contents are a parameter, and the save returns its lines.
- Logging (`LOGGER.warn`/`error`, `printStackTrace`) is left out, because it has no effect on state.
- The slider widgets are left out: `SliderPercentageOption`, the `I18n.format` display strings, `minecraft.gameSettings` and the static `Controllable.getOptions()` lookup. Only the clamp in each setter lambda is kept, acting on the store itself.
- Floating point: Java doubles and floats are not modelled; all arithmetic is on exact reals. Two float effects are therefore absent: the `0.05F` threshold, which as a float is slightly above 0.05, and DecimalFormat rounding the binary double value rather than the decimal one.
- `Decimal.ParseDouble`: accepts only plain decimal notation. The accepted form is surrounding blanks, an optional sign, then digits, or digits '.' digits, with at least one digit in all (so ".5" and "5." are accepted, as in Java). Java also accepts exponents, hexadecimal, `NaN`, `Infinity` and `d`/`f` suffixes; the model treats such values as parse failures. In Java, `NaN` would pass through `MathHelper.clamp` unchanged.
- `Decimal.FormatIn`: defined for non-negative values only, which is all the store ever holds. DecimalFormat's minus sign is not modelled.
- `Client.Controller.GetName`: the connection state and the name query are fixed fields of the index record, so a device unplugged during the handle's life is not modelled. The Jamepad library and `ControllerUnpluggedException` are abstracted to that record.
- The library's `ControllerState` is reduced to the six analog axes that the core reads. Digital buttons, rumble and raw polling are out of scope.
- The filtered accessors require a snapshot, because in Java they throw `NullPointerException` before the first update.
- `Buttons.java` is not part of this model. Its `LENGTH` is taken as 17, and nothing proved depends on the value.
- `Mappings.Entry` is not part of this model. It is an opaque class, stored and returned by reference.
- `CompoundNBT` is treated as a string map: tag types and its other operations are not modelled.

## Findings

| source | as written | input that shows it | evidently intended | confidence | as-written member | corrected member |
|---|---|---|---|---|---|---|
| src/main/java/com/mrcrayfish/controllable/client/settings/ControllerOptions.java:24 | `new DecimalFormat("0.0#")` formats with the JVM's default locale, but the load reads values back with the locale-independent `Double.parseDouble`. | Default locale de_DE, rotation speed 35.0: the save writes `rotationSpeed:35,0`. The next load cannot parse it, so the speed returns to 20.0, and the same happens to all three settings. | The saved lines should always use '.' so that a load restores them. | medium: depends on the user's locale; not executed | `Settings.CommaLocaleLosesSettings` | `Settings.SaveLoadRoundTrip` |
