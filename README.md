# FRC-Macro: joystick events and macro bookkeeping, in Dafny

FRC-Macro records a driver's joystick session as a time-stamped list of
events and plays it back as an autonomous routine. This project models two
parts of it and proves properties of them.

- **`JoystickEvent`** (`JoystickEvents.dfy`) is the immutable value for one
  joystick change. It has a type (press, release, axis, POV), a stick id, a
  button/axis id (the POV position also goes in this slot), an optional
  boxed `Double` value and a `long` time stamp. The model covers the four
  constructors, the kind-dependent accessors `getID`/`getPOVValue`, the
  one-line text form written by `toString`, the `equals(JoystickEvent)`
  overload and `hashCode`. `ParseLine` is a reader written for this model.
  It splits a line at `:` and `,` and is proved to recover every field that
  `toString` writes.
- **`MacroHelper`** (`MacroHelpers.dfy`) does the bookkeeping around stored
  macros:
  - `saveMacro` picks a file number, adds a chooser entry and writes the file;
  - `addExistingMacrosToSendableChooser` lists stored macros in the chooser;
  - `autonMacro` dispatches on the selected tag;
  - `startOrStopMacro` is the record button's toggle;
  - `getSelectedAuton` and `addAutonMode` read and extend the chooser.

  The classes it works with have stand-ins exposing only what the helper uses:
  - `SendableChooser`: its (label, value) pairs and its selection;
  - `FileStore`: the file system, a map from path to text with a set of
    read-only paths;
  - `Macro`: its mode, its stick ids and the text its `toString` gives.

  A directory listing (`File.listFiles`) is an input of type
  `Option<seq<string>>`. `None` stands for Java's `null`.

`JavaLang.dfy` holds the Java parts the code depends on: nullable values, the
32-bit and 64-bit integer ranges, `int` wrap-around, and the decimal text of
integers with a reader that inverts it. `Text.dfy` holds `Split`/`Join`.

Java's `int` arithmetic is written out with `Wrap32`. This applies to
`hashCode` and to the `currentFileNumber++` counter in `saveMacro`. The
counter runs 0, 1, …, 2^31−1, −2^31, …, −1. `Rank` gives a number's position
in that run.

### Where the code differs from what its design leads one to expect

The model follows the code in each case:

- `equals` compares the time stamp. `hashCode` ignores it. So two presses
  of the same button at different times hash alike but are not equal
  (`TimeSeparatesEqualsNotHash`). Equal events still hash alike
  (`EqualsImpliesSameHash`).
- Only an `AXIS` event writes a value field. The POV position is written in
  the id slot. For an `AXIS` event that was built without a value, the
  field is the text `null`.
- `getID` is null for a POV event, and `getPOVValue` is null for any other
  event. Both return the same `id` field.
- `saveMacro`'s search stops at the first number that *does* name a listed
  file. Its comment says it looks for one that does not (see Findings).
- The chooser entries come from listing the directory `macroDir`. But
  `saveMacro` writes, and `autonMacro` reads, the plain concatenation
  `macroDir + name`, with no separator in between. That is a file inside
  the directory only when `macroDir` ends with '/'
  (`ListedEntryLoadsListedFile`). Otherwise it is a file beside the
  directory (`NoSeparatorMissesListedFile`). The example robot passes
  "/home/lvuser/macros" (src/FRCMacro/ExampleMacroRobot.java:24). Saving
  and loading still agree with each other, because both use the same
  concatenation (`SavedEntryLoadsSavedFile`).

## Model

| member | source | states |
|---|---|---|
| `JavaLang.Wrap32` | src/FRCMacro/JoystickEvent.java:185 | Java `int` arithmetic: the result is the 32-bit value congruent to the exact one modulo 2^32, and equals it when it fits |
| `JavaLang.Decimal` | src/FRCMacro/MacroHelper.java:124 | `String.valueOf(int)` and integer concatenation: a minus sign exactly for negative numbers, followed only by digits |
| `JavaLang.DecimalRoundTrip` | src/FRCMacro/JoystickEvent.java:138 | the decimal text Java writes for an integer reads back as that integer |
| `JavaLang.DecimalInjective` | src/FRCMacro/MacroHelper.java:124 | two numbers have the same decimal text exactly when they are equal, so a file name matches at most one counter value |
| `Text.SplitJoin` | src/FRCMacro/JoystickEvent.java:132-136 | splitting at a separator undoes joining with it when no piece contains it: the text form "can be easily split" |
| `JoystickEvents.JoystickEvent.GetID` | src/FRCMacro/JoystickEvent.java:114-116 | non-null exactly when the event is not POV, and then it is the id field |
| `JoystickEvents.JoystickEvent.GetPOVValue` | src/FRCMacro/JoystickEvent.java:121-123 | non-null exactly when the event is POV, and then it is the id field (the POV position travels in `id`) |
| `JoystickEvents.ExactlyOneAccessor` | src/FRCMacro/JoystickEvent.java:111-123 | exactly one of getID and getPOVValue is non-null; it is the one the type selects and it returns `id` |
| `JoystickEvents.NewEvent` | src/FRCMacro/JoystickEvent.java:35-40 | type, stick and time (the clock reading) are as given, there is no value, and the accessor the type selects returns the button id |
| `JoystickEvents.NewValueEvent` | src/FRCMacro/JoystickEvent.java:50-56 | type, stick and time are as given, getVal returns the value, and the selected accessor returns the axis id |
| `JoystickEvents.NewTimedEvent` | src/FRCMacro/JoystickEvent.java:66-71 | the given time is stored unchanged, there is no value, and the other accessors return the arguments |
| `JoystickEvents.NewTimedValueEvent` | src/FRCMacro/JoystickEvent.java:82-88 | the given time and value are stored unchanged and the other accessors return the arguments |
| `JoystickEvents.JoystickEvent.ToString` | src/FRCMacro/JoystickEvent.java:137-154 | the line starts with the time stamp and ':' and ends with a newline; `ParseToString` reads every field of it back |
| `JoystickEvents.TypeTag` | src/FRCMacro/JoystickEvent.java:139-152 | the word written for each type is non-empty and holds no ':', ',' or line break; `TypeTagRoundTrip` reads it back |
| `JoystickEvents.ValueText` | src/FRCMacro/JoystickEvent.java:153 | `String.valueOf` of a missing value is "null"; when the double's text holds no separator, neither does the value's |
| `JoystickEvents.JoystickEvent.Equals` | src/FRCMacro/JoystickEvent.java:175-177 | true exactly when the argument is non-null and agrees on stick, id, time, type and value (both null or equal), i.e. is the same event value |
| `JoystickEvents.EqualsNullAndSelf` | src/FRCMacro/JoystickEvent.java:176 | equals is false for null and true for the event itself |
| `JoystickEvents.DoubleEquals` | src/FRCMacro/JoystickEvent.java:176 | `Double.equals` holds exactly for a non-null Double with the same bit image |
| `JoystickEvents.DoubleHashCode` | src/FRCMacro/JoystickEvent.java:185 | `Double.hashCode`: the two halves of the bit image xor-ed, narrowed to a signed `int` |
| `JoystickEvents.JoystickEvent.HashCode` | src/FRCMacro/JoystickEvent.java:183-186 | the result is `((type*31 + stickId)*31 + id)*31 + valueHash` computed exactly and wrapped once to 32 bits: overflow at each step changes nothing |
| `JoystickEvents.HashSteps` | src/FRCMacro/JoystickEvent.java:185 | wrapping after every multiply and add gives the exact value wrapped once |
| `JoystickEvents.HashIgnoresTime` | src/FRCMacro/JoystickEvent.java:183-186 | changing only the time stamp does not change hashCode |
| `JoystickEvents.EqualsImpliesSameHash` | src/FRCMacro/JoystickEvent.java:175-186 | events that are equal have equal hash codes, whatever hash the enum constants get |
| `JoystickEvents.TimeSeparatesEqualsNotHash` | src/FRCMacro/JoystickEvent.java:176 | an event and a copy with another time stamp hash alike but are not equal |
| `JoystickEvents.TypeOfTag` | src/FRCMacro/JoystickEvent.java:139-152 | a word read as an event type is that type's tag |
| `JoystickEvents.TypeTagRoundTrip` | src/FRCMacro/JoystickEvent.java:139-152 | every type's tag ("press", "release", "axis", "POV") reads back as that type |
| `JoystickEvents.TypeTagInjective` | src/FRCMacro/JoystickEvent.java:139-152 | two types have the same tag exactly when they are the same type |
| `JoystickEvents.ToStringShape` | src/FRCMacro/JoystickEvent.java:137-154 | the line is the time, ':', then the fields tag, stick, id, (value for AXIS only) and an empty one joined by ',', then a newline |
| `JoystickEvents.ParseLine` | src/FRCMacro/JoystickEvent.java:132-136 | a line that reads back carries value text exactly when its type is AXIS |
| `JoystickEvents.ParseToString` | src/FRCMacro/JoystickEvent.java:137-154 | reading back `toString`'s line recovers time, type, stick and id, plus the value text for AXIS and nothing for the other types |
| `JoystickEvents.SameLineSameFields` | src/FRCMacro/JoystickEvent.java:137-154 | two events with the same line agree on time, type, stick and id |
| `MacroHelpers.ReadAllLines` | src/FRCMacro/MacroHelper.java:93 | the lines read from a file contain no line break; `ReadAllLinesRoundTrip` gives their content |
| `MacroHelpers.ReadAllLinesRoundTrip` | src/FRCMacro/MacroHelper.java:92-95 | for a file that is empty or ends with a line break, the lines read, each written again with its line break, are the file's text |
| `MacroHelpers.FileStore.ReadFile` | src/FRCMacro/MacroHelper.java:92-95 | a stored file gives its lines; a missing one gives the I/O exception |
| `MacroHelpers.FileStore.OverwriteFile` | src/FRCMacro/MacroHelper.java:104-107 | a writable path then holds exactly the text and no other path changes; an unwritable one throws and nothing changes |
| `MacroHelpers.SendableChooser.AddObject` | src/FRCMacro/MacroHelper.java:130 | appends one (label, value) pair and leaves the selection alone |
| `MacroHelpers.Macro.Recorder` | src/FRCMacro/MacroHelper.java:142 | `new Macro(realSticks, ids)`: an idle macro for the given sticks with nothing recorded |
| `MacroHelpers.Macro.Loaded` | src/FRCMacro/MacroHelper.java:76 | `new Macro(lines, realSticks, ids)`: an idle macro for the given sticks whose text is the lines, each ended by a line break |
| `MacroHelpers.Macro.StartRecording` | src/FRCMacro/MacroHelper.java:144 | the macro is recording afterwards |
| `MacroHelpers.Macro.StopRecording` | src/FRCMacro/MacroHelper.java:147 | the macro is idle afterwards and keeps its text |
| `MacroHelpers.Macro.StartPlaying` | src/FRCMacro/MacroHelper.java:77 | the macro is playing afterwards |
| `MacroHelpers.Macro.IsPlaying` | src/FRCMacro/MacroHelper.java:80 | true exactly when the macro is playing |
| `MacroHelpers.Macro.ToString` | src/FRCMacro/MacroHelper.java:132 | the text that is written to the macro's file |
| `MacroHelpers.IsMacroTag` | src/FRCMacro/MacroHelper.java:73 | `startsWith("macro")` holds exactly for the tags `"macro"+name`, and then the rest of the tag is the name |
| `MacroHelpers.NameOfTag` | src/FRCMacro/MacroHelper.java:76 | `substring(5)` of a tag that starts with "macro" is the name whose tag it is |
| `MacroHelpers.MacroTagRoundTrip` | src/FRCMacro/MacroHelper.java:73-76 | the tag `"macro"+name` passes the prefix test, and `substring(5)` gives back the name |
| `MacroHelpers.ChooserEntries` | src/FRCMacro/MacroHelper.java:61-62 | one entry `("Macro "+name, "macro"+name)` per listed name, in listing order |
| `MacroHelpers.MacroHelper.AddExistingMacrosToSendableChooser` | src/FRCMacro/MacroHelper.java:58-63 | appends one entry per listed file in listing order; appends nothing when the listing is null; leaves the selection alone |
| `MacroHelpers.ListedEntryLoadsDirPlusName` | src/FRCMacro/MacroHelper.java:58-63 | selecting a listed file's entry, with no macro yet, makes autonMacro load the string `macroDir + name`, with no separator added |
| `MacroHelpers.ListedEntryLoadsListedFile` | src/FRCMacro/MacroHelper.java:59-62 | when `macroDir` ends with '/' and the listing is of that directory, selecting a listed file's entry loads that very file, and it exists |
| `MacroHelpers.NoSeparatorMissesListedFile` | src/FRCMacro/MacroHelper.java:76 | when `macroDir` does not end with '/', the path autonMacro loads for a listed name and the path saveMacro writes for a number are never the listed file inside the directory |
| `MacroHelpers.PlanAuton` | src/FRCMacro/MacroHelper.java:72-82 | no selection: the selection test throws; a tag without the "macro" prefix: built-in mode; a macro tag with no macro: load and play `macroDir + substring(5)`; with a macro: report whether it plays |
| `MacroHelpers.MacroHelper.AutonMacro` | src/FRCMacro/MacroHelper.java:71-83 | returns null for a non-macro tag and on the call that builds and starts a macro, `isPlaying()` only for an existing macro under a macro tag; throws for a missing selection or file; the built macro is fresh, playing, and holds the file's lines |
| `MacroHelpers.RankOfIncrement` | src/FRCMacro/MacroHelper.java:127 | `currentFileNumber++` moves one step along the counter's wrap-around run |
| `MacroHelpers.FindFileNumber` | src/FRCMacro/MacroHelper.java:116-129 | a null listing throws FileNotFoundException; otherwise the result names a listed file and no number earlier in the counter's run does |
| `MacroHelpers.AsWrittenPicksExistingName` | src/FRCMacro/MacroHelper.java:117-129 | with files "0", "1", "3" the search as written returns 0, a name already in use |
| `MacroHelpers.NoNumberedFileNoStop` | src/FRCMacro/MacroHelper.java:117-129 | when no listed name reads as a number (an empty directory, say), no `int` names a listed file, so the search as written never stops |
| `MacroHelpers.FreeNumberExists` | src/FRCMacro/MacroHelper.java:120 | some number up to the count of listed files names no listed file |
| `MacroHelpers.FindFreeFileNumber` | src/FRCMacro/MacroHelper.java:120 | the search as its comment describes it: the lowest number naming no listed file, at most the number of files; a null listing throws |
| `MacroHelpers.LowestFreeFillsGap` | src/FRCMacro/MacroHelper.java:120 | with files "0", "1", "3" the lowest free number is 2 |
| `MacroHelpers.MacroHelper.SaveMacro` | src/FRCMacro/MacroHelper.java:115-133 | a null listing throws before anything is added or written; otherwise exactly one entry `("Macro "+n, "macro"+n)` is added for the number the search picks, and the macro's text overwrites `macroDir + n` |
| `MacroHelpers.SavedEntryLoadsSavedFile` | src/FRCMacro/MacroHelper.java:130-132 | selecting the entry saveMacro adds for n, with no macro yet, loads exactly the path saveMacro wrote for n |
| `MacroHelpers.MacroHelper.StartOrStopMacro` | src/FRCMacro/MacroHelper.java:140-152 | with no macro: a fresh macro starts recording and nothing is added or saved; with one: it is stopped and then saved as by saveMacro |
| `MacroHelpers.PressRecordTwiceAsWritten` | src/FRCMacro/MacroHelper.java:140-152 | a caller that keeps its own handle, as Java's callers do, starts two recordings and saves nothing |
| `MacroHelpers.PressRecordTwice` | src/FRCMacro/MacroHelper.java:140-152 | when the new handle is passed back, the second press saves the recording the first press started |
| `MacroHelpers.AutonTwiceAsWritten` | src/FRCMacro/MacroHelper.java:71-83 | a caller that keeps its own null handle, as Java's callers do, gets a fresh macro loaded and started on every tick and never a report of whether it plays |
| `MacroHelpers.AutonTwice` | src/FRCMacro/MacroHelper.java:71-83 | when the new handle is passed back, the second tick reports that the macro the first one started is playing |
| `MacroHelpers.MacroHelper.GetSelectedAuton` | src/FRCMacro/MacroHelper.java:159-161 | the chooser's current selection |
| `MacroHelpers.MacroHelper.AddAutonMode` | src/FRCMacro/MacroHelper.java:168-170 | appends the entry (name, name) and nothing else |
| `MacroHelpers.MacroHelper.constructor` | src/FRCMacro/MacroHelper.java:43-48 | stores the directory, the chooser and the stick ids |

## Findings

| source | as written | input that shows it | evidently intended | confidence | as-written member | corrected member |
|---|---|---|---|---|---|---|
| src/FRCMacro/MacroHelper.java:117-129 | the numbering loop stops at the first number that names an existing file (`break getFileNumber` on a match), and saving then overwrites that file | a directory holding "0", "1", "3": the number chosen is 0, so the text goes to `macroDir + "0"`, which is the listed macro "0" when `macroDir` ends with '/' | the lowest number that names no file ("keep going until a file with the given name doesn't exist"), here 2 | high; not executed | `MacroHelpers.FindFileNumber`, `MacroHelpers.AsWrittenPicksExistingName` | `MacroHelpers.FindFreeFileNumber`, `MacroHelpers.LowestFreeFillsGap` |
| src/FRCMacro/MacroHelper.java:140-152 | `startOrStopMacro` puts the new macro in its own parameter (and nulls it after saving), which Java's caller never sees | a caller whose handle is null presses the record button twice: two recordings are started and nothing is saved | the caller's handle follows the toggle, so the second press stops and saves the recording | high; not executed | `MacroHelpers.PressRecordTwiceAsWritten` | `MacroHelpers.PressRecordTwice` (its handle is the `handle` out-value of `MacroHelpers.MacroHelper.StartOrStopMacro`) |
| src/FRCMacro/MacroHelper.java:117-129 | the numbering loop only ends when some number's text is a listed name | an empty macro directory on the first save: no number matches and the loop runs forever | stop at the first free number, which always exists | high; not executed | `MacroHelpers.NoNumberedFileNoStop` (the case `MacroHelpers.FindFileNumber` must exclude) | `MacroHelpers.FindFreeFileNumber`, which needs no such condition, with `MacroHelpers.FreeNumberExists` |
| src/FRCMacro/MacroHelper.java:71-83 | `autonMacro` puts the macro it builds in its own parameter, which Java's caller never sees | a caller whose handle is null, with a stored macro selected, runs two autonomous ticks: each tick loads and starts a new macro, and `isPlaying()` is never returned | the caller's handle keeps the started macro, so later ticks report whether it is still playing | high; not executed | `MacroHelpers.AutonTwiceAsWritten` | `MacroHelpers.AutonTwice` (its handle is the `handle` out-value of `MacroHelpers.MacroHelper.AutonMacro`) |

`MacroHelper.SaveMacro` keeps the search as written, because it models the
source method. `FindFreeFileNumber` is the search the comment describes,
proved to find the lowest free number. It always ends. `AutonMacro` and
`StartOrStopMacro` return the macro they build as `handle`. This is what
lets the corrected callers pass it back.

## Left out

- `toReadableString` and its date formatter: it only produces log text.
- The clock: the two constructors without a time stamp read
  `System.currentTimeMillis()`, which is the parameter `now`.
- Floating point: a `Double` is represented by its `doubleToLongBits` image.
  This is all that `Double.equals` and `Double.hashCode` use. The text
  `String.valueOf(double)` gives is the parameter `show`. The round trip
  needs that text to hold no ':', ',' or line break.
- The identity hash of the enum constants is the parameter `typeHash`.
  Lemmas about `hashCode` hold for every choice of it.
- Real file I/O: `File.listFiles` is an input, and files live in the
  `FileStore` map. `readAllLines` treats only '\n' as a line end, not "\r\n"
  or '\r'.
- MacroHelpers.FindFileNumber: requires that some `int`'s decimal text is a
  listed name. With no such name the source loops forever, and a Dafny
  method must terminate. `NoNumberedFileNoStop` shows when this happens (see
  Findings). `SaveMacro` and `StartOrStopMacro` carry the same condition.
- The `Macro` class and `simulatedJoystick` are not part of this model. The
  model leaves out event diffing, recording-time rebasing, playback timing,
  the parsing done by the macro's constructor and the exceptions it may
  throw, and `Macro.length()` (used only for logging). `Macro` keeps only
  its mode, its stick ids and the text `toString` writes. How recording
  fills that text is not modelled. A loaded macro's text is taken to be its
  lines, each followed by a newline.
- MacroHelpers.Macro.IsPlaying: reports only the mode. Playback ending
  once the recorded duration has elapsed happens inside `Macro`.
- The `Joystick` objects passed to `MacroHelper` and `Macro`, the unused
  `lastPress` field, and the `debug` flag, which only switches logging.
- `SmartDashboard.putData` and all console output.
- `ExampleMacroRobot`: WPILib robot glue, configuration parsing with
  floating point, and motor shutdown. Its handler table is a `HashMap`
  keyed by `JoystickEvent`. Because `equals(JoystickEvent)` is an overload
  and not an override of `equals(Object)`, that map compares keys by
  identity. This is library behaviour and is not modelled.
