/**
  The bookkeeping around stored macros: numbering and writing a finished
  recording, listing stored macros in the autonomous-mode chooser, the
  record button's start/stop toggle, and starting playback of the selected
  macro in autonomous.

  The collaborators are stand-ins with the interface the helper uses: the
  dashboard chooser (a list of (label, value) pairs and the current
  selection), the file system (a map from path to text; a directory listing
  is an input), and the macro itself (its mode and its serialised text).
 */
module MacroHelpers {
  import opened JavaLang
  import opened Text

  /** The exceptions the helper lets escape. */
  datatype JavaException =
    | FileNotFound(message: string)   // saveMacro: the macro directory cannot be listed
    | NoSuchFile(path: string)        // readFile: nothing stored at the path
    | WriteFailed(path: string)       // overwriteFile: the path cannot be written
    | NullSelection                   // autonMacro: the chooser has no selection

  /** How a call that returns nothing ended. */
  datatype Outcome = Completed | Threw(exception: JavaException)

  // ---------------------------------------------------------------------
  // Collaborators
  // ---------------------------------------------------------------------

  /** The dashboard's autonomous-mode chooser. */
  class SendableChooser {
    /** (label, value) pairs in the order they were added. */
    var options: seq<(string, string)>
    /** What getSelected() returns: the value picked on the dashboard, if any. */
    var selected: Option<string>

    constructor ()
      ensures options == [] && selected == None
    {
      options := [];
      selected := None;
    }

    method AddObject(name: string, value: string)
      modifies this
      ensures options == old(options) + [(name, value)]
      ensures selected == old(selected)
    {
      options := options + [(name, value)];
    }
  }

  /** `Files.readAllLines`: the text cut at line ends, with no empty piece after a final one. */
  function ReadAllLines(text: string): (lines: seq<string>)
    ensures forall i :: 0 <= i < |lines| ==> '\n' !in lines[i]
  {
    var pieces := Split(text, '\n');
    SplitPiecesAvoidSeparator(text, '\n');
    if pieces[|pieces| - 1] == "" then pieces[..|pieces| - 1] else pieces
  }

  lemma {:induction false} SplitPiecesAvoidSeparator(s: string, sep: char)
    ensures forall i :: 0 <= i < |Split(s, sep)| ==> sep !in Split(s, sep)[i]
    decreases |s|
  {
    if s != [] {
      SplitPiecesAvoidSeparator(s[1..], sep);
    }
  }

  /** The file system as the helper sees it. */
  class FileStore {
    /** The text stored at each path. */
    var files: map<string, string>
    /** Paths that cannot be written. */
    const readOnly: set<string>

    constructor (files: map<string, string>, readOnly: set<string>)
      ensures this.files == files && this.readOnly == readOnly
    {
      this.files := files;
      this.readOnly := readOnly;
    }

    /** `MacroHelper.readFile`: the lines of the file, or the exception for a missing one. */
    method ReadFile(path: string) returns (r: Result<seq<string>, JavaException>)
      ensures path in files ==> r == Success(ReadAllLines(files[path]))
      ensures path !in files ==> r == Failure(NoSuchFile(path))
    {
      if path in files {
        r := Success(ReadAllLines(files[path]));
      } else {
        r := Failure(NoSuchFile(path));
      }
    }

    /** `MacroHelper.overwriteFile`: create or truncate, then write. */
    method OverwriteFile(path: string, text: string) returns (outcome: Outcome)
      modifies this
      ensures path in readOnly ==> outcome == Threw(WriteFailed(path)) && files == old(files)
      ensures path !in readOnly ==> outcome == Completed && files == old(files)[path := text]
    {
      if path in readOnly {
        outcome := Threw(WriteFailed(path));
      } else {
        files := files[path := text];
        outcome := Completed;
      }
    }
  }

  datatype MacroMode = Idle | Recording | Playing

  /**
    The macro recorder/player, reduced to what the helper observes: which
    mode it is in, the sticks it serves and the text its toString gives.
   */
  class Macro {
    const ids: seq<Int32>
    var mode: MacroMode
    var text: string

    /** `new Macro(realSticks, ids)`: an empty macro, ready to record. */
    constructor Recorder(ids: seq<Int32>)
      ensures this.ids == ids && mode == Idle && text == ""
    {
      this.ids := ids;
      mode := Idle;
      text := "";
    }

    /** `new Macro(lines, realSticks, ids)`: a macro read back from its stored lines. */
    constructor Loaded(lines: seq<string>, ids: seq<Int32>)
      ensures this.ids == ids && mode == Idle && text == Unlines(lines)
    {
      this.ids := ids;
      mode := Idle;
      text := Unlines(lines);
    }

    method StartRecording()
      modifies this
      ensures mode == Recording && text == old(text)
    {
      mode := Recording;
    }

    method StopRecording()
      modifies this
      ensures mode == Idle && text == old(text)
    {
      mode := Idle;
    }

    method StartPlaying()
      modifies this
      ensures mode == Playing && text == old(text)
    {
      mode := Playing;
    }

    method IsPlaying() returns (playing: bool)
      ensures playing <==> mode == Playing
    {
      playing := mode == Playing;
    }

    method ToString() returns (s: string)
      ensures s == text
    {
      s := text;
    }
  }

  /** Lines written one after another, each ended by a newline. */
  function Unlines(lines: seq<string>): string
  {
    if lines == [] then "" else lines[0] + "\n" + Unlines(lines[1..])
  }

  /** Ending every line with a newline is joining them, and an empty last piece, with newlines. */
  lemma {:induction false} UnlinesIsJoin(lines: seq<string>)
    ensures Unlines(lines) == Join(lines + [""], '\n')
    decreases |lines|
  {
    if lines != [] {
      UnlinesIsJoin(lines[1..]);
      var q := lines + [""];
      assert q[0] == lines[0] && q[1..] == lines[1..] + [""];
    }
  }

  /**
    The lines read from a file that is empty or ends with a line break give
    back the file's text when each is written with its line break again.
   */
  lemma ReadAllLinesRoundTrip(text: string)
    requires text == [] || text[|text| - 1] == '\n'
    ensures Unlines(ReadAllLines(text)) == text
  {
    var pieces := Split(text, '\n');
    if text == [] {
      assert pieces == [""];
      assert ReadAllLines(text) == [];
    } else {
      SplitEndingInSeparator(text, '\n');
      var lines := pieces[..|pieces| - 1];
      assert ReadAllLines(text) == lines;
      assert lines + [""] == pieces;
      UnlinesIsJoin(lines);
      JoinSplit(text, '\n');
    }
  }

  // ---------------------------------------------------------------------
  // Names, tags and paths
  // ---------------------------------------------------------------------

  /** The chooser value that stands for the stored macro named `name`. */
  function MacroTag(name: string): string { "macro" + name }

  /** The label the dashboard shows for the stored macro named `name`. */
  function ChooserLabel(name: string): string { "Macro " + name }

  function ChooserEntry(name: string): (string, string) { (ChooserLabel(name), MacroTag(name)) }

  /** `tag.startsWith("macro")`: exactly the tags of stored macros pass. */
  function IsMacroTag(tag: string): (b: bool)
    ensures b ==> |tag| >= 5 && MacroTag(tag[5..]) == tag
    ensures !b ==> forall name :: MacroTag(name) != tag
  {
    |tag| >= 5 && tag[..5] == "macro"
  }

  /** `tag.substring(5)`: the stored macro's name inside its tag. */
  function NameOfTag(tag: string): (name: string)
    requires IsMacroTag(tag)
    ensures MacroTag(name) == tag
  {
    tag[5..]
  }

  /** The tag of a name always passes the prefix test and gives the name back. */
  lemma MacroTagRoundTrip(name: string)
    ensures IsMacroTag(MacroTag(name)) && NameOfTag(MacroTag(name)) == name
  {
  }

  /** Where saveMacro writes macro number `n`: directory and number concatenated. */
  function SavePath(macroDir: string, n: int): string { macroDir + Decimal(n) }

  /** One chooser entry per listed name, in listing order. */
  function ChooserEntries(names: seq<string>): (entries: seq<(string, string)>)
    ensures |entries| == |names|
    ensures forall i :: 0 <= i < |names| ==> entries[i] == ChooserEntry(names[i])
  {
    if names == [] then []
    else ChooserEntries(names[..|names| - 1]) + [ChooserEntry(names[|names| - 1])]
  }

  // ---------------------------------------------------------------------
  // What autonMacro does with the selection
  // ---------------------------------------------------------------------

  datatype AutonStep =
    | SelectionMissing        // getSelected() is null: startsWith throws
    | NotAMacro               // a built-in mode: return null
    | LoadAndPlay(path: string)  // no macro yet: read it from `path`, start it, return null
    | ReportPlaying           // a macro is running: return its isPlaying()

  /** The branch autonMacro takes for a selection, given whether a macro handle was passed in. */
  function PlanAuton(selected: Option<string>, haveMacro: bool, macroDir: string): (step: AutonStep)
    ensures step == SelectionMissing <==> selected.None?
    ensures step == NotAMacro <==> selected.Some? && !IsMacroTag(selected.value)
    ensures step.LoadAndPlay? <==> selected.Some? && IsMacroTag(selected.value) && !haveMacro
    ensures step == ReportPlaying <==> selected.Some? && IsMacroTag(selected.value) && haveMacro
    ensures step.LoadAndPlay? ==>
      selected.Some? && IsMacroTag(selected.value) && step.path == macroDir + NameOfTag(selected.value)
  {
    match selected
    case None => SelectionMissing
    case Some(tag) =>
      if !IsMacroTag(tag) then NotAMacro
      else if !haveMacro then LoadAndPlay(macroDir + NameOfTag(tag))
      else ReportPlaying
  }

  /** Selecting the entry saveMacro adds for number `n` loads the file saveMacro wrote. */
  lemma SavedEntryLoadsSavedFile(macroDir: string, n: Int32)
    ensures PlanAuton(Some(ChooserEntry(Decimal(n)).1), false, macroDir) == LoadAndPlay(SavePath(macroDir, n))
  {
  }

  /**
    Selecting the entry added for a listed name loads the directory string
    and the name concatenated, with no separator put between them.
   */
  lemma ListedEntryLoadsDirPlusName(macroDir: string, names: seq<string>, i: nat)
    requires i < |names|
    ensures PlanAuton(Some(ChooserEntries(names)[i].1), false, macroDir) == LoadAndPlay(macroDir + names[i])
  {
  }

  /** Whether a directory path already ends with the path separator. */
  predicate EndsWithSeparator(dir: string) { |dir| > 0 && dir[|dir| - 1] == '/' }

  /**
    The path of the entry `name` inside directory `dir`, as `java.io.File`
    forms it: the two joined by a separator unless `dir` already ends with one.
   */
  function ChildPath(dir: string, name: string): string
  {
    if EndsWithSeparator(dir) then dir + name else dir + "/" + name
  }

  /** `names` is a listing of directory `dir`: each listed name is a stored file inside it. */
  ghost predicate ListsDirectory(dir: string, names: seq<string>, files: map<string, string>)
  {
    forall i :: 0 <= i < |names| ==> ChildPath(dir, names[i]) in files
  }

  /** When the directory ends with a separator, selecting a listed file's entry loads that very file. */
  lemma ListedEntryLoadsListedFile(macroDir: string, names: seq<string>, files: map<string, string>, i: nat)
    requires i < |names| && EndsWithSeparator(macroDir) && ListsDirectory(macroDir, names, files)
    ensures PlanAuton(Some(ChooserEntries(names)[i].1), false, macroDir) == LoadAndPlay(ChildPath(macroDir, names[i]))
    ensures ChildPath(macroDir, names[i]) in files
  {
    ListedEntryLoadsDirPlusName(macroDir, names, i);
  }

  /**
    Without a trailing separator, the path autonMacro loads for a listed
    name and the path saveMacro writes for number `n` lie beside the
    directory, never inside it.
   */
  lemma NoSeparatorMissesListedFile(macroDir: string, name: string, n: Int32)
    requires !EndsWithSeparator(macroDir)
    ensures PlanAuton(Some(MacroTag(name)), false, macroDir) != LoadAndPlay(ChildPath(macroDir, name))
    ensures SavePath(macroDir, n) != ChildPath(macroDir, Decimal(n))
  {
    assert |ChildPath(macroDir, name)| == |macroDir + name| + 1;
    assert |ChildPath(macroDir, Decimal(n))| == |SavePath(macroDir, n)| + 1;
  }

  // ---------------------------------------------------------------------
  // Numbering a saved macro
  // ---------------------------------------------------------------------

  /**
    The position of `n` in the sequence an `int` counter starting at 0 runs
    through when incremented with wrap-around: 0, 1, …, 2^31-1, -2^31, …, -1.
   */
  function Rank(n: Int32): (k: nat)
    ensures k < 0x1_0000_0000
  {
    if n >= 0 then n else n + 0x1_0000_0000
  }

  lemma RankInjective(m: Int32, n: Int32)
    ensures Rank(m) == Rank(n) <==> m == n
  {
  }

  /** `n++` moves one step along the counter's sequence, unless `n` is its last value. */
  lemma RankOfIncrement(n: Int32)
    requires n != -1
    ensures Rank(Wrap32(n + 1)) == Rank(n) + 1
  {
  }

  /** What saveMacro's search stops at: the first number, in counter order, that names a listed file. */
  predicate IsFirstListed(names: seq<string>, n: Int32)
  {
    && Decimal(n) in names
    && forall m: Int32 :: Rank(m) < Rank(n) ==> Decimal(m) !in names
  }

  /** What the search is documented to find: the lowest number that names no listed file. */
  predicate IsLowestFree(names: seq<string>, n: nat)
  {
    && Decimal(n) !in names
    && forall m: nat :: m < n ==> Decimal(m) in names
  }

  function NotAFolderMessage(macroDir: string): string
  {
    "The directory " + macroDir + " is not a folder!"
  }

  /**
    The labelled search loop of saveMacro, as written: starting from 0, stop
    at the first number whose text equals a listed name. With no listing it
    throws. If no `int` names a listed file the source loops forever, so that
    case is excluded.
   */
  method FindFileNumber(macroDir: string, filenames: Option<seq<string>>) returns (r: Result<Int32, JavaException>)
    requires filenames.Some? ==> exists n: Int32 :: Decimal(n) in filenames.value
    ensures filenames.None? ==> r == Failure(FileNotFound(NotAFolderMessage(macroDir)))
    ensures filenames.Some? ==> r.Success? && IsFirstListed(filenames.value, r.value)
  {
    ghost var target: Int32 := 0;
    if filenames.Some? {
      target :| Decimal(target) in filenames.value;
    }
    var currentFileNumber: Int32 := 0;
    ghost var steps: nat := 0;
    while true
      invariant Rank(currentFileNumber) == steps
      invariant filenames.Some? ==> steps <= Rank(target)
      invariant filenames.Some? ==> forall m: Int32 :: Rank(m) < steps ==> Decimal(m) !in filenames.value
      decreases Rank(target) - steps
    {
      if filenames.None? {
        return Failure(FileNotFound(NotAFolderMessage(macroDir)));
      }
      var names := filenames.value;
      var j := 0;
      while j < |names|
        invariant 0 <= j <= |names|
        invariant forall i :: 0 <= i < j ==> names[i] != Decimal(currentFileNumber)
      {
        if names[j] == Decimal(currentFileNumber) {
          return Success(currentFileNumber);
        }
        j := j + 1;
      }
      RankInjective(currentFileNumber, target);
      RankOfIncrement(currentFileNumber);
      currentFileNumber := Wrap32(currentFileNumber + 1);
      steps := steps + 1;
    }
  }

  /** With the files "0", "1" and "3" present, the search as written picks 0, a name already in use. */
  lemma AsWrittenPicksExistingName(n: Int32)
    requires IsFirstListed(["0", "1", "3"], n)
    ensures n == 0
  {
    assert Decimal(0) == "0";
    RankInjective(n, 0);
  }

  /**
    A listing in which no name reads as a number, an empty directory
    among them, holds the text of no `int`: the loop as written never stops.
   */
  lemma NoNumberedFileNoStop(names: seq<string>)
    requires forall i :: 0 <= i < |names| ==> ParseDecimal(names[i]).None?
    ensures forall n: Int32 :: Decimal(n) !in names
  {
    forall n: Int32
      ensures Decimal(n) !in names
    {
      DecimalRoundTrip(n);
    }
  }

  /** With the files "0", "1" and "3" present, the lowest free number is 2. */
  lemma LowestFreeFillsGap(n: nat)
    requires IsLowestFree(["0", "1", "3"], n)
    ensures n == 2
  {
    assert Decimal(0) == "0" && Decimal(1) == "1" && Decimal(2) == "2" && Decimal(3) == "3";
  }

  /** The numbers below `k`. */
  function Below(k: nat): (s: set<nat>)
    ensures |s| == k
    ensures forall m: nat :: m in s <==> m < k
  {
    if k == 0 then {} else Below(k - 1) + {k - 1}
  }

  /** No more numbers can name listed files than there are listed names. */
  lemma {:induction false} ListedNumbersBound(names: seq<string>, nums: set<nat>)
    requires forall m :: m in nums ==> Decimal(m) in names
    ensures |nums| <= |names|
    decreases |names|
  {
    if names == [] {
      assert nums == {};
    } else {
      var rest := set m | m in nums && Decimal(m) != names[0];
      var hit := nums - rest;
      forall m | m in rest
        ensures Decimal(m) in names[1..]
      {
        assert names == [names[0]] + names[1..];
      }
      ListedNumbersBound(names[1..], rest);
      if hit != {} {
        var x :| x in hit;
        forall y | y in hit
          ensures y == x
        {
          DecimalInjective(x, y);
        }
        assert hit == {x};
      }
      assert nums == rest + hit;
    }
  }

  /** Among 0 … |names| some number names no listed file. */
  lemma FreeNumberExists(names: seq<string>)
    ensures exists n: nat :: n <= |names| && Decimal(n) !in names
  {
    if forall n: nat :: n <= |names| ==> Decimal(n) in names {
      ListedNumbersBound(names, Below(|names| + 1));
      assert false;
    }
  }

  /**
    The search as documented: keep counting until the number names no
    listed file. It always ends, at the latest at the number of listed files.
   */
  method FindFreeFileNumber(macroDir: string, filenames: Option<seq<string>>) returns (r: Result<nat, JavaException>)
    ensures filenames.None? ==> r == Failure(FileNotFound(NotAFolderMessage(macroDir)))
    ensures filenames.Some? ==> r.Success? && IsLowestFree(filenames.value, r.value) && r.value <= |filenames.value|
  {
    if filenames.None? {
      return Failure(FileNotFound(NotAFolderMessage(macroDir)));
    }
    var names := filenames.value;
    FreeNumberExists(names);
    ghost var free: nat :| free <= |names| && Decimal(free) !in names;
    var n: nat := 0;
    while Decimal(n) in names
      invariant n <= free
      invariant forall m: nat :: m < n ==> Decimal(m) in names
      decreases free - n
    {
      n := n + 1;
    }
    return Success(n);
  }

  // ---------------------------------------------------------------------
  // The helper
  // ---------------------------------------------------------------------

  class MacroHelper {
    const macroDir: string
    const autoChooser: SendableChooser
    const ids: seq<Int32>
    const store: FileStore

    constructor (macroDir: string, autoChooser: SendableChooser, ids: seq<Int32>, store: FileStore)
      ensures this.macroDir == macroDir && this.autoChooser == autoChooser
      ensures this.ids == ids && this.store == store
    {
      this.macroDir := macroDir;
      this.autoChooser := autoChooser;
      this.ids := ids;
      this.store := store;
    }

    /** Adds a chooser entry for every file in the macro directory, in listing order. */
    method AddExistingMacrosToSendableChooser(listing: Option<seq<string>>)
      modifies autoChooser
      ensures listing.Some? ==> autoChooser.options == old(autoChooser.options) + ChooserEntries(listing.value)
      ensures listing.None? ==> autoChooser.options == old(autoChooser.options)
      ensures autoChooser.selected == old(autoChooser.selected)
    {
      if listing.Some? {
        var names := listing.value;
        for k := 0 to |names|
          invariant autoChooser.options == old(autoChooser.options) + ChooserEntries(names[..k])
          invariant autoChooser.selected == old(autoChooser.selected)
        {
          autoChooser.AddObject(ChooserLabel(names[k]), MacroTag(names[k]));
          assert names[..k + 1][..k] == names[..k];
        }
        assert names[..|names|] == names;
      }
    }

    /**
      Called each autonomous tick. `handle` is the value the method's
      `currentMacro` parameter holds on exit: the new macro on the call that
      builds one. Java's caller never sees it.
     */
    method AutonMacro(currentMacro: Macro?) returns (r: Result<Option<bool>, JavaException>, handle: Macro?)
      ensures match PlanAuton(autoChooser.selected, currentMacro != null, macroDir)
        case SelectionMissing => r == Failure(NullSelection) && handle == currentMacro
        case NotAMacro => r == Success(None) && handle == currentMacro
        case ReportPlaying => currentMacro != null && r == Success(Some(currentMacro.mode == Playing)) && handle == currentMacro
        case LoadAndPlay(path) =>
          && (path !in store.files ==> r == Failure(NoSuchFile(path)) && handle == currentMacro)
          && (path in store.files ==>
                && r == Success(None)
                && handle != null && fresh(handle)
                && handle.mode == Playing && handle.ids == ids
                && handle.text == Unlines(ReadAllLines(store.files[path])))
    {
      handle := currentMacro;
      if autoChooser.selected.None? {
        return Failure(NullSelection), handle;
      }
      var chosenAuton := autoChooser.selected.value;
      if IsMacroTag(chosenAuton) {
        if currentMacro == null {
          var lines := store.ReadFile(macroDir + NameOfTag(chosenAuton));
          if lines.Failure? {
            return Failure(lines.error), handle;
          }
          var m := new Macro.Loaded(lines.value, ids);
          m.StartPlaying();
          handle := m;
        } else {
          var playing := currentMacro.IsPlaying();
          return Success(Some(playing)), handle;
        }
      }
      return Success(None), handle;
    }

    /**
      Saves a finished macro: find a number with the search as written, add
      its chooser entry, then write the macro's text to the directory joined
      with the number. `fileNumber` is the number chosen.
     */
    method SaveMacro(currentMacro: Macro, listing: Option<seq<string>>) returns (outcome: Outcome, ghost fileNumber: Int32)
      requires listing.Some? ==> exists n: Int32 :: Decimal(n) in listing.value
      modifies autoChooser, store
      ensures autoChooser.selected == old(autoChooser.selected)
      ensures listing.None? ==>
        && outcome == Threw(FileNotFound(NotAFolderMessage(macroDir)))
        && autoChooser.options == old(autoChooser.options)
        && store.files == old(store.files)
      ensures listing.Some? ==>
        && IsFirstListed(listing.value, fileNumber)
        && autoChooser.options == old(autoChooser.options) + [ChooserEntry(Decimal(fileNumber))]
        && Saved(SavePath(macroDir, fileNumber), currentMacro.text, outcome, old(store.files))
    {
      fileNumber := 0;
      var found := FindFileNumber(macroDir, listing);
      if found.Failure? {
        return Threw(found.error), fileNumber;
      }
      var currentFileNumber := found.value;
      fileNumber := currentFileNumber;
      autoChooser.AddObject(ChooserLabel(Decimal(currentFileNumber)), MacroTag(Decimal(currentFileNumber)));
      var text := currentMacro.ToString();
      outcome := store.OverwriteFile(SavePath(macroDir, currentFileNumber), text);
    }

    /** The store after an attempt to write `text` at `path`, starting from `before`. */
    ghost predicate Saved(path: string, text: string, outcome: Outcome, before: map<string, string>)
      reads store
    {
      && (path in store.readOnly ==> outcome == Threw(WriteFailed(path)) && store.files == before)
      && (path !in store.readOnly ==> outcome == Completed && store.files == before[path := text])
    }

    /**
      The record button: with no macro, create one and start recording; with
      one, stop it and save it. `handle` is what the method's `currentMacro`
      parameter holds on exit; Java's caller never sees it.
     */
    method StartOrStopMacro(currentMacro: Macro?, listing: Option<seq<string>>)
      returns (outcome: Outcome, handle: Macro?, ghost fileNumber: Int32)
      requires currentMacro != null && listing.Some? ==> exists n: Int32 :: Decimal(n) in listing.value
      modifies autoChooser, store, currentMacro
      ensures autoChooser.selected == old(autoChooser.selected)
      ensures currentMacro == null ==>
        && outcome == Completed
        && handle != null && fresh(handle)
        && handle.mode == Recording && handle.ids == ids && handle.text == ""
        && autoChooser.options == old(autoChooser.options)
        && store.files == old(store.files)
      ensures currentMacro != null ==>
        && currentMacro.mode == Idle && currentMacro.text == old(currentMacro.text)
        && (listing.None? ==>
              && outcome == Threw(FileNotFound(NotAFolderMessage(macroDir)))
              && handle == currentMacro
              && autoChooser.options == old(autoChooser.options)
              && store.files == old(store.files))
        && (listing.Some? ==>
              && IsFirstListed(listing.value, fileNumber)
              && autoChooser.options == old(autoChooser.options) + [ChooserEntry(Decimal(fileNumber))]
              && Saved(SavePath(macroDir, fileNumber), currentMacro.text, outcome, old(store.files))
              && (outcome == Completed ==> handle == null)
              && (outcome != Completed ==> handle == currentMacro))
    {
      fileNumber := 0;
      handle := currentMacro;
      if currentMacro == null {
        var m := new Macro.Recorder(ids);
        m.StartRecording();
        handle := m;
        outcome := Completed;
      } else {
        currentMacro.StopRecording();
        outcome, fileNumber := SaveMacro(currentMacro, listing);
        if outcome == Completed {
          handle := null;
        }
      }
    }

    /** The value selected in the chooser, null if none. */
    method GetSelectedAuton() returns (selected: Option<string>)
      ensures selected == autoChooser.selected
    {
      selected := autoChooser.selected;
    }

    /** Offers a built-in autonomous mode under its own name. */
    method AddAutonMode(name: string)
      modifies autoChooser
      ensures autoChooser.options == old(autoChooser.options) + [(name, name)]
      ensures autoChooser.selected == old(autoChooser.selected)
    {
      autoChooser.AddObject(name, name);
    }
  }

  // ---------------------------------------------------------------------
  // The record button pressed twice
  // ---------------------------------------------------------------------

  /**
    Two presses of the record button by a caller that passes its own handle,
    as Java does: the reassignment inside startOrStopMacro never reaches it,
    so the handle is still null on the second press, which starts a second
    recording instead of stopping and saving the first. Nothing is written.
   */
  method PressRecordTwiceAsWritten(helper: MacroHelper, listing: Option<seq<string>>)
    returns (first: Macro?, second: Macro?)
    modifies helper.autoChooser, helper.store
    ensures first != null && second != null && first != second
    ensures first.mode == Recording && second.mode == Recording
    ensures helper.store.files == old(helper.store.files)
    ensures helper.autoChooser.options == old(helper.autoChooser.options)
  {
    var currentMacro: Macro? := null;
    var outcome; ghost var fileNumber;
    outcome, first, fileNumber := helper.StartOrStopMacro(currentMacro, listing);
    outcome, second, fileNumber := helper.StartOrStopMacro(currentMacro, listing);
  }

  /**
    The same two presses with the handle passed back to the caller: the
    second press stops the recording the first one started and saves it
    under the number the search picks.
   */
  method PressRecordTwice(helper: MacroHelper, listing: Option<seq<string>>)
    returns (recorded: Macro, outcome: Outcome, ghost fileNumber: Int32)
    requires listing.Some? ==> exists n: Int32 :: Decimal(n) in listing.value
    modifies helper.autoChooser, helper.store
    ensures fresh(recorded) && recorded.mode == Idle
    ensures listing.Some? ==>
      && IsFirstListed(listing.value, fileNumber)
      && helper.autoChooser.options == old(helper.autoChooser.options) + [ChooserEntry(Decimal(fileNumber))]
      && helper.Saved(SavePath(helper.macroDir, fileNumber), recorded.text, outcome, old(helper.store.files))
  {
    var currentMacro: Macro? := null;
    outcome, currentMacro, fileNumber := helper.StartOrStopMacro(currentMacro, listing);
    recorded := currentMacro;
    outcome, currentMacro, fileNumber := helper.StartOrStopMacro(currentMacro, listing);
  }

  // ---------------------------------------------------------------------
  // Two autonomous ticks with a stored macro selected
  // ---------------------------------------------------------------------

  /**
    Two autonomous ticks by a caller that passes its own handle, as Java
    does: the macro autonMacro builds never reaches it, so each tick loads
    and starts a fresh macro and neither reports whether one is playing.
   */
  method AutonTwiceAsWritten(helper: MacroHelper)
    returns (first: Macro?, second: Macro?, r1: Result<Option<bool>, JavaException>, r2: Result<Option<bool>, JavaException>)
    requires helper.autoChooser.selected.Some? && IsMacroTag(helper.autoChooser.selected.value)
    requires helper.macroDir + NameOfTag(helper.autoChooser.selected.value) in helper.store.files
    ensures first != null && second != null && first != second
    ensures first.mode == Playing && second.mode == Playing
    ensures r1 == Success(None) && r2 == Success(None)
  {
    var currentMacro: Macro? := null;
    r1, first := helper.AutonMacro(currentMacro);
    r2, second := helper.AutonMacro(currentMacro);
  }

  /**
    The same two ticks with the handle passed back to the caller: the
    second tick finds the macro the first one started and reports that it
    is playing.
   */
  method AutonTwice(helper: MacroHelper)
    returns (playing: Macro, r1: Result<Option<bool>, JavaException>, r2: Result<Option<bool>, JavaException>)
    requires helper.autoChooser.selected.Some? && IsMacroTag(helper.autoChooser.selected.value)
    requires helper.macroDir + NameOfTag(helper.autoChooser.selected.value) in helper.store.files
    ensures fresh(playing) && playing.mode == Playing
    ensures r1 == Success(None) && r2 == Success(Some(true))
  {
    var currentMacro: Macro? := null;
    r1, currentMacro := helper.AutonMacro(currentMacro);
    playing := currentMacro;
    r2, currentMacro := helper.AutonMacro(currentMacro);
  }
}
