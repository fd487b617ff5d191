/** The second MyEverything front end (`MyEverything/MyEverything.py`). The
    tests come from one table, `FIND_FILTERS`, and the form adds free
    "other arguments": a pipe among them turns the command into one shell
    line, otherwise the argument list is run without a shell. The window's
    mutable state (shell mode, error box, status bar, running flags) is the
    class `FinderWindow`. */
module FindFilters {
  import opened Strings
  import opened FindArgs
  import Shlex

  datatype Form = Form(
    startPath: string,
    searchName: string,
    caseInsensitive: bool,
    fileType: string,
    sizeVal: string,
    mtimeVal: string,
    atimeVal: string,
    ctimeVal: string,
    otherArgs: string)

  /** `FIND_FILTERS`: the table's tests, in table order. */
  const FilterFlags: seq<Flag> := [Type, Size, MTime, ATime, CTime]

  /** The form's value for each table row, in the same order. */
  function FilterValues(f: Form): (r: seq<string>)
    ensures |r| == |FilterFlags|
  {
    [f.fileType, f.sizeVal, f.mtimeVal, f.atimeVal, f.ctimeVal]
  }

  /** Each value stripped. */
  function StripAll(vals: seq<string>): (r: seq<string>)
    ensures |r| == |vals| && forall i :: 0 <= i < |vals| ==> r[i] == Strip(vals[i])
  {
    seq(|vals|, i requires 0 <= i < |vals| => Strip(vals[i]))
  }

  /** The pairs the table loop adds for its first `n` rows, given the
      stripped values: one per row whose value is not blank. */
  function FilterOpts(flags: seq<Flag>, vals: seq<string>, n: nat): seq<Opt>
    requires n <= |flags| && n <= |vals|
  {
    if n == 0 then []
    else FilterOpts(flags, vals, n - 1) + OptIf(vals[n - 1] != "", flags[n - 1], vals[n - 1])
  }

  /** The name test, added only when a name is typed (the raw text, not stripped). */
  function NameOpts(f: Form): seq<Opt> {
    OptIf(f.searchName != "", NameFlag(f.caseInsensitive), f.searchName)
  }

  function OptionsOf(f: Form): seq<Opt> {
    NameOpts(f) + FilterOpts(FilterFlags, StripAll(FilterValues(f)), |FilterFlags|)
  }

  /** The list built before the other arguments are looked at. */
  function FindPart(f: Form): seq<string> {
    ["find", f.startPath] + Flatten(OptionsOf(f))
  }

  function Other(f: Form): string {
    Strip(f.otherArgs)
  }

  /** `'|' in other_args_val`. */
  predicate UsesShell(f: Form) {
    Contains(Other(f), "|")
  }

  /** An action among the other arguments (as a substring) replaces `-print`. */
  predicate HasAction(other: string) {
    Contains(other, "-exec") || Contains(other, "-delete") || Contains(other, "-ok") || Contains(other, "-print0")
  }

  /** The other arguments as list items. `parsed` is what `shlex.split`
      makes of them (`None` for its `ValueError`); on failure the list
      falls back to `str.split()`. */
  function Extra(other: string, parsed: Option<seq<string>>): seq<string> {
    if other == "" then []
    else match parsed
      case Some(ws) => ws
      case None => Words(other)
  }

  function PrintPart(other: string): seq<string> {
    if HasAction(other) then [] else ["-print"]
  }

  /** The list as evidently intended: `find`, the start path, the tests,
      the other arguments, then `-print` unless they name an action. */
  function IntendedListCommand(f: Form, parsed: Option<seq<string>>): seq<string> {
    FindPart(f) + Extra(Other(f), parsed) + PrintPart(Other(f))
  }

  /** The list handed to the process in list mode, as the code builds it:
      the start path in position 1 is then passed through `shlex.quote`. */
  function ListCommand(f: Form, parsed: Option<seq<string>>): seq<string> {
    IntendedListCommand(f, parsed)[1 := Shlex.Quote(f.startPath)]
  }

  /** The line handed to the shell in shell mode: every item of the list
      quoted, then the other arguments as typed. */
  function ShellCommand(f: Form): string {
    JoinSpace(Shlex.QuoteAll(FindPart(f))) + " " + Other(f)
  }

  datatype Command = ShellLine(line: string) | ArgList(args: seq<string>)

  /** The command line shown in the window: a list is shown quoted and
      joined, a shell line as it is. */
  function Display(c: Command): string {
    match c
    case ShellLine(line) => line
    case ArgList(args) => JoinSpace(Shlex.QuoteAll(args))
  }

  const ShlexWarning: string := "Warning: shlex failed to parse 'Other Arguments'. Using simple split."

  /** The error box's heading after `_log_error(message, is_exception)`. */
  function ErrorLabel(message: string, isException: bool): string {
    if message == "" then "Command Errors (stderr):"
    else if isException then "Command Errors (Python Exception) - FOUND:"
    else "Command Errors (stderr) - FOUND:"
  }

  datatype Status = Status(text: string, color: string)

  /** The status bar `_finalize_search` leaves, from its arguments (`""`
      for an absent message, colour or error), the stderr collected and
      the number of rows in the results. */
  function FinalStatus(statusMessage: string, color: string, error: string, tempStderr: string,
                       returnCode: Option<int>, count: nat): Status
  {
    if statusMessage != "" then Status(statusMessage, if color != "" then color else "black")
    else if error != "" then Status("Search FAILED: " + error, "red")
    else if tempStderr != "" || (returnCode.Some? && returnCode.value != 0) then
      Status("Completed with " + IntToString(count) + " results. NOTE: Errors occurred (see error box).", "red")
    else if count == 0 then Status("Search complete. NO RESULTS FOUND.", "orange")
    else Status("Search complete. Found " + IntToString(count) + " results.", "green")
  }

  /** What `_finalize_search` writes to the error box, and whether as an exception. */
  function FinalLog(statusMessage: string, error: string, tempStderr: string, returnCode: Option<int>): Option<(string, bool)> {
    if statusMessage != "" then None
    else if error != "" then Some((error, true))
    else if tempStderr != "" then Some((tempStderr, false))
    else if returnCode.Some? && returnCode.value != 0 then
      Some(("Process exited with non-zero code: " + IntToString(returnCode.value), false))
    else None
  }

  /** The first half of `_build_find_command`: `find`, the start path, the
      name test when a name is typed, then one pair per `FIND_FILTERS` row
      whose stripped value is not blank. */
  method BuildFindPart(f: Form) returns (command: seq<string>)
    ensures command == FindPart(f)
  {
    command := ["find", f.startPath];
    ghost var head := command;
    AddMaybe(head, [], command, f.searchName != "", NameFlag(f.caseInsensitive), f.searchName);
    if f.searchName != "" {
      var searchArg := if f.caseInsensitive then "-iname" else "-name";
      command := command + [searchArg, f.searchName];
    }
    ghost var vals := StripAll(FilterValues(f));
    AppendEmpty(NameOpts(f));
    var raw := FilterValues(f);
    for i := 0 to |FilterFlags|
      invariant command == head + Flatten(NameOpts(f) + FilterOpts(FilterFlags, vals, i))
    {
      var val := Strip(raw[i]);
      assert vals[i] == val;
      ghost var opts := NameOpts(f) + FilterOpts(FilterFlags, vals, i);
      AddMaybe(head, opts, command, val != "", FilterFlags[i], val);
      if val != "" {
        command := command + [Text(FilterFlags[i]), val];
      }
      FilterStep(NameOpts(f), vals, i);
    }
  }

  /** One more table row extends the options by that row's pair, if any. */
  lemma FilterStep(name: seq<Opt>, vals: seq<string>, i: nat)
    requires i < |FilterFlags| && |vals| == |FilterFlags|
    ensures name + FilterOpts(FilterFlags, vals, i + 1)
         == (name + FilterOpts(FilterFlags, vals, i)) + OptIf(vals[i] != "", FilterFlags[i], vals[i])
  {
    AppendAssoc(name, FilterOpts(FilterFlags, vals, i), OptIf(vals[i] != "", FilterFlags[i], vals[i]));
  }

  class FinderWindow {
    var useShell: bool
    var errorText: string
    var errorLabel: string
    var status: string
    var statusColor: string
    var running: bool
    var process: bool       // a subprocess is held
    var searchThread: bool  // a reader thread is held
    var tempStderr: string
    var rowCount: nat       // rows in the results tree

    /** `__init__` and `_create_widgets`: list mode, no process or thread,
        an empty error box under its plain heading, an empty table and the
        status `Ready.`. */
    constructor ()
      ensures !useShell && !running && !process && !searchThread && tempStderr == ""
      ensures errorText == "" && errorLabel == ErrorLabel("", false)
      ensures status == "Ready." && rowCount == 0
    {
      useShell := false;
      running := false;
      process := false;
      searchThread := false;
      tempStderr := "";
      errorText := "";
      errorLabel := "Command Errors (stderr):";
      status := "Ready.";
      statusColor := "black";
      rowCount := 0;
    }

    /** `_log_error`: the box shows the message, the heading says what kind it is. */
    method LogError(message: string, isException: bool)
      modifies this`errorText, this`errorLabel
      ensures errorText == message && errorLabel == ErrorLabel(message, isException)
    {
      errorText := message;
      if message == "" {
        errorLabel := "Command Errors (stderr):";
        return;
      }
      errorLabel := if isException then "Command Errors (Python Exception) - FOUND:" else "Command Errors (stderr) - FOUND:";
    }

    /** `_build_find_command`. */
    method BuildFindCommand(f: Form, parsed: Option<seq<string>>) returns (cmd: Command)
      modifies this`useShell, this`errorText, this`errorLabel
      ensures useShell == UsesShell(f)
      ensures useShell ==> cmd == ShellLine(ShellCommand(f))
      ensures !useShell ==> cmd == ArgList(ListCommand(f, parsed))
      ensures if !useShell && Other(f) != "" && parsed.None?
              then errorText == ShlexWarning && errorLabel == ErrorLabel(ShlexWarning, false)
              else errorText == old(errorText) && errorLabel == old(errorLabel)
    {
      var command := BuildFindPart(f);
      var other := Strip(f.otherArgs);
      useShell := Contains(other, "|");
      assert useShell == UsesShell(f);
      if useShell {
        var quoted := Shlex.QuoteAll(command);
        return ShellLine(JoinSpace(quoted) + " " + other);
      }
      ghost var base := command;
      if other != "" {
        if parsed.Some? {
          command := command + parsed.value;
        } else {
          LogError(ShlexWarning, false);
          command := command + Words(other);
        }
      } else {
        AppendEmpty(command);
      }
      assert command == base + Extra(other, parsed);
      ghost var withExtra := command;
      if !HasAction(other) {
        command := command + ["-print"];
      } else {
        AppendEmpty(command);
      }
      assert command == withExtra + PrintPart(other);
      Second(base, Extra(other, parsed), PrintPart(other));
      if command[1] == f.startPath {
        command := command[1 := Shlex.Quote(command[1])];
      }
      return ArgList(command);
    }

    /** `_finalize_search`: the search is over whatever happened; the status
        bar and the error box report how it ended, and the collected stderr
        is cleared. */
    method FinalizeSearch(error: string, statusMessage: string, color: string, returnCode: Option<int>)
      modifies this`running, this`process, this`searchThread, this`status, this`statusColor
      modifies this`errorText, this`errorLabel, this`tempStderr
      ensures !running && !process && !searchThread && tempStderr == ""
      ensures Status(status, statusColor) == FinalStatus(statusMessage, color, error, old(tempStderr), returnCode, rowCount)
      ensures match FinalLog(statusMessage, error, old(tempStderr), returnCode)
              case None => errorText == old(errorText) && errorLabel == old(errorLabel)
              case Some(log) => errorText == log.0 && errorLabel == ErrorLabel(log.0, log.1)
    {
      ghost var want := FinalStatus(statusMessage, color, error, tempStderr, returnCode, rowCount);
      ghost var log := FinalLog(statusMessage, error, tempStderr, returnCode);
      running := false;
      process := false;
      searchThread := false;
      var count := rowCount;
      if statusMessage != "" {
        status, statusColor := statusMessage, if color != "" then color else "black";
      } else if error != "" {
        LogError(error, true);
        status, statusColor := "Search FAILED: " + error, "red";
      } else if tempStderr != "" || (returnCode.Some? && returnCode.value != 0) {
        var message := if tempStderr != "" then tempStderr else "Process exited with non-zero code: " + IntToString(returnCode.value);
        LogError(message, false);
        status, statusColor := "Completed with " + IntToString(count) + " results. NOTE: Errors occurred (see error box).", "red";
      } else if count == 0 {
        status, statusColor := "Search complete. NO RESULTS FOUND.", "orange";
      } else {
        status, statusColor := "Search complete. Found " + IntToString(count) + " results.", "green";
      }
      tempStderr := "";
    }
  }

  // ------------------------------------------------------------ properties

  /** No test occurs twice in the table. */
  predicate Distinct(flags: seq<Flag>) {
    forall i, j :: 0 <= i < j < |flags| ==> flags[i] != flags[j]
  }

  lemma Second<T>(base: seq<T>, a: seq<T>, b: seq<T>)
    requires |base| >= 2
    ensures (base + a + b)[1] == base[1]
  {
  }

  /** The table names each test once, and no name test. */
  lemma TableFacts()
    ensures Distinct(FilterFlags) && IName !in FilterFlags && Name !in FilterFlags
  {
    forall i, j | 0 <= i < j < |FilterFlags| ensures FilterFlags[i] != FilterFlags[j] {
      assert FilterFlags[i].Type? ==> i == 0;
    }
  }

  /** Row `k` of the table adds its test, with the stripped value, exactly
      when that value is not blank and the loop has reached it. */
  lemma {:induction false} FilterLookup(flags: seq<Flag>, vals: seq<string>, n: nat, k: nat)
    requires n <= |flags| == |vals| && k < |flags| && Distinct(flags)
    ensures Lookup(FilterOpts(flags, vals, n), flags[k]) == if k < n && vals[k] != "" then Some(vals[k]) else None
    ensures Count(FilterOpts(flags, vals, n), flags[k]) == if k < n && vals[k] != "" then 1 else 0
    decreases n
  {
    if n > 0 {
      var v := vals[n - 1];
      var init, last := FilterOpts(flags, vals, n - 1), OptIf(v != "", flags[n - 1], v);
      assert FilterOpts(flags, vals, n) == init + last;
      FilterLookup(flags, vals, n - 1, k);
      OptIfLookup(v != "", flags[n - 1], v, flags[k]);
      LookupAppend(init, last, flags[k]);
      CountAppend(init, last, flags[k]);
      var c := Count(FilterOpts(flags, vals, n), flags[k]);
      assert c == Count(init, flags[k]) + Count(last, flags[k]);
      if k != n - 1 {
        assert flags[n - 1] != flags[k];
        assert Count(last, flags[k]) == 0 && Lookup(last, flags[k]).None?;
      } else {
        assert Count(init, flags[k]) == 0 && Lookup(init, flags[k]).None?;
      }
    }
  }

  /** A test outside the table is never added by the loop. */
  lemma {:induction false} FilterAbsent(flags: seq<Flag>, vals: seq<string>, n: nat, g: Flag)
    requires n <= |flags| && n <= |vals| && g !in flags
    ensures NoPair(FilterOpts(flags, vals, n), g)
    decreases n
  {
    if n > 0 {
      FilterAbsent(flags, vals, n - 1, g);
      assert flags[n - 1] in flags;
      AbsentStep(FilterOpts(flags, vals, n - 1), vals[n - 1], flags[n - 1], g);
    }
  }

  /** No pair of `os` carries the test `g`. */
  predicate NoPair(os: seq<Opt>, g: Flag) {
    Lookup(os, g).None? && Count(os, g) == 0
  }

  /** A row for another test adds no pair for `g`. */
  lemma AbsentStep(init: seq<Opt>, v: string, h: Flag, g: Flag)
    requires h != g && NoPair(init, g)
    ensures NoPair(init + OptIf(v != "", h, v), g)
  {
    OptIfLookup(v != "", h, v, g);
    LookupAppend(init, OptIf(v != "", h, v), g);
    CountAppend(init, OptIf(v != "", h, v), g);
  }

  /** What the list asks of `find`: a name test exactly when a name is
      typed (`-iname` when matching ignores case) with the name as typed;
      and for each table row, its test once with the stripped value exactly
      when that value is not blank, independently of the other rows, so
      the three time tests may all be present. */
  lemma OptionsSpec(f: Form)
    ensures var os := OptionsOf(f);
      && Count(os, IName) + Count(os, Name) == (if f.searchName != "" then 1 else 0)
      && Lookup(os, NameFlag(f.caseInsensitive)) == (if f.searchName != "" then Some(f.searchName) else None)
    ensures var os := OptionsOf(f); var vals := StripAll(FilterValues(f));
      forall k :: 0 <= k < |FilterFlags| ==>
        && Lookup(os, FilterFlags[k]) == (if vals[k] != "" then Some(vals[k]) else None)
        && Count(os, FilterFlags[k]) == (if vals[k] != "" then 1 else 0)
  {
    var vals := StripAll(FilterValues(f));
    var n, fo := NameOpts(f), FilterOpts(FilterFlags, vals, |FilterFlags|);
    TableFacts();
    FilterAbsent(FilterFlags, vals, |FilterFlags|, IName);
    FilterAbsent(FilterFlags, vals, |FilterFlags|, Name);
    LookupAppend(n, fo, NameFlag(f.caseInsensitive));
    CountAppend(n, fo, IName);
    CountAppend(n, fo, Name);
    forall k | 0 <= k < |FilterFlags|
      ensures Lookup(n + fo, FilterFlags[k]) == (if vals[k] != "" then Some(vals[k]) else None)
      ensures Count(n + fo, FilterFlags[k]) == (if vals[k] != "" then 1 else 0)
    {
      FilterLookup(FilterFlags, vals, |FilterFlags|, k);
      assert FilterFlags[k] in FilterFlags;
      LookupAppend(n, fo, FilterFlags[k]);
      CountAppend(n, fo, FilterFlags[k]);
    }
  }

  /** In shell mode the shell reads the quoted list as exactly the list
      built, then goes on reading the other arguments as typed. */
  lemma ShellLineReadsBack(f: Form)
    ensures Shlex.Lex(ShellCommand(f), [], None) == Shlex.Lex(Other(f), FindPart(f), None)
  {
    var vs := FindPart(f);
    var ts := Shlex.QuoteAll(vs);
    forall i | 0 <= i < |ts| ensures Shlex.Reads(ts[i], vs[i]) {
      Shlex.QuoteReads(vs[i]);
    }
    Shlex.JoinReadsThen(ts, vs, Other(f), []);
    assert [] + vs == vs;
  }

  /** In list mode the list is `find`, the (quoted) start path, the pairs,
      which read back as the tests, the other arguments unchanged and in
      order, and `-print` last exactly when they name no action. */
  lemma ListLayout(f: Form, parsed: Option<seq<string>>)
    ensures var c := ListCommand(f, parsed); var e := Extra(Other(f), parsed);
      && c == ["find", Shlex.Quote(f.startPath)] + Flatten(OptionsOf(f)) + e + PrintPart(Other(f))
      && Unflatten(Flatten(OptionsOf(f))) == Some(OptionsOf(f))
      && (HasAction(Other(f)) ==> |c| == 2 + |Flatten(OptionsOf(f))| + |e|)
      && (!HasAction(Other(f)) ==> |c| == 3 + |Flatten(OptionsOf(f))| + |e| && c[|c| - 1] == "-print")
  {
    var fl, e, pr := Flatten(OptionsOf(f)), Extra(Other(f), parsed), PrintPart(Other(f));
    Regroup(["find", f.startPath], fl, e, pr);
    Regroup(["find", Shlex.Quote(f.startPath)], fl, e, pr);
    SetSecond("find", f.startPath, Shlex.Quote(f.startPath), fl + e + pr);
    UnflattenFlatten(OptionsOf(f));
  }

  lemma Regroup<T>(h: seq<T>, a: seq<T>, b: seq<T>, c: seq<T>)
    ensures h + a + b + c == h + (a + b + c)
  {
  }

  lemma SetSecond<T>(x: T, y: T, q: T, rest: seq<T>)
    ensures ([x, y] + rest)[1 := q] == [x, q] + rest
  {
  }

  /** The other arguments, when `shlex.split` accepts them, are passed as
      it splits them; when it refuses them, as `str.split()` does, each a
      non-blank word. */
  lemma ExtraSpec(f: Form, parsed: Option<seq<string>>)
    ensures Other(f) == "" ==> Extra(Other(f), parsed) == []
    ensures Other(f) != "" && parsed.Some? ==> Extra(Other(f), parsed) == parsed.value
    ensures Other(f) != "" && parsed.None? ==>
      forall k :: 0 <= k < |Extra(Other(f), parsed)| ==> IsWord(Extra(Other(f), parsed)[k])
  {
    WordsAreWords(Other(f));
  }

  /** The intended list starts the search at the path typed; the list
      built hands `find` that path only when it is a word `shlex.quote`
      leaves alone: any other path (one with a space, or the empty path)
      arrives with quote characters around it. */
  lemma ListStartPath(f: Form, parsed: Option<seq<string>>)
    ensures IntendedListCommand(f, parsed)[1] == f.startPath
    ensures ListCommand(f, parsed)[1] == f.startPath <==> Shlex.SafeWord(f.startPath)
  {
    Second(FindPart(f), Extra(Other(f), parsed), PrintPart(Other(f)));
    Shlex.QuoteIdentity(f.startPath);
  }

  /** The command shown for a list reads back, in the shell, as exactly the
      list run. */
  lemma DisplayReadsBack(args: seq<string>)
    ensures Shlex.ShellWords(Display(ArgList(args))) == Some(args)
  {
    Shlex.QuotedJoinReads(args);
  }

  /** How a search ends, as the three callers of `_finalize_search` pass it:
      cancelled by the user, a failure to run (with its message), or the
      process finishing with its exit code. */
  datatype Ending = Cancelled | HardError(message: string) | Completed(returnCode: int)

  function EndingStatus(e: Ending, tempStderr: string, count: nat): Status {
    match e
    case Cancelled => FinalStatus("Search CANCELLED by user.", "blue", "", tempStderr, None, count)
    case HardError(m) => FinalStatus("", "", m, tempStderr, None, count)
    case Completed(rc) => FinalStatus("", "", "", tempStderr, Some(rc), count)
  }

  /** The status colour tells how the search ended: green only for a clean
      exit with results, orange for a clean exit without, red for a failure
      or for any stderr or non-zero exit, blue for a cancel. Errors are
      never reported as success. */
  lemma EndingColors(e: Ending, tempStderr: string, count: nat)
    requires e.HardError? ==> e.message != ""
    ensures var s := EndingStatus(e, tempStderr, count);
      && (s.color == "green" <==> e.Completed? && e.returnCode == 0 && tempStderr == "" && count > 0)
      && (s.color == "orange" <==> e.Completed? && e.returnCode == 0 && tempStderr == "" && count == 0)
      && (s.color == "red" <==> e.HardError? || (e.Completed? && (e.returnCode != 0 || tempStderr != "")))
      && (s.color == "blue" <==> e.Cancelled?)
  {
  }

  /** Something is written to the error box exactly when the search failed
      or the process reported an error; a cancel leaves the box alone. */
  lemma EndingLog(e: Ending, tempStderr: string)
    requires e.HardError? ==> e.message != ""
    ensures var log := match e
        case Cancelled => FinalLog("Search CANCELLED by user.", "", tempStderr, None)
        case HardError(m) => FinalLog("", m, tempStderr, None)
        case Completed(rc) => FinalLog("", "", tempStderr, Some(rc));
      && (log.Some? <==> e.HardError? || (e.Completed? && (e.returnCode != 0 || tempStderr != "")))
      && (e.HardError? ==> log == Some((e.message, true)))
      && (e.Completed? && tempStderr != "" ==> log == Some((tempStderr, false)))
  {
  }
}
