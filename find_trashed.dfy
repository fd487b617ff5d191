/** The search run of the fourth MyEverything front end
    (`MyEverything/MyEverything.py.trashed.by.claude.py`): a worker thread
    runs the shell line and puts what it read on a queue; the window drains
    the queue, inserting result rows as they arrive and closing the search
    on the first `complete` or `hard_error` item. */
module FindTrashed {
  import opened Strings
  import opened FindArgs
  import FindShell

  /** The queue items: `('result', path)`, `('error_output', text)`,
      `('complete', returncode)`, `('hard_error', message)` and
      `('cancelled', None)`. */
  datatype Item = Result(path: string) | ErrorOutput(text: string) | Complete(returnCode: int)
                | HardError(message: string) | Cancelled

  /** How the worker's `bash` run ended: with its output, error text and
      return code, or with an exception. */
  datatype WorkerEnd = Exited(stdout: string, stderr: string, returnCode: int) | Raised(message: string)

  function ResultItems(paths: seq<string>): (r: seq<Item>)
    ensures |r| == |paths|
  {
    if |paths| == 0 then [] else [Result(paths[0])] + ResultItems(paths[1..])
  }

  /** The result paths: the output stripped, split at newlines, each line
      stripped and the blank ones dropped. */
  function OutputPaths(stdout: string): seq<string> {
    Kept(SplitOn(Strip(stdout), '\n'))
  }

  /** Everything one worker puts on the queue, in order. */
  function WorkerItems(e: WorkerEnd): seq<Item> {
    match e
    case Exited(out, err, rc) => ExitItems(OutputPaths(out), err, rc)
    case Raised(m) => [HardError("Subprocess execution failed: " + m)]
  }

  /** The items of a `bash` run that exited: its results, its error text
      when there is any, and its return code. */
  function ExitItems(paths: seq<string>, err: string, rc: int): seq<Item> {
    ResultItems(paths) + (if err != "" then [ErrorOutput(err)] else []) + [Complete(rc)]
  }

  /** What the window shows and keeps between queue items. */
  datatype View = View(rows: seq<Row>, resultCount: nat, status: string, tempStderr: string,
                       searchProcess: bool, searchThread: bool)

  /** The table is striped from the top and the count is its length. */
  predicate Consistent(v: View) {
    Striped(v.rows) && v.resultCount == |v.rows|
  }

  function ProgressStatus(n: nat): string {
    "Searching... " + NatToString(n) + " results"
  }

  /** `_insert_result(path)`: an empty path is ignored; any other becomes
      the next row, and every tenth row the status shows the count. */
  function Insert(v: View, path: string): View {
    if path == "" then v
    else
      var n := v.resultCount + 1;
      v.(rows := v.rows + [RowOf(path, v.resultCount)], resultCount := n,
         status := if n % 10 == 0 then ProgressStatus(n) else v.status)
  }

  /** The status `_finalize_search` leaves: a non-empty error first, then
      error text or a non-zero return code, then the result count. */
  function FinalStatus(error: string, tempStderr: string, returnCode: Option<int>, count: nat): string {
    if error != "" then "Search FAILED: " + error
    else if tempStderr != "" || (returnCode.Some? && returnCode.value != 0) then
      "Completed with " + NatToString(count) + " results. Errors occurred (see stderr box)."
    else if count == 0 then "Search complete. NO RESULTS FOUND."
    else "Search complete. Found " + NatToString(count) + " results."
  }

  function Finalize(v: View, error: string, returnCode: Option<int>): View {
    v.(searchProcess := false, searchThread := false,
       status := FinalStatus(error, v.tempStderr, returnCode, v.resultCount), tempStderr := "")
  }

  /** One pass of `_process_stream_output` over the queue: the view it
      leaves and the items still queued. `complete` and `hard_error` close
      the search and end the pass; `cancelled` is taken off and ignored. */
  function Drain(v: View, q: seq<Item>): (View, seq<Item>)
    decreases |q|
  {
    if |q| == 0 then (v, [])
    else match q[0]
      case Result(p) => Drain(Insert(v, p), q[1..])
      case ErrorOutput(t) => Drain(v.(tempStderr := t), q[1..])
      case Complete(rc) => (Finalize(v, "", Some(rc)), q[1..])
      case HardError(m) => (Finalize(v, m, None), q[1..])
      case Cancelled => Drain(v, q[1..])
  }

  class SearchPanel {
    var searchProcess: bool   // `search_process` is set
    var searchThread: bool    // `search_thread` is set
    var process: bool         // the worker's `process` is set
    var preview: string       // the command preview line
    var status: string
    var tempStderr: string
    var rows: seq<Row>        // the results table
    var resultCount: nat
    var queue: seq<Item>      // `output_queue`

    function Shown(): View
      reads this
    {
      View(rows, resultCount, status, tempStderr, searchProcess, searchThread)
    }

    constructor ()
      ensures Shown() == View([], 0, "Ready.", "", false, false) && !process && queue == [] && preview == ""
    {
      searchProcess := false;
      searchThread := false;
      process := false;
      preview := "";
      status := "Ready.";
      tempStderr := "";
      rows := [];
      resultCount := 0;
      queue := [];
    }

    /** `_preview_find`. */
    method PreviewFind(f: FindShell.Form, otherText: string)
      modifies this`preview, this`status
      ensures preview == JoinSpace(FindShell.Parts(f, otherText)) && status == "Preview updated."
    {
      var cmd := FindShell.BuildFindCommand(f, otherText);
      preview := cmd;
      status := "Preview updated.";
    }

    /** `_clear_results`. */
    method ClearResults()
      modifies this`rows, this`resultCount
      ensures rows == [] && resultCount == 0
    {
      rows := [];
      resultCount := 0;
    }

    /** `_start_search` up to the worker: refused while a process or a
        thread is set; otherwise the preview shows the command, the status
        says the search runs, the error text and the table are emptied and
        the thread is set. */
    method StartSearch(f: FindShell.Form, otherText: string) returns (started: bool)
      modifies this`preview, this`status, this`tempStderr, this`rows, this`resultCount, this`searchThread
      ensures started <==> !old(searchProcess) && !old(searchThread)
      ensures !started ==> preview == old(preview) && status == old(status) && tempStderr == old(tempStderr)
      ensures !started ==> rows == old(rows) && resultCount == old(resultCount) && searchThread == old(searchThread)
      ensures started ==> preview == JoinSpace(FindShell.Parts(f, otherText)) && status == "Searching..."
      ensures started ==> tempStderr == "" && rows == [] && resultCount == 0 && searchThread
    {
      started := !searchProcess && !searchThread;
      if started {
        var cmd := FindShell.BuildFindCommand(f, otherText);
        BeginSearch(cmd);
      }
    }

    /** The rest of `_start_search` once the command line is built. */
    method BeginSearch(cmd: string)
      modifies this`preview, this`status, this`tempStderr, this`rows, this`resultCount, this`searchThread
      ensures preview == cmd && status == "Searching..."
      ensures tempStderr == "" && rows == [] && resultCount == 0 && searchThread
    {
      preview := cmd;
      status := "Searching...";
      tempStderr := "";
      ClearResults();
      searchThread := true;
    }

    /** The worker has started `bash` on the command. */
    method ProcessStarted()
      modifies this`process
      ensures process
    {
      process := true;
    }

    /** `_execute_search_threaded` after `bash` ended: its items go on the
        queue and the worker's process is cleared. */
    method RunWorker(e: WorkerEnd)
      modifies this`queue, this`process
      ensures queue == old(queue) + WorkerItems(e) && !process
    {
      queue := queue + WorkerItems(e);
      process := false;
    }

    /** `_cancel_search`: a process that has not exited is terminated and a
        `cancelled` item is queued. */
    method CancelSearch(exited: bool)
      modifies this`queue
      ensures queue == old(queue) + (if process && !exited then [Cancelled] else [])
    {
      if process && !exited {
        queue := queue + [Cancelled];
      } else {
        AppendEmpty(queue);
      }
    }

    /** `_insert_result(path)`. */
    method InsertResult(path: string)
      modifies this`rows, this`resultCount, this`status
      ensures Shown() == Insert(old(Shown()), path)
    {
      if path == "" {
        return;
      }
      var split := SplitPath(path);
      var folder, name := split.0, split.1;
      var tag := TagFor(resultCount);
      rows := rows + [Row(name, folder, tag)];
      resultCount := resultCount + 1;
      if resultCount % 10 == 0 {
        status := "Searching... " + NatToString(resultCount) + " results";
      }
    }

    /** `_finalize_search(error, return_code)`. */
    method FinalizeSearch(error: string, returnCode: Option<int>)
      modifies this`searchProcess, this`searchThread, this`status, this`tempStderr
      ensures Shown() == Finalize(old(Shown()), error, returnCode)
    {
      searchProcess := false;
      searchThread := false;
      var count := resultCount;
      if error != "" {
        status := "Search FAILED: " + error;
      } else if tempStderr != "" || (returnCode.Some? && returnCode.value != 0) {
        status := "Completed with " + NatToString(count) + " results. Errors occurred (see stderr box).";
      } else if count == 0 {
        status := "Search complete. NO RESULTS FOUND.";
      } else {
        status := "Search complete. Found " + NatToString(count) + " results.";
      }
      tempStderr := "";
    }

    /** `_process_stream_output`: takes items off the queue until it is
        empty or an item closes the search. */
    method ProcessStreamOutput()
      modifies this`rows, this`resultCount, this`status, this`tempStderr
      modifies this`searchProcess, this`searchThread, this`queue
      ensures (Shown(), queue) == Drain(old(Shown()), old(queue))
    {
      ghost var target := Drain(Shown(), queue);
      while queue != []
        invariant Drain(Shown(), queue) == target
        decreases |queue|
      {
        var item := queue[0];
        queue := queue[1..];
        match item {
          case Result(p) =>
            InsertResult(p);
          case ErrorOutput(t) =>
            tempStderr := t;
          case Complete(rc) =>
            FinalizeSearch("", Some(rc));
            return;
          case HardError(m) =>
            FinalizeSearch(m, None);
            return;
          case Cancelled =>
        }
      }
    }
  }

  // ------------------------------------------------------------ properties

  /** Inserting a path keeps the table striped and counted. */
  lemma InsertConsistent(v: View, path: string)
    requires Consistent(v)
    ensures Consistent(Insert(v, path))
    ensures |Insert(v, path).rows| == |v.rows| + (if path == "" then 0 else 1)
  {
    if path != "" {
      StripedAppend(v.rows, [path]);
      assert RowsFor([path], |v.rows|) == [RowOf(path, v.resultCount)];
    }
  }

  /** Draining the queue keeps the table striped and counted, whatever the
      queue holds. */
  lemma {:induction false} DrainConsistent(v: View, q: seq<Item>)
    requires Consistent(v)
    ensures Consistent(Drain(v, q).0)
    decreases |q|
  {
    if |q| > 0 {
      match q[0]
      case Result(p) =>
        InsertConsistent(v, p);
        DrainConsistent(Insert(v, p), q[1..]);
      case ErrorOutput(t) =>
        DrainConsistent(v.(tempStderr := t), q[1..]);
      case Complete(rc) =>
      case HardError(m) =>
      case Cancelled =>
        DrainConsistent(v, q[1..]);
    }
  }

  predicate Clean(error: string, tempStderr: string, returnCode: Option<int>) {
    error == "" && tempStderr == "" && (returnCode.None? || returnCode.value == 0)
  }

  /** The final status starts with "Search complete" exactly when there was
      no error, no error text and no non-zero return code. */
  lemma FinalStatusClean(error: string, tempStderr: string, returnCode: Option<int>, count: nat)
    ensures StartsWith(FinalStatus(error, tempStderr, returnCode, count), "Search complete")
            <==> Clean(error, tempStderr, returnCode)
  {
    var s := FinalStatus(error, tempStderr, returnCode, count);
    var p := "Search complete";
    if error != "" {
      assert s[7] == 'F' != p[7];
    } else if tempStderr != "" || (returnCode.Some? && returnCode.value != 0) {
      assert s[1] == 'o' != p[1];
    } else if count != 0 {
      var found := "Search complete. Found ";
      assert s[..|found|] == found;
    }
  }

  /** It reports no results exactly when the search was clean and the
      count is zero. */
  lemma FinalStatusEmpty(error: string, tempStderr: string, returnCode: Option<int>, count: nat)
    ensures FinalStatus(error, tempStderr, returnCode, count) == "Search complete. NO RESULTS FOUND."
            <==> Clean(error, tempStderr, returnCode) && count == 0
  {
    var s := FinalStatus(error, tempStderr, returnCode, count);
    var none := "Search complete. NO RESULTS FOUND.";
    FinalStatusClean(error, tempStderr, returnCode, count);
    assert StartsWith(none, "Search complete");
    if Clean(error, tempStderr, returnCode) && count != 0 {
      assert s[17] == 'F' != none[17];
    }
  }

  /** The paths of a worker's output are inserted one by one from the
      front: the rows and the count grow by exactly those paths. */
  function InsertAll(v: View, paths: seq<string>): View
    decreases |paths|
  {
    if |paths| == 0 then v else InsertAll(Insert(v, paths[0]), paths[1..])
  }

  lemma {:induction false} DrainResults(v: View, paths: seq<string>, rest: seq<Item>)
    ensures Drain(v, ResultItems(paths) + rest) == Drain(InsertAll(v, paths), rest)
    decreases |paths|
  {
    if |paths| > 0 {
      var q := ResultItems(paths) + rest;
      AppendAssoc([Result(paths[0])], ResultItems(paths[1..]), rest);
      ConsTail(Result(paths[0]), ResultItems(paths[1..]) + rest);
      DrainResults(Insert(v, paths[0]), paths[1..], rest);
    } else {
      assert ResultItems(paths) == [];
      AppendEmpty(rest);
    }
  }

  lemma {:induction false} InsertAllRows(v: View, paths: seq<string>)
    requires forall i :: 0 <= i < |paths| ==> paths[i] != ""
    ensures InsertAll(v, paths).rows == v.rows + RowsFor(paths, v.resultCount)
    ensures InsertAll(v, paths).resultCount == v.resultCount + |paths|
    ensures InsertAll(v, paths).tempStderr == v.tempStderr
    decreases |paths|
  {
    if |paths| == 0 {
      AppendEmpty(v.rows);
      assert RowsFor(paths, v.resultCount) == [];
    } else {
      var w := Insert(v, paths[0]);
      var r := RowOf(paths[0], v.resultCount);
      assert w.rows == v.rows + [r] && w.resultCount == v.resultCount + 1 && w.tempStderr == v.tempStderr;
      InsertAllRows(w, paths[1..]);
      RowsForCons(paths, v.resultCount);
      ConsRows(v.rows, r, RowsFor(paths[1..], v.resultCount + 1), RowsFor(paths, v.resultCount));
    }
  }

  lemma ConsRows(base: seq<Row>, r: Row, tail: seq<Row>, whole: seq<Row>)
    requires whole == [r] + tail
    ensures base + [r] + tail == base + whole
  {
  }

  lemma RowsForCons(paths: seq<string>, start: nat)
    requires |paths| > 0
    ensures RowsFor(paths, start) == [RowOf(paths[0], start)] + RowsFor(paths[1..], start + 1)
  {
    var a, b := RowsFor(paths, start), [RowOf(paths[0], start)] + RowsFor(paths[1..], start + 1);
    forall i | 0 <= i < |a| ensures a[i] == b[i] {
      if i > 0 {
        assert paths[1..][i - 1] == paths[i];
      }
    }
  }

  /** A worker whose `bash` exited, drained in one pass from view `v`:
      every non-blank output line becomes a row in order, the count grows by
      their number, the search is closed, the items queued after it stay,
      and the status follows the final ladder with the worker's error text
      (or the one already held) and its return code. */
  lemma WorkerDrain(v: View, out: string, err: string, rc: int, rest: seq<Item>)
    ensures DrainedRun(v, OutputPaths(out), err, rc, rest, Drain(v, WorkerItems(Exited(out, err, rc)) + rest))
  {
    DrainPaths(v, OutputPaths(out), err, rc, rest);
  }

  /** What one pass leaves after the items of an exited run and then
      `rest`: the result rows added in order, the count raised by their
      number, the search closed with the final ladder's status, and `rest`
      still queued. */
  predicate DrainedRun(v: View, paths: seq<string>, err: string, rc: int, rest: seq<Item>, r: (View, seq<Item>)) {
    && r.1 == rest
    && r.0.rows == v.rows + RowsFor(paths, v.resultCount)
    && r.0.resultCount == v.resultCount + |paths|
    && !r.0.searchThread && !r.0.searchProcess && r.0.tempStderr == ""
    && r.0.status == FinalStatus("", if err != "" then err else v.tempStderr, Some(rc), v.resultCount + |paths|)
  }

  /** `WorkerDrain` for any list of non-empty result paths. */
  lemma DrainPaths(v: View, paths: seq<string>, err: string, rc: int, rest: seq<Item>)
    requires forall i :: 0 <= i < |paths| ==> paths[i] != ""
    ensures DrainedRun(v, paths, err, rc, rest, Drain(v, ExitItems(paths, err, rc) + rest))
  {
    var errs: seq<Item> := if err != "" then [ErrorOutput(err)] else [];
    Regroup(ResultItems(paths), errs, [Complete(rc)], rest);
    DrainResults(v, paths, errs + ([Complete(rc)] + rest));
    InsertAllRows(v, paths);
    DrainClose(InsertAll(v, paths), err, rc, rest);
  }

  /** After the results, the worker's error text (when there is any) is
      held and its return code closes the search. */
  lemma DrainClose(u: View, err: string, rc: int, rest: seq<Item>)
    ensures Drain(u, (if err != "" then [ErrorOutput(err)] else []) + ([Complete(rc)] + rest))
      == (Finalize(if err != "" then u.(tempStderr := err) else u, "", Some(rc)), rest)
  {
    var fin := [Complete(rc)] + rest;
    ConsTail(Complete(rc), rest);
    if err != "" {
      ConsTail(ErrorOutput(err), fin);
    } else {
      AppendEmpty(fin);
    }
  }

  lemma Regroup<T>(a: seq<T>, b: seq<T>, c: seq<T>, d: seq<T>)
    ensures a + b + c + d == a + (b + (c + d))
  {
  }
}
