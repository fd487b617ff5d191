/** The search run of the third MyEverything front end
    (`MyEverything/MyEverything.py-chatgpt.py`): the preview line, the
    guard against a second search, the worker that hands `find`'s output
    lines to the results table, the stderr box and the status line. */
module FindResults {
  import opened Strings
  import opened FindArgs
  import FindShell

  /** The status line after a finished search: the number of output lines,
      whether or not every line became a row. */
  function FinishedStatus(lineCount: nat): string {
    "Finished — " + NatToString(lineCount) + " results"
  }

  class ResultsPanel {
    var searchRunning: bool   // `search_process` is set
    var preview: string       // the command preview line
    var status: string
    var stderrText: string    // the stderr box
    var rows: seq<Row>        // the results table
    var resultCount: nat

    /** The table is striped from the top and the count is its length. */
    ghost predicate Valid()
      reads this
    {
      Striped(rows) && resultCount == |rows|
    }

    constructor ()
      ensures !searchRunning && status == "Ready." && preview == "" && stderrText == ""
      ensures rows == [] && resultCount == 0
      ensures Valid()
    {
      searchRunning := false;
      status := "Ready.";
      preview := "";
      stderrText := "";
      rows := [];
      resultCount := 0;
    }

    /** `_preview_find`: shows the command line without running it. */
    method PreviewFind(f: FindShell.Form, otherText: string)
      modifies this`preview, this`status
      ensures preview == JoinSpace(FindShell.Parts(f, otherText)) && status == "Preview updated."
    {
      var cmd := FindShell.BuildFindCommand(f, otherText);
      preview := cmd;
      status := "Preview updated.";
    }

    /** `_clear_results`. */
    method ClearResults()
      modifies this`rows, this`resultCount
      ensures rows == [] && resultCount == 0
      ensures Valid()
    {
      rows := [];
      resultCount := 0;
    }

    /** `_append_stderr`: the text and a newline go at the end of the box. */
    method AppendStderr(text: string)
      modifies this`stderrText
      ensures stderrText == old(stderrText) + text + "\n"
    {
      stderrText := stderrText + text + "\n";
    }

    /** `_start_search` up to the worker: refused while a process is set;
        otherwise the preview shows the command, the stderr box and the
        table are emptied and the status says the search runs. */
    method StartSearch(f: FindShell.Form, otherText: string) returns (started: bool)
      modifies this`preview, this`status, this`stderrText, this`rows, this`resultCount
      ensures started <==> !old(searchRunning)
      ensures !started ==> preview == old(preview) && status == old(status) && stderrText == old(stderrText)
      ensures !started ==> rows == old(rows) && resultCount == old(resultCount)
      ensures started ==> preview == JoinSpace(FindShell.Parts(f, otherText)) && status == "Running..."
      ensures started ==> stderrText == "" && rows == [] && resultCount == 0
    {
      started := !searchRunning;
      if started {
        var cmd := FindShell.BuildFindCommand(f, otherText);
        BeginSearch(cmd);
      }
    }

    /** The rest of `_start_search` once the command line is built. */
    method BeginSearch(cmd: string)
      modifies this`preview, this`status, this`stderrText, this`rows, this`resultCount
      ensures preview == cmd && status == "Running..."
      ensures stderrText == "" && rows == [] && resultCount == 0
    {
      preview := cmd;
      status := "Running...";
      stderrText := "";
      ClearResults();
    }

    /** The worker has started `bash` on the command. */
    method ProcessStarted()
      modifies this`searchRunning
      ensures searchRunning
    {
      searchRunning := true;
    }

    /** `_populate_results`: each output line is stripped, a blank one is
        skipped, and any other becomes the next row, striped by the count. */
    method PopulateResults(lines: seq<string>)
      modifies this`rows, this`resultCount
      ensures rows == old(rows) + RowsFor(Kept(lines), old(resultCount))
      ensures resultCount == old(resultCount) + |Kept(lines)|
      ensures old(Valid()) ==> Valid()
    {
      for i := 0 to |lines|
        invariant rows == old(rows) + RowsFor(Kept(lines[..i]), old(resultCount))
        invariant resultCount == old(resultCount) + |Kept(lines[..i])|
      {
        KeptSnoc(lines, i);
        var path := Strip(lines[i]);
        if path == "" {
          assert KeptLine(lines[i]) == [];
          AppendEmpty(Kept(lines[..i]));
          continue;
        }
        var split := SplitPath(path);
        var folder, name := split.0, split.1;
        var tag := TagFor(resultCount);
        ghost var done, n := Kept(lines[..i]), resultCount;
        assert Kept(lines[..i + 1]) == done + [path];
        assert Row(name, folder, tag) == RowOf(path, n);
        RowsForSnoc(done, path, old(resultCount), n);
        SnocStep(rows, old(rows), RowsFor(done, old(resultCount)), RowsFor(done + [path], old(resultCount)), RowOf(path, n));
        rows := rows + [Row(name, folder, tag)];
        resultCount := resultCount + 1;
      }
      assert lines[..|lines|] == lines;
      if old(Valid()) {
        StripedAppend(old(rows), Kept(lines));
      }
    }

    /** The worker's normal end: the process is cleared, the error text
        (when there is any) goes to the stderr box, the lines of the output
        (`out.splitlines()`, none when the output is empty) go to the table,
        and the status counts the lines. */
    method SearchFinished(lines: seq<string>, err: string)
      modifies this`searchRunning, this`stderrText, this`rows, this`resultCount, this`status
      ensures !searchRunning
      ensures stderrText == old(stderrText) + (if err != "" then err + "\n" else "")
      ensures rows == old(rows) + RowsFor(Kept(lines), old(resultCount))
      ensures resultCount == old(resultCount) + |Kept(lines)|
      ensures status == FinishedStatus(|lines|)
      ensures old(Valid()) ==> Valid()
    {
      searchRunning := false;
      if err != "" {
        AppendStderr(err);
      } else {
        AppendEmpty(stderrText);
      }
      if lines != [] {
        PopulateResults(lines);
        status := "Finished — " + NatToString(|lines|) + " results";
      } else {
        ghost var r := rows;
        AppendEmpty(r);
        status := "Finished — 0 results";
        assert NatToString(0) == "0";
      }
    }

    /** The worker's exception path: the message goes to the stderr box and
        the status says `Error`. */
    method SearchFailed(message: string)
      modifies this`stderrText, this`status
      ensures stderrText == old(stderrText) + message + "\n" && status == "Error"
    {
      AppendStderr(message);
      status := "Error";
    }

    /** `_cancel_search`: a process that has not exited is terminated;
        `terminateError` is the exception `terminate()` raises, if any,
        whose text goes to the stderr box instead. With no such process,
        the status says so. */
    method CancelSearch(exited: bool, terminateError: Option<string>)
      modifies this`status, this`stderrText
      ensures searchRunning && !exited && terminateError.None? ==>
        status == "Cancelled" && stderrText == old(stderrText)
      ensures searchRunning && !exited && terminateError.Some? ==>
        status == old(status) && stderrText == old(stderrText) + terminateError.value + "\n"
      ensures !(searchRunning && !exited) ==>
        status == "No running search to cancel" && stderrText == old(stderrText)
    {
      if searchRunning && !exited {
        if terminateError.Some? {
          AppendStderr(terminateError.value);
        } else {
          status := "Cancelled";
        }
      } else {
        status := "No running search to cancel";
      }
    }
  }

  lemma SnocStep<T>(s: seq<T>, base: seq<T>, prev: seq<T>, next: seq<T>, x: T)
    requires s == base + prev && next == prev + [x]
    ensures s + [x] == base + next
  {
  }

  /** The count in the finished status equals the number of rows the
      search added exactly when no output line was blank. */
  lemma FinishedCount(lines: seq<string>)
    ensures |Kept(lines)| <= |lines|
    ensures FinishedStatus(|Kept(lines)|) == FinishedStatus(|lines|) <==> NoBlank(lines)
  {
    KeptAll(lines);
    if FinishedStatus(|Kept(lines)|) == FinishedStatus(|lines|) {
      FinishedStatusCounts(|Kept(lines)|, |lines|);
    }
  }

  /** Different counts give different status lines. */
  lemma FinishedStatusCounts(m: nat, n: nat)
    requires FinishedStatus(m) == FinishedStatus(n)
    ensures m == n
  {
    var p := "Finished — ";
    var a, b := NatToString(m), NatToString(n);
    assert |a| == |b|;
    assert a == FinishedStatus(m)[|p|..|p| + |a|];
    assert b == FinishedStatus(n)[|p|..|p| + |b|];
    DigitsValueOfNatToString(m);
    DigitsValueOfNatToString(n);
  }
}
