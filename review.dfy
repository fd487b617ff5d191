/** The review step: each pending summary is shown and the user approves,
    edits, re-categorises, skips it or quits; the approved records go to the
    approved file for the apply step. The terminal is a sequence of input
    lines; running out of lines is the EOF error `input()` raises. */
module Review {
  import opened Strings
  import opened DmsState
  import opened Summarize

  datatype Verdict = Approve | Skip | Quit

  /** How one prompt cycle ends: the verdict, the record as edited, and the
      input lines not yet read. */
  datatype Decision = Decision(verdict: Verdict, record: SummaryRecord, rest: seq<string>)

  /** The choice typed at the prompt: stripped and lower-cased, a bare
      Enter meaning approve. */
  function Choice(line: string): (c: string)
    ensures c != ""
    ensures Strip(line) == "" ==> c == "a"
  {
    var c := Lower(Strip(line));
    if c == "" then "a" else c
  }

  /** The choices the prompt acts on; anything else re-prompts. */
  predicate KnownChoice(c: string) {
    c == "a" || c == "e" || c == "c" || c == "s" || c == "q"
  }

  /** `r` is `s` with at most its summary and category replaced. */
  predicate Edited(r: SummaryRecord, s: SummaryRecord) {
    r == s.(summary := r.summary, category := r.category)
  }

  /** `approve_summary` over the lines typed: `None` when the input ends
      before a decision. */
  function Decide(rec: SummaryRecord, input: seq<string>): Option<Decision>
    decreases |input|
  {
    if |input| == 0 then None
    else
      var c := Choice(input[0]);
      if c == "a" then Some(Decision(Approve, rec, input[1..]))
      else if c == "e" || c == "c" then
        if |input| < 2 then None
        else
          var text := Strip(input[1]);
          var edited := if text == "" then rec else if c == "e" then rec.(summary := text) else rec.(category := text);
          Some(Decision(Approve, edited, input[2..]))
      else if c == "s" then Some(Decision(Skip, rec, input[1..]))
      else if c == "q" then Some(Decision(Quit, rec, input[1..]))
      else
        Decide(rec, input[1..])
  }

  /** A decision consumes at least one line and leaves the rest of the input
      unread; only the summary and the category can change, and only on
      approval. */
  lemma {:induction false} DecideSpec(rec: SummaryRecord, input: seq<string>)
    ensures var d := Decide(rec, input);
      d.Some? ==> (|d.value.rest| < |input| && IsSuffix(d.value.rest, input)
                   && Edited(d.value.record, rec)
                   && (d.value.verdict != Approve ==> d.value.record == rec))
    decreases |input|
  {
    if |input| == 0 {
    } else if KnownChoice(Choice(input[0])) {
      var c := Choice(input[0]);
      if c == "e" || c == "c" {
        if |input| >= 2 {
          var text := Strip(input[1]);
          assert Decide(rec, input) == Some(Decision(Approve,
            if text == "" then rec else if c == "e" then rec.(summary := text) else rec.(category := text), input[2..]));
          DropIsSuffix(input, 2);
        }
      } else {
        assert Decide(rec, input).value.rest == input[1..];
        DropIsSuffix(input, 1);
      }
    } else {
      DecideSpec(rec, input[1..]);
      var d := Decide(rec, input[1..]);
      assert Decide(rec, input) == d;
      if d.Some? {
        SuffixOfTailIsSuffix(d.value.rest, input);
      }
    }
  }


  /** The prompt loop of `approve_summary`. */
  method ApproveSummary(rec: SummaryRecord, input: seq<string>) returns (d: Option<Decision>)
    ensures d == Decide(rec, input)
  {
    var i := 0;
    while i < |input|
      invariant 0 <= i <= |input|
      invariant Decide(rec, input) == Decide(rec, input[i..])
    {
      DropOfDrop(input, i, 1);
      var c := Choice(input[i]);
      if c == "a" {
        return Some(Decision(Approve, rec, input[i + 1..]));
      } else if c == "e" || c == "c" {
        if i + 1 == |input| {
          return None;
        }
        DropOfDrop(input, i, 2);
        var text := Strip(input[i + 1]);
        var edited := rec;
        if text != "" {
          if c == "e" {
            edited := rec.(summary := text);
          } else {
            edited := rec.(category := text);
          }
        }
        return Some(Decision(Approve, edited, input[i + 2..]));
      } else if c == "s" {
        return Some(Decision(Skip, rec, input[i + 1..]));
      } else if c == "q" {
        return Some(Decision(Quit, rec, input[i + 1..]));
      }
      i := i + 1;
    }
    return None;
  }

  /** A bare Enter (or blanks) approves the record as it is. */
  lemma EnterApproves(rec: SummaryRecord, input: seq<string>)
    requires |input| > 0 && Strip(input[0]) == ""
    ensures Decide(rec, input) == Some(Decision(Approve, rec, input[1..]))
  {
  }

  /** 'e' and 'c' approve either way, replacing the summary or the category
      only with a non-empty edit on the next line. */
  lemma EditApproves(rec: SummaryRecord, input: seq<string>)
    requires |input| > 1 && (Choice(input[0]) == "e" || Choice(input[0]) == "c")
    ensures var t := Strip(input[1]);
      Decide(rec, input) == Some(Decision(Approve,
        if t == "" then rec
        else if Choice(input[0]) == "e" then rec.(summary := t)
        else rec.(category := t), input[2..]))
  {
  }

  /** 's' skips and 'q' quits, both leaving the record as it is. */
  lemma SkipAndQuit(rec: SummaryRecord, input: seq<string>)
    requires |input| > 0 && (Choice(input[0]) == "s" || Choice(input[0]) == "q")
    ensures Decide(rec, input) == Some(Decision(if Choice(input[0]) == "s" then Skip else Quit, rec, input[1..]))
  {
  }

  /** Any other answer is ignored: the prompt repeats with the record
      unchanged, and input that ends before a decision decides nothing. */
  lemma UnknownChoiceReprompts(rec: SummaryRecord, input: seq<string>)
    requires |input| > 0 && !KnownChoice(Choice(input[0]))
    ensures Decide(rec, input) == Decide(rec, input[1..])
  {
  }

  // ---------------------------------------------------------------- review loop

  /** How the loop over the summaries ended. */
  datatype Stop = Finished | Quitted | OutOfInput

  datatype Tally = Tally(approved: seq<SummaryRecord>, skipped: nat, stop: Stop)

  /** The interactive loop of `main` over `sums`. */
  function Review(sums: seq<SummaryRecord>, input: seq<string>): Tally
    decreases |sums|
  {
    if |sums| == 0 then Tally([], 0, Finished)
    else
      match Decide(sums[0], input)
      case None => Tally([], 0, OutOfInput)
      case Some(d) =>
        if d.verdict == Quit then Tally([], 0, Quitted)
        else
          var t := Review(sums[1..], d.rest);
          if d.verdict == Approve then t.(approved := [d.record] + t.approved)
          else t.(skipped := t.skipped + 1)
  }

  /** The loop's counters so far followed by the rest of the run. */
  function Then(approved: seq<SummaryRecord>, skipped: nat, t: Tally): Tally {
    Tally(approved + t.approved, skipped + t.skipped, t.stop)
  }

  /** The run from summary `i` on: the decision on summary `i`, then the
      run from `i + 1` on the rest of the input. */
  lemma ReviewFrom(sums: seq<SummaryRecord>, i: nat, rest: seq<string>)
    requires i < |sums|
    ensures Review(sums[i..], rest) ==
      match Decide(sums[i], rest)
      case None => Tally([], 0, OutOfInput)
      case Some(d) =>
        if d.verdict == Quit then Tally([], 0, Quitted)
        else if d.verdict == Approve then
          Review(sums[i + 1..], d.rest).(approved := [d.record] + Review(sums[i + 1..], d.rest).approved)
        else Review(sums[i + 1..], d.rest).(skipped := Review(sums[i + 1..], d.rest).skipped + 1)
  {
    SuffixFromHere(sums, i);
  }

  /** The counters after one more summary, when it is approved or skipped. */
  lemma ReviewAdvance(approved: seq<SummaryRecord>, skipped: nat, sums: seq<SummaryRecord>, i: nat,
                      rest: seq<string>, d: Decision)
    requires i < |sums| && Decide(sums[i], rest) == Some(d) && d.verdict != Quit
    ensures Then(approved, skipped, Review(sums[i..], rest))
      == Then(approved + (if d.verdict == Approve then [d.record] else []),
              skipped + (if d.verdict == Approve then 0 else 1), Review(sums[i + 1..], d.rest))
  {
    ReviewFrom(sums, i, rest);
    var t := Review(sums[i + 1..], d.rest);
    if d.verdict == Approve {
      assert Review(sums[i..], rest) == t.(approved := [d.record] + t.approved);
      AppendAssoc(approved, [d.record], t.approved);
    } else {
      assert Review(sums[i..], rest) == t.(skipped := t.skipped + 1);
      AppendEmpty(approved);
    }
  }

  /** The counters when the run stops at summary `i`: input ran out or the
      user quit. */
  lemma ReviewStops(approved: seq<SummaryRecord>, skipped: nat, sums: seq<SummaryRecord>, i: nat, rest: seq<string>)
    requires i < |sums|
    requires Decide(sums[i], rest).None? || Decide(sums[i], rest).value.verdict == Quit
    ensures Then(approved, skipped, Review(sums[i..], rest))
      == Tally(approved, skipped, if Decide(sums[i], rest).None? then OutOfInput else Quitted)
  {
    ReviewFrom(sums, i, rest);
    AppendEmpty(approved);
  }

  /** The loop of `main` (without `--all`): append on approve, count on
      skip, stop on quit. */
  method ReviewLoop(summaries: seq<SummaryRecord>, input: seq<string>) returns (t: Tally)
    ensures t == Review(summaries, input)
  {
    var approved: seq<SummaryRecord> := [];
    var skipped := 0;
    var rest := input;
    var i := 0;
    WholePrefix(summaries);
    AppendEmpty(Review(summaries, input).approved);
    while i < |summaries|
      invariant 0 <= i <= |summaries|
      invariant Review(summaries, input) == Then(approved, skipped, Review(summaries[i..], rest))
    {
      var d := ApproveSummary(summaries[i], rest);
      if d.None? || d.value.verdict == Quit {
        ReviewStops(approved, skipped, summaries, i, rest);
        return Tally(approved, skipped, if d.None? then OutOfInput else Quitted);
      }
      ReviewAdvance(approved, skipped, summaries, i, rest, d.value);
      if d.value.verdict == Approve {
        approved := approved + [d.value.record];
      } else {
        skipped := skipped + 1;
      }
      rest := d.value.rest;
      i := i + 1;
    }
    AppendEmpty(approved);
    t := Tally(approved, skipped, Finished);
  }

  /** Every summary is approved, skipped or cut off by a quit or the end of
      input: approved plus skipped is at most the total, and equals it
      exactly when the loop ran to the end. */
  lemma {:induction false} ReviewCounts(sums: seq<SummaryRecord>, input: seq<string>)
    ensures var t := Review(sums, input);
      |t.approved| + t.skipped <= |sums|
      && (|t.approved| + t.skipped == |sums| <==> t.stop == Finished)
    decreases |sums|
  {
    if |sums| > 0 {
      match Decide(sums[0], input)
      case None =>
      case Some(d) =>
        if d.verdict != Quit {
          ReviewCounts(sums[1..], d.rest);
        }
    }
  }

  /** `sub` is `xs` with some records left out and the others at most
      edited in summary or category, in their order. */
  predicate EditedSubsequence(sub: seq<SummaryRecord>, xs: seq<SummaryRecord>)
    decreases |xs|
  {
    |sub| == 0 || (|xs| > 0 && ((Edited(sub[0], xs[0]) && EditedSubsequence(sub[1..], xs[1..])) || EditedSubsequence(sub, xs[1..])))
  }

  /** The approved records are the summaries in their order, some left out,
      each at most edited in summary or category. */
  lemma {:induction false} ApprovedInOrder(sums: seq<SummaryRecord>, input: seq<string>)
    ensures EditedSubsequence(Review(sums, input).approved, sums)
    decreases |sums|
  {
    if |sums| > 0 {
      DecideSpec(sums[0], input);
      match Decide(sums[0], input)
      case None =>
      case Some(d) =>
        if d.verdict != Quit {
          var t := Review(sums[1..], d.rest);
          ApprovedInOrder(sums[1..], d.rest);
          if d.verdict == Approve {
            ConsTail(d.record, t.approved);
          }
        }
    }
  }

  // ---------------------------------------------------------------- main

  datatype ReviewRun = ReviewRun(exitCode: int, written: Option<PendingFile>, pendingDeleted: bool)

  /** `main`: `pending` is the pending file (`None` when absent); with
      `all` every summary is approved without a prompt. Running out of input
      ends the program with the uncaught EOF error: exit status 1, nothing
      written. */
  method ReviewMain(docDirExists: bool, pending: Option<PendingFile>, all: bool, input: seq<string>) returns (run: ReviewRun)
    ensures !docDirExists ==> run == ReviewRun(1, None, false)
    ensures docDirExists && (pending.None? || |pending.value.summaries| == 0) ==> run == ReviewRun(0, None, false)
    ensures docDirExists && pending.Some? && |pending.value.summaries| > 0 && all ==>
      run == ReviewRun(0, Some(pending.value), true)
    ensures docDirExists && pending.Some? && |pending.value.summaries| > 0 && !all ==>
      var t := Review(pending.value.summaries, input);
      run == (if t.stop == OutOfInput then ReviewRun(1, None, false)
              else if |t.approved| == 0 then ReviewRun(0, None, false)
              else ReviewRun(0, Some(PendingFile(pending.value.timestamp, t.approved)), true))
    ensures run.pendingDeleted <==> run.written.Some?
  {
    if !docDirExists {
      return ReviewRun(1, None, false);
    }
    if pending.None? || |pending.value.summaries| == 0 {
      return ReviewRun(0, None, false);
    }
    var summaries := pending.value.summaries;
    var approved := summaries;
    if !all {
      var t := ReviewLoop(summaries, input);
      if t.stop == OutOfInput {
        return ReviewRun(1, None, false);
      }
      approved := t.approved;
    }
    if |approved| == 0 {
      return ReviewRun(0, None, false);
    }
    run := ReviewRun(0, Some(PendingFile(pending.value.timestamp, approved)), true);
  }

  /** Lines that are empty once stripped: each one is a bare Enter. */
  predicate AllBlank(lines: seq<string>) {
    |lines| == 0 || (Strip(lines[0]) == "" && AllBlank(lines[1..]))
  }

  lemma AppendPrefix(xs: seq<SummaryRecord>, k: nat)
    requires 0 < k <= |xs|
    ensures [xs[0]] + xs[1..][..k - 1] == xs[..k]
  {
  }

  /** Quitting keeps what was approved before it: after `k` bare Enters a
      'q' leaves exactly the first `k` summaries approved, so `main` still
      writes them and removes the pending file. */
  lemma {:induction false} QuitAfterApprovals(sums: seq<SummaryRecord>, k: nat, input: seq<string>)
    requires k < |sums| && |input| > k
    requires AllBlank(input[..k]) && Choice(input[k]) == "q"
    ensures Review(sums, input) == Tally(sums[..k], 0, Quitted)
    decreases k
  {
    if k == 0 {
      SkipAndQuit(sums[0], input);
    } else {
      assert input[..k][0] == input[0];
      EnterApproves(sums[0], input);
      var tail := input[1..];
      assert input[..k][1..] == tail[..k - 1];
      assert tail[k - 1] == input[k];
      QuitAfterApprovals(sums[1..], k - 1, tail);
      var t := Review(sums[1..], tail);
      assert Review(sums, input) == t.(approved := [sums[0]] + t.approved);
      AppendPrefix(sums, k);
    }
  }
}
