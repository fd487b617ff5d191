/** The apply step: merge the approved summaries into the state, stamp the
    apply time, write the state, re-render the index and, only when that
    succeeds, remove the approved file. The render subprocess is an oracle
    that returns an exit status; the clock is the parameter `now`. */
module Apply {
  import opened Strings
  import opened DmsState
  import Summarize
  import Scan

  /** One entry of the approved file as `apply_changes` reads it: apart from
      the path, every key may be absent. */
  datatype Approved = Approved(path: string, hash: Option<string>, readableVersion: Option<string>,
                               category: Option<string>, summary: Option<string>, title: Option<string>)

  /** The approved-file entry the review step writes for a pending record. */
  function FromRecord(r: Summarize.SummaryRecord): (a: Approved)
    ensures a.path == r.file.path && a.hash == Some(r.file.hash)
    ensures a.category == Some(r.category) && a.summary == Some(r.summary) && a.title == Some(r.title)
  {
    Approved(r.file.path, Some(r.file.hash), r.file.readableVersion, Some(r.category), Some(r.summary), Some(r.title))
  }

  /** `summary_info.get('category', 'Junk')`. */
  function CategoryOf(a: Approved): string {
    a.category.GetOr(CatchAll)
  }

  /** The document entry written for `a`. */
  function Entry(a: Approved, now: string): Doc {
    var base := Doc(Some(a.hash.GetOr("")), Some(CategoryOf(a)), Some(a.summary.GetOr("")), Some(true),
                    Some(a.title.GetOr(PathStem(a.path))), None, None, Some(now));
    if Truthy(a.readableVersion) then base.(readableVersion := a.readableVersion) else base
  }

  /** The entry replaces whatever was stored: each key takes its default when
      absent, the summary counts as approved, `file_mtime` is dropped, and a
      readable version is kept only when non-empty. */
  lemma EntryFields(a: Approved, now: string)
    ensures var d := Entry(a, now);
      && d.hash == Some(a.hash.GetOr("")) && d.category == Some(a.category.GetOr(CatchAll))
      && d.summary == Some(a.summary.GetOr("")) && d.summaryApproved == Some(true)
      && d.title == Some(a.title.GetOr(PathStem(a.path))) && d.lastProcessed == Some(now)
      && d.fileMtime.None?
      && (d.readableVersion.Some? <==> a.readableVersion.Some? && a.readableVersion.value != "")
      && (d.readableVersion.Some? ==> d.readableVersion == a.readableVersion)
  {
  }

  /** The `doc_entry` dict built for one approved summary. */
  method BuildEntry(a: Approved, now: string) returns (entry: Doc)
    ensures entry == Entry(a, now)
  {
    entry := Doc(Some(a.hash.GetOr("")), Some(a.category.GetOr(CatchAll)), Some(a.summary.GetOr("")), Some(true),
                 Some(a.title.GetOr(PathStem(a.path))), None, None, Some(now));
    if a.readableVersion.Some? && a.readableVersion.value != "" {
      entry := entry.(readableVersion := a.readableVersion);
    }
  }

  /** The documents after the loop over `batch`. */
  function ApplyDocs(docs: map<string, Doc>, batch: seq<Approved>, now: string): map<string, Doc> {
    if |batch| == 0 then docs
    else
      var a := batch[|batch| - 1];
      ApplyDocs(docs, batch[..|batch| - 1], now)[a.path := Entry(a, now)]
  }

  /** The paths `batch` writes. */
  function Paths(batch: seq<Approved>): set<string> {
    set a | a in batch :: a.path
  }

  /** The category list after the loop: each category not yet listed is
      appended, in the order first met. */
  function AddCategories(cats: seq<string>, batch: seq<Approved>): seq<string> {
    if |batch| == 0 then cats
    else
      var prev := AddCategories(cats, batch[..|batch| - 1]);
      var c := CategoryOf(batch[|batch| - 1]);
      if c in prev then prev else prev + [c]
  }

  /** How many entries of `batch` go to category `c`. */
  function CountIn(batch: seq<Approved>, c: string): nat {
    if |batch| == 0 then 0
    else CountIn(batch[..|batch| - 1], c) + (if CategoryOf(batch[|batch| - 1]) == c then 1 else 0)
  }

  /** `by_category` after the loop. */
  function ByCategory(batch: seq<Approved>): map<string, nat> {
    if |batch| == 0 then map[]
    else
      var prev := ByCategory(batch[..|batch| - 1]);
      var c := CategoryOf(batch[|batch| - 1]);
      prev[c := Count(prev, c) + 1]
  }

  /** `by_category.get(c, 0)`. */
  function Count(m: map<string, nat>, c: string): nat {
    if c in m then m[c] else 0
  }

  /** The state `apply_changes` writes. */
  function Applied(state: State, batch: seq<Approved>, now: string): State {
    State(state.metadata.(lastApply := Some(now)),
          AddCategories(state.categories, batch),
          ApplyDocs(state.documents, batch, now))
  }

  /** One more entry of the batch, as the loop takes it: the values the
      loop holds after `i` entries, updated with entry `i`, are the values
      after `i + 1` entries. */
  lemma DocsStep(docs: map<string, Doc>, batch: seq<Approved>, i: nat, now: string, current: map<string, Doc>, entry: Doc)
    requires i < |batch| && current == ApplyDocs(docs, batch[..i], now) && entry == Entry(batch[i], now)
    ensures current[batch[i].path := entry] == ApplyDocs(docs, batch[..i + 1], now)
  {
    PrefixOfPrefix(batch, i);
  }

  lemma CategoriesStep(cats: seq<string>, batch: seq<Approved>, i: nat, current: seq<string>)
    requires i < |batch| && current == AddCategories(cats, batch[..i])
    ensures (if CategoryOf(batch[i]) in current then current else current + [CategoryOf(batch[i])])
      == AddCategories(cats, batch[..i + 1])
  {
    PrefixOfPrefix(batch, i);
  }

  lemma CountsStep(batch: seq<Approved>, i: nat, counts: map<string, nat>)
    requires i < |batch| && counts == ByCategory(batch[..i])
    ensures counts[CategoryOf(batch[i]) := Count(counts, CategoryOf(batch[i])) + 1] == ByCategory(batch[..i + 1])
  {
    PrefixOfPrefix(batch, i);
  }

  /** One pass of the loop in `apply_changes`: the entry for `a` replaces
      whatever the map held at its path, its category is appended when new,
      and its count goes up by one. */
  method ApplyOne(docs: map<string, Doc>, cats: seq<string>, counts: map<string, nat>, a: Approved, now: string)
    returns (docs': map<string, Doc>, cats': seq<string>, counts': map<string, nat>)
    ensures docs' == docs[a.path := Entry(a, now)]
    ensures cats' == if CategoryOf(a) in cats then cats else cats + [CategoryOf(a)]
    ensures counts' == counts[CategoryOf(a) := Count(counts, CategoryOf(a)) + 1]
  {
    var category := CategoryOf(a);
    counts' := counts[category := Count(counts, category) + 1];
    var entry := BuildEntry(a, now);
    docs' := docs[a.path := entry];
    cats' := cats;
    if category !in cats {
      cats' := cats + [category];
    }
  }

  /** The loop of `apply_changes` over the whole batch, in order. */
  method ApplyBatch(state: State, batch: seq<Approved>, now: string)
    returns (docs: map<string, Doc>, cats: seq<string>, byCategory: map<string, nat>)
    ensures docs == ApplyDocs(state.documents, batch, now)
    ensures cats == AddCategories(state.categories, batch)
    ensures byCategory == ByCategory(batch)
  {
    docs := state.documents;
    cats := state.categories;
    byCategory := map[];
    var i := 0;
    while i < |batch|
      invariant 0 <= i <= |batch|
      invariant docs == ApplyDocs(state.documents, batch[..i], now)
      invariant cats == AddCategories(state.categories, batch[..i])
      invariant byCategory == ByCategory(batch[..i])
    {
      CountsStep(batch, i, byCategory);
      CategoriesStep(state.categories, batch, i, cats);
      DocsStep(state.documents, batch, i, now, docs, Entry(batch[i], now));
      docs, cats, byCategory := ApplyOne(docs, cats, byCategory, batch[i], now);
      i := i + 1;
    }
    WholePrefix(batch);
  }

  /** What a run leaves behind: its exit status, the state written (if any),
      whether the approved file was removed, and the per-category counts. */
  datatype ApplyRun = ApplyRun(exitCode: int, written: Option<State>, approvedDeleted: bool, byCategory: map<string, nat>)

  /** `apply_changes`. `renderCode` is the exit status of the render run
      started after the state is written. */
  method ApplyChanges(state: State, batch: seq<Approved>, now: string, renderCode: int) returns (run: ApplyRun)
    ensures |batch| == 0 ==> run == ApplyRun(0, None, false, map[])
    ensures |batch| > 0 ==> run.written == Some(Applied(state, batch, now)) && run.byCategory == ByCategory(batch)
    ensures |batch| > 0 ==> run.exitCode == (if renderCode == 0 then 0 else 1) && (run.approvedDeleted <==> renderCode == 0)
  {
    if |batch| == 0 {
      return ApplyRun(0, None, false, map[]);
    }
    var docs, cats, byCategory := ApplyBatch(state, batch, now);
    var written := State(state.metadata.(lastApply := Some(now)), cats, docs);
    if renderCode != 0 {
      return ApplyRun(1, Some(written), false, byCategory);
    }
    run := ApplyRun(0, Some(written), true, byCategory);
  }

  /** The state file's contents when it is missing. */
  const FreshState: State := State(Metadata(None, None, None), [], map[])

  /** `main`: `stored` is the state file (`None` when absent), `approvedFile`
      the approved summaries (`None` when the file is absent). */
  method ApplyMain(docDirExists: bool, stored: Option<State>, approvedFile: Option<seq<Approved>>,
                   now: string, renderCode: int) returns (run: ApplyRun)
    ensures !docDirExists ==> run == ApplyRun(1, None, false, map[])
    ensures docDirExists && (approvedFile.None? || |approvedFile.value| == 0) ==> run == ApplyRun(0, None, false, map[])
    ensures docDirExists && approvedFile.Some? && |approvedFile.value| > 0 ==>
      run.written == Some(Applied(stored.GetOr(FreshState), approvedFile.value, now))
      && run.byCategory == ByCategory(approvedFile.value)
      && run.exitCode == (if renderCode == 0 then 0 else 1) && (run.approvedDeleted <==> renderCode == 0)
  {
    if !docDirExists {
      return ApplyRun(1, None, false, map[]);
    }
    var state := stored.GetOr(FreshState);
    var batch := approvedFile.GetOr([]);
    run := ApplyChanges(state, batch, now, renderCode);
  }

  // ---------------------------------------------------------------- properties

  lemma PathsSnoc(batch: seq<Approved>)
    requires |batch| > 0
    ensures Paths(batch) == Paths(batch[..|batch| - 1]) + {batch[|batch| - 1].path}
  {
    var init := batch[..|batch| - 1];
    assert forall x :: x in batch ==> x in init || x == batch[|batch| - 1];
    assert forall x :: x in init ==> x in batch;
  }

  /** The last entry of `batch` for path `p`. */
  function LastFor(batch: seq<Approved>, p: string): (r: Option<Approved>)
    ensures r.None? <==> p !in Paths(batch)
    ensures r.Some? ==> r.value in batch && r.value.path == p
  {
    if |batch| == 0 then None
    else
      var a := batch[|batch| - 1];
      var init := batch[..|batch| - 1];
      PathsSnoc(batch);
      if a.path == p then Some(a) else LastFor(init, p)
  }

  /** Each path in the batch holds the entry of its LAST occurrence, whatever
      was stored before; every other document is untouched; no document is
      removed. */
  lemma {:induction false} DocKeysAfterApply(docs: map<string, Doc>, batch: seq<Approved>, now: string)
    ensures ApplyDocs(docs, batch, now).Keys == docs.Keys + Paths(batch)
  {
    if |batch| > 0 {
      DocKeysAfterApply(docs, batch[..|batch| - 1], now);
      PathsSnoc(batch);
    }
  }

  lemma {:induction false} DocsAfterApply(docs: map<string, Doc>, batch: seq<Approved>, now: string)
    ensures var r := ApplyDocs(docs, batch, now);
      && r.Keys == docs.Keys + Paths(batch)
      && forall p :: p in r ==> r[p] == (match LastFor(batch, p) case Some(a) => Entry(a, now) case None => docs[p])
  {
    DocKeysAfterApply(docs, batch, now);
    if |batch| > 0 {
      var a := batch[|batch| - 1];
      var init := batch[..|batch| - 1];
      DocsAfterApply(docs, init, now);
      var prev := ApplyDocs(docs, init, now);
      var r := prev[a.path := Entry(a, now)];
      forall p | p in r
        ensures r[p] == (match LastFor(batch, p) case Some(b) => Entry(b, now) case None => docs[p])
      {
        if p != a.path {
          assert LastFor(batch, p) == LastFor(init, p);
        }
      }
    }
  }

  /** When a path appears more than once, the later entry wins. */
  lemma LaterEntryWins(docs: map<string, Doc>, batch: seq<Approved>, now: string, i: nat)
    requires i < |batch|
    requires forall k :: i < k < |batch| ==> batch[k].path != batch[i].path
    ensures batch[i].path in ApplyDocs(docs, batch, now) && ApplyDocs(docs, batch, now)[batch[i].path] == Entry(batch[i], now)
  {
    DocsAfterApply(docs, batch, now);
    LastIsLast(batch, i);
  }

  lemma {:induction false} LastIsLast(batch: seq<Approved>, i: nat)
    requires i < |batch|
    requires forall k :: i < k < |batch| ==> batch[k].path != batch[i].path
    ensures LastFor(batch, batch[i].path) == Some(batch[i])
  {
    if i < |batch| - 1 {
      var init := batch[..|batch| - 1];
      assert init[i] == batch[i];
      LastIsLast(init, i);
    }
  }

  /** A document whose path is not in the batch keeps its entry. */
  lemma UntouchedDocs(docs: map<string, Doc>, batch: seq<Approved>, now: string, p: string)
    requires p in docs && p !in Paths(batch)
    ensures p in ApplyDocs(docs, batch, now) && ApplyDocs(docs, batch, now)[p] == docs[p]
  {
    DocsAfterApply(docs, batch, now);
  }

  /** The declared categories keep their places, every category of the
      batch ends up listed, nothing else is added, and a duplicate-free list
      stays duplicate-free. */
  lemma {:induction false} CategoriesAfterApply(cats: seq<string>, batch: seq<Approved>)
    ensures var r := AddCategories(cats, batch);
      && |r| >= |cats| && r[..|cats|] == cats
      && (forall c :: c in r ==> c in cats || exists a :: a in batch && CategoryOf(a) == c)
      && (forall a :: a in batch ==> CategoryOf(a) in r)
      && (NoDuplicates(cats) ==> NoDuplicates(r))
  {
    if |batch| > 0 {
      var init := batch[..|batch| - 1];
      CategoriesAfterApply(cats, init);
      var prev := AddCategories(cats, init);
      var c := CategoryOf(batch[|batch| - 1]);
      assert forall a :: a in batch ==> a in init || a == batch[|batch| - 1];
      assert forall a :: a in init ==> a in batch;
      if c !in prev {
        assert (prev + [c])[..|cats|] == prev[..|cats|];
      }
    }
  }

  /** `by_category` has a key for each category of the batch and no other,
      counting its entries. */
  lemma {:induction false} CountsAfterApply(batch: seq<Approved>)
    ensures forall c :: c in ByCategory(batch) <==> exists a :: a in batch && CategoryOf(a) == c
    ensures forall c :: c in ByCategory(batch) ==> ByCategory(batch)[c] == CountIn(batch, c)
  {
    if |batch| > 0 {
      var init := batch[..|batch| - 1];
      CountsAfterApply(init);
      var c := CategoryOf(batch[|batch| - 1]);
      assert forall a :: a in batch ==> a in init || a == batch[|batch| - 1];
      assert forall a :: a in init ==> a in batch;
      var prev := ByCategory(init);
      if c !in prev {
        assert !exists a :: a in init && CategoryOf(a) == c;
        NotCountedIsZero(init, c);
      }
      assert ByCategory(batch) == prev[c := Count(prev, c) + 1];
    }
  }

  /** The sum of `counts[k]` over `keys`, absent keys counting 0. */
  function Total(keys: seq<string>, counts: map<string, nat>): nat {
    if |keys| == 0 then 0
    else Total(keys[..|keys| - 1], counts) + (if keys[|keys| - 1] in counts then counts[keys[|keys| - 1]] else 0)
  }

  /** The sum of `CountIn(batch, k)` over `keys`. */
  function CountOver(keys: seq<string>, batch: seq<Approved>): nat {
    if |keys| == 0 then 0
    else CountOver(keys[..|keys| - 1], batch) + CountIn(batch, keys[|keys| - 1])
  }

  lemma {:induction false} CountOverStep(keys: seq<string>, batch: seq<Approved>)
    requires |batch| > 0 && NoDuplicates(keys)
    ensures CountOver(keys, batch) ==
      CountOver(keys, batch[..|batch| - 1]) + (if CategoryOf(batch[|batch| - 1]) in keys then 1 else 0)
  {
    if |keys| > 0 {
      var init := keys[..|keys| - 1];
      assert NoDuplicates(init);
      CountOverStep(init, batch);
      assert keys == init + [keys[|keys| - 1]];
    }
  }

  /** Counting each of a duplicate-free list of categories that covers the
      batch accounts for every entry exactly once. */
  lemma {:induction false} CountOverCovering(keys: seq<string>, batch: seq<Approved>)
    requires NoDuplicates(keys)
    requires forall a :: a in batch ==> CategoryOf(a) in keys
    ensures CountOver(keys, batch) == |batch|
  {
    if |batch| == 0 {
      ZeroCounts(keys, batch);
    } else {
      var init := batch[..|batch| - 1];
      assert forall a :: a in init ==> a in batch;
      CountOverCovering(keys, init);
      CountOverStep(keys, batch);
    }
  }

  lemma {:induction false} ZeroCounts(keys: seq<string>, batch: seq<Approved>)
    requires |batch| == 0
    ensures CountOver(keys, batch) == 0
  {
    if |keys| > 0 {
      ZeroCounts(keys[..|keys| - 1], batch);
    }
  }

  lemma {:induction false} TotalIsCountOver(keys: seq<string>, batch: seq<Approved>)
    ensures Total(keys, ByCategory(batch)) == CountOver(keys, batch)
  {
    CountsAfterApply(batch);
    if |keys| > 0 {
      TotalIsCountOver(keys[..|keys| - 1], batch);
      var k := keys[|keys| - 1];
      if k !in ByCategory(batch) {
        NotCountedIsZero(batch, k);
      }
    }
  }

  lemma {:induction false} NotCountedIsZero(batch: seq<Approved>, c: string)
    requires forall a :: a in batch ==> CategoryOf(a) != c
    ensures CountIn(batch, c) == 0
  {
    if |batch| > 0 {
      var init := batch[..|batch| - 1];
      assert forall a :: a in init ==> a in batch;
      NotCountedIsZero(init, c);
    }
  }

  /** The per-category counts, taken in the order the categories were first
      met, add up to the number of approved summaries. */
  lemma CountsSumToBatch(batch: seq<Approved>)
    ensures Total(AddCategories([], batch), ByCategory(batch)) == |batch|
  {
    var keys := AddCategories([], batch);
    CategoriesAfterApply([], batch);
    TotalIsCountOver(keys, batch);
    CountOverCovering(keys, batch);
  }

  /** A category is appended at most once, however many entries propose it,
      and the categories already declared keep their places. */
  lemma CategoriesStayDistinct(cats: seq<string>, batch: seq<Approved>, c: string)
    requires NoDuplicates(cats)
    requires exists a :: a in batch && CategoryOf(a) == c
    ensures var r := AddCategories(cats, batch);
      c in r && |r| >= |cats| && r[..|cats|] == cats && forall i, j :: 0 <= i < j < |r| && r[i] == c ==> r[j] != c
  {
    CategoriesAfterApply(cats, batch);
  }

  // ---------------------------------------------------------------- across stages

  /** A changed file goes round the pipeline with no hash: its pending record
      carries "", apply stores "", and so the next scan of the unchanged
      disk reports the same file as changed again. */
  lemma ChangedFileStaysChanged(listing: seq<Scan.Listed>, docs: map<string, Doc>, batch: seq<Approved>,
                                now: string, keys: seq<string>, e: Scan.Listed)
    requires e in listing && Scan.Visible(e) && !Scan.InMdOutputs(Scan.DiskOf(e).path)
    requires LastFor(batch, Scan.DiskOf(e).path).Some?
    requires LastFor(batch, Scan.DiskOf(e).path).value.hash in {None, Some("")}
    requires Enumerates(keys, ApplyDocs(docs, batch, now))
    ensures var after := ApplyDocs(docs, batch, now);
      Scan.DiskOf(e).path in after &&
      Scan.ChangedEntry(Scan.DiskOf(e), after) in Scan.ScanReport(listing, after, keys).changedFiles
  {
    var p := Scan.DiskOf(e).path;
    var after := ApplyDocs(docs, batch, now);
    DocsAfterApply(docs, batch, now);
    assert after[p].hash == Some("");
    Scan.EmptyStoredHashIsChanged(listing, after, keys, e);
  }
}
