/** The one-time `file_mtime` backfill (`dms_backfill_file_mtime.py`): every
    document without a truthy `file_mtime` whose file is on disk gets the
    file's modification time; nothing else in the state changes. */
module Backfill {
  import opened Strings
  import opened DmsState

  /** What the loop does with one document. `Failed` is the `except` path
      (the stat of an existing file raised), which is counted nowhere. */
  datatype Outcome = Skipped | Missing | Failed | Updated

  /** `doc_dir / file_path.lstrip('./')`: leading dots and slashes dropped. */
  function DiskPath(p: string): string {
    LStripChars(p, {'.', '/'})
  }

  function OutcomeOf(p: string, d: Doc, disk: Disk, statErrors: set<string>): Outcome {
    if Truthy(d.fileMtime) then Skipped
    else if DiskPath(p) !in disk then Missing
    else if DiskPath(p) in statErrors then Failed
    else Updated
  }

  /** One document after the backfill: only `file_mtime` may change, and it
      changes exactly for an updated document, to its file's time. */
  function Backfilled(p: string, d: Doc, disk: Disk, statErrors: set<string>): (r: Doc)
    ensures r.(fileMtime := d.fileMtime) == d
    ensures r != d ==> OutcomeOf(p, d, disk, statErrors) == Updated
    ensures OutcomeOf(p, d, disk, statErrors) == Updated ==> r.fileMtime == Some(disk[DiskPath(p)].mtime)
  {
    if OutcomeOf(p, d, disk, statErrors) == Updated then d.(fileMtime := Some(disk[DiskPath(p)].mtime)) else d
  }

  /** The whole document map after the backfill. */
  function BackfilledAll(docs: map<string, Doc>, disk: Disk, statErrors: set<string>): (r: map<string, Doc>)
    ensures r.Keys == docs.Keys
  {
    map p | p in docs :: Backfilled(p, docs[p], disk, statErrors)
  }

  /** Each document's outcome. */
  function Outcomes(docs: map<string, Doc>, disk: Disk, statErrors: set<string>): (r: map<string, Outcome>)
    ensures r.Keys == docs.Keys
  {
    map p | p in docs :: OutcomeOf(p, docs[p], disk, statErrors)
  }

  /** The keys in `done` whose outcome is `k`. */
  function Sel(o: map<string, Outcome>, done: set<string>, k: Outcome): set<string> {
    set x | x in done && x in o && o[x] == k
  }

  /** The documents visited so far (`done`) with outcome `k`. */
  function WithOutcome(docs: map<string, Doc>, done: set<string>, disk: Disk, statErrors: set<string>, k: Outcome): set<string> {
    Sel(Outcomes(docs, disk, statErrors), done, k)
  }

  lemma SelAdd(o: map<string, Outcome>, done: set<string>, x: string, k: Outcome)
    requires x !in done && x in o
    ensures |Sel(o, done + {x}, k)| == |Sel(o, done, k)| + if o[x] == k then 1 else 0
  {
    if o[x] == k {
      assert Sel(o, done + {x}, k) == Sel(o, done, k) + {x};
    } else {
      assert Sel(o, done + {x}, k) == Sel(o, done, k);
    }
  }

  lemma DisjointUnion(a: set<string>, b: set<string>)
    requires a * b == {}
    ensures |a + b| == |a| + |b|
  {
  }

  /** The four outcome classes partition the keys. */
  lemma SelPartition(o: map<string, Outcome>)
    ensures |Sel(o, o.Keys, Updated)| + |Sel(o, o.Keys, Skipped)| + |Sel(o, o.Keys, Missing)| + |Sel(o, o.Keys, Failed)| == |o|
  {
    var u, s, m, f := Sel(o, o.Keys, Updated), Sel(o, o.Keys, Skipped), Sel(o, o.Keys, Missing), Sel(o, o.Keys, Failed);
    DisjointUnion(u, s);
    DisjointUnion(u + s, m);
    DisjointUnion(u + s + m, f);
    assert u + s + m + f == o.Keys;
  }

  lemma SelEmpty(o: map<string, Outcome>, k: Outcome)
    ensures Sel(o, o.Keys, k) == {} <==> forall x :: x in o ==> o[x] != k
  {
    if x :| x in o && o[x] == k {
      assert x in Sel(o, o.Keys, k);
    }
  }

  predicate BackfilledWithin(docs: map<string, Doc>, r: map<string, Doc>, done: set<string>, disk: Disk, statErrors: set<string>) {
    r.Keys == docs.Keys
    && forall p :: p in docs ==> r[p] == if p in done then Backfilled(p, docs[p], disk, statErrors) else docs[p]
  }

  lemma BackfillStep(docs: map<string, Doc>, r: map<string, Doc>, done: set<string>, disk: Disk, statErrors: set<string>, p: string)
    requires BackfilledWithin(docs, r, done, disk, statErrors) && p in docs && p !in done
    ensures r[p] == docs[p]
    ensures BackfilledWithin(docs, r[p := Backfilled(p, docs[p], disk, statErrors)], done + {p}, disk, statErrors)
    ensures OutcomeOf(p, docs[p], disk, statErrors) != Updated ==> BackfilledWithin(docs, r, done + {p}, disk, statErrors)
  {
    if OutcomeOf(p, docs[p], disk, statErrors) != Updated {
      assert r[p := Backfilled(p, docs[p], disk, statErrors)] == r;
    }
  }

  /** The three counters match the documents visited so far. */
  predicate Counted(o: map<string, Outcome>, done: set<string>, updated: nat, skipped: nat, missing: nat) {
    && updated == |Sel(o, done, Updated)|
    && skipped == |Sel(o, done, Skipped)|
    && missing == |Sel(o, done, Missing)|
  }

  lemma CountedStep(o: map<string, Outcome>, done: set<string>, p: string, updated: nat, skipped: nat, missing: nat)
    requires Counted(o, done, updated, skipped, missing) && p in o && p !in done
    ensures Counted(o, done + {p},
      updated + (if o[p] == Updated then 1 else 0), skipped + (if o[p] == Skipped then 1 else 0), missing + (if o[p] == Missing then 1 else 0))
  {
    SelAdd(o, done, p, Updated);
    SelAdd(o, done, p, Skipped);
    SelAdd(o, done, p, Missing);
  }

  lemma BackfillDone(docs: map<string, Doc>, r: map<string, Doc>, done: set<string>, disk: Disk, statErrors: set<string>)
    requires BackfilledWithin(docs, r, done, disk, statErrors) && docs.Keys <= done
    ensures r == BackfilledAll(docs, disk, statErrors)
  {
  }

  /** `backfill_mtime`'s loop over `documents.items()`, updating each
      document in place and counting the three reported outcomes. */
  method BackfillLoop(docs: map<string, Doc>, keys: seq<string>, disk: Disk, statErrors: set<string>)
    returns (r: map<string, Doc>, updated: nat, skipped: nat, missing: nat)
    requires Enumerates(keys, docs)
    ensures r == BackfilledAll(docs, disk, statErrors)
    ensures updated == |WithOutcome(docs, docs.Keys, disk, statErrors, Updated)|
    ensures skipped == |WithOutcome(docs, docs.Keys, disk, statErrors, Skipped)|
    ensures missing == |WithOutcome(docs, docs.Keys, disk, statErrors, Missing)|
  {
    r := docs;
    updated, skipped, missing := 0, 0, 0;
    ghost var o := Outcomes(docs, disk, statErrors);
    for i := 0 to |keys|
      invariant BackfilledWithin(docs, r, Visited(keys, i), disk, statErrors)
      invariant Counted(o, Visited(keys, i), updated, skipped, missing)
    {
      var p := keys[i];
      ghost var done := Visited(keys, i);
      VisitStep(keys, i);
      assert p in keys;
      BackfillStep(docs, r, done, disk, statErrors, p);
      CountedStep(o, done, p, updated, skipped, missing);
      var d := r[p];
      if Truthy(d.fileMtime) {
        skipped := skipped + 1;
      } else if DiskPath(p) !in disk {
        missing := missing + 1;
      } else if DiskPath(p) in statErrors {
        // the stat raised: reported, not counted
      } else {
        r := r[p := d.(fileMtime := Some(disk[DiskPath(p)].mtime))];
        updated := updated + 1;
      }
    }
    VisitAll(keys, docs);
    BackfillDone(docs, r, Visited(keys, |keys|), disk, statErrors);
  }

  /** Every document falls in exactly one of the four outcomes, so the three
      reported counts add up to at most the number of documents, and to
      exactly that number when no stat fails. */
  lemma CountsCoverDocuments(docs: map<string, Doc>, disk: Disk, statErrors: set<string>)
    ensures var all := docs.Keys;
      |WithOutcome(docs, all, disk, statErrors, Updated)| + |WithOutcome(docs, all, disk, statErrors, Skipped)|
      + |WithOutcome(docs, all, disk, statErrors, Missing)| + |WithOutcome(docs, all, disk, statErrors, Failed)| == |docs|
    ensures var all := docs.Keys;
      WithOutcome(docs, all, disk, statErrors, Failed) == {} <==> (forall p :: p in docs ==> OutcomeOf(p, docs[p], disk, statErrors) != Failed)
  {
    SelPartition(Outcomes(docs, disk, statErrors));
    SelEmpty(Outcomes(docs, disk, statErrors), Failed);
  }

  /** Running the backfill twice changes nothing the first run did not. */
  lemma BackfillIdempotent(docs: map<string, Doc>, disk: Disk, statErrors: set<string>)
    ensures BackfilledAll(BackfilledAll(docs, disk, statErrors), disk, statErrors) == BackfilledAll(docs, disk, statErrors)
  {
    var once := BackfilledAll(docs, disk, statErrors);
    forall p | p in once ensures Backfilled(p, once[p], disk, statErrors) == once[p] {
      var d := docs[p];
      if OutcomeOf(p, d, disk, statErrors) == Updated {
        var t := disk[DiskPath(p)].mtime;
        if t != "" {
          assert OutcomeOf(p, once[p], disk, statErrors) == Skipped;
        } else {
          assert Backfilled(p, once[p], disk, statErrors) == once[p].(fileMtime := Some(t));
        }
      }
    }
  }

  /** After the backfill, every document whose file is on disk and could be
      read has a `file_mtime`. */
  lemma BackfillFillsReadable(docs: map<string, Doc>, disk: Disk, statErrors: set<string>, p: string)
    requires p in docs && DiskPath(p) in disk && DiskPath(p) !in statErrors
    ensures BackfilledAll(docs, disk, statErrors)[p].fileMtime.Some?
  {
  }

  datatype Report = Report(updated: nat, skipped: nat, missing: nat)

  /** `main` and `backfill_mtime`: a missing Doc directory or state file is
      exit 1 with nothing written; otherwise the state is saved with the
      backfilled documents and everything else as it was. */
  method BackfillMain(docDirExists: bool, stored: Option<State>, keys: seq<string>, disk: Disk, statErrors: set<string>)
    returns (exitCode: int, saved: Option<State>, report: Option<Report>)
    requires stored.Some? ==> Enumerates(keys, stored.value.documents)
    ensures !docDirExists || stored.None? ==> exitCode == 1 && saved.None? && report.None?
    ensures docDirExists && stored.Some? ==>
      var s := stored.value;
      && exitCode == 0
      && saved == Some(s.(documents := BackfilledAll(s.documents, disk, statErrors)))
      && report.Some?
      && report.value.updated + report.value.skipped + report.value.missing <= |s.documents|
      && ((forall p :: p in s.documents ==> OutcomeOf(p, s.documents[p], disk, statErrors) != Failed) ==>
            report.value.updated + report.value.skipped + report.value.missing == |s.documents|)
      && report.value.updated == |WithOutcome(s.documents, s.documents.Keys, disk, statErrors, Updated)|
  {
    if !docDirExists || stored.None? {
      return 1, None, None;
    }
    var s := stored.value;
    var docs, updated, skipped, missing := BackfillLoop(s.documents, keys, disk, statErrors);
    CountsCoverDocuments(s.documents, disk, statErrors);
    return 0, Some(s.(documents := docs)), Some(Report(updated, skipped, missing));
  }
}
