/** `dms_init.py`: create the Doc directory if needed, write a fresh state
    file and ask the renderer for a first index. The state it writes does
    not depend on what was there before: an existing state file is
    replaced. */
module Init {
  import opened Strings
  import opened DmsState
  import Render
  import Categories

  /** The six categories a new state starts with, catch-all last. */
  const DefaultCategories: seq<string> := ["Guides", "Workflows", "Scripts", "Models", "QuickRefs", "Junk"]

  /** The state `init_dms` writes, created at `now` (the ISO 8601 clock
      reading, a parameter): never scanned, never applied, no documents. */
  function InitialState(now: string): (s: State)
    ensures s.metadata.created == Some(now) && s.metadata.lastScan.None? && s.metadata.lastApply.None?
    ensures |s.documents| == 0
    ensures |s.categories| == 6 && s.categories[5] == CatchAll
  {
    State(Metadata(Some(now), None, None), DefaultCategories, map[])
  }

  /** What became of the first index. */
  datatype IndexOutcome =
    | Rendered       // the renderer exited 0
    | RenderFailed   // it exited non-zero: a warning, init still succeeds
    | RenderMissing  // the renderer script was not found: a warning

  datatype Report = Report(exitCode: int, createdDir: bool, saved: State, index: IndexOutcome)

  /** `init_dms`: it always succeeds and always writes the initial state;
      the directory is created only when missing, and the renderer (a
      separate process, given here by whether its script exists and its
      exit status) decides only the index outcome. */
  method InitDms(docDirExists: bool, now: string, renderScriptExists: bool, renderExit: int) returns (r: Report)
    ensures r.exitCode == 0
    ensures r.createdDir <==> !docDirExists
    ensures r.saved == InitialState(now)
    ensures r.index == Rendered <==> renderScriptExists && renderExit == 0
    ensures r.index == RenderMissing <==> !renderScriptExists
  {
    var created := false;
    if !docDirExists {
      created := true;
    }
    var state := InitialState(now);
    var index: IndexOutcome;
    if renderScriptExists {
      if renderExit == 0 {
        index := Rendered;
      } else {
        index := RenderFailed;
      }
    } else {
      index := RenderMissing;
    }
    return Report(0, created, state, index);
  }

  /** The initial category list has no repeats and declares the catch-all,
      so every later command that relies on either starts from a valid list. */
  lemma InitialCategoriesValid(now: string)
    ensures NoDuplicates(InitialState(now).categories)
    ensures CatchAll in InitialState(now).categories
  {
    var cats := InitialState(now).categories;
    assert cats[5] == CatchAll;
    forall i, j | 0 <= i < j < |cats| ensures cats[i] != cats[j] {
      assert cats[i][0] != cats[j][0];
    }
  }

  /** The first index lists no document: every declared category's group is
      empty, so the renderer emits no section for it. */
  lemma InitialIndexEmpty(now: string, parse: string -> Option<string>)
    ensures var s := InitialState(now);
      forall c :: Render.SortedGroup([], s.documents, c) == []
        && Render.SectionOf(c, Render.SortedGroup([], s.documents, c), s.documents, parse).None?
  {
    var s := InitialState(now);
    forall c ensures Render.SortedGroup([], s.documents, c) == [] {
      assert Render.Members([], s.documents, c) == [];
    }
  }

  /** The first category listing shows six zero counts and no orphans. */
  lemma InitialListing(now: string)
    ensures var s := InitialState(now);
      (forall i :: 0 <= i < |s.categories| ==> Categories.CountsOf(s.documents, s.categories)[i] == 0)
      && Categories.Orphans(s.documents, s.categories) == {}
  {
    var s := InitialState(now);
    forall i | 0 <= i < |s.categories| ensures Categories.CountsOf(s.documents, s.categories)[i] == 0 {
      ZeroCounts(s.documents, s.categories, i);
    }
  }

  lemma {:induction false} ZeroCounts(docs: map<string, Doc>, cats: seq<string>, i: nat)
    requires |docs| == 0 && i < |cats|
    ensures Categories.CountsOf(docs, cats)[i] == 0
    decreases |cats|
  {
    var init := cats[..|cats| - 1];
    if i < |cats| - 1 {
      ZeroCounts(docs, init, i);
    } else {
      assert MembersOf(docs, cats[i]) == {};
    }
  }
}
