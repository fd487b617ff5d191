/** The category commands (`list`, `add`, `move`, `rename`, `delete`) on the
    state file. Each command either fails with status 1 before anything is
    written, or changes the in-memory state and writes it whole. The state
    each command writes is given by a function on states; the loops that
    rewrite the documents are methods proved against those functions. */
module Categories {
  import opened Strings
  import opened DmsState

  /** A command's exit status and the state it wrote, if any. */
  datatype Outcome = Outcome(exitCode: int, saved: Option<State>)

  // ------------------------------------------------------------ the states written

  /** `categories.append(name)`. */
  function Added(s: State, name: string): State {
    s.(categories := s.categories + [name])
  }

  /** `documents[file]['category'] = category`. */
  function Moved(s: State, file: string, category: string): State
    requires file in s.documents
  {
    s.(documents := s.documents[file := s.documents[file].(category := Some(category))])
  }

  /** `categories[i] = new_name` and every document of the old name moved to `new_name`. */
  function RenamedAt(s: State, i: nat, newName: string): State
    requires i < |s.categories|
  {
    State(s.metadata, s.categories[i := newName], Reassign(s.documents, s.categories[i], newName))
  }

  /** The rename of the command line tool, at the first position of `oldName`. */
  function Renamed(s: State, oldName: string, newName: string): State
    requires oldName in s.categories
  {
    RenamedAt(s, IndexOf(s.categories, oldName), newName)
  }

  /** Every document of `name` moved to the catch-all, and the first
      occurrence of `name` removed from the list. */
  function Deleted(s: State, name: string): State
    requires name in s.categories
  {
    State(s.metadata, RemoveFirst(s.categories, name), Reassign(s.documents, name, CatchAll))
  }

  // ------------------------------------------------------------ the document loop

  /** The documents among `done` whose category is `name`. */
  function MembersIn(docs: map<string, Doc>, done: set<string>, name: string): set<string> {
    set p | p in done && p in docs && InCategory(docs[p], name)
  }

  /** `r` is `docs` with every document of `from` among `done` moved to `to`. */
  predicate ReassignedWithin(docs: map<string, Doc>, r: map<string, Doc>, done: set<string>, from: string, to: string) {
    r.Keys == docs.Keys
    && forall p :: p in docs ==> r[p] == if p in done && InCategory(docs[p], from) then docs[p].(category := Some(to)) else docs[p]
  }

  lemma ReassignStep(docs: map<string, Doc>, r: map<string, Doc>, done: set<string>, p: string, from: string, to: string)
    requires ReassignedWithin(docs, r, done, from, to) && p in docs && p !in done
    ensures r[p] == docs[p]
    ensures ReassignedWithin(docs, if r[p].category == Some(from) then r[p := r[p].(category := Some(to))] else r, done + {p}, from, to)
  {
  }

  lemma MembersInStep(docs: map<string, Doc>, done: set<string>, p: string, from: string)
    requires p in docs && p !in done
    ensures |MembersIn(docs, done + {p}, from)| == |MembersIn(docs, done, from)| + if InCategory(docs[p], from) then 1 else 0
  {
    if InCategory(docs[p], from) {
      assert MembersIn(docs, done + {p}, from) == MembersIn(docs, done, from) + {p};
    } else {
      assert MembersIn(docs, done + {p}, from) == MembersIn(docs, done, from);
    }
  }

  lemma ReassignDone(docs: map<string, Doc>, r: map<string, Doc>, done: set<string>, from: string, to: string)
    requires ReassignedWithin(docs, r, done, from, to) && docs.Keys <= done
    ensures r == Reassign(docs, from, to)
    ensures MembersIn(docs, done, from) == MembersOf(docs, from)
  {
  }

  /** The loop over `documents.values()` shared by rename and delete: each
      document of category `from` gets `to`, and the loop counts them. */
  method ReassignLoop(docs: map<string, Doc>, keys: seq<string>, from: string, to: string)
    returns (r: map<string, Doc>, count: nat)
    requires Enumerates(keys, docs)
    ensures r == Reassign(docs, from, to)
    ensures count == |MembersOf(docs, from)|
  {
    r := docs;
    count := 0;
    ghost var done: set<string> := {};
    var i := 0;
    while i < |keys|
      invariant 0 <= i <= |keys|
      invariant forall j :: 0 <= j < i ==> keys[j] in done
      invariant forall j :: i <= j < |keys| ==> keys[j] !in done
      invariant ReassignedWithin(docs, r, done, from, to)
      invariant count == |MembersIn(docs, done, from)|
    {
      var p := keys[i];
      ReassignStep(docs, r, done, p, from, to);
      MembersInStep(docs, done, p, from);
      if r[p].category == Some(from) {
        r := r[p := r[p].(category := Some(to))];
        count := count + 1;
      }
      done := done + {p};
      i := i + 1;
    }
    ReassignDone(docs, r, done, from, to);
  }

  // ------------------------------------------------------------ the commands

  /** `cmd_add`: refuses a name already in the list. */
  method Add(s: State, name: string) returns (out: Outcome)
    ensures name in s.categories ==> out == Outcome(1, None)
    ensures name !in s.categories ==> out == Outcome(0, Some(Added(s, name)))
  {
    if name in s.categories {
      return Outcome(1, None);
    }
    var categories := s.categories + [name];
    out := Outcome(0, Some(s.(categories := categories)));
  }

  /** `cmd_move`: the file must be a document and the category declared. */
  method Move(s: State, file: string, category: string) returns (out: Outcome)
    ensures file !in s.documents || category !in s.categories ==> out == Outcome(1, None)
    ensures file in s.documents && category in s.categories ==> out == Outcome(0, Some(Moved(s, file, category)))
  {
    if file !in s.documents {
      return Outcome(1, None);
    }
    if category !in s.categories {
      return Outcome(1, None);
    }
    var doc := s.documents[file].(category := Some(category));
    out := Outcome(0, Some(s.(documents := s.documents[file := doc])));
  }

  /** `cmd_rename`: `oldName` must be declared and `newName` must not be; `count`
      is the number of documents updated. */
  method Rename(s: State, keys: seq<string>, oldName: string, newName: string) returns (out: Outcome, count: nat)
    requires Enumerates(keys, s.documents)
    ensures oldName !in s.categories || newName in s.categories ==> out == Outcome(1, None) && count == 0
    ensures oldName in s.categories && newName !in s.categories ==>
      out == Outcome(0, Some(Renamed(s, oldName, newName))) && count == |MembersOf(s.documents, oldName)|
  {
    if oldName !in s.categories {
      return Outcome(1, None), 0;
    }
    if newName in s.categories {
      return Outcome(1, None), 0;
    }
    var idx := IndexOf(s.categories, oldName);
    var categories := s.categories[idx := newName];
    var docs;
    docs, count := ReassignLoop(s.documents, keys, oldName, newName);
    out := Outcome(0, Some(State(s.metadata, categories, docs)));
  }

  /** `cmd_delete`: `name` must be declared; `count` is the number of
      documents moved to the catch-all. */
  method Delete(s: State, keys: seq<string>, name: string) returns (out: Outcome, count: nat)
    requires Enumerates(keys, s.documents)
    ensures name !in s.categories ==> out == Outcome(1, None) && count == 0
    ensures name in s.categories ==>
      out == Outcome(0, Some(Deleted(s, name))) && count == |MembersOf(s.documents, name)|
  {
    if name !in s.categories {
      return Outcome(1, None), 0;
    }
    var docs;
    docs, count := ReassignLoop(s.documents, keys, name, CatchAll);
    var categories := RemoveFirst(s.categories, name);
    out := Outcome(0, Some(State(s.metadata, categories, docs)));
  }

  // ------------------------------------------------------------ list

  /** A document's category is declared when it is present and in the list. */
  predicate Declared(c: Option<string>, cats: seq<string>) {
    c.Some? && c.value in cats
  }

  /** The orphaned categories `cmd_list` reports: the categories documents
      use (an absent category included, as `None`) minus the declared ones. */
  function Orphans(docs: map<string, Doc>, cats: seq<string>): set<Option<string>> {
    set p | p in docs && !Declared(docs[p].category, cats) :: docs[p].category
  }

  /** The counts `cmd_list` prints, one per declared category, in order. */
  function CountsOf(docs: map<string, Doc>, cats: seq<string>): (r: seq<nat>)
    ensures |r| == |cats|
  {
    if |cats| == 0 then []
    else CountsOf(docs, cats[..|cats| - 1]) + [|MembersOf(docs, cats[|cats| - 1])|]
  }

  function Sum(xs: seq<nat>): nat {
    if |xs| == 0 then 0 else Sum(xs[..|xs| - 1]) + xs[|xs| - 1]
  }

  /** The documents whose category is declared. */
  function DeclaredDocs(docs: map<string, Doc>, cats: seq<string>): set<string> {
    set p | p in docs && Declared(docs[p].category, cats)
  }

  /** The documents `cmd_list` shows under "Orphaned". */
  function OrphanDocs(docs: map<string, Doc>, cats: seq<string>): set<string> {
    set p | p in docs && !Declared(docs[p].category, cats)
  }

  lemma {:induction false} CountsAreDeclaredDocs(docs: map<string, Doc>, cats: seq<string>)
    requires NoDuplicates(cats)
    ensures Sum(CountsOf(docs, cats)) == |DeclaredDocs(docs, cats)|
    decreases |cats|
  {
    if |cats| > 0 {
      var init := cats[..|cats| - 1];
      var c := cats[|cats| - 1];
      CountsAreDeclaredDocs(docs, init);
      var counts := CountsOf(docs, cats);
      assert counts[..|counts| - 1] == CountsOf(docs, init);
      assert c !in init;
      assert DeclaredDocs(docs, cats) == DeclaredDocs(docs, init) + MembersOf(docs, c) by {
        assert forall x :: x in cats <==> x in init || x == c by {
          assert cats == init + [c];
        }
      }
      assert DeclaredDocs(docs, init) !! MembersOf(docs, c);
    }
  }

  /** With a duplicate-free list, `cmd_list` accounts for every document
      exactly once: the per-category counts and the orphaned documents add
      up to the number of documents. */
  lemma CountsCoverDocuments(docs: map<string, Doc>, cats: seq<string>)
    requires NoDuplicates(cats)
    ensures Sum(CountsOf(docs, cats)) + |OrphanDocs(docs, cats)| == |docs|
  {
    CountsAreDeclaredDocs(docs, cats);
    assert DeclaredDocs(docs, cats) + OrphanDocs(docs, cats) == docs.Keys;
    assert DeclaredDocs(docs, cats) !! OrphanDocs(docs, cats);
  }

  /** An orphan is exactly a category some document uses that is not declared. */
  lemma OrphansExactly(docs: map<string, Doc>, cats: seq<string>, c: Option<string>)
    ensures c in Orphans(docs, cats) <==> !Declared(c, cats) && exists p :: p in docs && docs[p].category == c
  {
    if !Declared(c, cats) && exists p :: p in docs && docs[p].category == c {
      var p :| p in docs && docs[p].category == c;
      assert p in OrphanDocs(docs, cats);
    }
  }

  // ------------------------------------------------------------ what the commands keep

  /** Adding a new name keeps the list duplicate-free, declares the name
      and leaves the orphans as they were, except that the name itself is
      no longer orphaned. */
  lemma AddFacts(s: State, name: string)
    requires name !in s.categories && NoDuplicates(s.categories)
    ensures NoDuplicates(Added(s, name).categories) && name in Added(s, name).categories
    ensures Orphans(Added(s, name).documents, Added(s, name).categories)
      == Orphans(s.documents, s.categories) - {Some(name)}
  {
    var after := Added(s, name).categories;
    assert forall x :: x in after <==> x in s.categories || x == name by {
      assert after == s.categories + [name];
    }
    forall c | c in Orphans(s.documents, s.categories) - {Some(name)}
      ensures c in Orphans(s.documents, after)
    {
      OrphansExactly(s.documents, s.categories, c);
      OrphansExactly(s.documents, after, c);
    }
  }

  /** A move changes one document's category and nothing else, and since
      the target is declared it creates no orphan. */
  lemma MoveFacts(s: State, file: string, category: string)
    requires file in s.documents && category in s.categories
    ensures var t := Moved(s, file, category);
      t.categories == s.categories && t.documents.Keys == s.documents.Keys
      && t.documents[file].category == Some(category)
      && t.documents[file].(category := s.documents[file].category) == s.documents[file]
      && (forall p :: p in s.documents && p != file ==> t.documents[p] == s.documents[p])
      && Orphans(t.documents, t.categories) <= Orphans(s.documents, s.categories)
  {
    var t := Moved(s, file, category);
    forall c | c in Orphans(t.documents, t.categories)
      ensures c in Orphans(s.documents, s.categories)
    {
      OrphansExactly(t.documents, t.categories, c);
      var p :| p in t.documents && t.documents[p].category == c;
      assert p != file;
      OrphansExactly(s.documents, s.categories, c);
    }
  }

  /** A rename keeps the list's length and freedom from duplicates, puts
      `newName` where `oldName` was, leaves no document in `oldName`, gives `newName` the
      documents of both names, and un-orphans `newName`. */
  lemma RenameFacts(s: State, i: nat, newName: string)
    requires i < |s.categories| && newName !in s.categories && NoDuplicates(s.categories)
    ensures var t := RenamedAt(s, i, newName);
      var oldName := s.categories[i];
      |t.categories| == |s.categories| && t.categories[i] == newName
      && (forall j :: 0 <= j < |s.categories| && j != i ==> t.categories[j] == s.categories[j])
      && NoDuplicates(t.categories) && oldName !in t.categories
      && MembersOf(t.documents, oldName) == {}
      && MembersOf(t.documents, newName) == MembersOf(s.documents, oldName) + MembersOf(s.documents, newName)
      && Orphans(t.documents, t.categories) == Orphans(s.documents, s.categories) - {Some(newName)}
  {
    var t := RenamedAt(s, i, newName);
    var oldName := s.categories[i];
    assert forall x :: x in t.categories <==> (x in s.categories && x != oldName) || x == newName by {
      forall x ensures x in t.categories <==> (x in s.categories && x != oldName) || x == newName {
        if x in t.categories {
          var j :| 0 <= j < |t.categories| && t.categories[j] == x;
        }
        if x in s.categories && x != oldName {
          var j :| 0 <= j < |s.categories| && s.categories[j] == x;
          assert t.categories[j] == x;
        }
        if x == newName {
          assert t.categories[i] == newName;
        }
      }
    }
    forall c ensures c in Orphans(t.documents, t.categories) <==> c in Orphans(s.documents, s.categories) - {Some(newName)} {
      OrphansExactly(t.documents, t.categories, c);
      OrphansExactly(s.documents, s.categories, c);
      if c in Orphans(s.documents, s.categories) - {Some(newName)} {
        var p :| p in s.documents && s.documents[p].category == c;
        assert c != Some(oldName);
        assert t.documents[p].category == c;
      }
    }
  }

  /** Renaming `a` to a name `b` that is neither declared nor used, and then
      `b` back to `a`, is allowed and restores the state. */
  lemma RenameRoundTrip(s: State, a: string, b: string)
    requires a in s.categories && b !in s.categories && NoDuplicates(s.categories)
    requires MembersOf(s.documents, b) == {}
    ensures var t := Renamed(s, a, b);
      b in t.categories && a !in t.categories && Renamed(t, b, a) == s
  {
    var i := IndexOf(s.categories, a);
    RenameFacts(s, i, b);
    var t := Renamed(s, a, b);
    assert IndexOf(t.categories, b) == i;
    var u := Renamed(t, b, a);
    assert u.categories == s.categories;
    assert u.documents == s.documents by {
      forall p | p in s.documents ensures u.documents[p] == s.documents[p] {
        assert p !in MembersOf(s.documents, b);
      }
    }
  }

  /** A delete cuts the name out of the list, keeping the order of the
      others, drops the name (when the list was duplicate-free), and moves
      its documents to the catch-all. */
  lemma DeleteFacts(s: State, name: string)
    requires name in s.categories && NoDuplicates(s.categories)
    ensures var t := Deleted(s, name); var i := IndexOf(s.categories, name);
      t.categories == s.categories[..i] + s.categories[i + 1..]
      && |t.categories| == |s.categories| - 1 && name !in t.categories && NoDuplicates(t.categories)
      && (forall c :: c in s.categories && c != name ==> c in t.categories)
      && t.documents.Keys == s.documents.Keys
      && (name != CatchAll ==> MembersOf(t.documents, name) == {})
      && MembersOf(t.documents, CatchAll) == MembersOf(s.documents, CatchAll) + MembersOf(s.documents, name)
  {
    RemoveFirstSplices(s.categories, name);
  }

  /** When the catch-all is declared, a delete creates no orphan: the
      orphans stay exactly as they were. */
  lemma DeleteKeepsOrphans(s: State, name: string)
    requires name in s.categories && NoDuplicates(s.categories)
    requires CatchAll in s.categories && name != CatchAll
    ensures Orphans(Deleted(s, name).documents, Deleted(s, name).categories) == Orphans(s.documents, s.categories)
  {
    var t := Deleted(s, name);
    DeleteFacts(s, name);
    forall c ensures c in Orphans(t.documents, t.categories) <==> c in Orphans(s.documents, s.categories) {
      OrphansExactly(t.documents, t.categories, c);
      OrphansExactly(s.documents, s.categories, c);
      if c in Orphans(s.documents, s.categories) {
        var p :| p in s.documents && s.documents[p].category == c;
        assert t.documents[p].category == c;
      }
      if c in Orphans(t.documents, t.categories) {
        var p :| p in t.documents && t.documents[p].category == c;
        assert c != Some(CatchAll);
        assert s.documents[p].category == c;
      }
    }
  }

  /** The catch-all is not added back when it is missing: deleting a
      category that has documents then leaves them in an orphaned "Junk". */
  lemma DeleteWithoutCatchAllOrphans(s: State, name: string, p: string)
    requires name in s.categories && CatchAll !in s.categories
    requires p in s.documents && InCategory(s.documents[p], name)
    ensures Some(CatchAll) in Orphans(Deleted(s, name).documents, Deleted(s, name).categories)
  {
    var t := Deleted(s, name);
    assert CatchAll !in t.categories;
    assert t.documents[p].category == Some(CatchAll);
    OrphansExactly(t.documents, t.categories, Some(CatchAll));
  }

  // ------------------------------------------------------------ main

  datatype Command =
    | NoCommand
    | List
    | AddName(name: string)
    | MoveFile(file: string, category: string)
    | RenameName(oldName: string, newName: string)
    | DeleteName(name: string)

  /** `main`: `stored` is the state file (`None` when absent) and `keys`
      the order of its documents. Listing writes nothing. */
  method CategoriesMain(docDirExists: bool, stored: Option<State>, keys: seq<string>, cmd: Command)
    returns (out: Outcome)
    requires stored.Some? ==> Enumerates(keys, stored.value.documents)
    ensures cmd.NoCommand? ==> out == Outcome(0, None)
    ensures !cmd.NoCommand? && (!docDirExists || stored.None?) ==> out == Outcome(1, None)
    ensures cmd.List? ==> out.saved.None?
    ensures out.exitCode == 0 || out.exitCode == 1
    ensures !cmd.List? ==> (out.saved.None? <==> out.exitCode == 1 || cmd.NoCommand?)
    ensures docDirExists && stored.Some? ==> match cmd
      case AddName(n) => out == (if n in stored.value.categories then Outcome(1, None) else Outcome(0, Some(Added(stored.value, n))))
      case RenameName(o, n) => out == (if o in stored.value.categories && n !in stored.value.categories
          then Outcome(0, Some(Renamed(stored.value, o, n))) else Outcome(1, None))
      case DeleteName(n) => out == (if n in stored.value.categories
          then Outcome(0, Some(Deleted(stored.value, n))) else Outcome(1, None))
      case MoveFile(f, c) => out == (if f in stored.value.documents && c in stored.value.categories
          then Outcome(0, Some(Moved(stored.value, f, c))) else Outcome(1, None))
      case _ => true
  {
    if cmd.NoCommand? {
      return Outcome(0, None);
    }
    if !docDirExists || stored.None? {
      return Outcome(1, None);
    }
    var s := stored.value;
    var count: nat;
    match cmd
    case List => out := Outcome(0, None);
    case AddName(n) => out := Add(s, n);
    case MoveFile(f, c) => out := Move(s, f, c);
    case RenameName(o, n) => out, count := Rename(s, keys, o, n);
    case DeleteName(n) => out, count := Delete(s, keys, n);
  }
}
