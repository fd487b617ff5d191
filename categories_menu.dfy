/** The interactive category manager. The terminal is a sequence of typed
    lines: each dialog reads the lines it prompts for from the front and
    hands back the rest, and running out of lines is the `EOFError` that
    ends the program with status 1. Each dialog is a function on states
    (`None` when the input runs out); the dialogs whose source loops over
    documents, and the menu loop itself, are methods proved equal to those
    functions. */
module CategoriesMenu {
  import opened Strings
  import opened DmsState
  import opened Order
  import opened Categories

  /** What a dialog leaves behind: the state, whether it reported a change
      (its `True`/`False` result) and the lines not yet read. */
  datatype Step = Step(state: State, changed: bool, rest: seq<string>)

  /** How the program ends: its exit status and the state written, if any. */
  datatype MenuEnd = MenuEnd(exitCode: int, saved: Option<State>)

  /** A dialog keeps the set of documents and the metadata, and one that
      reports no change keeps the whole state. */
  predicate Keeps(s: State, st: Step) {
    st.state.documents.Keys == s.documents.Keys && st.state.metadata == s.metadata
    && (!st.changed ==> st.state == s)
  }

  /** A `[y/N]` answer: only "y", ignoring case and surrounding blanks, is yes. */
  predicate Yes(line: string) {
    Lower(Strip(line)) == "y"
  }

  /** A 1-based number typed for a list of `n` entries, as a 0-based index;
      `None` for text that is not a number (the `ValueError` case) and for
      a number out of range, which the source treats alike. */
  function PickIndex(line: string, n: nat): (r: Option<nat>)
    ensures r.Some? ==> r.value < n && ParseInt(line) == Some(r.value + 1)
    ensures r.None? ==> ParseInt(line).None? || ParseInt(line).value < 1 || ParseInt(line).value > n
  {
    match ParseInt(line)
    case None => None
    case Some(k) => if 1 <= k <= n then Some(k - 1) else None
  }

  // ------------------------------------------------------------ similar names

  /** `check_similar_names`' test: one lower-cased name contains the other
      and they are not the same. */
  predicate Similar(name: string, existing: string) {
    var a := Lower(name);
    var b := Lower(existing);
    (Contains(b, a) || Contains(a, b)) && a != b
  }

  /** The first declared category the new name is similar to; the warning
      names it. */
  function FirstSimilar(name: string, cats: seq<string>): Option<string>
    decreases |cats|
  {
    if |cats| == 0 then None
    else if Similar(name, cats[0]) then Some(cats[0])
    else FirstSimilar(name, cats[1..])
  }

  /** There is a warning exactly when some declared name is similar, and it
      names the first such. */
  lemma {:induction false} FirstSimilarSpec(name: string, cats: seq<string>)
    ensures FirstSimilar(name, cats).Some? ==>
      FirstSimilar(name, cats).value in cats && Similar(name, FirstSimilar(name, cats).value)
    ensures forall i :: (0 <= i < |cats| && Similar(name, cats[i]) && (forall j :: 0 <= j < i ==> !Similar(name, cats[j]))
      ==> FirstSimilar(name, cats) == Some(cats[i]))
    ensures FirstSimilar(name, cats).None? <==> forall c :: c in cats ==> !Similar(name, c)
    decreases |cats|
  {
    if |cats| > 0 {
      FirstSimilarSpec(name, cats[1..]);
      if !Similar(name, cats[0]) {
        forall i | 0 < i < |cats| && Similar(name, cats[i]) && (forall j :: 0 <= j < i ==> !Similar(name, cats[j]))
          ensures FirstSimilar(name, cats) == Some(cats[i])
        {
          assert cats[1..][i - 1] == cats[i];
          forall j | 0 <= j < i - 1 ensures !Similar(name, cats[1..][j]) {
            assert cats[1..][j] == cats[j + 1];
          }
        }
        assert cats == [cats[0]] + cats[1..];
      }
    }
  }

  /** The naming tips recommend names such as "Archived-Workflows" beside
      "Workflows", yet any name made by prefixing a declared one draws the
      warning, since the longer name contains the shorter. */
  lemma PrefixedNameWarns(prefix: string, existing: string)
    requires |prefix| > 0
    ensures FirstSimilar(prefix + existing, [existing]) == Some(existing)
  {
    var a := Lower(prefix + existing);
    var b := Lower(existing);
    assert a[|prefix|..|prefix| + |b|] == b;
    assert OccursAt(a, b, |prefix|);
    assert |a| != |b|;
  }

  // ------------------------------------------------------------ add, rename, delete

  /** `add_category`: a blank name cancels, an existing one is refused, a
      similar one needs a "y"; otherwise the name is appended. */
  function AddDialog(s: State, input: seq<string>): (r: Option<Step>)
    ensures r.Some? ==> |r.value.rest| < |input| && Keeps(s, r.value)
  {
    if |input| == 0 then None
    else
      var name := Strip(input[0]);
      if name == "" || name in s.categories then Some(Step(s, false, input[1..]))
      else if FirstSimilar(name, s.categories).None? then Some(Step(Added(s, name), true, input[1..]))
      else if |input| < 2 then None
      else if Yes(input[1]) then Some(Step(Added(s, name), true, input[2..]))
      else Some(Step(s, false, input[2..]))
  }

  /** `rename_category`: the entry is chosen by number; a blank or existing
      new name is refused, a similar one needs a "y". */
  function RenameDialog(s: State, input: seq<string>): (r: Option<Step>)
    ensures r.Some? ==> |r.value.rest| < |input| && Keeps(s, r.value)
  {
    if |input| == 0 then None
    else match PickIndex(input[0], |s.categories|)
      case None => Some(Step(s, false, input[1..]))
      case Some(i) =>
        if |input| < 2 then None
        else
          var name := Strip(input[1]);
          if name == "" || name in s.categories then Some(Step(s, false, input[2..]))
          else if FirstSimilar(name, s.categories).None? then Some(Step(RenamedAt(s, i, name), true, input[2..]))
          else if |input| < 3 then None
          else if Yes(input[2]) then Some(Step(RenamedAt(s, i, name), true, input[3..]))
          else Some(Step(s, false, input[3..]))
  }

  /** `delete_category`: the entry is chosen by number and needs a "y". */
  function DeleteDialog(s: State, input: seq<string>): (r: Option<Step>)
    ensures r.Some? ==> |r.value.rest| < |input| && Keeps(s, r.value)
  {
    if |input| == 0 then None
    else match PickIndex(input[0], |s.categories|)
      case None => Some(Step(s, false, input[1..]))
      case Some(i) =>
        if |input| < 2 then None
        else if Yes(input[1]) then Some(Step(Deleted(s, s.categories[i]), true, input[2..]))
        else Some(Step(s, false, input[2..]))
  }

  /** Adding keeps the list duplicate-free; a blank or declared name is
      refused without touching the state. */
  lemma AddDialogFacts(s: State, input: seq<string>)
    requires |input| > 0 && NoDuplicates(s.categories)
    ensures var name := Strip(input[0]);
      (name == "" || name in s.categories ==> AddDialog(s, input) == Some(Step(s, false, input[1..])))
      && (AddDialog(s, input).Some? && AddDialog(s, input).value.changed ==>
            AddDialog(s, input).value.state == Added(s, name) && name != ""
            && NoDuplicates(AddDialog(s, input).value.state.categories))
  {
    var name := Strip(input[0]);
    if name != "" && name !in s.categories {
      AddFacts(s, name);
    }
  }

  /** Renaming keeps the list duplicate-free and only ever puts a new,
      non-blank name at the chosen position. */
  lemma RenameDialogFacts(s: State, input: seq<string>)
    requires NoDuplicates(s.categories)
    ensures var r := RenameDialog(s, input);
      r.Some? && r.value.changed ==>
        |input| >= 2 && Strip(input[1]) != "" && Strip(input[1]) !in s.categories
        && PickIndex(input[0], |s.categories|).Some?
        && r.value.state == RenamedAt(s, PickIndex(input[0], |s.categories|).value, Strip(input[1]))
        && NoDuplicates(r.value.state.categories)
  {
    var r := RenameDialog(s, input);
    if r.Some? && r.value.changed {
      RenameFacts(s, PickIndex(input[0], |s.categories|).value, Strip(input[1]));
    }
  }

  /** Deleting happens only after a `y`; it is the chosen category's delete
      (documents to the catch-all, the name cut out of the list with the
      others kept in order), keeps the list duplicate-free and removes the
      chosen name. */
  lemma DeleteDialogFacts(s: State, input: seq<string>)
    requires NoDuplicates(s.categories)
    ensures var r := DeleteDialog(s, input);
      r.Some? && r.value.changed ==>
        |input| >= 2 && Yes(input[1]) && PickIndex(input[0], |s.categories|).Some?
        && var i := PickIndex(input[0], |s.categories|).value;
        r.value.state == Deleted(s, s.categories[i])
        && r.value.state.categories == s.categories[..i] + s.categories[i + 1..]
        && s.categories[i] !in r.value.state.categories
        && |r.value.state.categories| == |s.categories| - 1
        && NoDuplicates(r.value.state.categories)
  {
    var r := DeleteDialog(s, input);
    if r.Some? && r.value.changed {
      var i := PickIndex(input[0], |s.categories|).value;
      assert IndexOf(s.categories, s.categories[i]) == i;
      DeleteFacts(s, s.categories[i]);
    }
  }

  /** `rename_category`, with the document loop. */
  method RenameCategory(s: State, keys: seq<string>, input: seq<string>) returns (r: Option<Step>)
    requires Enumerates(keys, s.documents)
    ensures r == RenameDialog(s, input)
  {
    if |input| == 0 {
      return None;
    }
    var choice := PickIndex(input[0], |s.categories|);
    if choice.None? {
      return Some(Step(s, false, input[1..]));
    }
    if |input| < 2 {
      return None;
    }
    var name := Strip(input[1]);
    if name == "" || name in s.categories {
      return Some(Step(s, false, input[2..]));
    }
    var rest := input[2..];
    if FirstSimilar(name, s.categories).Some? {
      if |input| < 3 {
        return None;
      }
      if !Yes(input[2]) {
        return Some(Step(s, false, input[3..]));
      }
      rest := input[3..];
    }
    var oldName := s.categories[choice.value];
    var categories := s.categories[choice.value := name];
    var docs, updated := ReassignLoop(s.documents, keys, oldName, name);
    r := Some(Step(State(s.metadata, categories, docs), true, rest));
  }

  /** `delete_category`, with the document loop. */
  method DeleteCategory(s: State, keys: seq<string>, input: seq<string>) returns (r: Option<Step>)
    requires Enumerates(keys, s.documents)
    ensures r == DeleteDialog(s, input)
  {
    if |input| == 0 {
      return None;
    }
    var choice := PickIndex(input[0], |s.categories|);
    if choice.None? {
      return Some(Step(s, false, input[1..]));
    }
    if |input| < 2 {
      return None;
    }
    if !Yes(input[1]) {
      return Some(Step(s, false, input[2..]));
    }
    var name := s.categories[choice.value];
    var docs, moved := ReassignLoop(s.documents, keys, name, CatchAll);
    var categories := RemoveFirst(s.categories, name);
    r := Some(Step(State(s.metadata, categories, docs), true, input[2..]));
  }

  // ------------------------------------------------------------ viewing and moving files

  /** The documents of `cat` in dictionary order (`docs_in_cat`). */
  function InCategoryOrder(keys: seq<string>, docs: map<string, Doc>, cat: string): (r: seq<string>)
    ensures forall p :: p in r ==> p in docs && InCategory(docs[p], cat)
    ensures |r| <= |keys|
  {
    if |keys| == 0 then []
    else if keys[0] in docs && InCategory(docs[keys[0]], cat) then [keys[0]] + InCategoryOrder(keys[1..], docs, cat)
    else InCategoryOrder(keys[1..], docs, cat)
  }

  /** Over a dictionary order, the list holds every member, once each. */
  lemma {:induction false} InCategoryOrderComplete(keys: seq<string>, docs: map<string, Doc>, cat: string)
    ensures forall p :: p in keys && p in docs && InCategory(docs[p], cat) ==> p in InCategoryOrder(keys, docs, cat)
    ensures NoDuplicates(keys) ==> NoDuplicates(InCategoryOrder(keys, docs, cat))
    decreases |keys|
  {
    if |keys| > 0 {
      InCategoryOrderComplete(keys[1..], docs, cat);
      assert forall p :: p in keys ==> p == keys[0] || p in keys[1..];
      if NoDuplicates(keys) {
        assert keys[0] !in keys[1..];
        var tail := InCategoryOrder(keys[1..], docs, cat);
        assert forall p :: p in tail ==> p in keys[1..] by {
          InCategoryOrderWithin(keys[1..], docs, cat);
        }
      }
    }
  }

  lemma {:induction false} InCategoryOrderWithin(keys: seq<string>, docs: map<string, Doc>, cat: string)
    ensures forall p :: p in InCategoryOrder(keys, docs, cat) ==> p in keys
    decreases |keys|
  {
    if |keys| > 0 {
      InCategoryOrderWithin(keys[1..], docs, cat);
    }
  }

  /** `sorted(docs_in_cat)`: the pairs compare by path first, and paths are
      distinct keys, so this is the paths in string order. */
  function ByPath(paths: seq<string>): (r: seq<string>)
    ensures multiset(r) == multiset(paths) && |r| == |paths|
  {
    SortBy(paths, (p: string) => p)
  }

  lemma ByPathSorted(paths: seq<string>)
    ensures forall i, j :: 0 <= i < j < |ByPath(paths)| ==> StrLe(ByPath(paths)[i], ByPath(paths)[j])
    ensures forall p :: p in ByPath(paths) <==> p in paths
  {
    SortBySorted(paths, (p: string) => p);
    var r := ByPath(paths);
    forall p ensures p in r <==> p in paths {
      assert p in r <==> p in multiset(r);
      assert p in paths <==> p in multiset(paths);
    }
  }

  /** The documents with every path in `paths` moved to `target`. */
  function MovedAll(docs: map<string, Doc>, paths: seq<string>, target: string): (r: map<string, Doc>)
    ensures r.Keys == docs.Keys
  {
    map p | p in docs :: if p in paths then docs[p].(category := Some(target)) else docs[p]
  }

  function MoveAll(s: State, paths: seq<string>, target: string): (r: State) {
    s.(documents := MovedAll(s.documents, paths, target))
  }

  /** Moving every member of a category is the document half of a rename:
      each document of `from` goes to `to` and no other changes. */
  lemma MoveAllIsReassign(keys: seq<string>, docs: map<string, Doc>, from: string, to: string)
    requires Enumerates(keys, docs)
    ensures MovedAll(docs, InCategoryOrder(keys, docs, from), to) == Reassign(docs, from, to)
  {
    InCategoryOrderComplete(keys, docs, from);
  }

  lemma MoveStep(docs: map<string, Doc>, paths: seq<string>, i: nat, target: string, r: map<string, Doc>)
    requires i < |paths| && paths[i] in docs && r == MovedAll(docs, paths[..i], target)
    ensures r[paths[i] := r[paths[i]].(category := Some(target))] == MovedAll(docs, paths[..i + 1], target)
  {
    assert paths[..i + 1] == paths[..i] + [paths[i]];
  }

  /** `for file_path in matching: documents[file_path]['category'] = target_cat`. */
  method MoveLoop(docs: map<string, Doc>, paths: seq<string>, target: string) returns (r: map<string, Doc>)
    requires forall p :: p in paths ==> p in docs
    ensures r == MovedAll(docs, paths, target)
  {
    r := docs;
    var i := 0;
    assert paths[..0] == [];
    while i < |paths|
      invariant 0 <= i <= |paths|
      invariant r == MovedAll(docs, paths[..i], target)
    {
      MoveStep(docs, paths, i, target, r);
      r := r[paths[i] := r[paths[i]].(category := Some(target))];
      i := i + 1;
    }
    WholePrefix(paths);
  }

  /** `[int(x.strip()) - 1 for x in pieces]`; one piece that is not a
      number fails the whole selection. */
  function ParseIndices(pieces: seq<string>): (r: Option<seq<int>>)
    ensures r.Some? ==> |r.value| == |pieces| && forall k :: 0 <= k < |pieces| ==> ParseInt(pieces[k]) == Some(r.value[k] + 1)
    ensures r.None? ==> exists k :: 0 <= k < |pieces| && ParseInt(pieces[k]).None?
  {
    if |pieces| == 0 then Some([])
    else match (ParseInt(pieces[0]), ParseIndices(pieces[1..]))
      case (Some(n), Some(ns)) => Some([n - 1] + ns)
      case (None, _) => None
      case (_, None) =>
        var k :| 0 <= k < |pieces[1..]| && ParseInt(pieces[1..][k]).None?;
        assert ParseInt(pieces[k + 1]).None?;
        None
  }

  /** The paths at the indices in range, in the order typed, repeats kept. */
  function PickPaths(indices: seq<int>, sorted: seq<string>): (r: seq<string>)
    ensures |r| <= |indices| && forall p :: p in r ==> p in sorted
    ensures (forall k :: 0 <= k < |indices| ==> 0 <= indices[k] < |sorted|) ==>
      |r| == |indices| && forall k :: 0 <= k < |indices| ==> r[k] == sorted[indices[k]]
  {
    if |indices| == 0 then []
    else
      var rest := PickPaths(indices[1..], sorted);
      if 0 <= indices[0] < |sorted| then
        assert forall k :: 1 <= k < |indices| ==> indices[1..][k - 1] == indices[k];
        [sorted[indices[0]]] + rest
      else rest
  }

  /** The files a selection line names: "all" is every member in dictionary
      order, otherwise comma-separated numbers into the list sorted by path.
      `None` is the "Invalid selection format" case. */
  function Selection(sel: string, members: seq<string>): (r: Option<seq<string>>)
    ensures r.Some? ==> forall p :: p in r.value ==> p in members
  {
    if sel == "all" then Some(members)
    else match ParseIndices(SplitOn(sel, ','))
      case None => None
      case Some(ix) =>
        ByPathSorted(members);
        Some(PickPaths(ix, ByPath(members)))
  }

  /** Option 1: one file, chosen by number in path order, to a category
      chosen by number. */
  function MoveOneDialog(s: State, sorted: seq<string>, input: seq<string>): (r: Option<Step>)
    requires forall p :: p in sorted ==> p in s.documents
    ensures r.Some? ==> |r.value.rest| < |input| && Keeps(s, r.value) && r.value.state.categories == s.categories
  {
    if |input| == 0 then None
    else match PickIndex(input[0], |sorted|)
      case None => Some(Step(s, false, input[1..]))
      case Some(f) =>
        if |input| < 2 then None
        else match PickIndex(input[1], |s.categories|)
          case None => Some(Step(s, false, input[2..]))
          case Some(t) => Some(Step(Moved(s, sorted[f], s.categories[t]), true, input[2..]))
  }

  /** Option 2: a selection ("none" or blank cancels), a "y", then the
      target. Moving to the category the files are already in is not
      refused here. */
  function MoveSomeDialog(s: State, members: seq<string>, input: seq<string>): (r: Option<Step>)
    requires forall p :: p in members ==> p in s.documents
    ensures r.Some? ==> |r.value.rest| < |input| && Keeps(s, r.value) && r.value.state.categories == s.categories
  {
    if |input| == 0 then None
    else
      var sel := Lower(Strip(input[0]));
      if sel == "none" || sel == "" then Some(Step(s, false, input[1..]))
      else match Selection(sel, members)
        case None => Some(Step(s, false, input[1..]))
        case Some(m) =>
          if |m| == 0 then Some(Step(s, false, input[1..]))
          else if |input| < 2 then None
          else if !Yes(input[1]) then Some(Step(s, false, input[2..]))
          else if |input| < 3 then None
          else match PickIndex(input[2], |s.categories|)
            case None => Some(Step(s, false, input[3..]))
            case Some(t) => Some(Step(MoveAll(s, m, s.categories[t]), true, input[3..]))
  }

  /** Option 3: every member to a target chosen by number, refused when the
      target is the category itself, then a "y". */
  function MoveAllDialog(s: State, members: seq<string>, selected: string, input: seq<string>): (r: Option<Step>)
    ensures r.Some? ==> |r.value.rest| < |input| && Keeps(s, r.value) && r.value.state.categories == s.categories
  {
    if |input| == 0 then None
    else match PickIndex(input[0], |s.categories|)
      case None => Some(Step(s, false, input[1..]))
      case Some(t) =>
        if s.categories[t] == selected then Some(Step(s, false, input[1..]))
        else if |input| < 2 then None
        else if Yes(input[1]) then Some(Step(MoveAll(s, members, s.categories[t]), true, input[2..]))
        else Some(Step(s, false, input[2..]))
  }

  /** `list_files_for_category`: a category chosen by number, nothing to do
      when it is empty, then one of the three moves or back. */
  function ViewDialog(s: State, keys: seq<string>, input: seq<string>): (r: Option<Step>)
    ensures r.Some? ==> |r.value.rest| < |input| && Keeps(s, r.value) && r.value.state.categories == s.categories
  {
    if |input| == 0 then None
    else match PickIndex(input[0], |s.categories|)
      case None => Some(Step(s, false, input[1..]))
      case Some(c) =>
        var selected := s.categories[c];
        var members := InCategoryOrder(keys, s.documents, selected);
        if |members| == 0 then Some(Step(s, false, input[1..]))
        else if |input| < 2 then None
        else
          var action := Strip(input[1]);
          if action == "1" then
            ByPathSorted(members);
            MoveOneDialog(s, ByPath(members), input[2..])
          else if action == "2" then MoveSomeDialog(s, members, input[2..])
          else if action == "3" then MoveAllDialog(s, members, selected, input[2..])
          else Some(Step(s, false, input[2..]))
  }

  /** A move of every member that reports a change really changes the
      documents: the refusal of the category's own name is what makes the
      change flag truthful. */
  lemma MoveAllDialogChanges(s: State, members: seq<string>, selected: string, input: seq<string>)
    requires |members| > 0 && forall p :: p in members ==> p in s.documents && InCategory(s.documents[p], selected)
    ensures var r := MoveAllDialog(s, members, selected, input);
      r.Some? && r.value.changed ==> r.value.state.documents != s.documents
  {
    var r := MoveAllDialog(s, members, selected, input);
    if r.Some? && r.value.changed {
      var p := members[0];
      assert r.value.state.documents[p].category != s.documents[p].category;
    }
  }

  /** A selection only ever names files of the category being viewed. */
  lemma SelectionWithinCategory(s: State, keys: seq<string>, cat: string, sel: string)
    ensures var members := InCategoryOrder(keys, s.documents, cat);
      Selection(sel, members).Some? ==>
        forall p :: p in Selection(sel, members).value ==> p in s.documents && InCategory(s.documents[p], cat)
  {
  }

  /** Option 2 with the move loop. */
  method MoveSome(s: State, members: seq<string>, input: seq<string>) returns (r: Option<Step>)
    requires forall p :: p in members ==> p in s.documents
    ensures r == MoveSomeDialog(s, members, input)
  {
    if |input| == 0 {
      return None;
    }
    var sel := Lower(Strip(input[0]));
    if sel == "none" || sel == "" {
      return Some(Step(s, false, input[1..]));
    }
    var matching := Selection(sel, members);
    if matching.None? || |matching.value| == 0 {
      return Some(Step(s, false, input[1..]));
    }
    if |input| < 2 {
      return None;
    }
    if !Yes(input[1]) {
      return Some(Step(s, false, input[2..]));
    }
    if |input| < 3 {
      return None;
    }
    var target := PickIndex(input[2], |s.categories|);
    if target.None? {
      return Some(Step(s, false, input[3..]));
    }
    var docs := MoveLoop(s.documents, matching.value, s.categories[target.value]);
    r := Some(Step(s.(documents := docs), true, input[3..]));
  }

  /** Option 3 with the move loop. */
  method MoveEvery(s: State, members: seq<string>, selected: string, input: seq<string>) returns (r: Option<Step>)
    requires forall p :: p in members ==> p in s.documents
    ensures r == MoveAllDialog(s, members, selected, input)
  {
    if |input| == 0 {
      return None;
    }
    var target := PickIndex(input[0], |s.categories|);
    if target.None? || s.categories[target.value] == selected {
      return Some(Step(s, false, input[1..]));
    }
    if |input| < 2 {
      return None;
    }
    if !Yes(input[1]) {
      return Some(Step(s, false, input[2..]));
    }
    var docs := MoveLoop(s.documents, members, s.categories[target.value]);
    r := Some(Step(s.(documents := docs), true, input[2..]));
  }

  /** `list_files_for_category`. */
  method ListFilesForCategory(s: State, keys: seq<string>, input: seq<string>) returns (r: Option<Step>)
    ensures r == ViewDialog(s, keys, input)
  {
    if |input| == 0 {
      return None;
    }
    var choice := PickIndex(input[0], |s.categories|);
    if choice.None? {
      return Some(Step(s, false, input[1..]));
    }
    var selected := s.categories[choice.value];
    var members := InCategoryOrder(keys, s.documents, selected);
    if |members| == 0 {
      return Some(Step(s, false, input[1..]));
    }
    if |input| < 2 {
      return None;
    }
    var action := Strip(input[1]);
    if action == "1" {
      ByPathSorted(members);
      r := MoveOneDialog(s, ByPath(members), input[2..]);
    } else if action == "2" {
      r := MoveSome(s, members, input[2..]);
    } else if action == "3" {
      r := MoveEvery(s, members, selected, input[2..]);
    } else {
      r := Some(Step(s, false, input[2..]));
    }
  }

  // ------------------------------------------------------------ the menu

  /** After a dialog, the "Press Enter" line; the session goes on with the
      flag raised when the dialog reported a change. */
  function AfterDialog(s: State, keys: seq<string>, r: Option<Step>, changed: bool, input: seq<string>, pause: bool): (e: MenuEnd)
    requires Enumerates(keys, s.documents)
    requires r.Some? ==> |r.value.rest| < |input| && Keeps(s, r.value)
    decreases |input|, 0
  {
    match r
    case None => MenuEnd(1, None)
    case Some(st) =>
      if !pause then Session(st.state, keys, st.rest, changed || st.changed)
      else if |st.rest| == 0 then MenuEnd(1, None)
      else Session(st.state, keys, st.rest[1..], changed || st.changed)
  }

  /** `interactive_menu` from state `s` with the flag `changed`: "6" writes
      the state if anything changed, "7" leaves without writing (asking
      first when something changed), and running out of lines ends with
      status 1 and nothing written. */
  function Session(s: State, keys: seq<string>, input: seq<string>, changed: bool): (e: MenuEnd)
    requires Enumerates(keys, s.documents)
    decreases |input|, 1
  {
    if |input| == 0 then MenuEnd(1, None)
    else
      var choice := Strip(input[0]);
      var rest := input[1..];
      if choice == "1" then
        if |rest| == 0 then MenuEnd(1, None) else Session(s, keys, rest[1..], changed)
      else if choice == "2" then
        var r := ViewDialog(s, keys, rest);
        AfterDialog(s, keys, r, changed, rest, r.Some? && r.value.changed)
      else if choice == "3" then AfterDialog(s, keys, AddDialog(s, rest), changed, rest, true)
      else if choice == "4" then AfterDialog(s, keys, RenameDialog(s, rest), changed, rest, true)
      else if choice == "5" then AfterDialog(s, keys, DeleteDialog(s, rest), changed, rest, true)
      else if choice == "6" then MenuEnd(0, if changed then Some(s) else None)
      else if choice == "7" then
        if !changed then MenuEnd(0, None)
        else if |rest| == 0 then MenuEnd(1, None)
        else if Yes(rest[0]) then MenuEnd(0, None)
        else Session(s, keys, rest[1..], changed)
      else Session(s, keys, rest, changed)
  }

  /** `interactive_menu` as the loop it is. */
  method InteractiveMenu(s: State, keys: seq<string>, input: seq<string>) returns (e: MenuEnd)
    requires Enumerates(keys, s.documents)
    ensures e == Session(s, keys, input, false)
  {
    var state := s;
    var changed := false;
    var rest := input;
    while true
      invariant Enumerates(keys, state.documents)
      invariant Session(s, keys, input, false) == Session(state, keys, rest, changed)
      decreases |rest|
    {
      if |rest| == 0 {
        return MenuEnd(1, None);
      }
      var choice := Strip(rest[0]);
      var line := rest[1..];
      var r: Option<Step>;
      var pause := true;
      if choice == "1" {
        r := Some(Step(state, false, line));
      } else if choice == "2" {
        r := ListFilesForCategory(state, keys, line);
        pause := r.Some? && r.value.changed;
      } else if choice == "3" {
        r := AddDialog(state, line);
      } else if choice == "4" {
        r := RenameCategory(state, keys, line);
      } else if choice == "5" {
        r := DeleteCategory(state, keys, line);
      } else if choice == "6" {
        return MenuEnd(0, if changed then Some(state) else None);
      } else if choice == "7" {
        if !changed {
          return MenuEnd(0, None);
        }
        if |line| == 0 {
          return MenuEnd(1, None);
        }
        if Yes(line[0]) {
          return MenuEnd(0, None);
        }
        rest := line[1..];
        continue;
      } else {
        rest := line;
        continue;
      }
      if r.None? {
        return MenuEnd(1, None);
      }
      if pause && |r.value.rest| == 0 {
        return MenuEnd(1, None);
      }
      changed := changed || r.value.changed;
      state := r.value.state;
      rest := if pause then r.value.rest[1..] else r.value.rest;
    }
  }

  /** How any run ends: with status 0 or 1, writing only when it ends with
      0, and writing a state whose documents, metadata and freedom from
      duplicate categories are those of `s`. */
  predicate EndsWell(e: MenuEnd, s: State) {
    (e.exitCode == 0 || e.exitCode == 1)
    && (e.saved.Some? ==>
          e.exitCode == 0 && NoDuplicates(e.saved.value.categories)
          && e.saved.value.documents.Keys == s.documents.Keys && e.saved.value.metadata == s.metadata)
  }

  /** What a dialog leaves behind is a state the rest of the run can start from. */
  predicate DialogKeeps(s: State, r: Option<Step>, input: seq<string>) {
    r.Some? ==> |r.value.rest| < |input| && Keeps(s, r.value) && NoDuplicates(r.value.state.categories)
  }

  lemma AddDialogKeeps(s: State, input: seq<string>)
    requires NoDuplicates(s.categories)
    ensures DialogKeeps(s, AddDialog(s, input), input)
  {
    if |input| > 0 {
      AddDialogFacts(s, input);
    }
  }

  lemma RenameDialogKeeps(s: State, input: seq<string>)
    requires NoDuplicates(s.categories)
    ensures DialogKeeps(s, RenameDialog(s, input), input)
  {
    RenameDialogFacts(s, input);
  }

  lemma DeleteDialogKeeps(s: State, input: seq<string>)
    requires NoDuplicates(s.categories)
    ensures DialogKeeps(s, DeleteDialog(s, input), input)
  {
    DeleteDialogFacts(s, input);
  }

  lemma {:induction false} AfterDialogEndsWell(s: State, keys: seq<string>, r: Option<Step>, changed: bool, input: seq<string>, pause: bool)
    requires Enumerates(keys, s.documents) && NoDuplicates(s.categories) && DialogKeeps(s, r, input)
    ensures EndsWell(AfterDialog(s, keys, r, changed, input, pause), s)
    decreases |input|, 0
  {
    if r.Some? {
      var st := r.value;
      if !pause {
        SessionEndsWell(st.state, keys, st.rest, changed || st.changed);
      } else if |st.rest| > 0 {
        SessionEndsWell(st.state, keys, st.rest[1..], changed || st.changed);
      }
    }
  }

  /** Whatever is typed, the program ends with status 0 or 1, writes only
      when it ends with 0, and what it writes keeps the documents, the
      metadata and a duplicate-free category list. */
  lemma {:induction false} SessionEndsWell(s: State, keys: seq<string>, input: seq<string>, changed: bool)
    requires Enumerates(keys, s.documents) && NoDuplicates(s.categories)
    ensures EndsWell(Session(s, keys, input, changed), s)
    decreases |input|, 1
  {
    if |input| > 0 {
      var choice := Strip(input[0]);
      var rest := input[1..];
      if choice == "1" {
        if |rest| > 0 {
          SessionEndsWell(s, keys, rest[1..], changed);
        }
      } else if choice == "2" {
        var r := ViewDialog(s, keys, rest);
        AfterDialogEndsWell(s, keys, r, changed, rest, r.Some? && r.value.changed);
      } else if choice == "3" {
        AddDialogKeeps(s, rest);
        AfterDialogEndsWell(s, keys, AddDialog(s, rest), changed, rest, true);
      } else if choice == "4" {
        RenameDialogKeeps(s, rest);
        AfterDialogEndsWell(s, keys, RenameDialog(s, rest), changed, rest, true);
      } else if choice == "5" {
        DeleteDialogKeeps(s, rest);
        AfterDialogEndsWell(s, keys, DeleteDialog(s, rest), changed, rest, true);
      } else if choice == "6" {
      } else if choice == "7" {
        if changed && |rest| > 0 && !Yes(rest[0]) {
          SessionEndsWell(s, keys, rest[1..], changed);
        }
      } else {
        SessionEndsWell(s, keys, rest, changed);
      }
    }
  }

  /** Leaving with "7" never writes; with unsaved changes only a "y" leaves,
      any other answer returns to the menu. */
  lemma LeaveWithoutSaving(s: State, keys: seq<string>, input: seq<string>)
    requires Enumerates(keys, s.documents)
    requires |input| > 0 && Strip(input[0]) == "7"
    ensures Session(s, keys, input, false) == MenuEnd(0, None)
    ensures |input| > 1 && Yes(input[1]) ==> Session(s, keys, input, true) == MenuEnd(0, None)
    ensures |input| > 1 && !Yes(input[1]) ==> Session(s, keys, input, true) == Session(s, keys, input[2..], true)
  {
    if |input| > 1 {
      assert input[1..][1..] == input[2..];
    }
  }

  /** Saving with "6" writes the current state exactly when something changed. */
  lemma SaveOnlyChanges(s: State, keys: seq<string>, input: seq<string>, changed: bool)
    requires Enumerates(keys, s.documents)
    requires |input| > 0 && Strip(input[0]) == "6"
    ensures Session(s, keys, input, changed) == MenuEnd(0, if changed then Some(s) else None)
  {
  }

  /** `main`: `action` is the optional positional argument ("" when absent). */
  method InteractiveMain(docDirExists: bool, stored: Option<State>, keys: seq<string>, action: string, input: seq<string>)
    returns (e: MenuEnd)
    requires stored.Some? ==> Enumerates(keys, stored.value.documents)
    ensures !docDirExists || stored.None? ==> e == MenuEnd(1, None)
    ensures docDirExists && stored.Some? && action != "" ==> e == MenuEnd(if action == "list" then 0 else 1, None)
    ensures docDirExists && stored.Some? && action == "" ==> e == Session(stored.value, keys, input, false)
  {
    if !docDirExists || stored.None? {
      return MenuEnd(1, None);
    }
    if action != "" {
      return MenuEnd(if action == "list" then 0 else 1, None);
    }
    e := InteractiveMenu(stored.value, keys, input);
  }
}
