/** The persisted aggregate every stage reads and writes (`.dms_state.json`):
    metadata, the ordered category list and the documents keyed by path. */
module DmsState {
  import opened Strings

  /** The catch-all category that deletion and defaults fall back to. */
  const CatchAll: string := "Junk"

  /** A regular file on disk as the pipeline observes it: the hex SHA-256
      digest of its bytes (an oracle; hashing itself is not modelled), its
      decoded text, its size in bytes and its modification time already
      formatted as ISO 8601. */
  datatype FileInfo = FileInfo(digest: string, text: string, size: nat, mtime: string)

  /** The disk, keyed by path relative to the Doc directory without a leading "./". */
  type Disk = map<string, FileInfo>

  /** One `documents` entry. Every key of the JSON object is optional and
      `None` stands for an absent key; a key present with a JSON null is not
      represented (the model reads it as absent). */
  datatype Doc = Doc(
    hash: Option<string>,
    category: Option<string>,
    summary: Option<string>,
    summaryApproved: Option<bool>,
    title: Option<string>,
    fileMtime: Option<string>,
    readableVersion: Option<string>,
    lastProcessed: Option<string>)

  datatype Metadata = Metadata(created: Option<string>, lastScan: Option<string>, lastApply: Option<string>)

  datatype State = State(metadata: Metadata, categories: seq<string>, documents: map<string, Doc>)

  /** Python truthiness of an optional string: present and non-empty. */
  predicate Truthy(o: Option<string>) {
    o.Some? && o.value != ""
  }

  predicate NoDuplicates<T(==)>(xs: seq<T>) {
    forall i, j :: 0 <= i < j < |xs| ==> xs[i] != xs[j]
  }

  /** `sub` is `xs` with some elements left out, the rest in their order. */
  predicate IsSubsequence<T(==)>(sub: seq<T>, xs: seq<T>)
    decreases |xs|
  {
    |sub| == 0 || (|xs| > 0 && ((sub[0] == xs[0] && IsSubsequence(sub[1..], xs[1..])) || IsSubsequence(sub, xs[1..])))
  }

  lemma SubsequenceOfTail<T>(sub: seq<T>, xs: seq<T>)
    requires |xs| > 0 && IsSubsequence(sub, xs[1..])
    ensures IsSubsequence(sub, xs)
  {
  }

  lemma {:induction false} SubsequenceRefl<T>(xs: seq<T>)
    ensures IsSubsequence(xs, xs)
    decreases |xs|
  {
    if |xs| > 0 {
      SubsequenceRefl(xs[1..]);
    }
  }

  /** A subsequence stays one when the sequence grows at the end. */
  lemma {:induction false} SubsequenceExtend<T>(sub: seq<T>, xs: seq<T>, x: T)
    requires IsSubsequence(sub, xs)
    ensures IsSubsequence(sub, xs + [x])
    decreases |xs|
  {
    if |sub| > 0 {
      assert (xs + [x])[1..] == xs[1..] + [x];
      if sub[0] == xs[0] && IsSubsequence(sub[1..], xs[1..]) {
        SubsequenceExtend(sub[1..], xs[1..], x);
      } else {
        SubsequenceExtend(sub, xs[1..], x);
      }
    }
  }

  /** Both growing by the same element at the end keeps a subsequence. */
  lemma {:induction false} SubsequenceSnoc<T>(sub: seq<T>, xs: seq<T>, x: T)
    requires IsSubsequence(sub, xs)
    ensures IsSubsequence(sub + [x], xs + [x])
    decreases |xs|
  {
    if |sub| == 0 {
      if |xs| == 0 {
        assert ([x])[1..] == [];
      } else {
        assert (xs + [x])[1..] == xs[1..] + [x];
        SubsequenceSnoc(sub, xs[1..], x);
        assert sub + [x] == [x];
      }
    } else {
      assert (xs + [x])[1..] == xs[1..] + [x];
      assert (sub + [x])[1..] == sub[1..] + [x];
      if sub[0] == xs[0] && IsSubsequence(sub[1..], xs[1..]) {
        SubsequenceSnoc(sub[1..], xs[1..], x);
      } else {
        SubsequenceSnoc(sub, xs[1..], x);
      }
    }
  }

  /** Growing a sequence at the end, with or without the same element
      on the subsequence, keeps a subsequence. */
  lemma SubsequenceGrow<T>(sub: seq<T>, xs: seq<T>, x: T, keep: bool)
    requires IsSubsequence(sub, xs)
    ensures IsSubsequence(sub + if keep then [x] else [], xs + [x])
  {
    if keep {
      SubsequenceSnoc(sub, xs, x);
    } else {
      SubsequenceExtend(sub, xs, x);
      assert sub + [] == sub;
    }
  }


  /** `rest` is what is left of `s` after reading some of it from the front. */
  predicate IsSuffix<T(==)>(rest: seq<T>, s: seq<T>) {
    |rest| <= |s| && rest == s[|s| - |rest|..]
  }

  lemma DropIsSuffix<T>(s: seq<T>, k: nat)
    requires k <= |s|
    ensures IsSuffix(s[k..], s)
  {
  }

  lemma SuffixOfTailIsSuffix<T>(rest: seq<T>, s: seq<T>)
    requires |s| > 0 && IsSuffix(rest, s[1..])
    ensures IsSuffix(rest, s)
  {
    assert s[1..][|s| - 1 - |rest|..] == s[|s| - |rest|..];
  }


  /** `keys` lists every key of `m` exactly once: a dict's iteration order. */
  predicate Enumerates<V>(keys: seq<string>, m: map<string, V>) {
    NoDuplicates(keys) && (forall k :: k in keys ==> k in m) && (forall k :: k in m ==> k in keys)
  }

  /** A dict's key listing is as long as the dict. */
  lemma {:induction false} EnumeratesSize<V>(keys: seq<string>, m: map<string, V>)
    requires Enumerates(keys, m)
    ensures |keys| == |m|
    decreases |keys|
  {
    if |keys| == 0 {
      assert m.Keys == {};
    } else {
      var k := keys[|keys| - 1];
      var pre := keys[..|keys| - 1];
      assert keys == pre + [k];
      var m' := m - {k};
      assert k !in pre;
      assert NoDuplicates(pre);
      forall x | x in m' ensures x in pre {
        assert x in keys && x != k;
      }
      EnumeratesSize(pre, m');
      assert m'.Keys == m.Keys - {k};
    }
  }

  /** The keys a loop over `keys` has visited before position `i`. */
  function Visited(keys: seq<string>, i: nat): (r: set<string>)
    requires i <= |keys|
    ensures forall x :: x in r <==> x in keys[..i]
  {
    set x | x in keys[..i]
  }

  /** Visiting the next key of a listing without repeats adds a new key. */
  lemma VisitStep(keys: seq<string>, i: nat)
    requires NoDuplicates(keys) && i < |keys|
    ensures keys[i] !in Visited(keys, i)
    ensures Visited(keys, i + 1) == Visited(keys, i) + {keys[i]}
  {
    PrefixSnoc(keys, i);
  }

  /** A finished loop over a dict's keys has visited all of them. */
  lemma VisitAll<V>(keys: seq<string>, m: map<string, V>)
    requires Enumerates(keys, m)
    ensures Visited(keys, |keys|) == m.Keys
  {
    WholePrefix(keys);
  }

  /** `doc.get('category') == name`. */
  predicate InCategory(d: Doc, name: string) {
    d.category == Some(name)
  }

  /** The document map with every member of `from` moved to `to`, all other
      fields and documents untouched. */
  function Reassign(docs: map<string, Doc>, from: string, to: string): (r: map<string, Doc>)
    ensures r.Keys == docs.Keys
    ensures forall p :: p in docs ==> r[p] == (if InCategory(docs[p], from) then docs[p].(category := Some(to)) else docs[p])
  {
    map p | p in docs :: if InCategory(docs[p], from) then docs[p].(category := Some(to)) else docs[p]
  }

  /** The paths whose document is in category `name`. */
  function MembersOf(docs: map<string, Doc>, name: string): (s: set<string>)
    ensures forall p :: p in s <==> p in docs && InCategory(docs[p], name)
  {
    set p | p in docs && InCategory(docs[p], name)
  }

  /** Python's `list.remove(x)`: drop the first occurrence. */
  function RemoveFirst(xs: seq<string>, x: string): (r: seq<string>)
    requires x in xs
    ensures |r| == |xs| - 1
    ensures forall y :: y in r ==> y in xs
    ensures NoDuplicates(xs) ==> x !in r && NoDuplicates(r) && forall y :: y in xs && y != x ==> y in r
  {
    if xs[0] == x then xs[1..]
    else
      var rest := RemoveFirst(xs[1..], x);
      assert NoDuplicates(xs) ==> xs[0] !in xs[1..];
      [xs[0]] + rest
  }

  /** `list.remove` cuts out exactly the first occurrence: the elements
      before it and after it stay, in their order. */
  lemma {:induction false} RemoveFirstSplices(xs: seq<string>, x: string)
    requires x in xs
    ensures RemoveFirst(xs, x) == xs[..IndexOf(xs, x)] + xs[IndexOf(xs, x) + 1..]
  {
    if xs[0] != x {
      var t := xs[1..];
      var i := IndexOf(t, x);
      assert IndexOf(xs, x) == i + 1;
      assert RemoveFirst(xs, x) == [xs[0]] + RemoveFirst(t, x);
      RemoveFirstSplices(t, x);
      ConsSplice(xs[0], t, i);
      HeadTail(xs);
    }
  }


  /** Python's `list.index(x)`: the first position of `x`. */
  function IndexOf(xs: seq<string>, x: string): (i: nat)
    requires x in xs
    ensures i < |xs| && xs[i] == x && forall j :: 0 <= j < i ==> xs[j] != x
  {
    if xs[0] == x then 0 else 1 + IndexOf(xs[1..], x)
  }
}
