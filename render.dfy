/** The desktop renderer (`dms_render.py`): the documents of the state are
    grouped by category, each group is sorted by title, and one section is
    emitted per declared category. The HTML template around the sections is
    opaque text and is not modelled; a section is modelled by the values
    the template interpolates. The mobile renderer reuses the grouping
    defined here (its source repeats the same code). */
module Render {
  import opened Strings
  import opened DmsState
  import Order
  import ImageToText

  // ---------------------------------------------------------- html escape

  /** The characters `html.escape` replaces. */
  predicate Special(c: char) {
    c == '&' || c == '<' || c == '>' || c == '"' || c == '\''
  }

  function EscapeChar(c: char): string {
    if c == '&' then "&amp;"
    else if c == '<' then "&lt;"
    else if c == '>' then "&gt;"
    else if c == '"' then "&quot;"
    else if c == '\'' then "&#x27;"
    else [c]
  }

  /** `html.escape(s)` (with `quote=True`). */
  function Escape(s: string): string
    decreases |s|
  {
    if |s| == 0 then [] else Escape(s[..|s| - 1]) + EscapeChar(s[|s| - 1])
  }

  /** A suffix that escaping cannot create or destroy: no special character
      and no ';' (every entity ends with ';'). */
  predicate Plain(x: string) {
    forall c :: c in x ==> !Special(c) && c != ';'
  }

  lemma EndsWithSnoc(s: string, c: char, x: string)
    requires |x| > 0
    ensures EndsWith(s + [c], x) <==> x[|x| - 1] == c && EndsWith(s, x[..|x| - 1])
  {
    var t := s + [c];
    if EndsWith(t, x) {
      assert t[|t| - |x|..][|x| - 1] == c;
      assert s[|s| - (|x| - 1)..] == t[|t| - |x|..][..|x| - 1];
    }
    if x[|x| - 1] == c && EndsWith(s, x[..|x| - 1]) {
      assert t[|t| - |x|..] == s[|s| - (|x| - 1)..] + [c];
      assert x == x[..|x| - 1] + [c];
    }
  }

  lemma EndsWithLast(s: string, x: string)
    requires EndsWith(s, x) && |x| > 0
    ensures s[|s| - 1] == x[|x| - 1]
  {
    assert s[|s| - |x|..][|x| - 1] == s[|s| - 1];
  }

  /** Escaping keeps and never creates a plain ending: `s` ends with `x`
      exactly when `html.escape(s)` does. */
  lemma {:induction false} EscapeEndsWith(s: string, x: string)
    requires Plain(x)
    ensures EndsWith(Escape(s), x) <==> EndsWith(s, x)
    decreases |s|
  {
    if |x| == 0 || |s| == 0 {
    } else {
      var s' := s[..|s| - 1];
      var c := s[|s| - 1];
      assert s == s' + [c];
      if Special(c) {
        var e := EscapeChar(c);
        assert e[|e| - 1] == ';';
        assert Escape(s) == Escape(s') + e;
        assert Escape(s)[|Escape(s)| - 1] == ';';
        assert x[|x| - 1] in x;
        if EndsWith(Escape(s), x) {
          EndsWithLast(Escape(s), x);
        }
        if EndsWith(s, x) {
          EndsWithLast(s, x);
        }
      } else {
        assert Escape(s) == Escape(s') + [c];
        EndsWithSnoc(Escape(s'), c, x);
        EndsWithSnoc(s', c, x);
        assert forall c :: c in x[..|x| - 1] ==> c in x;
        EscapeEndsWith(s', x[..|x| - 1]);
      }
    }
  }

  lemma LowerAppend(a: string, b: string)
    ensures Lower(a + b) == Lower(a) + Lower(b)
  {
    assert forall i :: 0 <= i < |a + b| ==> Lower(a + b)[i] == (Lower(a) + Lower(b))[i];
  }

  lemma LowerUnchanged(s: string)
    requires forall c :: c in s ==> !('A' <= c <= 'Z')
    ensures Lower(s) == s
  {
    assert forall i :: 0 <= i < |s| ==> s[i] in s;
  }

  lemma LowerEscapeChar(c: char)
    ensures Lower(EscapeChar(c)) == EscapeChar(LowerChar(c))
  {
    var e := EscapeChar(c);
    if Special(c) {
      LowerUnchanged(e);
    } else {
      assert !Special(LowerChar(c));
    }
  }

  /** Lower-casing and escaping commute. */
  lemma {:induction false} LowerEscape(s: string)
    ensures Lower(Escape(s)) == Escape(Lower(s))
    decreases |s|
  {
    if |s| > 0 {
      var s' := s[..|s| - 1];
      var c := s[|s| - 1];
      LowerEscape(s');
      LowerAppend(Escape(s'), EscapeChar(c));
      LowerEscapeChar(c);
      var l := Lower(s);
      assert l[..|l| - 1] == Lower(s');
      assert l[|l| - 1] == LowerChar(c);
    }
  }

  lemma LowerEndsWith(s: string, x: string)
    requires EndsWith(s, x)
    ensures EndsWith(Lower(s), Lower(x))
  {
    assert Lower(s)[|s| - |x|..] == Lower(x);
  }

  lemma EndsWithTrans(s: string, t: string, x: string)
    requires EndsWith(s, t) && EndsWith(t, x)
    ensures EndsWith(s, x)
  {
    assert s[|s| - |x|..] == s[|s| - |t|..][|t| - |x|..];
  }

  // ----------------------------------------------------------- link label

  predicate ImageLink(r: string) {
    EndsWith(r, ".png") || EndsWith(r, ".jpg") || EndsWith(r, ".jpeg") || EndsWith(r, ".gif") || EndsWith(r, ".webp")
  }

  /** The label ladder on the lower-cased readable path `r` and the
      lower-cased original path `f`. */
  function LabelOf(r: string, f: string): string {
    if ImageLink(r) then "View Image"
    else if EndsWith(r, ".md") then
      (if EndsWith(f, ".pdf") then "View PDF Text"
       else if EndsWith(f, ".docx") || EndsWith(f, ".doc") then "View Document"
       else "View Markdown")
    else if EndsWith(r, ".txt") || EndsWith(r, ".text") then "View OCR Text"
    else "View Converted"
  }

  /** The label of the link to a document's readable version, chosen by the
      lower-cased readable path, then by the lower-cased original path. */
  function LinkLabel(readable: string, filePath: string): string {
    LabelOf(Lower(readable), Lower(filePath))
  }

  lemma LabelSuffixesPlain()
    ensures Plain(".png") && Plain(".jpg") && Plain(".jpeg") && Plain(".gif") && Plain(".webp")
    ensures Plain(".md") && Plain(".txt") && Plain(".text")
  {
  }

  lemma EscapeLowerEndsWith(readable: string, x: string)
    requires Plain(x)
    ensures EndsWith(Lower(Escape(readable)), x) <==> EndsWith(Lower(readable), x)
  {
    LowerEscape(readable);
    EscapeEndsWith(Lower(readable), x);
  }

  /** Two readable paths with the same endings get the same label. */
  lemma SameEndingsSameLabel(a: string, b: string, f: string)
    requires EndsWith(a, ".png") == EndsWith(b, ".png") && EndsWith(a, ".jpg") == EndsWith(b, ".jpg")
    requires EndsWith(a, ".jpeg") == EndsWith(b, ".jpeg") && EndsWith(a, ".gif") == EndsWith(b, ".gif")
    requires EndsWith(a, ".webp") == EndsWith(b, ".webp") && EndsWith(a, ".md") == EndsWith(b, ".md")
    requires EndsWith(a, ".txt") == EndsWith(b, ".txt") && EndsWith(a, ".text") == EndsWith(b, ".text")
    ensures LabelOf(a, f) == LabelOf(b, f)
  {
  }

  /** The label is computed on the escaped readable path; escaping never
      changes which label is chosen. */
  lemma LabelIgnoresEscape(readable: string, filePath: string)
    ensures LinkLabel(Escape(readable), filePath) == LinkLabel(readable, filePath)
  {
    LabelSuffixesPlain();
    EscapeLowerEndsWith(readable, ".png");
    EscapeLowerEndsWith(readable, ".jpg");
    EscapeLowerEndsWith(readable, ".jpeg");
    EscapeLowerEndsWith(readable, ".gif");
    EscapeLowerEndsWith(readable, ".webp");
    EscapeLowerEndsWith(readable, ".md");
    EscapeLowerEndsWith(readable, ".txt");
    EscapeLowerEndsWith(readable, ".text");
    SameEndingsSameLabel(Lower(Escape(readable)), Lower(readable), Lower(filePath));
  }

  /** A path ends with its own suffix. */
  lemma EndsWithPathSuffix(p: string)
    ensures EndsWith(p, PathSuffix(p))
  {
    NameSpec(p);
    SuffixSpec(Name(p));
    EndsWithTrans(p, Name(p), PathSuffix(p));
  }

  /** A readable ending in ".txt" is neither an image link nor markdown. */
  lemma TxtEnding(r: string)
    requires EndsWith(r, ".txt")
    ensures !ImageLink(r) && !EndsWith(r, ".md")
  {
    EndsWithLast(r, ".txt");
    if ImageLink(r) || EndsWith(r, ".md") {
      if EndsWith(r, ".png") { EndsWithLast(r, ".png"); }
      if EndsWith(r, ".jpg") { EndsWithLast(r, ".jpg"); }
      if EndsWith(r, ".jpeg") { EndsWithLast(r, ".jpeg"); }
      if EndsWith(r, ".gif") { EndsWithLast(r, ".gif"); }
      if EndsWith(r, ".webp") { EndsWithLast(r, ".webp"); }
      if EndsWith(r, ".md") { EndsWithLast(r, ".md"); }
    }
  }

  lemma MdEnding(r: string)
    requires EndsWith(r, ".md")
    ensures !ImageLink(r)
  {
    EndsWithLast(r, ".md");
    if EndsWith(r, ".png") { EndsWithLast(r, ".png"); }
    if EndsWith(r, ".jpg") { EndsWithLast(r, ".jpg"); }
    if EndsWith(r, ".jpeg") { EndsWithLast(r, ".jpeg"); }
    if EndsWith(r, ".gif") { EndsWithLast(r, ".gif"); }
    if EndsWith(r, ".webp") { EndsWithLast(r, ".webp"); }
  }

  /** An OCR output (".txt") is labelled as OCR text. */
  lemma TxtLabel(readable: string, p: string)
    requires EndsWith(readable, ".txt")
    ensures LinkLabel(readable, p) == "View OCR Text"
  {
    LowerEndsWith(readable, ".txt");
    LowerUnchanged(".txt");
    TxtEnding(Lower(readable));
  }

  /** The lower-cased suffix of a PDF or Word file. */
  lemma KindSuffix(p: string, k: ImageToText.Kind)
    requires k != ImageToText.Image && ImageToText.KindOf(p) == Some(k)
    ensures k == ImageToText.Pdf ==> Lower(PathSuffix(p)) == ".pdf"
    ensures k == ImageToText.Docx ==> Lower(PathSuffix(p)) == ".docx" || Lower(PathSuffix(p)) == ".doc"
  {
  }

  /** A lower-cased path ends with its lower-cased suffix. */
  lemma LoweredSuffix(p: string)
    ensures EndsWith(Lower(p), Lower(PathSuffix(p)))
  {
    EndsWithPathSuffix(p);
    LowerEndsWith(p, PathSuffix(p));
  }

  lemma EndsWithDocNotPdf(f: string, ext: string)
    requires ext == ".docx" || ext == ".doc"
    requires EndsWith(f, ext)
    ensures !EndsWith(f, ".pdf")
  {
    EndsWithLast(f, ext);
    if EndsWith(f, ".pdf") {
      EndsWithLast(f, ".pdf");
    }
  }

  /** A lower-cased path of kind `k` ends with the matching lower-case suffix. */
  lemma LoweredKindEnding(p: string, k: ImageToText.Kind)
    requires k != ImageToText.Image && ImageToText.KindOf(p) == Some(k)
    ensures k == ImageToText.Pdf ==> EndsWith(Lower(p), ".pdf")
    ensures k == ImageToText.Docx ==> (EndsWith(Lower(p), ".docx") || EndsWith(Lower(p), ".doc")) && !EndsWith(Lower(p), ".pdf")
  {
    KindSuffix(p, k);
    LoweredSuffix(p);
    if k == ImageToText.Docx {
      EndsWithDocNotPdf(Lower(p), Lower(PathSuffix(p)));
    }
  }

  /** A markdown conversion of a PDF or Word file is labelled after the original. */
  lemma MdLabel(readable: string, p: string, k: ImageToText.Kind)
    requires k != ImageToText.Image && ImageToText.KindOf(p) == Some(k)
    requires EndsWith(readable, ".md")
    ensures LinkLabel(readable, p) == if k == ImageToText.Pdf then "View PDF Text" else "View Document"
  {
    LowerEndsWith(readable, ".md");
    LowerUnchanged(".md");
    MdEnding(Lower(readable));
    LoweredKindEnding(p, k);
  }

  /** A readable version written by the converters gets the label of its
      kind: OCR text for images, PDF text for PDFs, the document view for
      Word files. */
  lemma ConvertedLabel(p: string, readable: string, k: ImageToText.Kind)
    requires ImageToText.KindOf(p) == Some(k)
    requires EndsWith(readable, ImageToText.OutputName(k, p))
    ensures LinkLabel(Escape(readable), p) ==
      match k
      case Image => "View OCR Text"
      case Pdf => "View PDF Text"
      case Docx => "View Document"
  {
    LabelIgnoresEscape(readable, p);
    var ending := if k == ImageToText.Image then ".txt" else ".md";
    EndsWithTrans(readable, ImageToText.OutputName(k, p), ending);
    if k == ImageToText.Image {
      TxtLabel(readable, p);
    } else {
      MdLabel(readable, p, k);
    }
  }

  // ------------------------------------------------------------- grouping

  /** `doc_data.get("category", "Junk")`. */
  function GroupOf(d: Doc): string {
    d.category.GetOr(CatchAll)
  }

  predicate Belongs(docs: map<string, Doc>, p: string, c: string) {
    p in docs && GroupOf(docs[p]) == c
  }

  /** The paths of `keys` that belong to group `c`, in the order of `keys`. */
  function Members(keys: seq<string>, docs: map<string, Doc>, c: string): seq<string>
    decreases |keys|
  {
    if |keys| == 0 then []
    else Members(keys[..|keys| - 1], docs, c) + if Belongs(docs, keys[|keys| - 1], c) then [keys[|keys| - 1]] else []
  }

  /** A group holds exactly the documents of its category, in dict order,
      each once. */
  lemma {:induction false} MembersSpec(keys: seq<string>, docs: map<string, Doc>, c: string)
    ensures forall p :: p in Members(keys, docs, c) <==> p in keys && Belongs(docs, p, c)
    ensures IsSubsequence(Members(keys, docs, c), keys)
    ensures NoDuplicates(keys) ==> NoDuplicates(Members(keys, docs, c))
    decreases |keys|
  {
    if |keys| > 0 {
      var pre := keys[..|keys| - 1];
      var x := keys[|keys| - 1];
      assert keys == pre + [x];
      MembersSpec(pre, docs, c);
      SubsequenceGrow(Members(pre, docs, c), pre, x, Belongs(docs, x, c));
      if NoDuplicates(keys) {
        assert NoDuplicates(pre);
        assert x !in pre;
      }
    }
  }

  /** The number of documents across the groups listed in `order`. */
  function Total(order: seq<string>, groups: map<string, seq<string>>): nat
    decreases |order|
  {
    if |order| == 0 then 0
    else Total(order[..|order| - 1], groups) + (if order[|order| - 1] in groups then |groups[order[|order| - 1]]| else 0)
  }

  lemma {:induction false} TotalFrame(order: seq<string>, groups: map<string, seq<string>>, c: string, g: seq<string>)
    requires c !in order
    ensures Total(order, groups[c := g]) == Total(order, groups)
    decreases |order|
  {
    if |order| > 0 {
      TotalFrame(order[..|order| - 1], groups, c, g);
    }
  }

  lemma {:induction false} TotalGrow(order: seq<string>, groups: map<string, seq<string>>, c: string, x: string)
    requires c in groups && c in order && NoDuplicates(order)
    ensures Total(order, groups[c := groups[c] + [x]]) == Total(order, groups) + 1
    decreases |order|
  {
    var pre := order[..|order| - 1];
    assert order == pre + [order[|order| - 1]];
    if order[|order| - 1] == c {
      assert c !in pre;
      TotalFrame(pre, groups, c, groups[c] + [x]);
    } else {
      assert c in pre && NoDuplicates(pre);
      TotalGrow(pre, groups, c, x);
    }
  }

  lemma TotalAddEmpty(order: seq<string>, groups: map<string, seq<string>>, c: string)
    requires c !in order
    ensures Total(order + [c], groups[c := []]) == Total(order, groups)
  {
    assert (order + [c])[..|order|] == order;
    TotalFrame(order, groups, c, []);
  }

  /** `groups` maps each category to its members among `keys`. */
  predicate Grouped(groups: map<string, seq<string>>, keys: seq<string>, docs: map<string, Doc>) {
    forall c :: c in groups ==> groups[c] == Members(keys, docs, c)
  }

  lemma GroupedStep(groups: map<string, seq<string>>, keys: seq<string>, docs: map<string, Doc>, p: string)
    requires Grouped(groups, keys, docs) && p in docs && GroupOf(docs[p]) in groups
    ensures Grouped(groups[GroupOf(docs[p]) := groups[GroupOf(docs[p])] + [p]], keys + [p], docs)
  {
    var keys' := keys + [p];
    assert keys'[..|keys'| - 1] == keys;
  }

  /** The first loop of the grouping: an empty group per declared
      category, a repeated category keeping one group. */
  method DeclareGroups(cats: seq<string>) returns (order: seq<string>, groups: map<string, seq<string>>)
    ensures NoDuplicates(order) && forall c :: c in groups <==> c in order
    ensures forall c :: c in groups <==> c in cats
    ensures forall c :: c in groups ==> groups[c] == []
    ensures Total(order, groups) == 0
  {
    order := [];
    groups := map[];
    for i := 0 to |cats|
      invariant NoDuplicates(order) && forall c :: c in groups <==> c in order
      invariant forall c :: c in groups ==> groups[c] == []
      invariant forall c :: c in groups <==> c in cats[..i]
      invariant Total(order, groups) == 0
    {
      assert cats[..i + 1] == cats[..i] + [cats[i]];
      if cats[i] !in groups {
        TotalAddEmpty(order, groups, cats[i]);
        order := order + [cats[i]];
      } else {
        assert groups[cats[i] := []] == groups;
      }
      groups := groups[cats[i] := []];
    }
    WholePrefix(cats);
  }

  /** The grouping after the documents `keys[..i]` have been appended. */
  ghost predicate GroupsSoFar(order: seq<string>, groups: map<string, seq<string>>, cats: seq<string>,
                        keys: seq<string>, docs: map<string, Doc>, i: nat)
    requires i <= |keys|
  {
    && NoDuplicates(order) && (forall c :: c in groups <==> c in order)
    && (forall c :: c in cats ==> c in groups)
    && (forall j :: 0 <= j < i ==> keys[j] in docs && GroupOf(docs[keys[j]]) in groups)
    && (forall c :: c in groups && c !in cats ==> |groups[c]| > 0)
    && Grouped(groups, keys[..i], docs)
    && Total(order, groups) == i
  }

  lemma GroupsStart(order: seq<string>, groups: map<string, seq<string>>, cats: seq<string>,
                    keys: seq<string>, docs: map<string, Doc>)
    requires NoDuplicates(order) && forall c :: c in groups <==> c in order
    requires forall c :: c in groups <==> c in cats
    requires forall c :: c in groups ==> groups[c] == []
    requires Total(order, groups) == 0
    ensures GroupsSoFar(order, groups, cats, keys, docs, 0)
  {
    assert keys[..0] == [];
  }

  /** A group opened for a document's category holds, so far, nothing. */
  lemma NoMembersYet(keys: seq<string>, docs: map<string, Doc>, i: nat, groups: map<string, seq<string>>)
    requires i <= |keys|
    requires forall j :: 0 <= j < i ==> keys[j] in docs && GroupOf(docs[keys[j]]) in groups
    ensures forall c :: c !in groups ==> Members(keys[..i], docs, c) == []
  {
    forall c | c !in groups ensures Members(keys[..i], docs, c) == [] {
      MembersSpec(keys[..i], docs, c);
      if |Members(keys[..i], docs, c)| > 0 {
        FirstIsElement(Members(keys[..i], docs, c));
      }
    }
  }

  /** Appending document `keys[i]` to the existing group of its category. */
  lemma GroupsAppend(order: seq<string>, groups: map<string, seq<string>>, cats: seq<string>,
                     keys: seq<string>, docs: map<string, Doc>, i: nat)
    requires i < |keys| && keys[i] in docs && GroupsSoFar(order, groups, cats, keys, docs, i)
    requires GroupOf(docs[keys[i]]) in groups
    ensures GroupsSoFar(order, groups[GroupOf(docs[keys[i]]) := groups[GroupOf(docs[keys[i]])] + [keys[i]]], cats, keys, docs, i + 1)
  {
    var p := keys[i];
    var c := GroupOf(docs[p]);
    TotalGrow(order, groups, c, p);
    GroupedStep(groups, keys[..i], docs, p);
    PrefixSnoc(keys, i);
  }

  lemma OpenTotal(order: seq<string>, groups: map<string, seq<string>>, c: string, p: string)
    requires NoDuplicates(order) && c !in order
    ensures Total(order + [c], groups[c := [p]]) == Total(order, groups) + 1
  {
    var g0 := groups[c := []];
    TotalAddEmpty(order, groups, c);
    assert NoDuplicates(order + [c]);
    TotalGrow(order + [c], g0, c, p);
    assert g0[c] + [p] == [p];
    assert g0[c := g0[c] + [p]] == groups[c := [p]];
  }

  lemma OpenGrouped(groups: map<string, seq<string>>, keys: seq<string>, docs: map<string, Doc>, i: nat)
    requires i < |keys| && keys[i] in docs && GroupOf(docs[keys[i]]) !in groups
    requires forall j :: 0 <= j < i ==> keys[j] in docs && GroupOf(docs[keys[j]]) in groups
    requires Grouped(groups, keys[..i], docs)
    ensures Grouped(groups[GroupOf(docs[keys[i]]) := [keys[i]]], keys[..i + 1], docs)
  {
    var p := keys[i];
    var c := GroupOf(docs[p]);
    var g0 := groups[c := []];
    NoMembersYet(keys, docs, i, groups);
    assert Grouped(g0, keys[..i], docs);
    GroupedStep(g0, keys[..i], docs, p);
    assert g0[c] + [p] == [p];
    assert g0[c := g0[c] + [p]] == groups[c := [p]];
    PrefixSnoc(keys, i);
  }

  /** Opening the group of document `keys[i]`'s category with that document. */
  lemma GroupsOpen(order: seq<string>, groups: map<string, seq<string>>, cats: seq<string>,
                   keys: seq<string>, docs: map<string, Doc>, i: nat)
    requires i < |keys| && keys[i] in docs && GroupsSoFar(order, groups, cats, keys, docs, i)
    requires GroupOf(docs[keys[i]]) !in groups
    ensures GroupsSoFar(order + [GroupOf(docs[keys[i]])], groups[GroupOf(docs[keys[i]]) := [keys[i]]], cats, keys, docs, i + 1)
  {
    var c := GroupOf(docs[keys[i]]);
    OpenTotal(order, groups, c, keys[i]);
    OpenGrouped(groups, keys, docs, i);
    assert NoDuplicates(order + [c]);
  }

  /** `render_index_html`'s grouping: an empty group per declared category,
      then each document, in dict order, appended to the group of its
      category (by default "Junk"), the group being created on first use.
      `order` is the key order of the resulting dict. */
  method GroupDocuments(cats: seq<string>, keys: seq<string>, docs: map<string, Doc>)
    returns (order: seq<string>, groups: map<string, seq<string>>)
    requires Enumerates(keys, docs)
    ensures NoDuplicates(order) && forall c :: c in groups <==> c in order
    ensures forall c :: c in cats ==> c in groups
    ensures forall p :: p in docs ==> GroupOf(docs[p]) in groups
    ensures forall c :: c in groups && c !in cats ==> |groups[c]| > 0
    ensures Grouped(groups, keys, docs)
    ensures Total(order, groups) == |keys|
  {
    order, groups := DeclareGroups(cats);
    GroupsStart(order, groups, cats, keys, docs);
    for i := 0 to |keys|
      invariant GroupsSoFar(order, groups, cats, keys, docs, i)
    {
      var p := keys[i];
      assert p in keys;
      var c := GroupOf(docs[p]);
      if c !in groups {
        // a new group, created and given its first document
        GroupsOpen(order, groups, cats, keys, docs, i);
        order := order + [c];
        groups := groups[c := [p]];
      } else {
        GroupsAppend(order, groups, cats, keys, docs, i);
        groups := groups[c := groups[c] + [p]];
      }
    }
    forall p | p in docs ensures GroupOf(docs[p]) in groups {
      assert p in keys;
    }
    WholePrefix(keys);
  }

  // -------------------------------------------------------------- sorting

  /** `x[1].get("title", x[0])`: the title, else the path. */
  function TitleKeyOf(docs: map<string, Doc>, p: string): string {
    if p in docs then docs[p].title.GetOr(p) else p
  }

  function TitleKey(docs: map<string, Doc>): string -> string {
    p => TitleKeyOf(docs, p)
  }

  /** The in-place `sort` of every group, visiting the groups in dict order. */
  method SortGroups(order: seq<string>, groups: map<string, seq<string>>, docs: map<string, Doc>)
    returns (sorted: map<string, seq<string>>)
    requires NoDuplicates(order) && forall c :: c in groups <==> c in order
    ensures sorted.Keys == groups.Keys
    ensures forall c :: c in groups ==> sorted[c] == Order.SortBy(groups[c], TitleKey(docs))
  {
    sorted := groups;
    for i := 0 to |order|
      invariant sorted.Keys == groups.Keys
      invariant forall c :: c in groups && c in order[..i] ==> sorted[c] == Order.SortBy(groups[c], TitleKey(docs))
      invariant forall c :: c in groups && c !in order[..i] ==> sorted[c] == groups[c]
    {
      var c := order[i];
      assert c !in order[..i];
      PrefixSnoc(order, i);
      sorted := sorted[c := Order.SortBy(sorted[c], TitleKey(docs))];
    }
    WholePrefix(order);
  }

  /** The sorted group of `c` that the renderers show. */
  function SortedGroup(keys: seq<string>, docs: map<string, Doc>, c: string): seq<string> {
    Order.SortBy(Members(keys, docs, c), TitleKey(docs))
  }

  /** A sorted group is in title order and holds exactly the documents of
      its category, each once. */
  lemma SortedGroupSpec(keys: seq<string>, docs: map<string, Doc>, c: string)
    requires NoDuplicates(keys)
    ensures Order.SortedBy(SortedGroup(keys, docs, c), TitleKey(docs))
    ensures forall p :: p in SortedGroup(keys, docs, c) <==> p in keys && Belongs(docs, p, c)
    ensures multiset(SortedGroup(keys, docs, c)) == multiset(Members(keys, docs, c))
  {
    Order.SortBySorted(Members(keys, docs, c), TitleKey(docs));
    MembersSpec(keys, docs, c);
    var m := Members(keys, docs, c);
    var s := SortedGroup(keys, docs, c);
    forall p ensures p in s <==> p in m {
      assert p in s <==> p in multiset(s);
      assert p in m <==> p in multiset(m);
    }
  }

  /** A document is shown exactly when its category (by default "Junk") is
      declared; it is then in the section of that category and no other. */
  lemma ShownIff(keys: seq<string>, docs: map<string, Doc>, cats: seq<string>, p: string)
    requires Enumerates(keys, docs) && p in docs
    ensures (exists i :: 0 <= i < |cats| && p in SortedGroup(keys, docs, cats[i])) <==> GroupOf(docs[p]) in cats
    ensures forall c :: p in SortedGroup(keys, docs, c) <==> c == GroupOf(docs[p])
  {
    assert p in keys;
    forall c ensures p in SortedGroup(keys, docs, c) <==> c == GroupOf(docs[p]) {
      SortedGroupSpec(keys, docs, c);
    }
    if GroupOf(docs[p]) in cats {
      var i :| 0 <= i < |cats| && cats[i] == GroupOf(docs[p]);
      assert p in SortedGroup(keys, docs, cats[i]);
    }
  }

  // ------------------------------------------------------------- sections

  /** After its leading dot a path's suffix holds neither '.' nor '/'. */
  lemma SuffixChars(p: string)
    ensures var x := PathSuffix(p);
      x != "" ==> |x| >= 2 && x[0] == '.' && forall i :: 1 <= i < |x| ==> x[i] != '.' && x[i] != '/'
  {
    var n := Name(p);
    var x := PathSuffix(p);
    NameSpec(p);
    SuffixSpec(n);
    LastIndexSpec(n, '.');
    if x != "" {
      var k := LastIndex(n, '.').value;
      assert x == n[k..];
      forall i | 1 <= i < |x| ensures x[i] != '.' && x[i] != '/' {
        assert x[i] == n[k + i];
      }
    }
  }

  lemma StripOneDot(x: string)
    requires |x| >= 2 && x[0] == '.' && x[1] != '.'
    ensures LStripChars(x, {'.'}) == x[1..]
  {
    assert LStripChars(x, {'.'}) == LStripChars(x[1..], {'.'});
  }

  /** The extension tag: the suffix without its dot, upper-cased, or "N/A". */
  function ExtTag(p: string): (r: string)
    ensures PathSuffix(p) == "" ==> r == "N/A"
    ensures PathSuffix(p) != "" ==> r == Upper(PathSuffix(p)[1..]) && r != "N/A"
  {
    var x := PathSuffix(p);
    SuffixChars(p);
    var e := Upper(LStripChars(x, {'.'}));
    if x != "" then
      StripOneDot(x);
      e
    else
      "N/A"
  }

  /** `format_file_mtime`: the parser stands in for `fromisoformat` plus
      `strftime` and answers `None` where they raise. */
  function FormatFileMtime(s: string, parse: string -> Option<string>): (r: string)
    ensures r == "" <==> s == "" || parse(s).None? || parse(s) == Some("")
  {
    if s == "" then "" else match parse(s) case None => "" case Some(t) => t
  }

  datatype Link = Link(href: string, caption: string)

  /** The values one `<li>` of the desktop index interpolates. */
  datatype Item = Item(
    path: string,          // escaped path: data-path, data-link and the anchor
    mtimeAttr: string,     // raw file_mtime for data-mtime
    title: string,
    summary: string,
    link: Option<Link>,    // the readable-version link
    ext: string,
    category: string,      // escaped, in the tags line
    modified: Option<string>)

  function ItemOf(p: string, d: Doc, category: string, parse: string -> Option<string>): (r: Item)
    ensures r.link.Some? <==> Truthy(d.readableVersion)
    ensures r.link.Some? ==> r.link.value.caption == LinkLabel(d.readableVersion.value, p)
    ensures r.modified.Some? <==> Truthy(d.fileMtime)
    ensures d.title.None? ==> r.title == Escape(PathStem(p))
  {
    var link := if Truthy(d.readableVersion) then
        LabelIgnoresEscape(d.readableVersion.value, p);
        Some(Link(Escape(d.readableVersion.value), LinkLabel(Escape(d.readableVersion.value), p)))
      else None;
    Item(Escape(p), d.fileMtime.GetOr(""), Escape(d.title.GetOr(PathStem(p))), Escape(d.summary.GetOr("")),
      link, ExtTag(p), Escape(category),
      if Truthy(d.fileMtime) then Some(FormatFileMtime(d.fileMtime.value, parse)) else None)
  }

  datatype Section = Section(category: string, items: seq<Item>)

  /** `_generate_category_section`: nothing for an empty group, else one
      item per document in group order. */
  function SectionOf(c: string, paths: seq<string>, docs: map<string, Doc>, parse: string -> Option<string>): (r: Option<Section>)
    requires forall p :: p in paths ==> p in docs
    ensures r.None? <==> |paths| == 0
    ensures r.Some? ==> r.value.category == Escape(c) && |r.value.items| == |paths|
  {
    if |paths| == 0 then None
    else Some(Section(Escape(c), seq(|paths|, j requires 0 <= j < |paths| => ItemOf(paths[j], docs[paths[j]], c, parse))))
  }

  /** The section's entries are the group's documents, in group order. */
  lemma SectionItems(c: string, paths: seq<string>, docs: map<string, Doc>, parse: string -> Option<string>)
    requires forall p :: p in paths ==> p in docs
    ensures SectionOf(c, paths, docs, parse).Some? ==>
      forall j :: 0 <= j < |paths| ==> SectionOf(c, paths, docs, parse).value.items[j] == ItemOf(paths[j], docs[paths[j]], c, parse)
  {
  }

  /** `docs_by_category.get(category, [])`. */
  function GroupFor(sorted: map<string, seq<string>>, c: string): seq<string> {
    if c in sorted then sorted[c] else []
  }

  /** `_generate_html`'s loop: one entry per declared category, in order. */
  method CategorySections(cats: seq<string>, sorted: map<string, seq<string>>, docs: map<string, Doc>, parse: string -> Option<string>)
    returns (sections: seq<Option<Section>>)
    requires forall c, p :: c in sorted && p in sorted[c] ==> p in docs
    ensures |sections| == |cats|
    ensures forall i :: 0 <= i < |cats| ==> sections[i] == SectionOf(cats[i], GroupFor(sorted, cats[i]), docs, parse)
  {
    sections := [];
    for i := 0 to |cats|
      invariant |sections| == i
      invariant forall j :: 0 <= j < i ==> sections[j] == SectionOf(cats[j], GroupFor(sorted, cats[j]), docs, parse)
    {
      var group := GroupFor(sorted, cats[i]);
      GroupForDocs(sorted, docs, cats[i]);
      var section := SectionOf(cats[i], group, docs, parse);
      sections := sections + [section];
    }
  }

  lemma GroupForDocs(sorted: map<string, seq<string>>, docs: map<string, Doc>, c: string)
    requires forall c, p :: c in sorted && p in sorted[c] ==> p in docs
    ensures forall p :: p in GroupFor(sorted, c) ==> p in docs
  {
  }

  /** Every group holds documents only. */
  lemma GroupsHoldDocuments(keys: seq<string>, docs: map<string, Doc>)
    requires NoDuplicates(keys)
    ensures forall c, p :: p in SortedGroup(keys, docs, c) ==> p in docs
  {
    forall c, p | p in SortedGroup(keys, docs, c) ensures p in docs {
      SortedGroupSpec(keys, docs, c);
    }
  }

  /** After grouping and sorting, the group of each declared category is
      its sorted group. */
  lemma SortedGroupsAre(cats: seq<string>, keys: seq<string>, docs: map<string, Doc>,
                        groups: map<string, seq<string>>, sorted: map<string, seq<string>>)
    requires NoDuplicates(keys) && Grouped(groups, keys, docs)
    requires forall c :: c in cats ==> c in groups
    requires sorted.Keys == groups.Keys
    requires forall c :: c in groups ==> sorted[c] == Order.SortBy(groups[c], TitleKey(docs))
    ensures forall c, p :: c in sorted && p in sorted[c] ==> p in docs
    ensures forall i :: 0 <= i < |cats| ==> GroupFor(sorted, cats[i]) == SortedGroup(keys, docs, cats[i])
    ensures forall c, p :: p in SortedGroup(keys, docs, c) ==> p in docs
  {
    GroupsHoldDocuments(keys, docs);
    forall c, p | c in sorted && p in sorted[c] ensures p in docs {
      assert sorted[c] == SortedGroup(keys, docs, c);
    }
  }

  /** The rendered index: the sections, and the two counts printed. */
  datatype Page = Page(sections: seq<Option<Section>>, groupCount: nat, docCount: nat)

  /** `main` and `render_index_html`: a missing Doc directory or state file
      is exit 1 and nothing is written; otherwise the index shows, for each
      declared category, its sorted group, and reports every document. */
  method RenderMain(docDirExists: bool, stored: Option<State>, keys: seq<string>, parse: string -> Option<string>)
    returns (exitCode: int, page: Option<Page>)
    requires stored.Some? ==> Enumerates(keys, stored.value.documents)
    ensures !docDirExists || stored.None? ==> exitCode == 1 && page.None?
    ensures docDirExists && stored.Some? ==> exitCode == 0 && page.Some?
    ensures docDirExists && stored.Some? ==>
      var s := stored.value;
      && |page.value.sections| == |s.categories|
      && page.value.docCount == |s.documents|
      && (forall c, p :: p in SortedGroup(keys, s.documents, c) ==> p in s.documents)
      && (forall i :: 0 <= i < |s.categories| ==>
            page.value.sections[i] == SectionOf(s.categories[i], SortedGroup(keys, s.documents, s.categories[i]), s.documents, parse))
  {
    if !docDirExists || stored.None? {
      return 1, None;
    }
    var s := stored.value;
    var order, groups := GroupDocuments(s.categories, keys, s.documents);
    var sorted := SortGroups(order, groups, s.documents);
    SortedGroupsAre(s.categories, keys, s.documents, groups, sorted);
    var sections := CategorySections(s.categories, sorted, s.documents, parse);
    EnumeratesSize(keys, s.documents);
    return 0, Some(Page(sections, |order|, Total(order, groups)));
  }
}
