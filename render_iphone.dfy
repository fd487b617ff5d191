/** The mobile renderer (`dms_render_iphone.py`). Its grouping and sorting
    are those of the desktop renderer (the same code, repeated); only the
    values each list item carries differ. */
module RenderIphone {
  import opened Strings
  import opened DmsState
  import Render

  /** The values one mobile `<li>` interpolates. */
  datatype Item = Item(
    path: string,              // escaped, data-path
    title: string,
    summary: string,
    readable: Option<string>)  // the escaped data-readable-version attribute, if any

  function ItemOf(p: string, d: Doc): (r: Item)
    ensures r.readable.Some? <==> Truthy(d.readableVersion)
    ensures r.readable.Some? ==> r.readable.value == Render.Escape(d.readableVersion.value)
    ensures d.title.None? ==> r.title == Render.Escape(PathStem(p))
    ensures d.summary.None? ==> r.summary == ""
    ensures r.path == Render.Escape(p)
  {
    Item(Render.Escape(p), Render.Escape(d.title.GetOr(PathStem(p))), Render.Escape(d.summary.GetOr("")),
      if Truthy(d.readableVersion) then Some(Render.Escape(d.readableVersion.value)) else None)
  }

  datatype Section = Section(category: string, items: seq<Item>)

  /** `_generate_category_section`: nothing for an empty group, else one
      item per document in group order. */
  function SectionOf(c: string, paths: seq<string>, docs: map<string, Doc>): (r: Option<Section>)
    requires forall p :: p in paths ==> p in docs
    ensures r.None? <==> |paths| == 0
    ensures r.Some? ==> r.value.category == Render.Escape(c) && |r.value.items| == |paths|
  {
    if |paths| == 0 then None
    else Some(Section(Render.Escape(c), seq(|paths|, j requires 0 <= j < |paths| => ItemOf(paths[j], docs[paths[j]]))))
  }

  /** The section's items are the group's documents, in group order. */
  lemma SectionItems(c: string, paths: seq<string>, docs: map<string, Doc>)
    requires forall p :: p in paths ==> p in docs
    ensures SectionOf(c, paths, docs).Some? ==>
      forall j :: 0 <= j < |paths| ==> SectionOf(c, paths, docs).value.items[j] == ItemOf(paths[j], docs[paths[j]])
  {
  }

  /** `_generate_html`'s loop: one entry per declared category, in order. */
  method CategorySections(cats: seq<string>, sorted: map<string, seq<string>>, docs: map<string, Doc>)
    returns (sections: seq<Option<Section>>)
    requires forall c, p :: c in sorted && p in sorted[c] ==> p in docs
    ensures |sections| == |cats|
    ensures forall i :: 0 <= i < |cats| ==> sections[i] == SectionOf(cats[i], Render.GroupFor(sorted, cats[i]), docs)
  {
    sections := [];
    for i := 0 to |cats|
      invariant |sections| == i
      invariant forall j :: 0 <= j < i ==> sections[j] == SectionOf(cats[j], Render.GroupFor(sorted, cats[j]), docs)
    {
      var group := Render.GroupFor(sorted, cats[i]);
      Render.GroupForDocs(sorted, docs, cats[i]);
      var section := SectionOf(cats[i], group, docs);
      sections := sections + [section];
    }
  }

  datatype Page = Page(sections: seq<Option<Section>>, groupCount: nat, docCount: nat)

  /** `main` and `render_index_html` of the mobile renderer: the same exits
      and the same sections as the desktop index, with mobile items. */
  method RenderIphoneMain(docDirExists: bool, stored: Option<State>, keys: seq<string>)
    returns (exitCode: int, page: Option<Page>)
    requires stored.Some? ==> Enumerates(keys, stored.value.documents)
    ensures !docDirExists || stored.None? ==> exitCode == 1 && page.None?
    ensures docDirExists && stored.Some? ==> exitCode == 0 && page.Some?
    ensures docDirExists && stored.Some? ==>
      var s := stored.value;
      && |page.value.sections| == |s.categories|
      && page.value.docCount == |s.documents|
      && (forall c, p :: p in Render.SortedGroup(keys, s.documents, c) ==> p in s.documents)
      && (forall i :: 0 <= i < |s.categories| ==>
            page.value.sections[i] == SectionOf(s.categories[i], Render.SortedGroup(keys, s.documents, s.categories[i]), s.documents))
  {
    if !docDirExists || stored.None? {
      return 1, None;
    }
    var s := stored.value;
    var order, groups := Render.GroupDocuments(s.categories, keys, s.documents);
    var sorted := Render.SortGroups(order, groups, s.documents);
    Render.SortedGroupsAre(s.categories, keys, s.documents, groups, sorted);
    var sections := CategorySections(s.categories, sorted, s.documents);
    EnumeratesSize(keys, s.documents);
    return 0, Some(Page(sections, |order|, Render.Total(order, groups)));
  }

  /** The two indexes list the same documents: a category has a section in
      one exactly when it has one in the other, and the items name the same
      paths in the same order with the same titles and summaries. */
  lemma SameListing(c: string, paths: seq<string>, docs: map<string, Doc>, parse: string -> Option<string>)
    requires forall p :: p in paths ==> p in docs
    ensures SectionOf(c, paths, docs).Some? <==> Render.SectionOf(c, paths, docs, parse).Some?
    ensures SectionOf(c, paths, docs).Some? ==>
      var m := SectionOf(c, paths, docs).value;
      var d := Render.SectionOf(c, paths, docs, parse).value;
      && m.category == d.category && |m.items| == |d.items|
      && forall j :: 0 <= j < |m.items| ==>
           m.items[j].path == d.items[j].path && m.items[j].title == d.items[j].title
           && m.items[j].summary == d.items[j].summary
           && (m.items[j].readable.Some? <==> d.items[j].link.Some?)
  {
    Render.SectionItems(c, paths, docs, parse);
    SectionItems(c, paths, docs);
  }
}
