/** The conversion stage: picks the images, PDFs and Word files out of the
    scan's new and changed files, converts each into `md_outputs/` with an
    external tool, and counts the successes. The tools (tesseract,
    pdftotext, pandoc) are oracles: for a source path they either fail to
    run (`None`: a timeout, a missing tool or any other exception) or give
    an exit status, their standard output and whether the expected output
    file exists afterwards. */
module ImageToText {
  import opened Strings
  import opened DmsState

  datatype Kind = Image | Pdf | Docx

  datatype ToolRun = ToolRun(exitCode: int, stdout: string, outputExists: bool)

  const ImageSuffixes: set<string> := {".png", ".jpg", ".jpeg", ".gif", ".bmp", ".webp"}
  const DocxSuffixes: set<string> := {".docx", ".doc"}

  /** The kind of a path, by its lower-cased suffix; `None` for every other file. */
  function KindOf(p: string): Option<Kind> {
    var ext := Lower(PathSuffix(p));
    if ext in ImageSuffixes then Some(Image)
    else if ext == ".pdf" then Some(Pdf)
    else if ext in DocxSuffixes then Some(Docx)
    else None
  }

  // ------------------------------------------------------------ partition

  /** The paths of kind `k`, in their order. */
  function OfKind(paths: seq<string>, k: Kind): seq<string> {
    if |paths| == 0 then []
    else OfKind(paths[..|paths| - 1], k) + if KindOf(paths[|paths| - 1]) == Some(k) then [paths[|paths| - 1]] else []
  }

  /** The paths no converter takes. */
  function Unconvertible(paths: seq<string>): seq<string> {
    if |paths| == 0 then []
    else Unconvertible(paths[..|paths| - 1]) + if KindOf(paths[|paths| - 1]).None? then [paths[|paths| - 1]] else []
  }

  lemma OfKindStep(paths: seq<string>, i: nat, k: Kind)
    requires i < |paths|
    ensures OfKind(paths[..i + 1], k) == OfKind(paths[..i], k) + if KindOf(paths[i]) == Some(k) then [paths[i]] else []
  {
    PrefixOfPrefix(paths, i);
  }

  /** `find_convertible_files`: one pass appending each path to the list of its kind. */
  method FindConvertible(paths: seq<string>) returns (images: seq<string>, pdfs: seq<string>, docx: seq<string>)
    ensures images == OfKind(paths, Image) && pdfs == OfKind(paths, Pdf) && docx == OfKind(paths, Docx)
  {
    images, pdfs, docx := [], [], [];
    var i := 0;
    while i < |paths|
      invariant 0 <= i <= |paths|
      invariant images == OfKind(paths[..i], Image) && pdfs == OfKind(paths[..i], Pdf) && docx == OfKind(paths[..i], Docx)
    {
      OfKindStep(paths, i, Image);
      OfKindStep(paths, i, Pdf);
      OfKindStep(paths, i, Docx);
      var ext := Lower(PathSuffix(paths[i]));
      if ext in ImageSuffixes {
        images := images + [paths[i]];
      } else if ext == ".pdf" {
        pdfs := pdfs + [paths[i]];
      } else if ext in DocxSuffixes {
        docx := docx + [paths[i]];
      }
      i := i + 1;
    }
    WholePrefix(paths);
  }

  /** A path is listed under a kind exactly when it is in the input and of that kind. */
  lemma {:induction false} OfKindMembers(paths: seq<string>, k: Kind)
    ensures forall p :: p in OfKind(paths, k) <==> p in paths && KindOf(p) == Some(k)
    decreases |paths|
  {
    if |paths| > 0 {
      var init := paths[..|paths| - 1];
      OfKindMembers(init, k);
      assert paths == init + [paths[|paths| - 1]];
    }
  }

  /** Each list keeps the input order. */
  lemma {:induction false} OfKindInOrder(paths: seq<string>, k: Kind)
    ensures IsSubsequence(OfKind(paths, k), paths)
    decreases |paths|
  {
    if |paths| > 0 {
      var init := paths[..|paths| - 1];
      var last := paths[|paths| - 1];
      OfKindInOrder(init, k);
      assert paths == init + [last];
      SubsequenceGrow(OfKind(init, k), init, last, KindOf(last) == Some(k));
    }
  }

  /** Every path lands in exactly one place: one of the three lists or the
      dropped ones. */
  lemma {:induction false} PartitionCounts(paths: seq<string>)
    ensures |OfKind(paths, Image)| + |OfKind(paths, Pdf)| + |OfKind(paths, Docx)| + |Unconvertible(paths)| == |paths|
    decreases |paths|
  {
    if |paths| > 0 {
      PartitionCounts(paths[..|paths| - 1]);
    }
  }

  // ------------------------------------------------------------ the converters

  /** `doc_dir / path.lstrip('./')`: every leading '.' and '/' goes, not just a "./" prefix. */
  function SourceName(path: string): string {
    LStripChars(path, {'.', '/'})
  }

  /** The output names in `md_outputs/`. */
  function OutputName(k: Kind, path: string): (r: string)
    ensures EndsWith(r, if k == Image then ".txt" else ".md")
  {
    PathStem(path) + if k == Image then ".txt" else ".md"
  }

  /** The heading line the PDF converter writes first. */
  function PdfHeading(path: string): string {
    "# " + PathStem(path) + "\n"
  }

  /** The header the PDF converter writes before the extracted text. */
  function PdfHeader(path: string): string {
    PdfHeading(path) + ("\nExtracted from PDF: " + Name(path) + "\n\n---\n\n")
  }

  function PdfMarkdown(path: string, text: string): string {
    PdfHeader(path) + text
  }

  /** The markdown opens with the stem as a heading and gives back the
      extracted text after the header. */
  lemma PdfMarkdownFacts(path: string, text: string)
    ensures StartsWith(PdfMarkdown(path, text), PdfHeading(path))
    ensures PdfMarkdown(path, text)[|PdfHeader(path)|..] == text
  {
    var rest := "\nExtracted from PDF: " + Name(path) + "\n\n---\n\n";
    AppendAssoc(PdfHeading(path), rest, text);
    AppendParts(PdfHeading(path), rest + text);
    AppendParts(PdfHeader(path), text);
  }

  /** `convert_image_to_text`: a missing source fails; an output already
      present counts as done without running the tool; otherwise the tool
      must succeed and leave the output. */
  function ConvertImage(path: string, sources: set<string>, md: set<string>, run: Option<ToolRun>): bool {
    if SourceName(path) !in sources then false
    else if OutputName(Image, path) in md then true
    else run.Some? && run.value.exitCode == 0 && run.value.outputExists
  }

  /** `convert_pdf_to_markdown`: the markdown written, or `None` on failure.
      There is no already-converted shortcut. */
  function ConvertPdf(path: string, sources: set<string>, run: Option<ToolRun>): Option<string> {
    if SourceName(path) !in sources then None
    else if run.None? || run.value.exitCode != 0 then None
    else if Strip(run.value.stdout) == "" then None
    else Some(PdfMarkdown(path, run.value.stdout))
  }

  /** `convert_docx_to_markdown`: the tool must succeed and leave the output. */
  function ConvertDocx(path: string, sources: set<string>, run: Option<ToolRun>): bool {
    SourceName(path) in sources && run.Some? && run.value.exitCode == 0 && run.value.outputExists
  }

  function Convert(k: Kind, path: string, sources: set<string>, md: set<string>, run: Option<ToolRun>): bool {
    match k
    case Image => ConvertImage(path, sources, md, run)
    case Pdf => ConvertPdf(path, sources, run).Some?
    case Docx => ConvertDocx(path, sources, run)
  }

  /** Whatever the tools would do, a missing source fails every converter. */
  lemma MissingSourceFails(k: Kind, path: string, sources: set<string>, md: set<string>, run: Option<ToolRun>)
    requires SourceName(path) !in sources
    ensures !Convert(k, path, sources, md, run)
  {
  }

  /** An image whose text output exists succeeds whatever the tool would do;
      a PDF or Word file always depends on its tool. */
  lemma AlreadyConvertedOnlyForImages(path: string, sources: set<string>, md: set<string>)
    requires SourceName(path) in sources
    ensures OutputName(Image, path) in md ==> ConvertImage(path, sources, md, None)
    ensures !Convert(Pdf, path, sources, md, None) && !Convert(Docx, path, sources, md, None)
  {
  }

  /** A PDF converts exactly when the tool exits 0 with some non-blank text. */
  lemma PdfSucceedsIff(path: string, sources: set<string>, run: Option<ToolRun>)
    ensures ConvertPdf(path, sources, run).Some? <==>
      SourceName(path) in sources && run.Some? && run.value.exitCode == 0 && Strip(run.value.stdout) != ""
    ensures ConvertPdf(path, sources, run).Some? ==>
      ConvertPdf(path, sources, run).value[|PdfHeader(path)|..] == run.value.stdout
  {
    if ConvertPdf(path, sources, run).Some? {
      PdfMarkdownFacts(path, run.value.stdout);
    }
  }

  // ------------------------------------------------------------ the counter

  /** One conversion on the running count and `md_outputs` names. */
  function Next(k: Kind, p: string, sources: set<string>, acc: (nat, set<string>), run: Option<ToolRun>): (nat, set<string>) {
    Counted(k, p, Convert(k, p, sources, acc.1, run), acc)
  }

  /** A success adds one to the count and its output to the names. */
  function Counted(k: Kind, p: string, ok: bool, acc: (nat, set<string>)): (nat, set<string>) {
    if ok then (acc.0 + 1, acc.1 + {OutputName(k, p)}) else acc
  }

  /** The successes over a list of one kind and the `md_outputs` names
      afterwards: each success leaves its output. */
  function Batch(k: Kind, paths: seq<string>, sources: set<string>, md: set<string>, run: string -> Option<ToolRun>): (r: (nat, set<string>))
    ensures r.0 <= |paths| && md <= r.1
  {
    if |paths| == 0 then (0, md)
    else Next(k, paths[|paths| - 1], sources, Batch(k, paths[..|paths| - 1], sources, md, run), run(paths[|paths| - 1]))
  }

  lemma BatchStep(k: Kind, paths: seq<string>, i: nat, sources: set<string>, md: set<string>, run: string -> Option<ToolRun>,
                  acc: (nat, set<string>))
    requires i < |paths| && acc == Batch(k, paths[..i], sources, md, run)
    ensures Next(k, paths[i], sources, acc, run(paths[i])) == Batch(k, paths[..i + 1], sources, md, run)
  {
    PrefixOfPrefix(paths, i);
  }

  /** One of the three conversion loops of `main`. */
  method ConvertLoop(k: Kind, paths: seq<string>, sources: set<string>, md: set<string>, run: string -> Option<ToolRun>)
    returns (converted: nat, mdAfter: set<string>)
    ensures (converted, mdAfter) == Batch(k, paths, sources, md, run)
  {
    converted, mdAfter := 0, md;
    var i := 0;
    while i < |paths|
      invariant 0 <= i <= |paths|
      invariant (converted, mdAfter) == Batch(k, paths[..i], sources, md, run)
    {
      BatchStep(k, paths, i, sources, md, run, (converted, mdAfter));
      if Convert(k, paths[i], sources, mdAfter, run(paths[i])) {
        converted := converted + 1;
        mdAfter := mdAfter + {OutputName(k, paths[i])};
      }
      i := i + 1;
    }
    WholePrefix(paths);
  }

  /** Two images with the same stem: once the first has succeeded, the
      second counts as converted without running the tool. */
  lemma SameStemSecondSkips(a: string, b: string, sources: set<string>, md: set<string>, run: string -> Option<ToolRun>)
    requires PathStem(a) == PathStem(b) && SourceName(b) in sources
    requires Convert(Image, a, sources, md, run(a))
    ensures Batch(Image, [a, b], sources, md, run).0 == 2
  {
    assert [a, b][..1] == [a];
    assert [a][..0] == [];
  }

  datatype ConvertRun = ConvertRun(exitCode: int, converted: nat, total: nat, md: set<string>)

  /** `main`: `files` are the paths of the scan's new then changed files
      (none when there is no scan file), `sources` the files under the Doc
      directory, `md` the names already in `md_outputs/`. After the count
      comes the offer to start the next stage: `answer` is the typed line
      (`None` at end of input) and `nextExit` that stage's status. */
  method ImageToTextMain(docDirExists: bool, files: seq<string>, sources: set<string>, md: set<string>,
                         run: string -> Option<ToolRun>, answer: Option<string>, nextExit: int)
    returns (r: ConvertRun)
    ensures !docDirExists ==> r == ConvertRun(1, 0, 0, md)
    ensures docDirExists ==> r.total == |OfKind(files, Image)| + |OfKind(files, Pdf)| + |OfKind(files, Docx)|
    ensures r.converted <= r.total && md <= r.md
    ensures docDirExists && r.total == 0 ==> r == ConvertRun(0, 0, 0, md)
    ensures docDirExists && r.total > 0 ==>
      r.exitCode == (if answer.None? then 1 else if Lower(Strip(answer.value)) == "y" then nextExit else 0)
    ensures docDirExists && r.total > 0 ==>
      var b1 := Batch(Image, OfKind(files, Image), sources, md, run);
      var b2 := Batch(Pdf, OfKind(files, Pdf), sources, b1.1, run);
      var b3 := Batch(Docx, OfKind(files, Docx), sources, b2.1, run);
      r.converted == b1.0 + b2.0 + b3.0 && r.md == b3.1
  {
    if !docDirExists {
      return ConvertRun(1, 0, 0, md);
    }
    var images, pdfs, docx := FindConvertible(files);
    var total := |images| + |pdfs| + |docx|;
    if total == 0 {
      return ConvertRun(0, 0, 0, md);
    }
    var c1, m1 := ConvertLoop(Image, images, sources, md, run);
    var c2, m2 := ConvertLoop(Pdf, pdfs, sources, m1, run);
    var c3, m3 := ConvertLoop(Docx, docx, sources, m2, run);
    var code := if answer.None? then 1 else if Lower(Strip(answer.value)) == "y" then nextExit else 0;
    r := ConvertRun(code, c1 + c2 + c3, total, m3);
  }
}
