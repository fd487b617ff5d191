/** The summarizer: for each new or changed file of the last scan, find the
    text to show the language model, turn its reply into a summary and a
    category, and append one pending record per success. The model's reply
    (`llm`) and the JSON decoder (`parse`) are oracles. */
module Summarize {
  import opened Strings
  import opened DmsState
  import Scan

  /** Word budget of a summary. */
  const SummaryMaxWords: nat := 50
  /** Characters of content shown to the model. */
  const ContentLimit: nat := 2000
  const Ellipsis: string := "…"

  /** Suffixes read as text (compared case-sensitively). */
  const TextSuffixes: set<string> := {".txt", ".md", ".html", ".py", ".js", ".json"}
  /** Lower-cased suffixes for which a text conversion is looked up. */
  const ConvertibleSuffixes: set<string> := {".png", ".jpg", ".jpeg", ".gif", ".bmp", ".webp", ".pdf"}
  /** Suffixes tried when pairing an OCR text with its image. */
  const OcrImageSuffixes: set<string> := {".png", ".jpg", ".jpeg", ".gif", ".webp", ".bmp"}

  /** One entry of `new_files` or `changed_files` as the scan file holds it;
      changed entries carry no "hash" and no "size" key. */
  datatype ScanItem = ScanItem(path: string, hash: Option<string>, size: Option<nat>)

  datatype FileEntry = FileEntry(path: string, hash: string, size: nat, readableVersion: Option<string>)

  /** One pending summary. */
  datatype SummaryRecord = SummaryRecord(
    file: FileEntry, summary: string, category: string, isNewCategory: bool, title: string, timestamp: string)

  /** What the JSON decoder makes of the reply: each key is optional. */
  datatype ParsedReply = ParsedReply(summary: Option<string>, category: Option<string>, isNewCategory: Option<bool>)

  datatype Generated = Generated(summary: string, category: string, isNewCategory: bool)

  /** The state of the pending file when a run starts. */
  datatype PendingLoad = NoPending | Unreadable | Loaded(summaries: seq<SummaryRecord>)

  /** `s[:n]`. */
  function Clip(s: string, n: nat): (r: string)
    ensures |r| == (if |s| < n then |s| else n) && StartsWith(s, r)
  {
    if |s| <= n then s else s[..n]
  }

  // ---------------------------------------------------------- scan input

  /** The list `main` works through: new files, then changed files. */
  function ScanItems(r: Scan.Report): (items: seq<ScanItem>)
    ensures |items| == |r.newFiles| + |r.changedFiles|
    ensures forall i :: 0 <= i < |r.newFiles| ==>
      items[i] == ScanItem(r.newFiles[i].path, Some(r.newFiles[i].hash), Some(r.newFiles[i].size))
    ensures forall i :: 0 <= i < |r.changedFiles| ==>
      items[|r.newFiles| + i] == ScanItem(r.changedFiles[i].path, None, None)
  {
    seq(|r.newFiles|, i requires 0 <= i < |r.newFiles| =>
        ScanItem(r.newFiles[i].path, Some(r.newFiles[i].hash), Some(r.newFiles[i].size)))
    + seq(|r.changedFiles|, i requires 0 <= i < |r.changedFiles| => ScanItem(r.changedFiles[i].path, None, None))
  }

  // -------------------------------------------------------------- resume

  /** Paths already summarized in the pending file. An unreadable file
      resumes from nothing. */
  function AlreadyDone(load: PendingLoad): (done: set<string>)
    ensures load.Loaded? ==> forall p :: p in done <==> exists s :: s in load.summaries && s.file.path == p
    ensures !load.Loaded? ==> done == {}
  {
    if load.Loaded? then set s | s in load.summaries :: s.file.path else {}
  }

  function InitialSummaries(load: PendingLoad): seq<SummaryRecord> {
    if load.Loaded? then load.summaries else []
  }

  /** The resume filter: the scan items, in order, whose path is not done. */
  function FilesToProcess(items: seq<ScanItem>, done: set<string>): (todo: seq<ScanItem>)
    ensures |todo| <= |items|
    ensures forall x :: x in todo <==> x in items && x.path !in done
  {
    if |items| == 0 then []
    else
      var rest := FilesToProcess(items[1..], done);
      assert forall x :: x in items <==> x == items[0] || x in items[1..];
      if items[0].path !in done then [items[0]] + rest else rest
  }

  lemma {:induction false} FilesToProcessKeepsOrder(items: seq<ScanItem>, done: set<string>)
    ensures IsSubsequence(FilesToProcess(items, done), items)
  {
    if |items| > 0 {
      FilesToProcessKeepsOrder(items[1..], done);
      var rest := FilesToProcess(items[1..], done);
      if items[0].path !in done {
        assert ([items[0]] + rest)[1..] == rest;
      } else {
        SubsequenceOfTail(rest, items);
      }
    }
  }

  // ------------------------------------------------------- file content

  /** `read_file_content`: the first 2000 characters of a text file, a
      placeholder naming any other file. */
  function ReadFileContent(rel: string, f: FileInfo): (c: string)
    ensures PathSuffix(rel) in TextSuffixes ==> (StartsWith(f.text, c) && |c| <= ContentLimit
      && (|f.text| >= ContentLimit ==> |c| == ContentLimit) && (|f.text| < ContentLimit ==> c == f.text))
    ensures PathSuffix(rel) !in TextSuffixes ==> c == "[Binary file: " + Name(rel) + "]"
  {
    if PathSuffix(rel) in TextSuffixes then Clip(f.text, ContentLimit)
    else "[Binary file: " + Name(rel) + "]"
  }

  function ByNamePath(filePath: string): string {
    "md_outputs/" + Name(filePath) + ".txt"
  }

  function ByStemPath(filePath: string): string {
    "md_outputs/" + PathStem(filePath) + ".txt"
  }

  /** `find_text_conversion`: the first 2000 characters of
      md_outputs/<name>.txt, else of md_outputs/<stem>.txt. */
  function FindTextConversion(filePath: string, disk: Disk): (r: Option<string>)
    ensures r.Some? <==> ByNamePath(filePath) in disk || ByStemPath(filePath) in disk
    ensures ByNamePath(filePath) in disk ==> r == Some(Clip(disk[ByNamePath(filePath)].text, ContentLimit))
    ensures ByNamePath(filePath) !in disk && ByStemPath(filePath) in disk ==>
      r == Some(Clip(disk[ByStemPath(filePath)].text, ContentLimit))
  {
    if ByNamePath(filePath) in disk then Some(Clip(disk[ByNamePath(filePath)].text, ContentLimit))
    else if ByStemPath(filePath) in disk then Some(Clip(disk[ByStemPath(filePath)].text, ContentLimit))
    else None
  }

  /** The conversion recorded as `readable_version`: the stem form first. */
  function RecordedConversion(rel: string, disk: Disk): (r: Option<string>)
    ensures r.Some? ==> StartsWith(r.value, "./md_outputs/") && EndsWith(r.value, ".txt")
  {
    if ByStemPath(rel) in disk then
      ConversionPathShape(PathStem(rel));
      Some("./" + ByStemPath(rel))
    else if ByNamePath(rel) in disk then
      ConversionPathShape(Name(rel));
      Some("./" + ByNamePath(rel))
    else None
  }

  lemma ConversionPathShape(base: string)
    ensures StartsWith("./" + ("md_outputs/" + base + ".txt"), "./md_outputs/")
    ensures EndsWith("./" + ("md_outputs/" + base + ".txt"), ".txt")
  {
    var s := "./" + ("md_outputs/" + base + ".txt");
    assert s == "./md_outputs/" + base + ".txt";
    assert s[..|"./md_outputs/"|] == "./md_outputs/";
    assert s[|s| - 4..] == ".txt";
  }

  /** When both conversions exist under different names, the content comes
      from md_outputs/<name>.txt while the record points at md_outputs/<stem>.txt. */
  lemma ContentAndRecordCanDisagree(rel: string, disk: Disk)
    requires ByNamePath(rel) in disk && ByStemPath(rel) in disk && PathSuffix(rel) != ""
    ensures FindTextConversion(rel, disk) == Some(Clip(disk[ByNamePath(rel)].text, ContentLimit))
    ensures RecordedConversion(rel, disk) == Some("./" + ByStemPath(rel))
    ensures ByNamePath(rel) != ByStemPath(rel)
  {
    var name := Name(rel);
    StemSuffix(name);
    assert |PathStem(rel)| < |name|;
    assert |ByStemPath(rel)| < |ByNamePath(rel)|;
  }

  /** A converter output that does not end in ".txt" (the PDF and DOCX
      conversions end in ".md") never changes what the lookup finds. */
  lemma NonTxtConversionIgnored(filePath: string, disk: Disk, out: string, f: FileInfo)
    requires !EndsWith(out, ".txt")
    ensures FindTextConversion(filePath, disk[out := f]) == FindTextConversion(filePath, disk)
    ensures RecordedConversion(filePath, disk[out := f]) == RecordedConversion(filePath, disk)
  {
    assert EndsWith(ByNamePath(filePath), ".txt");
    assert EndsWith(ByStemPath(filePath), ".txt");
  }

  /** `extOrder` is an iteration order of the OCR image suffix set. */
  predicate ValidExtOrder(extOrder: seq<string>) {
    (forall e :: e in extOrder ==> e in OcrImageSuffixes) && (forall e :: e in OcrImageSuffixes ==> e in extOrder)
  }

  /** `doc_dir / rel` exists: the empty name is the Doc directory itself. */
  predicate Exists(rel: string, disk: Disk) {
    rel == "" || rel in disk
  }

  /** `find_image_for_text_file`: the original that an OCR text belongs to,
      trying the exact name, then each image suffix in set-iteration order. */
  function FindImageForTextFile(textPath: string, disk: Disk, extOrder: seq<string>): (r: Option<string>)
    requires ValidExtOrder(extOrder)
    ensures !EndsWith(Name(textPath), ".txt") ==> r.None?
    ensures r.Some? ==> (var w := Name(textPath)[..|Name(textPath)| - 4];
      StartsWith(r.value, "./" + w)
      && (Exists(w, disk) ==> r.value == "./" + w)
      && (!Exists(w, disk) ==> exists e :: e in OcrImageSuffixes && r.value == "./" + w + e && w + e in disk))
    ensures EndsWith(Name(textPath), ".txt") ==> (var w := Name(textPath)[..|Name(textPath)| - 4];
      r.None? <==> !Exists(w, disk) && forall e :: e in OcrImageSuffixes ==> w + e !in disk)
  {
    var name := Name(textPath);
    if !EndsWith(name, ".txt") then None
    else
      var w := name[..|name| - 4];
      if Exists(w, disk) then Some("./" + w)
      else FirstWithSuffix(w, disk, extOrder)
  }

  function FirstWithSuffix(w: string, disk: Disk, exts: seq<string>): (r: Option<string>)
    ensures r.None? <==> forall e :: e in exts ==> w + e !in disk
    ensures r.Some? ==> exists e :: e in exts && r.value == "./" + w + e && w + e in disk
  {
    if |exts| == 0 then None
    else if w + exts[0] in disk then
      assert ("./" + w) + exts[0] == "./" + (w + exts[0]);
      Some("./" + w + exts[0])
    else
      assert forall e :: e in exts <==> e == exts[0] || e in exts[1..];
      FirstWithSuffix(w, disk, exts[1..])
  }

  // ------------------------------------------------------- model reply

  /** The JSON text cut out of a stripped reply: after the first "```json"
      up to the next fence, else between the first two fences, else all. */
  function JsonText(r: string): string {
    if Contains(r, "```json") then Strip(Before(SplitSecond(r, "```json"), "```"))
    else if Contains(r, "```") then Strip(Before(SplitSecond(r, "```"), "```"))
    else r
  }

  /** With one "```json" marker, the JSON is the text between it and the next
      fence. */
  lemma JsonFenceBetween(r: string)
    requires Contains(r, "```json") && !Contains(After(r, "```json"), "```json")
    ensures JsonText(r) == Strip(Before(After(r, "```json"), "```"))
  {
    BeforeWhenAbsent(After(r, "```json"), "```json");
  }

  /** Without a "```json" marker, the JSON is the text between the first two
      fences. */
  lemma JsonPlainFence(r: string)
    requires !Contains(r, "```json") && Contains(r, "```")
    ensures JsonText(r) == Strip(Before(After(r, "```"), "```"))
  {
    BeforeIdempotent(After(r, "```"), "```");
  }

  lemma JsonNoFence(r: string)
    requires !Contains(r, "```")
    ensures JsonText(r) == r
    ensures !Contains(r, "```json")
  {
    if Contains(r, "```json") {
      var i: nat :| i + 7 <= |r| && OccursAt(r, "```json", i);
      assert r[i..i + 3] == r[i..i + 7][..3];
      assert OccursAt(r, "```", i);
      assert false;
    }
  }

  /** `generate_summary_and_category` after the HTTP call: no reply or an
      undecodable JSON text is a failure; missing keys take their defaults. */
  function Generate(reply: Option<string>, parse: string -> Option<ParsedReply>): (g: Option<Generated>)
    ensures reply.None? ==> g.None?
    ensures reply.Some? ==> (g.Some? <==> parse(JsonText(Strip(reply.value))).Some?)
    ensures g.Some? ==> (var p := parse(JsonText(Strip(reply.value))).value;
      && (p.category.None? ==> g.value.category == "Guides")
      && (p.isNewCategory.None? ==> !g.value.isNewCategory)
      && (p.summary.None? ==> g.value.summary == "")
      && (p.summary.Some? ==> g.value.summary == Strip(p.summary.value))
      && (p.category.Some? ==> g.value.category == p.category.value)
      && (p.isNewCategory.Some? ==> g.value.isNewCategory == p.isNewCategory.value)
      && |g.value.summary| <= |p.summary.GetOr("")|)
  {
    match reply
    case None => None
    case Some(raw) =>
      match parse(JsonText(Strip(raw)))
      case None => None
      case Some(p) => Some(Generated(Strip(p.summary.GetOr("")), p.category.GetOr("Guides"), p.isNewCategory.GetOr(false)))
  }

  // ---------------------------------------------------------- truncation

  /** `truncate_summary`: the summary as it is when within budget, otherwise
      the first `maxWords` words joined by single spaces and an ellipsis. */
  function TruncateSummary(s: string, maxWords: nat): (r: (string, bool))
    ensures r.1 <==> |Words(s)| > maxWords
    ensures !r.1 ==> r.0 == s
    ensures r.1 ==> EndsWith(r.0, Ellipsis)
  {
    var words := Words(s);
    if |words| <= maxWords then (s, false)
    else (JoinSpace(words[..maxWords]) + Ellipsis, true)
  }

  /** A truncated summary has exactly the budget's number of words: the first
      ones unchanged, the last one carrying the ellipsis. */
  lemma {:induction false} TruncatedWords(s: string, maxWords: nat)
    requires maxWords > 0 && |Words(s)| > maxWords
    ensures var ws := Words(s);
      Words(TruncateSummary(s, maxWords).0) == ws[..maxWords - 1] + [ws[maxWords - 1] + Ellipsis]
    ensures |Words(TruncateSummary(s, maxWords).0)| == maxWords
  {
    var ws := Words(s);
    var kept := ws[..maxWords];
    WordsAreWords(s);
    JoinSpaceAppend(kept, Ellipsis);
    var ws' := kept[..maxWords - 1] + [kept[maxWords - 1] + Ellipsis];
    assert kept[..maxWords - 1] == ws[..maxWords - 1];
    forall k | 0 <= k < |ws'| ensures IsWord(ws'[k]) {
      if k == maxWords - 1 {
        var w := ws[maxWords - 1] + Ellipsis;
        assert IsWord(ws[maxWords - 1]);
        forall i | 0 <= i < |w| ensures !IsSpace(w[i]) {
          if i >= |ws[maxWords - 1]| {
            assert w[i] == Ellipsis[i - |ws[maxWords - 1]|];
          } else {
            assert w[i] == ws[maxWords - 1][i];
          }
        }
      } else {
        assert ws'[k] == ws[k];
      }
    }
    WordsOfJoin(ws');
  }

  // ----------------------------------------------------------- one file

  /** The text shown to the model for an existing file, and the conversion
      to record: a non-empty text conversion of an image or PDF, else the
      file's own content. */
  function ContentOf(filePath: string, rel: string, disk: Disk): (c: (string, Option<string>))
    requires rel in disk
    ensures c.1.Some? ==> Lower(PathSuffix(rel)) in ConvertibleSuffixes
    ensures Lower(PathSuffix(rel)) !in ConvertibleSuffixes ==> c == (ReadFileContent(rel, disk[rel]), None)
  {
    var converted := if Lower(PathSuffix(rel)) in ConvertibleSuffixes then FindTextConversion(filePath, disk) else None;
    if converted.Some? && converted.value != "" then (converted.value, RecordedConversion(rel, disk))
    else (ReadFileContent(rel, disk[rel]), None)
  }

  /** The `readable_version` of a record: the conversion used, else for an
      OCR text under md_outputs/ the image it came from. */
  function ReadableOf(filePath: string, conversion: Option<string>, disk: Disk, extOrder: seq<string>): Option<string>
    requires ValidExtOrder(extOrder)
  {
    if conversion.Some? then conversion
    else if Contains(filePath, Scan.MdOutputsMarker) && EndsWith(filePath, ".txt") then
      FindImageForTextFile(filePath, disk, extOrder)
    else None
  }

  /** The record for a successful reply: the summary within the word budget
      and the title taken from the path. */
  function BuildRecord(item: ScanItem, g: Generated, readable: Option<string>, now: string): (r: SummaryRecord)
    ensures r.file.path == item.path && r.title == PathStem(item.path)
    ensures r.file.hash == item.hash.GetOr("") && r.file.size == item.size.GetOr(0)
    ensures |Words(r.summary)| <= SummaryMaxWords
    ensures r.category == g.category && r.isNewCategory == g.isNewCategory
    ensures r.summary == TruncateSummary(g.summary, SummaryMaxWords).0
    ensures r.file.readableVersion == readable && r.timestamp == now
  {
    var summary := TruncateSummary(g.summary, SummaryMaxWords).0;
    assert |Words(summary)| <= SummaryMaxWords by {
      if |Words(g.summary)| > SummaryMaxWords {
        TruncatedWords(g.summary, SummaryMaxWords);
      }
    }
    SummaryRecord(FileEntry(item.path, item.hash.GetOr(""), item.size.GetOr(0), readable),
      summary, g.category, g.isNewCategory, PathStem(item.path), now)
  }

  /** `lstrip('./')` of a scan path: the file it names under the Doc directory. */
  function DiskKey(path: string): string {
    LStripChars(path, {'.', '/'})
  }

  /** The per-file step of `main`'s loop: `None` when the file is missing or
      the model gives no usable reply, otherwise the one record appended. */
  function ProcessFile(item: ScanItem, disk: Disk, llm: (string, string) -> Option<string>,
                       parse: string -> Option<ParsedReply>, extOrder: seq<string>, now: string): (r: Option<SummaryRecord>)
    requires ValidExtOrder(extOrder)
    ensures DiskKey(item.path) !in disk ==> r.None?
    ensures r.Some? ==> (r.value.file.path == item.path && r.value.title == PathStem(item.path)
      && r.value.file.hash == item.hash.GetOr("") && r.value.file.size == item.size.GetOr(0)
      && |Words(r.value.summary)| <= SummaryMaxWords)
    ensures DiskKey(item.path) in disk ==>
      var c := ContentOf(item.path, DiskKey(item.path), disk);
      var g := Generate(llm(c.0, Name(item.path)), parse);
      && (r.Some? <==> g.Some?)
      && (g.Some? ==> r.value == BuildRecord(item, g.value, ReadableOf(item.path, c.1, disk, extOrder), now))
  {
    var rel := DiskKey(item.path);
    if rel !in disk then None
    else
      var c := ContentOf(item.path, rel, disk);
      match Generate(llm(c.0, Name(item.path)), parse)
      case None => None
      case Some(g) => Some(BuildRecord(item, g, ReadableOf(item.path, c.1, disk, extOrder), now))
  }

  /** The records appended for `items`, in order. */
  function NewRecords(items: seq<ScanItem>, disk: Disk, llm: (string, string) -> Option<string>,
                      parse: string -> Option<ParsedReply>, extOrder: seq<string>, now: string): seq<SummaryRecord>
    requires ValidExtOrder(extOrder)
  {
    if |items| == 0 then []
    else
      var rest := NewRecords(items[..|items| - 1], disk, llm, parse, extOrder, now);
      match ProcessFile(items[|items| - 1], disk, llm, parse, extOrder, now)
      case Some(rec) => rest + [rec]
      case None => rest
  }

  /** The records of a prefix one item longer: the shorter prefix's records
      and then whatever the new item yields. */
  lemma NewRecordsStep(items: seq<ScanItem>, i: nat, disk: Disk, llm: (string, string) -> Option<string>,
                       parse: string -> Option<ParsedReply>, extOrder: seq<string>, now: string)
    requires ValidExtOrder(extOrder)
    requires i < |items|
    ensures var r := ProcessFile(items[i], disk, llm, parse, extOrder, now);
      NewRecords(items[..i + 1], disk, llm, parse, extOrder, now) ==
        if r.Some? then NewRecords(items[..i], disk, llm, parse, extOrder, now) + [r.value]
        else NewRecords(items[..i], disk, llm, parse, extOrder, now)
  {
    PrefixOfPrefix(items, i);
  }

  /** The loop of `main`: one record per success, appended after the
      records resumed from the pending file. */
  method SummarizeLoop(todo: seq<ScanItem>, initial: seq<SummaryRecord>, disk: Disk,
                       llm: (string, string) -> Option<string>, parse: string -> Option<ParsedReply>,
                       extOrder: seq<string>, now: string) returns (summaries: seq<SummaryRecord>)
    requires ValidExtOrder(extOrder)
    ensures summaries == initial + NewRecords(todo, disk, llm, parse, extOrder, now)
  {
    summaries := initial;
    var i := 0;
    while i < |todo|
      invariant 0 <= i <= |todo|
      invariant summaries == initial + NewRecords(todo[..i], disk, llm, parse, extOrder, now)
    {
      var item := todo[i];
      NewRecordsStep(todo, i, disk, llm, parse, extOrder, now);
      var rel := DiskKey(item.path);
      if rel !in disk {
        i := i + 1;
        continue;
      }
      var result := ProcessFile(item, disk, llm, parse, extOrder, now);
      if result.Some? {
        AppendAssoc(initial, NewRecords(todo[..i], disk, llm, parse, extOrder, now), [result.value]);
        summaries := summaries + [result.value];
      }
      i := i + 1;
    }
    WholePrefix(todo);
  }

  /** Every record comes from exactly one successful item, in item order:
      one record per success, nothing for a missing file or a failed reply. */
  lemma {:induction false} RecordsPerSuccess(items: seq<ScanItem>, disk: Disk, llm: (string, string) -> Option<string>,
                                            parse: string -> Option<ParsedReply>, extOrder: seq<string>, now: string)
    requires ValidExtOrder(extOrder)
    ensures var recs := NewRecords(items, disk, llm, parse, extOrder, now);
      && |recs| <= |items|
      && forall x :: x in recs <==> exists it :: it in items && ProcessFile(it, disk, llm, parse, extOrder, now) == Some(x)
  {
    if |items| > 0 {
      var n := |items| - 1;
      var init := items[..n];
      RecordsPerSuccess(init, disk, llm, parse, extOrder, now);
      NewRecordsStep(items, n, disk, llm, parse, extOrder, now);
      WholePrefix(items);
      var recs := NewRecords(items, disk, llm, parse, extOrder, now);
      var prev := NewRecords(init, disk, llm, parse, extOrder, now);
      var p := ProcessFile(items[n], disk, llm, parse, extOrder, now);
      var last := if p.Some? then [p.value] else [];
      assert recs == prev + last;
      forall x | x in recs
        ensures exists it :: it in items && ProcessFile(it, disk, llm, parse, extOrder, now) == Some(x)
      {
        if x in prev {
          var it :| it in init && ProcessFile(it, disk, llm, parse, extOrder, now) == Some(x);
          assert it in items;
        } else {
          assert x in last;
          assert items[n] in items;
        }
      }
      forall x | exists it :: it in items && ProcessFile(it, disk, llm, parse, extOrder, now) == Some(x)
        ensures x in recs
      {
        var it :| it in items && ProcessFile(it, disk, llm, parse, extOrder, now) == Some(x);
        var j :| 0 <= j < |items| && items[j] == it;
        if j < n {
          assert it == init[j];
          assert x in prev;
        } else {
          assert j == n && it == items[n];
          assert last == [x];
        }
      }
    }
  }

  // ---------------------------------------------------------------- main

  datatype PendingFile = PendingFile(timestamp: string, summaries: seq<SummaryRecord>)
  datatype SummarizeRun = SummarizeRun(exitCode: int, written: Option<PendingFile>)

  /** `main`: missing Doc directory or unreachable model is an error; nothing
      to do is a success without writing; a dry run writes nothing. */
  method SummarizeMain(docDirExists: bool, modelReachable: bool, items: seq<ScanItem>, load: PendingLoad,
                       disk: Disk, llm: (string, string) -> Option<string>, parse: string -> Option<ParsedReply>,
                       extOrder: seq<string>, now: string, dryRun: bool) returns (run: SummarizeRun)
    requires ValidExtOrder(extOrder)
    ensures !docDirExists || !modelReachable ==> run == SummarizeRun(1, None)
    ensures docDirExists && modelReachable ==> run.exitCode == 0
    ensures run.written.Some? <==> docDirExists && modelReachable && |items| > 0 && !dryRun
    ensures run.written.Some? ==> run.written.value == PendingFile(now,
      InitialSummaries(load) + NewRecords(FilesToProcess(items, AlreadyDone(load)), disk, llm, parse, extOrder, now))
  {
    if !docDirExists || !modelReachable {
      return SummarizeRun(1, None);
    }
    if |items| == 0 {
      return SummarizeRun(0, None);
    }
    var done := AlreadyDone(load);
    var initial := InitialSummaries(load);
    var todo := FilesToProcess(items, done);
    var summaries := SummarizeLoop(todo, initial, disk, llm, parse, extOrder, now);
    if dryRun {
      return SummarizeRun(0, None);
    }
    run := SummarizeRun(0, Some(PendingFile(now, summaries)));
  }

  /** Resuming never summarizes a path twice: no new record repeats a path of
      the pending file. */
  lemma ResumeSkipsDone(items: seq<ScanItem>, load: PendingLoad, disk: Disk,
                        llm: (string, string) -> Option<string>, parse: string -> Option<ParsedReply>,
                        extOrder: seq<string>, now: string)
    requires ValidExtOrder(extOrder)
    ensures forall x :: x in NewRecords(FilesToProcess(items, AlreadyDone(load)), disk, llm, parse, extOrder, now) ==>
      x.file.path !in AlreadyDone(load)
  {
    var todo := FilesToProcess(items, AlreadyDone(load));
    RecordsPerSuccess(todo, disk, llm, parse, extOrder, now);
  }

  /** Items that come from a scan never lie under md_outputs/, so the OCR
      pairing branch never runs on them. */
  lemma ScanItemsOutsideMdOutputs(listing: seq<Scan.Listed>, docs: map<string, Doc>, keys: seq<string>)
    requires Enumerates(keys, docs)
    ensures forall it :: it in ScanItems(Scan.ScanReport(listing, docs, keys)) ==> !Scan.InMdOutputs(it.path)
  {
    var r := Scan.ScanReport(listing, docs, keys);
    Scan.MdOutputsNeverTracked(listing, docs, keys);
    var items := ScanItems(r);
    forall it | it in items ensures !Scan.InMdOutputs(it.path) {
      var i :| 0 <= i < |items| && items[i] == it;
      if i < |r.newFiles| {
        assert r.newFiles[i].path in Scan.NewPaths(r);
      } else {
        assert r.changedFiles[i - |r.newFiles|].path in Scan.ChangedPaths(r);
      }
    }
  }

  /** A changed file's record carries an empty hash: the scan entry for a
      changed file has no "hash" key. */
  lemma ChangedRecordHasEmptyHash(r: Scan.Report, i: nat, disk: Disk, llm: (string, string) -> Option<string>,
                                  parse: string -> Option<ParsedReply>, extOrder: seq<string>, now: string)
    requires ValidExtOrder(extOrder)
    requires i < |r.changedFiles|
    requires ProcessFile(ScanItems(r)[|r.newFiles| + i], disk, llm, parse, extOrder, now).Some?
    ensures ProcessFile(ScanItems(r)[|r.newFiles| + i], disk, llm, parse, extOrder, now).value.file.hash == ""
  {
  }
}
