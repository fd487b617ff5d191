/** The scanner: compares the files under the Doc directory with the stored
    documents and reports new, changed and missing files. The walk of the
    directory is an input (`listing`, in walk order); so is the iteration
    order of the stored documents (`keys`). */
module Scan {
  import opened Strings
  import opened DmsState

  /** One regular file the walk yields: its path relative to the Doc directory. */
  datatype Listed = Listed(rel: string, info: FileInfo)

  /** An entry of the `disk_files` dict: key "./<rel>" and the file behind it. */
  datatype DiskFile = DiskFile(path: string, info: FileInfo)

  datatype NewFile = NewFile(path: string, hash: string, size: nat, fileMtime: string)
  datatype ChangedFile = ChangedFile(path: string, oldHash: Option<string>, newHash: string)
  datatype MissingFile = MissingFile(path: string, wasCategory: string)
  datatype Report = Report(newFiles: seq<NewFile>, changedFiles: seq<ChangedFile>, missingFiles: seq<MissingFile>)

  const MdOutputsMarker: string := "./md_outputs/"

  /** Files under md_outputs/ are readable versions, never documents. */
  predicate InMdOutputs(p: string) {
    Contains(p, MdOutputsMarker)
  }

  predicate IsHiddenName(name: string) {
    StartsWith(name, ".")
  }

  /** The walk yields each file once. */
  predicate DistinctListing(listing: seq<Listed>) {
    forall i, j :: 0 <= i < j < |listing| ==> listing[i].rel != listing[j].rel
  }

  predicate DistinctPaths(disk: seq<DiskFile>) {
    forall i, j :: 0 <= i < j < |disk| ==> disk[i].path != disk[j].path
  }

  /** `compute_file_hash`: the tagged hex digest. It never equals an empty
      stored hash. */
  function HashOf(f: FileInfo): (h: string)
    ensures StartsWith(h, "sha256:") && h != ""
  {
    "sha256:" + f.digest
  }

  // ------------------------------------------------------------ the walk

  /** A walked file whose own name does not start with '.'. */
  predicate Visible(e: Listed) {
    !IsHiddenName(Name(e.rel))
  }

  /** The `disk_files` entry of a walked file: key "./<rel>". */
  function DiskOf(e: Listed): DiskFile {
    DiskFile("./" + e.rel, e.info)
  }

  lemma DiskOfInjective(a: Listed, b: Listed)
    ensures DiskOf(a).path == DiskOf(b).path ==> a.rel == b.rel
  {
    assert DiskOf(a).path[2..] == a.rel;
    assert DiskOf(b).path[2..] == b.rel;
  }

  /** The `disk_files` dict in insertion order. */
  function DiskFiles(listing: seq<Listed>): seq<DiskFile>
  {
    if |listing| == 0 then []
    else
      var rest := DiskFiles(listing[..|listing| - 1]);
      var e := listing[|listing| - 1];
      if Visible(e) then rest + [DiskOf(e)] else rest
  }

  method CollectDiskFiles(listing: seq<Listed>) returns (disk: seq<DiskFile>)
    ensures disk == DiskFiles(listing)
  {
    disk := [];
    var i := 0;
    while i < |listing|
      invariant 0 <= i <= |listing|
      invariant disk == DiskFiles(listing[..i])
    {
      var e := listing[i];
      PrefixOfPrefix(listing, i);
      if !IsHiddenName(Name(e.rel)) {
        var relPath := "./" + e.rel;
        disk := disk + [DiskFile(relPath, e.info)];
      }
      i := i + 1;
    }
    WholePrefix(listing);
  }

  /** The disk holds exactly the visible walked files; a visible file inside
      a hidden directory is kept. */
  lemma {:induction false} DiskFilesExactly(listing: seq<Listed>)
    ensures forall d :: d in DiskFiles(listing) <==> exists e :: e in listing && Visible(e) && d == DiskOf(e)
  {
    if |listing| > 0 {
      var init := listing[..|listing| - 1];
      DiskFilesExactly(init);
      assert listing == init + [listing[|listing| - 1]];
    }
  }

  lemma {:induction false} DiskFilesDistinct(listing: seq<Listed>)
    requires DistinctListing(listing)
    ensures DistinctPaths(DiskFiles(listing))
  {
    if |listing| > 0 {
      var init := listing[..|listing| - 1];
      var e := listing[|listing| - 1];
      DiskFilesDistinct(init);
      DiskFilesExactly(init);
      var d := DiskFiles(listing);
      if Visible(e) {
        forall i | 0 <= i < |d| - 1 ensures d[i].path != DiskOf(e).path {
          var x := d[i];
          assert x in DiskFiles(init);
          var e' :| e' in init && Visible(e') && x == DiskOf(e');
          var k :| 0 <= k < |init| && init[k] == e';
          assert listing[k] == e';
          assert e'.rel != e.rel;
          DiskOfInjective(e', e);
        }
      }
    }
  }

  function DiskPaths(disk: seq<DiskFile>): (s: set<string>)
    ensures forall p :: p in s <==> exists d :: d in disk && d.path == p
  {
    set d | d in disk :: d.path
  }

  /** The keys "./<rel>" of the visible walked files. */
  function VisiblePaths(listing: seq<Listed>): set<string> {
    set e | e in listing && Visible(e) :: DiskOf(e).path
  }

  lemma DiskPathsAreVisible(listing: seq<Listed>)
    ensures DiskPaths(DiskFiles(listing)) == VisiblePaths(listing)
  {
    var disk := DiskFiles(listing);
    DiskFilesExactly(listing);
    forall p ensures p in DiskPaths(disk) <==> p in VisiblePaths(listing) {
      if p in DiskPaths(disk) {
        var d :| d in disk && d.path == p;
        var e :| e in listing && Visible(e) && d == DiskOf(e);
      }
      if p in VisiblePaths(listing) {
        var e :| e in listing && Visible(e) && p == DiskOf(e).path;
        assert DiskOf(e) in disk;
      }
    }
  }

  // ------------------------------------------------------------- pairing

  /** A readable version: an md_outputs/ file whose name ends in ".txt". */
  predicate IsReadableCandidate(p: string) {
    InMdOutputs(p) && EndsWith(Name(p), ".txt")
  }

  function TxtBase(name: string): string
    requires EndsWith(name, ".txt")
  {
    name[..|name| - 4]
  }

  /** An original outside md_outputs/ whose name equals or starts with `base`. */
  predicate MatchesBase(p: string, base: string) {
    !InMdOutputs(p) && (Name(p) == base || StartsWith(Name(p), base))
  }

  /** The first disk path that matches `base`, in disk order. */
  function FirstOriginal(disk: seq<DiskFile>, base: string): Option<string>
  {
    if |disk| == 0 then None
    else if MatchesBase(disk[0].path, base) then Some(disk[0].path)
    else FirstOriginal(disk[1..], base)
  }

  /** The search finds a match exactly when one exists, and it is the first. */
  lemma {:induction false} FirstOriginalIsFirst(disk: seq<DiskFile>, base: string)
    ensures var r := FirstOriginal(disk, base);
      && (r.None? <==> forall d :: d in disk ==> !MatchesBase(d.path, base))
      && (r.Some? ==> exists k :: (0 <= k < |disk| && disk[k].path == r.value && MatchesBase(r.value, base)
            && forall j :: 0 <= j < k ==> !MatchesBase(disk[j].path, base)))
  {
    if |disk| > 0 && !MatchesBase(disk[0].path, base) {
      var r := FirstOriginal(disk[1..], base);
      FirstOriginalIsFirst(disk[1..], base);
      assert forall d :: d in disk ==> d == disk[0] || d in disk[1..];
      if r.Some? {
        var k :| 0 <= k < |disk[1..]| && disk[1..][k].path == r.value && MatchesBase(r.value, base)
          && forall j :: 0 <= j < k ==> !MatchesBase(disk[1..][j].path, base);
        assert disk[k + 1].path == r.value;
        forall j | 0 < j < k + 1 ensures !MatchesBase(disk[j].path, base) {
          assert disk[j] == disk[1..][j - 1];
        }
      }
    }
  }

  /** The inner search of the pairing loop, which stops at the first match. */
  method FindOriginal(disk: seq<DiskFile>, base: string) returns (r: Option<string>)
    ensures r == FirstOriginal(disk, base)
  {
    var i := 0;
    r := None;
    while i < |disk|
      invariant 0 <= i <= |disk|
      invariant FirstOriginal(disk, base) == FirstOriginal(disk[i..], base)
    {
      assert disk[i..][1..] == disk[i + 1..];
      if MatchesBase(disk[i].path, base) {
        r := Some(disk[i].path);
        return;
      }
      i := i + 1;
    }
  }

  /** `m` is a readable version whose first matching original is `o`. */
  predicate PairsWith(disk: seq<DiskFile>, m: string, o: string) {
    IsReadableCandidate(m) && FirstOriginal(disk, TxtBase(Name(m))) == Some(o)
  }

  datatype Pairing = Pairing(readable: map<string, string>, orphans: set<string>)

  function PairStep(pr: Pairing, disk: seq<DiskFile>, m: string): Pairing {
    if IsReadableCandidate(m) then
      match FirstOriginal(disk, TxtBase(Name(m)))
      case Some(o) => pr.(readable := pr.readable[o := m])
      case None => pr.(orphans := pr.orphans + {m})
    else pr
  }

  /** The pairing after the outer loop has visited `disk[..n]`. */
  function PairingOf(disk: seq<DiskFile>, n: nat): Pairing
    requires n <= |disk|
  {
    if n == 0 then Pairing(map[], {}) else PairStep(PairingOf(disk, n - 1), disk, disk[n - 1].path)
  }

  method PairReadables(disk: seq<DiskFile>) returns (readable: map<string, string>, orphans: set<string>)
    ensures Pairing(readable, orphans) == PairingOf(disk, |disk|)
  {
    readable := map[];
    orphans := {};
    var i := 0;
    while i < |disk|
      invariant 0 <= i <= |disk|
      invariant Pairing(readable, orphans) == PairingOf(disk, i)
    {
      var m := disk[i].path;
      if InMdOutputs(m) {
        var name := Name(m);
        if EndsWith(name, ".txt") {
          var found := FindOriginal(disk, TxtBase(name));
          if found.Some? {
            readable := readable[found.value := m];
          } else {
            orphans := orphans + {m};
          }
        }
      }
      i := i + 1;
    }
  }

  /** Every pair links an original outside md_outputs/ to a readable ".txt"
      version whose first matching original it is. */
  lemma {:induction false} PairsAreFirstMatches(disk: seq<DiskFile>, n: nat)
    requires n <= |disk|
    ensures forall o :: o in PairingOf(disk, n).readable ==>
      !InMdOutputs(o) && PairsWith(disk, PairingOf(disk, n).readable[o], o)
  {
    if n > 0 {
      PairsAreFirstMatches(disk, n - 1);
      var m := disk[n - 1].path;
      if IsReadableCandidate(m) {
        var base := TxtBase(Name(m));
        FirstOriginalIsFirst(disk, base);
      }
    }
  }

  /** When several readable versions match one original, the last in disk
      order wins. */
  lemma {:induction false} LastReadableWins(disk: seq<DiskFile>, n: nat, o: string)
    requires n <= |disk| && o in PairingOf(disk, n).readable
    ensures exists k :: (0 <= k < n && disk[k].path == PairingOf(disk, n).readable[o]
      && forall j :: k < j < n ==> !PairsWith(disk, disk[j].path, o))
  {
    var m := disk[n - 1].path;
    if PairsWith(disk, m, o) {
      assert disk[n - 1].path == PairingOf(disk, n).readable[o];
    } else {
      var prev := PairingOf(disk, n - 1);
      assert o in prev.readable && PairingOf(disk, n).readable[o] == prev.readable[o];
      LastReadableWins(disk, n - 1, o);
      var k :| 0 <= k < n - 1 && disk[k].path == prev.readable[o]
        && forall j :: k < j < n - 1 ==> !PairsWith(disk, disk[j].path, o);
      assert forall j :: k < j < n ==> !PairsWith(disk, disk[j].path, o);
    }
  }

  /** Every visited readable version with a matching original gets that
      original paired (possibly with a later version). */
  lemma {:induction false} CandidatesArePaired(disk: seq<DiskFile>, n: nat)
    requires n <= |disk|
    ensures forall k, o :: 0 <= k < n && PairsWith(disk, disk[k].path, o) ==> o in PairingOf(disk, n).readable
  {
    if n > 0 {
      CandidatesArePaired(disk, n - 1);
      var prev := PairingOf(disk, n - 1);
      var pr := PairingOf(disk, n);
      assert prev.readable.Keys <= pr.readable.Keys;
      forall k, o | 0 <= k < n && PairsWith(disk, disk[k].path, o) ensures o in pr.readable {
        if k < n - 1 {
          assert o in prev.readable;
        }
      }
    }
  }

  /** The orphans are exactly the visited readable versions without a
      matching original; a file not ending in ".txt" is never one. */
  lemma {:induction false} OrphansExactly(disk: seq<DiskFile>, n: nat)
    requires n <= |disk|
    ensures forall m :: m in PairingOf(disk, n).orphans <==>
      (exists k :: 0 <= k < n && disk[k].path == m)
      && IsReadableCandidate(m) && FirstOriginal(disk, TxtBase(Name(m))).None?
  {
    if n > 0 {
      OrphansExactly(disk, n - 1);
      forall m ensures m in PairingOf(disk, n).orphans <==>
        (exists k :: 0 <= k < n && disk[k].path == m)
        && IsReadableCandidate(m) && FirstOriginal(disk, TxtBase(Name(m))).None?
      {
        if exists k :: 0 <= k < n && disk[k].path == m {
          var k :| 0 <= k < n && disk[k].path == m;
          if k < n - 1 {
            assert exists k :: 0 <= k < n - 1 && disk[k].path == m;
          }
        }
      }
    }
  }

  // ------------------------------------------------------ classification

  predicate IsNew(d: DiskFile, docs: map<string, Doc>) {
    !InMdOutputs(d.path) && d.path !in docs
  }

  predicate IsChanged(d: DiskFile, docs: map<string, Doc>) {
    !InMdOutputs(d.path) && d.path in docs && docs[d.path].hash != Some(HashOf(d.info))
  }

  function NewEntry(d: DiskFile): NewFile {
    NewFile(d.path, HashOf(d.info), d.info.size, d.info.mtime)
  }

  function ChangedEntry(d: DiskFile, docs: map<string, Doc>): ChangedFile
    requires d.path in docs
  {
    ChangedFile(d.path, docs[d.path].hash, HashOf(d.info))
  }

  function NewFilesOf(disk: seq<DiskFile>, docs: map<string, Doc>): seq<NewFile>
  {
    if |disk| == 0 then []
    else
      var rest := NewFilesOf(disk[..|disk| - 1], docs);
      var d := disk[|disk| - 1];
      if IsNew(d, docs) then rest + [NewEntry(d)] else rest
  }

  function ChangedFilesOf(disk: seq<DiskFile>, docs: map<string, Doc>): seq<ChangedFile>
  {
    if |disk| == 0 then []
    else
      var rest := ChangedFilesOf(disk[..|disk| - 1], docs);
      var d := disk[|disk| - 1];
      if IsChanged(d, docs) then rest + [ChangedEntry(d, docs)] else rest
  }

  /** The classification loop, with the source's two identical branches for
      paired and unpaired originals. Its result does not depend on `readable`. */
  method ClassifyFiles(disk: seq<DiskFile>, docs: map<string, Doc>, readable: map<string, string>)
    returns (newFiles: seq<NewFile>, changedFiles: seq<ChangedFile>)
    ensures newFiles == NewFilesOf(disk, docs)
    ensures changedFiles == ChangedFilesOf(disk, docs)
  {
    newFiles := [];
    changedFiles := [];
    var i := 0;
    while i < |disk|
      invariant 0 <= i <= |disk|
      invariant newFiles == NewFilesOf(disk[..i], docs)
      invariant changedFiles == ChangedFilesOf(disk[..i], docs)
    {
      PrefixOfPrefix(disk, i);
      var d := disk[i];
      if InMdOutputs(d.path) {
        i := i + 1;
        continue;
      }
      if d.path in readable {
        var h := HashOf(d.info);
        if d.path !in docs {
          newFiles := newFiles + [NewFile(d.path, h, d.info.size, d.info.mtime)];
        } else if docs[d.path].hash != Some(h) {
          changedFiles := changedFiles + [ChangedFile(d.path, docs[d.path].hash, h)];
        }
        i := i + 1;
        continue;
      }
      var h := HashOf(d.info);
      if d.path !in docs {
        newFiles := newFiles + [NewFile(d.path, h, d.info.size, d.info.mtime)];
      } else if docs[d.path].hash != Some(h) {
        changedFiles := changedFiles + [ChangedFile(d.path, docs[d.path].hash, h)];
      }
      i := i + 1;
    }
    WholePrefix(disk);
  }

  lemma {:induction false} NewFilesExactly(disk: seq<DiskFile>, docs: map<string, Doc>)
    ensures forall x :: x in NewFilesOf(disk, docs) <==> exists d :: d in disk && IsNew(d, docs) && x == NewEntry(d)
  {
    if |disk| > 0 {
      var init := disk[..|disk| - 1];
      NewFilesExactly(init, docs);
      assert disk == init + [disk[|disk| - 1]];
    }
  }

  lemma {:induction false} ChangedFilesExactly(disk: seq<DiskFile>, docs: map<string, Doc>)
    ensures forall x :: x in ChangedFilesOf(disk, docs) <==>
      exists d :: d in disk && IsChanged(d, docs) && x == ChangedEntry(d, docs)
  {
    if |disk| > 0 {
      var init := disk[..|disk| - 1];
      ChangedFilesExactly(init, docs);
      assert disk == init + [disk[|disk| - 1]];
    }
  }

  lemma {:induction false} NoneNew(disk: seq<DiskFile>, docs: map<string, Doc>)
    requires forall d :: d in disk ==> !IsNew(d, docs)
    ensures NewFilesOf(disk, docs) == []
  {
    if |disk| > 0 {
      NoneNew(disk[..|disk| - 1], docs);
      assert disk[|disk| - 1] in disk;
    }
  }

  lemma {:induction false} NoneChanged(disk: seq<DiskFile>, docs: map<string, Doc>)
    requires forall d :: d in disk ==> !IsChanged(d, docs)
    ensures ChangedFilesOf(disk, docs) == []
  {
    if |disk| > 0 {
      NoneChanged(disk[..|disk| - 1], docs);
      assert disk[|disk| - 1] in disk;
    }
  }

  // ------------------------------------------------------------- missing

  /** `doc.get("category", "Unknown")`. */
  function WasCategory(d: Doc): string {
    d.category.GetOr("Unknown")
  }

  function MissingOf(keys: seq<string>, docs: map<string, Doc>, present: set<string>): seq<MissingFile>
    requires forall k :: k in keys ==> k in docs
  {
    if |keys| == 0 then []
    else
      var rest := MissingOf(keys[..|keys| - 1], docs, present);
      var k := keys[|keys| - 1];
      if k !in present then rest + [MissingFile(k, WasCategory(docs[k]))] else rest
  }

  method FindMissing(keys: seq<string>, docs: map<string, Doc>, disk: seq<DiskFile>) returns (missing: seq<MissingFile>)
    requires Enumerates(keys, docs)
    ensures missing == MissingOf(keys, docs, DiskPaths(disk))
  {
    var present := DiskPaths(disk);
    missing := [];
    var i := 0;
    while i < |keys|
      invariant 0 <= i <= |keys|
      invariant missing == MissingOf(keys[..i], docs, present)
    {
      PrefixOfPrefix(keys, i);
      var k := keys[i];
      if k !in present {
        missing := missing + [MissingFile(k, WasCategory(docs[k]))];
      }
      i := i + 1;
    }
    WholePrefix(keys);
  }

  lemma {:induction false} MissingExactly(keys: seq<string>, docs: map<string, Doc>, present: set<string>)
    requires forall k :: k in keys ==> k in docs
    ensures forall x :: x in MissingOf(keys, docs, present) <==>
      exists k :: k in keys && k !in present && x == MissingFile(k, WasCategory(docs[k]))
  {
    if |keys| > 0 {
      var init := keys[..|keys| - 1];
      MissingExactly(init, docs, present);
      assert keys == init + [keys[|keys| - 1]];
    }
  }

  lemma {:induction false} NoneMissing(keys: seq<string>, docs: map<string, Doc>, present: set<string>)
    requires forall k :: k in keys ==> k in docs && k in present
    ensures MissingOf(keys, docs, present) == []
  {
    if |keys| > 0 {
      NoneMissing(keys[..|keys| - 1], docs, present);
      assert keys[|keys| - 1] in keys;
    }
  }

  // --------------------------------------------------------- whole scan

  function ScanReport(listing: seq<Listed>, docs: map<string, Doc>, keys: seq<string>): Report
    requires Enumerates(keys, docs)
  {
    var disk := DiskFiles(listing);
    Report(NewFilesOf(disk, docs), ChangedFilesOf(disk, docs), MissingOf(keys, docs, DiskPaths(disk)))
  }

  /** `scan_directory`: walk, pair, classify, find missing documents. */
  method ScanDirectory(listing: seq<Listed>, docs: map<string, Doc>, keys: seq<string>) returns (report: Report)
    requires Enumerates(keys, docs)
    ensures report == ScanReport(listing, docs, keys)
  {
    var disk := CollectDiskFiles(listing);
    var readable, orphans := PairReadables(disk);
    var newFiles, changedFiles := ClassifyFiles(disk, docs, readable);
    var missing := FindMissing(keys, docs, disk);
    report := Report(newFiles, changedFiles, missing);
  }

  function NewPaths(r: Report): set<string> {
    set x | x in r.newFiles :: x.path
  }

  function ChangedPaths(r: Report): set<string> {
    set x | x in r.changedFiles :: x.path
  }

  function MissingPaths(r: Report): set<string> {
    set x | x in r.missingFiles :: x.path
  }

  /** New files are exactly the visible files outside md_outputs/ with no
      stored document, each with its own hash, size and modification time. */
  lemma ScanNewFiles(listing: seq<Listed>, docs: map<string, Doc>, keys: seq<string>)
    requires Enumerates(keys, docs)
    ensures forall x :: x in ScanReport(listing, docs, keys).newFiles <==>
      exists e :: e in listing && Visible(e) && IsNew(DiskOf(e), docs) && x == NewEntry(DiskOf(e))
  {
    DiskFilesExactly(listing);
    NewFilesExactly(DiskFiles(listing), docs);
  }

  /** Changed files are exactly the visible tracked files outside md_outputs/
      whose stored hash is not their current hash, with both hashes. */
  lemma ScanChangedFiles(listing: seq<Listed>, docs: map<string, Doc>, keys: seq<string>)
    requires Enumerates(keys, docs)
    ensures forall x :: x in ScanReport(listing, docs, keys).changedFiles <==>
      exists e :: e in listing && Visible(e) && IsChanged(DiskOf(e), docs) && x == ChangedEntry(DiskOf(e), docs)
  {
    DiskFilesExactly(listing);
    ChangedFilesExactly(DiskFiles(listing), docs);
  }

  /** Missing files are exactly the stored documents with no visible file,
      with their category or "Unknown". */
  lemma ScanMissingFiles(listing: seq<Listed>, docs: map<string, Doc>, keys: seq<string>)
    requires Enumerates(keys, docs)
    ensures forall x :: x in ScanReport(listing, docs, keys).missingFiles <==>
      x.path in docs && x.path !in VisiblePaths(listing) && x == MissingFile(x.path, WasCategory(docs[x.path]))
  {
    DiskPathsAreVisible(listing);
    MissingExactly(keys, docs, DiskPaths(DiskFiles(listing)));
  }

  /** Change detection: a visible tracked file is reported changed exactly
      when its stored hash differs from its current hash. */
  lemma ChangedIffHashDiffers(listing: seq<Listed>, docs: map<string, Doc>, keys: seq<string>, e: Listed)
    requires Enumerates(keys, docs) && DistinctListing(listing)
    requires e in listing && Visible(e) && !InMdOutputs(DiskOf(e).path) && DiskOf(e).path in docs
    ensures DiskOf(e).path in ChangedPaths(ScanReport(listing, docs, keys)) <==>
      docs[DiskOf(e).path].hash != Some(HashOf(e.info))
  {
    var r := ScanReport(listing, docs, keys);
    ScanChangedFiles(listing, docs, keys);
    if DiskOf(e).path in ChangedPaths(r) {
      var x :| x in r.changedFiles && x.path == DiskOf(e).path;
      var e' :| e' in listing && Visible(e') && IsChanged(DiskOf(e'), docs) && x == ChangedEntry(DiskOf(e'), docs);
      DiskOfInjective(e', e);
      var i :| 0 <= i < |listing| && listing[i] == e;
      var j :| 0 <= j < |listing| && listing[j] == e';
      assert i == j;
    }
    if docs[DiskOf(e).path].hash != Some(HashOf(e.info)) {
      assert ChangedEntry(DiskOf(e), docs) in r.changedFiles;
    }
  }

  /** A visible file outside md_outputs/ is reported new exactly when no
      document is stored under its path. */
  lemma NewIffUntracked(listing: seq<Listed>, docs: map<string, Doc>, keys: seq<string>, e: Listed)
    requires Enumerates(keys, docs)
    requires e in listing && Visible(e) && !InMdOutputs(DiskOf(e).path)
    ensures DiskOf(e).path in NewPaths(ScanReport(listing, docs, keys)) <==> DiskOf(e).path !in docs
  {
    var r := ScanReport(listing, docs, keys);
    ScanNewFiles(listing, docs, keys);
    if DiskOf(e).path !in docs {
      assert NewEntry(DiskOf(e)) in r.newFiles;
    }
  }

  /** A stored document without a hash, or with an empty one, is always
      reported as changed while its file is present. */
  lemma EmptyStoredHashIsChanged(listing: seq<Listed>, docs: map<string, Doc>, keys: seq<string>, e: Listed)
    requires Enumerates(keys, docs)
    requires e in listing && Visible(e) && !InMdOutputs(DiskOf(e).path)
    requires DiskOf(e).path in docs && docs[DiskOf(e).path].hash in {None, Some("")}
    ensures ChangedEntry(DiskOf(e), docs) in ScanReport(listing, docs, keys).changedFiles
  {
    ScanChangedFiles(listing, docs, keys);
    assert IsChanged(DiskOf(e), docs);
  }

  /** A file whose own name starts with '.' never enters the report as new or
      changed; a document stored under its path is reported missing. */
  lemma HiddenFileNeverScanned(listing: seq<Listed>, docs: map<string, Doc>, keys: seq<string>, e: Listed)
    requires Enumerates(keys, docs)
    requires e in listing && !Visible(e)
    ensures var r := ScanReport(listing, docs, keys);
      && DiskOf(e).path !in NewPaths(r) && DiskOf(e).path !in ChangedPaths(r)
      && (DiskOf(e).path in docs ==> DiskOf(e).path in MissingPaths(r))
  {
    var r := ScanReport(listing, docs, keys);
    var p := DiskOf(e).path;
    ScanNewFiles(listing, docs, keys);
    ScanChangedFiles(listing, docs, keys);
    ScanMissingFiles(listing, docs, keys);
    forall e' | e' in listing && Visible(e') ensures DiskOf(e').path != p {
      DiskOfInjective(e', e);
    }
    forall x | x in r.newFiles ensures x.path != p {
      var e' :| e' in listing && Visible(e') && IsNew(DiskOf(e'), docs) && x == NewEntry(DiskOf(e'));
    }
    forall x | x in r.changedFiles ensures x.path != p {
      var e' :| e' in listing && Visible(e') && IsChanged(DiskOf(e'), docs) && x == ChangedEntry(DiskOf(e'), docs);
    }
    if p in docs {
      assert MissingFile(p, WasCategory(docs[p])) in r.missingFiles;
    }
  }

  /** No file under md_outputs/ is ever reported new or changed. */
  lemma MdOutputsNeverTracked(listing: seq<Listed>, docs: map<string, Doc>, keys: seq<string>)
    requires Enumerates(keys, docs)
    ensures var r := ScanReport(listing, docs, keys);
      forall p :: p in NewPaths(r) + ChangedPaths(r) ==> !InMdOutputs(p)
  {
    var r := ScanReport(listing, docs, keys);
    ScanNewFiles(listing, docs, keys);
    ScanChangedFiles(listing, docs, keys);
    forall p | p in NewPaths(r) + ChangedPaths(r) ensures !InMdOutputs(p) {
      if p in NewPaths(r) {
        var x :| x in r.newFiles && x.path == p;
        var e :| e in listing && Visible(e) && IsNew(DiskOf(e), docs) && x == NewEntry(DiskOf(e));
      } else {
        var x :| x in r.changedFiles && x.path == p;
        var e :| e in listing && Visible(e) && IsChanged(DiskOf(e), docs) && x == ChangedEntry(DiskOf(e), docs);
      }
    }
  }

  /** The three lists name pairwise disjoint paths. */
  lemma ReportDisjoint(listing: seq<Listed>, docs: map<string, Doc>, keys: seq<string>)
    requires Enumerates(keys, docs)
    ensures var r := ScanReport(listing, docs, keys);
      && NewPaths(r) !! ChangedPaths(r) && NewPaths(r) !! MissingPaths(r) && ChangedPaths(r) !! MissingPaths(r)
  {
    var r := ScanReport(listing, docs, keys);
    ScanNewFiles(listing, docs, keys);
    ScanChangedFiles(listing, docs, keys);
    ScanMissingFiles(listing, docs, keys);
    forall p | p in NewPaths(r) ensures p !in docs && p in VisiblePaths(listing) {
      var x :| x in r.newFiles && x.path == p;
      var e :| e in listing && Visible(e) && IsNew(DiskOf(e), docs) && x == NewEntry(DiskOf(e));
    }
    forall p | p in ChangedPaths(r) ensures p in docs && p in VisiblePaths(listing) {
      var x :| x in r.changedFiles && x.path == p;
      var e :| e in listing && Visible(e) && IsChanged(DiskOf(e), docs) && x == ChangedEntry(DiskOf(e), docs);
    }
    forall p | p in MissingPaths(r) ensures p !in VisiblePaths(listing) {
      var x :| x in r.missingFiles && x.path == p;
    }
  }

  /** A state that records every visible file outside md_outputs/ with its
      current hash, and nothing else, makes the scan report nothing. */
  lemma ScanIdempotent(listing: seq<Listed>, docs: map<string, Doc>, keys: seq<string>)
    requires Enumerates(keys, docs)
    requires forall e :: e in listing && Visible(e) && !InMdOutputs(DiskOf(e).path) ==>
      DiskOf(e).path in docs && docs[DiskOf(e).path].hash == Some(HashOf(e.info))
    requires forall p :: p in docs ==> p in VisiblePaths(listing)
    ensures ScanReport(listing, docs, keys) == Report([], [], [])
  {
    var disk := DiskFiles(listing);
    DiskFilesExactly(listing);
    DiskPathsAreVisible(listing);
    NoneNew(disk, docs);
    NoneChanged(disk, docs);
    NoneMissing(keys, docs, DiskPaths(disk));
  }

  // -------------------------------------------------------------- report

  /** What `print_report` shows for one list: its size, up to ten previewed
      paths and the number left unshown. */
  datatype GroupView = GroupView(count: nat, shown: seq<string>, more: nat)

  function Preview(paths: seq<string>, statusOnly: bool): (g: GroupView)
    ensures g.count == |paths|
    ensures statusOnly ==> g.shown == [] && g.more == 0
    ensures !statusOnly ==> (|g.shown| == (if |paths| < 10 then |paths| else 10)
      && g.shown == paths[..|g.shown|] && g.more == |paths| - |g.shown|)
  {
    if statusOnly || |paths| == 0 then GroupView(|paths|, [], 0)
    else if |paths| > 10 then GroupView(|paths|, paths[..10], |paths| - 10)
    else GroupView(|paths|, paths, 0)
  }

  function NewPathList(r: Report): (ps: seq<string>)
    ensures |ps| == |r.newFiles| && forall i :: 0 <= i < |ps| ==> ps[i] == r.newFiles[i].path
  {
    seq(|r.newFiles|, i requires 0 <= i < |r.newFiles| => r.newFiles[i].path)
  }

  function ChangedPathList(r: Report): (ps: seq<string>)
    ensures |ps| == |r.changedFiles| && forall i :: 0 <= i < |ps| ==> ps[i] == r.changedFiles[i].path
  {
    seq(|r.changedFiles|, i requires 0 <= i < |r.changedFiles| => r.changedFiles[i].path)
  }

  function MissingPathList(r: Report): (ps: seq<string>)
    ensures |ps| == |r.missingFiles| && forall i :: 0 <= i < |ps| ==> ps[i] == r.missingFiles[i].path
  {
    seq(|r.missingFiles|, i requires 0 <= i < |r.missingFiles| => r.missingFiles[i].path)
  }

  datatype ReportView = ReportView(newGroup: GroupView, changedGroup: GroupView, missingGroup: GroupView, total: nat, upToDate: bool)

  /** `print_report`: the three groups, the total it returns, and whether the
      "up to date" line appears. */
  function PrintReport(r: Report, statusOnly: bool): (v: ReportView)
    ensures v.total == |r.newFiles| + |r.changedFiles| + |r.missingFiles|
    ensures v.upToDate <==> r == Report([], [], [])
    ensures v.newGroup.count == |r.newFiles| && v.changedGroup.count == |r.changedFiles|
      && v.missingGroup.count == |r.missingFiles|
  {
    var total := |r.newFiles| + |r.changedFiles| + |r.missingFiles|;
    ReportView(Preview(NewPathList(r), statusOnly), Preview(ChangedPathList(r), statusOnly),
      Preview(MissingPathList(r), statusOnly), total, total == 0)
  }

  // -------------------------------------------------------------- images

  const ScanImageExts: set<string> := {".png", ".jpg", ".jpeg", ".gif", ".bmp", ".tiff", ".webp"}

  predicate IsScanImage(p: string) {
    Lower(PathSuffix(p)) in ScanImageExts
  }

  /** `check_for_images`: the new files whose lower-cased suffix is an image
      suffix, in order. */
  function CheckForImages(newFiles: seq<NewFile>): (imgs: seq<NewFile>)
    ensures |imgs| <= |newFiles|
    ensures forall x :: x in imgs <==> x in newFiles && IsScanImage(x.path)
  {
    if |newFiles| == 0 then []
    else
      var rest := CheckForImages(newFiles[1..]);
      assert forall x :: x in newFiles <==> x == newFiles[0] || x in newFiles[1..];
      if IsScanImage(newFiles[0].path) then [newFiles[0]] + rest else rest
  }

  // ---------------------------------------------------------------- main

  /** The scan file `main` writes for the next stage. */
  datatype ScanResult = ScanResult(timestamp: string, report: Report)

  datatype ScanRun = ScanRun(exitCode: int, written: Option<ScanResult>, images: seq<NewFile>)

  /** `main`: no Doc directory is an error; an empty report or a status-only
      run writes nothing; otherwise the report is saved and the new images
      are flagged for conversion. A state file that is absent or does not
      parse reads as no documents (`docs` is then empty). */
  function ScanMain(docDirExists: bool, listing: seq<Listed>, docs: map<string, Doc>, keys: seq<string>,
                    statusOnly: bool, now: string): (run: ScanRun)
    requires Enumerates(keys, docs)
    ensures !docDirExists ==> run == ScanRun(1, None, [])
    ensures docDirExists ==> run.exitCode == 0
    ensures run.written.Some? <==>
      docDirExists && !statusOnly && ScanReport(listing, docs, keys) != Report([], [], [])
    ensures run.written.Some? ==> (run.written.value.report == ScanReport(listing, docs, keys)
      && forall x :: x in run.images <==> x in run.written.value.report.newFiles && IsScanImage(x.path))
  {
    if !docDirExists then ScanRun(1, None, [])
    else
      var r := ScanReport(listing, docs, keys);
      var view := PrintReport(r, statusOnly);
      if view.total == 0 || statusOnly then ScanRun(0, None, [])
      else ScanRun(0, Some(ScanResult(now, r)), CheckForImages(r.newFiles))
  }
}
