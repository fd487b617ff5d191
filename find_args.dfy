/** What the MyEverything front ends share: a `find` argument list is the
    command, the start path and a run of flag/value pairs; result rows are
    split paths whose tags alternate `even`/`odd`. */
module FindArgs {
  import opened Strings

  /** The `find` tests the front ends write. */
  datatype Flag = Type | IName | Name | Size | MTime | ATime | CTime | NewerMt

  /** The test as written on the command line. */
  function Text(g: Flag): string {
    match g
    case Type => "-type"
    case IName => "-iname"
    case Name => "-name"
    case Size => "-size"
    case MTime => "-mtime"
    case ATime => "-atime"
    case CTime => "-ctime"
    case NewerMt => "-newermt"
  }

  /** Which test a word names, if any. */
  function FlagOf(s: string): Option<Flag> {
    if s == "-type" then Some(Type)
    else if s == "-iname" then Some(IName)
    else if s == "-name" then Some(Name)
    else if s == "-size" then Some(Size)
    else if s == "-mtime" then Some(MTime)
    else if s == "-atime" then Some(ATime)
    else if s == "-ctime" then Some(CTime)
    else if s == "-newermt" then Some(NewerMt)
    else None
  }

  /** Every test's text names that test and no other. */
  lemma FlagOfText(g: Flag)
    ensures FlagOf(Text(g)) == Some(g)
  {
  }

  /** One `find` test with its argument, as `command.extend([flag, value])` adds it. */
  datatype Opt = Opt(flag: Flag, value: string)

  /** The pairs written out flag, value, flag, value, ... */
  function Flatten(os: seq<Opt>): (r: seq<string>)
    ensures |r| == 2 * |os|
  {
    if |os| == 0 then [] else [Text(os[0].flag), os[0].value] + Flatten(os[1..])
  }

  lemma {:induction false} FlattenAppend(a: seq<Opt>, b: seq<Opt>)
    ensures Flatten(a + b) == Flatten(a) + Flatten(b)
    decreases |a|
  {
    if |a| == 0 {
      assert a + b == b;
    } else {
      assert (a + b)[0] == a[0] && (a + b)[1..] == a[1..] + b;
      FlattenAppend(a[1..], b);
    }
  }

  /** Appending pairs to an argument list extends its run of pairs. */
  lemma PushOpts(head: seq<string>, os: seq<Opt>, more: seq<Opt>)
    ensures head + Flatten(os) + Flatten(more) == head + Flatten(os + more)
  {
    FlattenAppend(os, more);
  }

  /** Reads a run of pairs back; an odd count, or a word in a flag's place
      that names no test, is not a run of pairs. */
  function Unflatten(args: seq<string>): Option<seq<Opt>>
    decreases |args|
  {
    if |args| == 0 then Some([])
    else if |args| == 1 || FlagOf(args[0]).None? then None
    else
      var rest := Unflatten(args[2..]);
      if rest.None? then None else Some([Opt(FlagOf(args[0]).value, args[1])] + rest.value)
  }

  /** The flag/value list is unambiguous: reading it back gives the pairs. */
  lemma {:induction false} UnflattenFlatten(os: seq<Opt>)
    ensures Unflatten(Flatten(os)) == Some(os)
    decreases |os|
  {
    if |os| > 0 {
      var r := Flatten(os);
      assert r[2..] == Flatten(os[1..]);
      FlagOfText(os[0].flag);
      UnflattenFlatten(os[1..]);
      assert [os[0]] + os[1..] == os;
    }
  }

  /** The value of the first pair with this flag. */
  function Lookup(os: seq<Opt>, flag: Flag): Option<string>
    decreases |os|
  {
    if |os| == 0 then None
    else if os[0].flag == flag then Some(os[0].value)
    else Lookup(os[1..], flag)
  }

  /** How many pairs carry this flag. */
  function Count(os: seq<Opt>, flag: Flag): nat
    decreases |os|
  {
    if |os| == 0 then 0
    else (if os[0].flag == flag then 1 else 0) + Count(os[1..], flag)
  }

  lemma {:induction false} LookupAppend(a: seq<Opt>, b: seq<Opt>, flag: Flag)
    ensures Lookup(a + b, flag) == if Lookup(a, flag).Some? then Lookup(a, flag) else Lookup(b, flag)
    decreases |a|
  {
    if |a| == 0 {
      assert a + b == b;
    } else {
      assert (a + b)[0] == a[0] && (a + b)[1..] == a[1..] + b;
      LookupAppend(a[1..], b, flag);
    }
  }

  lemma {:induction false} CountAppend(a: seq<Opt>, b: seq<Opt>, flag: Flag)
    ensures Count(a + b, flag) == Count(a, flag) + Count(b, flag)
    decreases |a|
  {
    if |a| == 0 {
      assert a + b == b;
    } else {
      assert (a + b)[0] == a[0] && (a + b)[1..] == a[1..] + b;
      CountAppend(a[1..], b, flag);
    }
  }

  /** A flag that occurs is looked up, and one that is looked up occurs. */
  lemma {:induction false} LookupCount(os: seq<Opt>, flag: Flag)
    ensures Lookup(os, flag).Some? <==> Count(os, flag) > 0
    decreases |os|
  {
    if |os| > 0 {
      LookupCount(os[1..], flag);
    }
  }

  /** An option list with at most one pair. */
  function OptIf(present: bool, flag: Flag, value: string): seq<Opt> {
    if present then [Opt(flag, value)] else []
  }

  lemma OptIfLookup(present: bool, flag: Flag, value: string, g: Flag)
    ensures Lookup(OptIf(present, flag, value), g) == if present && flag == g then Some(value) else None
    ensures Count(OptIf(present, flag, value), g) == if present && flag == g then 1 else 0
  {
    if present {
      assert OptIf(present, flag, value)[1..] == [];
    }
  }

  /** The name test: `-iname` when matching ignores case, else `-name`. */
  function NameFlag(caseInsensitive: bool): Flag {
    if caseInsensitive then IName else Name
  }

  /** One `command.extend([flag, value])`, when `present`, adds one pair to the run. */
  lemma AddMaybe(head: seq<string>, opts: seq<Opt>, command: seq<string>, present: bool, flag: Flag, value: string)
    requires command == head + Flatten(opts)
    ensures (if present then command + [Text(flag), value] else command) == head + Flatten(opts + OptIf(present, flag, value))
  {
    PushOpts(head, opts, OptIf(present, flag, value));
    if !present {
      assert opts + [] == opts;
    }
  }

  // ------------------------------------------------------------ result rows

  datatype Tag = Even | Odd

  /** `'even' if count % 2 == 0 else 'odd'`. */
  function TagFor(n: nat): Tag {
    if n % 2 == 0 then Even else Odd
  }

  /** One result row: file name, folder, stripe tag. The size and the
      three dates come from `os.stat` and are not part of the row here. */
  datatype Row = Row(name: string, folder: string, tag: Tag)

  /** Rows striped from the top: row `i` has the tag of `i`. */
  predicate Striped(rows: seq<Row>) {
    forall i :: 0 <= i < |rows| ==> rows[i].tag == TagFor(i)
  }

  predicate AllSlashes(s: string) {
    forall i :: 0 <= i < |s| ==> s[i] == '/'
  }

  function RStripSlashes(s: string): (r: string)
    ensures |r| <= |s| && r == s[..|r|]
    ensures r == [] || r[|r| - 1] != '/'
  {
    if |s| > 0 && s[|s| - 1] == '/' then RStripSlashes(s[..|s| - 1]) else s
  }

  /** `os.path.split(p)`: the text after the last `/`, and the text up to
      it with trailing slashes removed unless it is all slashes. */
  function SplitPath(p: string): (r: (string, string))
    ensures '/' !in r.1 && EndsWith(p, r.1)
    ensures StartsWith(p, r.0)
  {
    var i := match LastIndex(p, '/') case Some(k) => k + 1 case None => 0;
    LastIndexSpec(p, '/');
    var head, tail := p[..i], p[i..];
    var h := if head != "" && !AllSlashes(head) then RStripSlashes(head) else head;
    assert StartsWith(p, h) by {
      assert p[..|h|] == head[..|h|];
    }
    (h, tail)
  }

  /** The row `find`'s output line `path` becomes when it is result
      number `n`: the name and folder `os.path.split` gives, striped by `n`. */
  function RowOf(path: string, n: nat): Row {
    Row(SplitPath(path).1, SplitPath(path).0, TagFor(n))
  }

  /** The rows for `paths` inserted one after another, counting from `start`. */
  function RowsFor(paths: seq<string>, start: nat): (r: seq<Row>)
    ensures |r| == |paths|
  {
    seq(|paths|, i requires 0 <= i < |paths| => RowOf(paths[i], start + i))
  }

  lemma RowsForSnoc(paths: seq<string>, p: string, start: nat, n: nat)
    requires n == start + |paths|
    ensures RowsFor(paths + [p], start) == RowsFor(paths, start) + [RowOf(p, n)]
  {
    var a, b := RowsFor(paths + [p], start), RowsFor(paths, start) + [RowOf(p, n)];
    forall i | 0 <= i < |a| ensures a[i] == b[i] {
      assert (paths + [p])[i] == if i < |paths| then paths[i] else p;
    }
  }

  /** Rows appended at the position the count names keep the stripes
      alternating from the top, and each new row's name holds no `/`. */
  lemma StripedAppend(rows: seq<Row>, paths: seq<string>)
    requires Striped(rows)
    ensures Striped(rows + RowsFor(paths, |rows|))
    ensures forall i :: |rows| <= i < |rows| + |paths| ==> '/' !in (rows + RowsFor(paths, |rows|))[i].name
  {
    var all := rows + RowsFor(paths, |rows|);
    forall i | 0 <= i < |all| ensures all[i].tag == TagFor(i) {
      if i >= |rows| {
        assert all[i] == RowOf(paths[i - |rows|], i);
      }
    }
    forall i | |rows| <= i < |all| ensures '/' !in all[i].name {
      assert all[i] == RowOf(paths[i - |rows|], i);
    }
  }

  /** What one output line contributes: the stripped line, unless blank. */
  function KeptLine(line: string): seq<string> {
    if Strip(line) == "" then [] else [Strip(line)]
  }

  /** The output lines that become rows, in order: each stripped, the
      blank ones skipped. */
  function Kept(lines: seq<string>): (r: seq<string>)
    ensures forall i :: 0 <= i < |r| ==> r[i] != ""
  {
    if |lines| == 0 then [] else Kept(lines[..|lines| - 1]) + KeptLine(lines[|lines| - 1])
  }

  lemma KeptSnoc(lines: seq<string>, i: nat)
    requires i < |lines|
    ensures Kept(lines[..i + 1]) == Kept(lines[..i]) + KeptLine(lines[i])
  {
    assert lines[..i + 1][..i] == lines[..i];
  }

  predicate NoBlank(lines: seq<string>) {
    forall i :: 0 <= i < |lines| ==> Strip(lines[i]) != ""
  }

  /** Every line becomes a row exactly when no line is blank; otherwise
      there are fewer rows than lines. */
  lemma {:induction false} KeptAll(lines: seq<string>)
    ensures |Kept(lines)| <= |lines|
    ensures |Kept(lines)| == |lines| <==> NoBlank(lines)
  {
    if |lines| > 0 {
      var init, last := lines[..|lines| - 1], lines[|lines| - 1];
      KeptAll(init);
      assert |Kept(lines)| == |Kept(init)| + |KeptLine(last)|;
      assert |KeptLine(last)| == (if Strip(last) == "" then 0 else 1);
      NoBlankSnoc(lines);
    }
  }

  lemma NoBlankSnoc(lines: seq<string>)
    requires |lines| > 0
    ensures NoBlank(lines) <==> NoBlank(lines[..|lines| - 1]) && Strip(lines[|lines| - 1]) != ""
  {
    var init := lines[..|lines| - 1];
    assert forall i :: 0 <= i < |init| ==> init[i] == lines[i];
  }
}
