/** The first MyEverything front end (`MyEverything.py`): `_build_find_command`
    turns the form into a `find` argument list run without a shell. The
    Tk variables are the fields of `Form`. */
module FindBasic {
  import opened Strings
  import opened FindArgs
  import Shlex

  datatype Form = Form(
    startPath: string,
    searchName: string,
    caseInsensitive: bool,
    fileType: string,
    sizeVal: string,
    mtimeVal: string,
    atimeVal: string,
    ctimeVal: string)

  /** The one time test kept: the first non-blank of modified, accessed,
      changed, stripped. */
  function FirstTime(m: string, a: string, c: string): seq<Opt> {
    if m != "" then [Opt(MTime, m)]
    else if a != "" then [Opt(ATime, a)]
    else if c != "" then [Opt(CTime, c)]
    else []
  }

  /** The tests between the start path and `-print`, in the order they are added. */
  function OptionsOf(f: Form): seq<Opt> {
    Options(f.fileType, f.caseInsensitive, f.searchName, Strip(f.sizeVal), Strip(f.mtimeVal), Strip(f.atimeVal), Strip(f.ctimeVal))
  }

  /** The tests from the type as chosen and the size and times stripped. */
  function Options(t: string, ci: bool, pattern: string, z: string, m: string, a: string, c: string): seq<Opt> {
    OptIf(t != "", Type, t) + [Opt(NameFlag(ci), pattern)] + OptIf(z != "", Size, z) + FirstTime(m, a, c)
  }

  /** `_build_find_command`: extends the list test by test. */
  method BuildFindCommand(f: Form) returns (command: seq<string>)
    ensures command == ["find", f.startPath] + Flatten(OptionsOf(f)) + ["-print"]
  {
    command := ["find", f.startPath];
    ghost var head := command;
    AddMaybe(head, [], command, f.fileType != "", Type, f.fileType);
    if f.fileType != "" {
      command := command + ["-type", f.fileType];
    }
    ghost var opts := [] + OptIf(f.fileType != "", Type, f.fileType);
    var searchArg := if f.caseInsensitive then "-iname" else "-name";
    AddMaybe(head, opts, command, true, NameFlag(f.caseInsensitive), f.searchName);
    command := command + [searchArg, f.searchName];
    opts := opts + OptIf(true, NameFlag(f.caseInsensitive), f.searchName);
    var sizeVal := Strip(f.sizeVal);
    AddMaybe(head, opts, command, sizeVal != "", Size, sizeVal);
    if sizeVal != "" {
      command := command + ["-size", sizeVal];
    }
    opts := opts + OptIf(sizeVal != "", Size, sizeVal);
    var m, a, c := Strip(f.mtimeVal), Strip(f.atimeVal), Strip(f.ctimeVal);
    if m != "" {
      AddMaybe(head, opts, command, true, MTime, m);
      command := command + ["-mtime", m];
    } else if a != "" {
      AddMaybe(head, opts, command, true, ATime, a);
      command := command + ["-atime", a];
    } else if c != "" {
      AddMaybe(head, opts, command, true, CTime, c);
      command := command + ["-ctime", c];
    } else {
      AddMaybe(head, opts, command, false, CTime, c);
    }
    opts := opts + FirstTime(m, a, c);
    assert opts == OptionsOf(f) by {
      assert [] + OptIf(f.fileType != "", Type, f.fileType) == OptIf(f.fileType != "", Type, f.fileType);
    }
    command := command + ["-print"];
  }

  /** What the list asks of `find`: a `-type` test exactly when a type is
      chosen; exactly one name test, `-iname` when matching ignores case,
      with the pattern as typed; a `-size` test exactly when the stripped
      size is not blank; and at most one time test, modified before
      accessed before changed. */
  lemma OptionsSpec(f: Form)
    ensures var os := OptionsOf(f);
      && Lookup(os, Type) == (if f.fileType != "" then Some(f.fileType) else None)
      && Count(os, IName) + Count(os, Name) == 1
      && Lookup(os, NameFlag(f.caseInsensitive)) == Some(f.searchName)
      && Lookup(os, Size) == (if Strip(f.sizeVal) != "" then Some(Strip(f.sizeVal)) else None)
      && Count(os, MTime) + Count(os, ATime) + Count(os, CTime) <= 1
      && Lookup(os, MTime) == (if Strip(f.mtimeVal) != "" then Some(Strip(f.mtimeVal)) else None)
      && Lookup(os, ATime) == (if Strip(f.mtimeVal) == "" && Strip(f.atimeVal) != "" then Some(Strip(f.atimeVal)) else None)
      && Lookup(os, CTime) == (if Strip(f.mtimeVal) == "" && Strip(f.atimeVal) == "" && Strip(f.ctimeVal) != "" then Some(Strip(f.ctimeVal)) else None)
  {
    var z, m, a, c := Strip(f.sizeVal), Strip(f.mtimeVal), Strip(f.atimeVal), Strip(f.ctimeVal);
    TypeAndName(f.fileType, f.caseInsensitive, f.searchName, z, m, a, c);
    SizeAndTime(f.fileType, f.caseInsensitive, f.searchName, z, m, a, c);
  }

  lemma TypeAndName(t: string, ci: bool, pattern: string, z: string, m: string, a: string, c: string)
    ensures var os := Options(t, ci, pattern, z, m, a, c);
      && Lookup(os, Type) == (if t != "" then Some(t) else None)
      && Count(os, IName) + Count(os, Name) == 1
      && Lookup(os, NameFlag(ci)) == Some(pattern)
  {
    var tp, n, zp, mp := OptIf(t != "", Type, t), [Opt(NameFlag(ci), pattern)], OptIf(z != "", Size, z), FirstTime(m, a, c);
    Four(tp, n, zp, mp, Type);
    Four(tp, n, zp, mp, IName);
    Four(tp, n, zp, mp, Name);
  }

  lemma SizeAndTime(t: string, ci: bool, pattern: string, z: string, m: string, a: string, c: string)
    ensures var os := Options(t, ci, pattern, z, m, a, c);
      && Lookup(os, Size) == (if z != "" then Some(z) else None)
      && Count(os, MTime) + Count(os, ATime) + Count(os, CTime) <= 1
      && Lookup(os, MTime) == (if m != "" then Some(m) else None)
      && Lookup(os, ATime) == (if m == "" && a != "" then Some(a) else None)
      && Lookup(os, CTime) == (if m == "" && a == "" && c != "" then Some(c) else None)
  {
    var tp, n, zp, mp := OptIf(t != "", Type, t), [Opt(NameFlag(ci), pattern)], OptIf(z != "", Size, z), FirstTime(m, a, c);
    Four(tp, n, zp, mp, Size);
    TimeTests(tp, n, zp, m, a, c);
  }

  /** Only the time group holds time tests. */
  lemma TimeTests(tp: seq<Opt>, n: seq<Opt>, zp: seq<Opt>, m: string, a: string, c: string)
    requires forall o :: o in tp + n + zp ==> o.flag !in {MTime, ATime, CTime}
    ensures var os := tp + n + zp + FirstTime(m, a, c);
      && Count(os, MTime) + Count(os, ATime) + Count(os, CTime) <= 1
      && Lookup(os, MTime) == (if m != "" then Some(m) else None)
      && Lookup(os, ATime) == (if m == "" && a != "" then Some(a) else None)
      && Lookup(os, CTime) == (if m == "" && a == "" && c != "" then Some(c) else None)
  {
    var head := tp + n + zp;
    var mp := FirstTime(m, a, c);
    Absent(head, MTime);
    Absent(head, ATime);
    Absent(head, CTime);
    LookupAppend(head, mp, MTime);
    LookupAppend(head, mp, ATime);
    LookupAppend(head, mp, CTime);
    CountAppend(head, mp, MTime);
    CountAppend(head, mp, ATime);
    CountAppend(head, mp, CTime);
  }

  lemma {:induction false} Absent(os: seq<Opt>, g: Flag)
    requires forall o :: o in os ==> o.flag != g
    ensures Lookup(os, g).None? && Count(os, g) == 0
    decreases |os|
  {
    if |os| > 0 {
      assert os[0] in os;
      Absent(os[1..], g);
    }
  }

  /** Lookup and count across the four groups of tests. */
  lemma Four(t: seq<Opt>, n: seq<Opt>, z: seq<Opt>, m: seq<Opt>, g: Flag)
    ensures Lookup(t + n + z + m, g) == if Lookup(t, g).Some? then Lookup(t, g) else if Lookup(n, g).Some? then Lookup(n, g)
                                       else if Lookup(z, g).Some? then Lookup(z, g) else Lookup(m, g)
    ensures Count(t + n + z + m, g) == Count(t, g) + Count(n, g) + Count(z, g) + Count(m, g)
  {
    LookupAppend(t, n, g);
    LookupAppend(t + n, z, g);
    LookupAppend(t + n + z, m, g);
    CountAppend(t, n, g);
    CountAppend(t + n, z, g);
    CountAppend(t + n + z, m, g);
  }

  lemma TimeSpec(m: string, a: string, c: string)
    ensures var os := FirstTime(m, a, c);
      && Count(os, MTime) + Count(os, ATime) + Count(os, CTime) <= 1
      && Lookup(os, MTime) == (if m != "" then Some(m) else None)
      && Lookup(os, ATime) == (if m == "" && a != "" then Some(a) else None)
      && Lookup(os, CTime) == (if m == "" && a == "" && c != "" then Some(c) else None)
  {
  }

  /** The list `find` receives reads back as the start path and the tests:
      it is `find`, the path as typed, the pairs, and `-print` last. */
  lemma CommandReadsBack(f: Form, command: seq<string>)
    requires command == ["find", f.startPath] + Flatten(OptionsOf(f)) + ["-print"]
    ensures |command| >= 5 && command[0] == "find" && command[1] == f.startPath && command[|command| - 1] == "-print"
    ensures Unflatten(command[2..|command| - 1]) == Some(OptionsOf(f))
  {
    assert command[2..|command| - 1] == Flatten(OptionsOf(f));
    UnflattenFlatten(OptionsOf(f));
  }

  /** `run_find`'s status line, `' '.join(shlex.quote(a) for a in command)`,
      is a shell command that reads back as exactly the list run. */
  lemma StatusLineReadsBack(command: seq<string>)
    ensures Shlex.ShellWords(JoinSpace(Shlex.QuoteAll(command))) == Some(command)
  {
    Shlex.QuotedJoinReads(command);
  }
}
