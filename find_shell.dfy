/** The shell-line builder shared by the third and fourth MyEverything
    front ends (`MyEverything/MyEverything.py-chatgpt.py` and
    `MyEverything/MyEverything.py.trashed.by.claude.py`, whose
    `_build_find_command` bodies are the same): `find` and its tests,
    each user value passed through `shlex.quote`, joined into one line that
    `bash -c` runs. */
module FindShell {
  import opened Strings
  import opened FindArgs
  import Shlex

  /** One date row of the form: the radio button (`any`, `within`,
      `since`), the day count and the date text. */
  datatype DateFilter = DateFilter(mode: string, days: int, date: string)

  datatype Form = Form(
    startPath: string,
    namePattern: string,
    caseInsensitive: bool,
    fileType: string,    // 'f', 'd' or 'any'
    sizeOp: string,      // '>', '<' or '='
    sizeValue: string,
    sizeUnit: string,    // 'B', 'K', 'M' or 'G'
    modified: DateFilter,
    accessed: DateFilter,
    changed: DateFilter)

  /** The start path stripped, `.` when blank. */
  function StartOf(f: Form): string {
    if Strip(f.startPath) == "" then "." else Strip(f.startPath)
  }

  /** The name pattern stripped, `*` when blank. */
  function PatternOf(f: Form): string {
    if Strip(f.namePattern) == "" then "*" else Strip(f.namePattern)
  }

  /** `suffix_map.get(unit, 'M')`. */
  function SuffixFlag(unit: string): string {
    if unit == "B" then "c"
    else if unit == "K" then "k"
    else if unit == "M" then "M"
    else if unit == "G" then "G"
    else "M"
  }

  /** The sign `find -size` reads as "more than" or "less than". */
  function SizeSign(op: string): string {
    if op == ">" then "+" else if op == "<" then "-" else ""
  }

  function TypePart(t: string): seq<string> {
    if t == "f" then ["-type", "f"] else if t == "d" then ["-type", "d"] else []
  }

  function SizePart(f: Form): seq<string> {
    var sv := Strip(f.sizeValue);
    if sv == "" then [] else ["-size", SizeSign(f.sizeOp) + sv + SuffixFlag(f.sizeUnit)]
  }

  /** How `find -size` compares a file's size with the number. */
  datatype Compare = More | Less | Exactly

  function CompareOf(op: string): Compare {
    if op == ">" then More else if op == "<" then Less else Exactly
  }

  /** How `find` reads a `-size` value: an optional `+` or `-`, the
      number, and a one-letter unit at the end. */
  function ReadSizeValue(w: string): Option<(Compare, string, char)> {
    if |w| < 2 then None
    else if w[0] == '+' then Some((More, w[1..|w| - 1], w[|w| - 1]))
    else if w[0] == '-' then Some((Less, w[1..|w| - 1], w[|w| - 1]))
    else Some((Exactly, w[..|w| - 1], w[|w| - 1]))
  }

  /** A blank size value gives no test. A number gives `-size` and a value
      `find` reads back as the chosen comparison, the number as typed and
      the unit letter. */
  lemma SizeSpec(f: Form)
    ensures SizePart(f) == [] <==> Strip(f.sizeValue) == ""
    ensures AllDigits(Strip(f.sizeValue)) && Strip(f.sizeValue) != "" ==>
      SizePart(f)[0] == "-size"
      && ReadSizeValue(SizePart(f)[1]) == Some((CompareOf(f.sizeOp), Strip(f.sizeValue), SuffixFlag(f.sizeUnit)[0]))
  {
    var sv := Strip(f.sizeValue);
    if sv != "" && AllDigits(sv) {
      SizeValueReads(f.sizeOp, sv, f.sizeUnit);
    }
  }

  lemma SizeValueReads(op: string, sv: string, unit: string)
    requires sv != "" && AllDigits(sv)
    ensures ReadSizeValue(SizeSign(op) + sv + SuffixFlag(unit)) == Some((CompareOf(op), sv, SuffixFlag(unit)[0]))
  {
    var w := SizeSign(op) + sv + SuffixFlag(unit);
    SuffixSpec(unit);
    assert IsDigit(sv[0]);
    assert w[|w| - 1] == SuffixFlag(unit)[0];
    if op == ">" || op == "<" {
      assert w[1..|w| - 1] == sv;
    } else {
      assert w[..|w| - 1] == sv;
    }
  }

  /** The unit is one letter `find` knows: bytes for `B`, kibibytes for
      `K`, and `M` for `M` or for any unit outside the menu. */
  lemma SuffixSpec(unit: string)
    ensures |SuffixFlag(unit)| == 1 && SuffixFlag(unit)[0] in "ckMG"
    ensures unit == "B" ==> SuffixFlag(unit) == "c"
    ensures unit == "K" ==> SuffixFlag(unit) == "k"
    ensures unit !in ["B", "K", "G"] ==> SuffixFlag(unit) == "M"
  {
  }

  /** The nested `date_part`: `within` gives the test with minus the day
      count, `since` with a date gives `-newermt` and the quoted date
      (whichever test the row is for), anything else nothing. */
  function DatePart(d: DateFilter, flag: string): seq<string> {
    if d.mode == "within" then [flag, "-" + IntToString(d.days)]
    else if d.mode == "since" && Strip(d.date) != "" then ["-newermt", Shlex.Quote(Strip(d.date))]
    else []
  }

  /** A date row gives two words or none. `within` gives the row's own
      test and a word that is `-` followed by the day count as `int` reads
      it back. `since` with a date gives `-newermt` and a word the shell
      reads as the stripped date, and gives the same words whichever row it
      is for. Anything else gives nothing. */
  lemma DatePartSpec(d: DateFilter, flag: string)
    ensures |DatePart(d, flag)| == 0 || |DatePart(d, flag)| == 2
    ensures d.mode == "within" ==>
      DatePart(d, flag)[0] == flag && DatePart(d, flag)[1][0] == '-'
      && ParseInt(DatePart(d, flag)[1][1..]) == Some(d.days)
    ensures d.mode == "since" && Strip(d.date) != "" ==>
      DatePart(d, flag)[0] == "-newermt"
      && Shlex.ShellWords(DatePart(d, flag)[1]) == Some([Strip(d.date)])
    ensures d.mode != "within" ==> DatePart(d, flag) == DatePart(d, "-mtime")
    ensures DatePart(d, flag) == [] <==> d.mode != "within" && (d.mode != "since" || Strip(d.date) == "")
  {
    var r := DatePart(d, flag);
    if d.mode == "within" {
      ParseIntOfIntToString(d.days);
      assert r[1][1..] == IntToString(d.days);
    } else if d.mode == "since" && Strip(d.date) != "" {
      Shlex.QuoteReads(Strip(d.date));
      Shlex.JoinReads([r[1]], [Strip(d.date)]);
      assert JoinSpace([r[1]]) == r[1];
    }
  }

  /** The words before the other arguments, as written into the line. */
  function FindWords(f: Form): seq<string> {
    ["find", Shlex.Quote(StartOf(f))] + [Text(NameFlag(f.caseInsensitive)), Shlex.Quote(PatternOf(f))]
    + TypePart(f.fileType) + SizePart(f)
    + DatePart(f.modified, "-mtime") + DatePart(f.accessed, "-atime") + DatePart(f.changed, "-ctime")
  }

  /** The stripped other arguments, appended as one part when not blank. */
  function OtherPart(other: string): seq<string> {
    if other == "" then [] else [other]
  }

  function Parts(f: Form, otherText: string): seq<string> {
    FindWords(f) + OtherPart(Strip(otherText))
  }

  /** `_build_find_command(other_entry_text)`: the parts appended one group
      at a time, then joined by single spaces. */
  method BuildFindCommand(f: Form, otherText: string) returns (cmd: string)
    ensures cmd == JoinSpace(Parts(f, otherText))
  {
    var start := Strip(f.startPath);
    if start == "" {
      start := ".";
    }
    assert start == StartOf(f);
    var parts := ["find", Shlex.Quote(start)];
    var name := Strip(f.namePattern);
    if name == "" {
      name := "*";
    }
    assert name == PatternOf(f);
    var nameGroup := if f.caseInsensitive then ["-iname", Shlex.Quote(name)] else ["-name", Shlex.Quote(name)];
    assert nameGroup == [Text(NameFlag(f.caseInsensitive)), Shlex.Quote(PatternOf(f))];
    parts := parts + nameGroup;
    var typeGroup := [];
    if f.fileType == "f" {
      typeGroup := ["-type", "f"];
    } else if f.fileType == "d" {
      typeGroup := ["-type", "d"];
    }
    assert typeGroup == TypePart(f.fileType);
    parts := parts + typeGroup;
    var sizeGroup := [];
    var sv := Strip(f.sizeValue);
    if sv != "" {
      var suffixFlag := SuffixFlag(f.sizeUnit);
      if f.sizeOp == ">" {
        sizeGroup := ["-size", "+" + sv + suffixFlag];
      } else if f.sizeOp == "<" {
        sizeGroup := ["-size", "-" + sv + suffixFlag];
      } else {
        sizeGroup := ["-size", sv + suffixFlag];
        AppendEmpty(sv);
      }
    }
    SizeGroup(f, sv, sizeGroup);
    parts := parts + sizeGroup;
    parts := parts + DatePart(f.modified, "-mtime");
    parts := parts + DatePart(f.accessed, "-atime");
    parts := parts + DatePart(f.changed, "-ctime");
    Groups(f, ["find", Shlex.Quote(start)], nameGroup, typeGroup, sizeGroup);
    var other := Strip(otherText);
    if other != "" {
      parts := parts + [other];
    } else {
      AppendEmpty(parts);
    }
    assert parts == Parts(f, otherText);
    cmd := JoinSpace(parts);
  }

  lemma Groups(f: Form, head: seq<string>, nameGroup: seq<string>, typeGroup: seq<string>, sizeGroup: seq<string>)
    requires head == ["find", Shlex.Quote(StartOf(f))]
    requires nameGroup == [Text(NameFlag(f.caseInsensitive)), Shlex.Quote(PatternOf(f))]
    requires typeGroup == TypePart(f.fileType) && sizeGroup == SizePart(f)
    ensures head + nameGroup + typeGroup + sizeGroup + DatePart(f.modified, "-mtime")
      + DatePart(f.accessed, "-atime") + DatePart(f.changed, "-ctime") == FindWords(f)
  {
  }

  lemma SizeGroup(f: Form, sv: string, group: seq<string>)
    requires sv == Strip(f.sizeValue)
    requires sv == "" ==> group == []
    requires sv != "" ==> group == ["-size", SizeSign(f.sizeOp) + sv + SuffixFlag(f.sizeUnit)]
    ensures group == SizePart(f)
  {
  }

  lemma SnocTwo<T>(s: seq<T>, a: T, b: T)
    ensures s + [a] + [b] == s + [a, b]
  {
  }

  // ------------------------------------------------------------ what find receives

  /** The arguments `find` is meant to receive for one date row: the
      values as typed, not quoted. */
  function DateArgs(d: DateFilter, g: Flag): seq<string> {
    if d.mode == "within" then [Text(g), "-" + IntToString(d.days)]
    else if d.mode == "since" && Strip(d.date) != "" then [Text(NewerMt), Strip(d.date)]
    else []
  }

  /** The argument list `find` is meant to receive: the start path and the
      name pattern as typed (stripped, with their defaults), the tests and
      their values. */
  function Argv(f: Form): seq<string> {
    ["find", StartOf(f)] + [Text(NameFlag(f.caseInsensitive)), PatternOf(f)]
    + TypePart(f.fileType) + SizePart(f)
    + DateArgs(f.modified, MTime) + DateArgs(f.accessed, ATime) + DateArgs(f.changed, CTime)
  }

  /** The size value contains only characters the shell reads as themselves. */
  predicate SizeIsPlain(f: Form) {
    forall i :: 0 <= i < |Strip(f.sizeValue)| ==> Shlex.SafeChar(Strip(f.sizeValue)[i])
  }

  /** The shell reads the line as `find` with exactly the intended
      arguments: the quoting of the start path, the pattern and a `since`
      date undoes itself, the test words and day counts read as
      themselves, and a size value of plain characters does too. The other
      arguments, when there are any, are then read as the shell reads them. */
  lemma LineReadsBack(f: Form, otherText: string)
    requires SizeIsPlain(f)
    ensures Strip(otherText) == "" ==> Shlex.ShellWords(JoinSpace(Parts(f, otherText))) == Some(Argv(f))
    ensures Strip(otherText) != "" ==>
      Shlex.ShellWords(JoinSpace(Parts(f, otherText))) == Shlex.Lex(Strip(otherText), Argv(f), None)
  {
    FindWordsRead(f);
    var ws, other := FindWords(f), Strip(otherText);
    if other == "" {
      AppendEmpty(ws);
      Shlex.JoinReads(ws, Argv(f));
    } else {
      JoinSpaceSnoc(ws, other);
      Shlex.JoinReadsThen(ws, Argv(f), other, []);
      assert [] + Argv(f) == Argv(f);
    }
  }

  lemma FindWordsRead(f: Form)
    requires SizeIsPlain(f)
    ensures Shlex.ReadsAll(FindWords(f), Argv(f)) && |FindWords(f)| > 0
  {
    var w := ["find", Shlex.Quote(StartOf(f))] + [Text(NameFlag(f.caseInsensitive)), Shlex.Quote(PatternOf(f))]
      + TypePart(f.fileType) + SizePart(f);
    var a := ["find", StartOf(f)] + [Text(NameFlag(f.caseInsensitive)), PatternOf(f)]
      + TypePart(f.fileType) + SizePart(f);
    FrontReads(f);
    DatesReadAfter(f, w, a);
  }

  /** The start, name, type and size words read as their arguments. */
  lemma FrontReads(f: Form)
    requires SizeIsPlain(f)
    ensures Shlex.ReadsAll(["find", Shlex.Quote(StartOf(f))] + [Text(NameFlag(f.caseInsensitive)), Shlex.Quote(PatternOf(f))]
                           + TypePart(f.fileType) + SizePart(f),
                           ["find", StartOf(f)] + [Text(NameFlag(f.caseInsensitive)), PatternOf(f)]
                           + TypePart(f.fileType) + SizePart(f))
  {
    var g1 := ["find", Shlex.Quote(StartOf(f))];
    var g2 := [Text(NameFlag(f.caseInsensitive)), Shlex.Quote(PatternOf(f))];
    var a1 := ["find", StartOf(f)];
    var a2 := [Text(NameFlag(f.caseInsensitive)), PatternOf(f)];
    assert Shlex.SafeText("find");
    PairReads("find", StartOf(f));
    TextSafe(NameFlag(f.caseInsensitive));
    PairReads(Text(NameFlag(f.caseInsensitive)), PatternOf(f));
    TypeReads(f.fileType);
    SizeReads(f);
    Shlex.ReadsAllAppend(g1, a1, g2, a2);
    Shlex.ReadsAllAppend(g1 + g2, a1 + a2, TypePart(f.fileType), TypePart(f.fileType));
    Shlex.ReadsAllAppend(g1 + g2 + TypePart(f.fileType), a1 + a2 + TypePart(f.fileType), SizePart(f), SizePart(f));
  }

  /** Words that read as their arguments still do with the three date
      parts after them. */
  lemma DatesReadAfter(f: Form, w: seq<string>, a: seq<string>)
    requires Shlex.ReadsAll(w, a)
    ensures Shlex.ReadsAll(w + DatePart(f.modified, "-mtime") + DatePart(f.accessed, "-atime") + DatePart(f.changed, "-ctime"),
                           a + DateArgs(f.modified, MTime) + DateArgs(f.accessed, ATime) + DateArgs(f.changed, CTime))
  {
    DateReads(f.modified, MTime);
    DateReads(f.accessed, ATime);
    DateReads(f.changed, CTime);
    Shlex.ReadsAllAppend(w, a, DatePart(f.modified, "-mtime"), DateArgs(f.modified, MTime));
    var w5, a5 := w + DatePart(f.modified, "-mtime"), a + DateArgs(f.modified, MTime);
    Shlex.ReadsAllAppend(w5, a5, DatePart(f.accessed, "-atime"), DateArgs(f.accessed, ATime));
    var w6, a6 := w5 + DatePart(f.accessed, "-atime"), a5 + DateArgs(f.accessed, ATime);
    Shlex.ReadsAllAppend(w6, a6, DatePart(f.changed, "-ctime"), DateArgs(f.changed, CTime));
  }

  /** A two-word group: a plain word, then a quoted value. */
  lemma PairReads(a: string, b: string)
    requires |a| > 0 && Shlex.SafeText(a)
    ensures Shlex.ReadsAll([a, Shlex.Quote(b)], [a, b])
  {
    Shlex.SafeTextReads(a);
    Shlex.QuoteReads(b);
  }

  lemma TextSafe(g: Flag)
    ensures |Text(g)| > 0 && Shlex.SafeText(Text(g))
  {
    ShortWordsSafe();
    LongWordsSafe();
    NewerWordSafe();
  }

  lemma ShortWordsSafe()
    ensures Shlex.SafeText("-type") && Shlex.SafeText("-name") && Shlex.SafeText("-size")
  {
  }

  lemma LongWordsSafe()
    ensures Shlex.SafeText("-iname") && Shlex.SafeText("-mtime")
    ensures Shlex.SafeText("-atime") && Shlex.SafeText("-ctime")
  {
  }

  lemma NewerWordSafe()
    ensures Shlex.SafeText("-newermt")
  {
  }

  lemma TextReads(g: Flag)
    ensures Shlex.Reads(Text(g), Text(g))
  {
    TextSafe(g);
    Shlex.SafeTextReads(Text(g));
  }

  lemma TypeReads(t: string)
    ensures Shlex.ReadsAll(TypePart(t), TypePart(t))
  {
    if t == "f" || t == "d" {
      TextReads(Type);
      Shlex.SafeTextReads(t);
    }
  }

  lemma SizeReads(f: Form)
    requires SizeIsPlain(f)
    ensures Shlex.ReadsAll(SizePart(f), SizePart(f))
  {
    var sv := Strip(f.sizeValue);
    if sv != "" {
      var sign, suffix := SizeSign(f.sizeOp), SuffixFlag(f.sizeUnit);
      SignSafe(f.sizeOp);
      SuffixSafe(f.sizeUnit);
      Shlex.SafeConcat(sign, sv);
      Shlex.SafeConcat(sign + sv, suffix);
      Shlex.SafeReads(sign + sv + suffix);
      TextReads(Size);
    }
  }

  lemma SignSafe(op: string)
    ensures forall i :: 0 <= i < |SizeSign(op)| ==> Shlex.SafeChar(SizeSign(op)[i])
  {
    if op == ">" {
      assert Shlex.SafeText("+");
    } else if op == "<" {
      assert Shlex.SafeText("-");
    }
    Shlex.SafeTextChars(SizeSign(op));
  }

  lemma SuffixSafe(unit: string)
    ensures forall i :: 0 <= i < |SuffixFlag(unit)| ==> Shlex.SafeChar(SuffixFlag(unit)[i])
  {
    var r := SuffixFlag(unit);
    assert r == "c" || r == "k" || r == "M" || r == "G";
    assert Shlex.SafeText("c") && Shlex.SafeText("k") && Shlex.SafeText("M") && Shlex.SafeText("G");
    Shlex.SafeTextChars(r);
  }

  /** `"-" + str(n)` is read as itself. */
  lemma DaysReads(n: int)
    ensures Shlex.Reads("-" + IntToString(n), "-" + IntToString(n))
  {
    var m := if n < 0 then -n else n;
    NatStringDigits(m);
    var digits := NatToString(m);
    forall i | 0 <= i < |digits| ensures Shlex.SafeChar(digits[i]) {
      assert IsDigit(digits[i]);
    }
    var sign := if n < 0 then "--" else "-";
    assert "-" + IntToString(n) == sign + digits;
    assert Shlex.SafeText(sign);
    Shlex.SafeTextChars(sign);
    Shlex.SafeConcat(sign, digits);
    Shlex.SafeReads(sign + digits);
  }

  lemma DateReads(d: DateFilter, g: Flag)
    ensures Shlex.ReadsAll(DatePart(d, Text(g)), DateArgs(d, g))
  {
    if d.mode == "within" {
      TextSafe(g);
      WithinReads(Text(g), d.days);
    } else if d.mode == "since" && Strip(d.date) != "" {
      SinceReads(Strip(d.date));
    }
  }

  lemma WithinReads(flag: string, days: int)
    requires |flag| > 0 && Shlex.SafeText(flag)
    ensures Shlex.ReadsAll([flag, "-" + IntToString(days)], [flag, "-" + IntToString(days)])
  {
    Shlex.SafeTextReads(flag);
    DaysReads(days);
  }

  lemma SinceReads(date: string)
    ensures Shlex.ReadsAll([Text(NewerMt), Shlex.Quote(date)], [Text(NewerMt), date])
  {
    TextSafe(NewerMt);
    PairReads(Text(NewerMt), date);
  }
}
