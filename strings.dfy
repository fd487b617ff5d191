/** Text and path helpers with the meaning of the Python built-ins the
    document pipeline and the find front ends rely on: `str.split()`,
    `str.strip()`, `str.lower()`, `str.upper()`, `in` on strings,
    `str.split(sep)[k]`, and `PurePath.name`, `.stem` and `.suffix`.
    Case mapping is ASCII only; whitespace is Python's full `str.isspace` set.
    The module ends with the sequence identities shared by every proof. */
module Strings {

  datatype Option<T> = None | Some(value: T) {
    function GetOr(default: T): T {
      if Some? then value else default
    }
  }

  /** Python's `str.isspace()` for one character. */
  predicate IsSpace(c: char) {
    ('\U{9}' <= c <= '\U{D}') || ('\U{1C}' <= c <= '\U{20}') || c == '\U{85}' || c == '\U{A0}'
    || c == '\U{1680}' || ('\U{2000}' <= c <= '\U{200A}') || c == '\U{2028}' || c == '\U{2029}'
    || c == '\U{202F}' || c == '\U{205F}' || c == '\U{3000}'
  }

  predicate NoSpace(w: string) {
    forall i :: 0 <= i < |w| ==> !IsSpace(w[i])
  }

  /** A word as `str.split()` yields it: non-empty, no whitespace. */
  predicate IsWord(w: string) {
    |w| > 0 && NoSpace(w)
  }

  predicate StartsWith(s: string, p: string) {
    |p| <= |s| && s[..|p|] == p
  }

  predicate EndsWith(s: string, x: string) {
    |x| <= |s| && s[|s| - |x|..] == x
  }

  predicate OccursAt(s: string, sub: string, i: nat) {
    i + |sub| <= |s| && s[i..i + |sub|] == sub
  }

  /** Python's `sub in s`. */
  predicate Contains(s: string, sub: string) {
    exists i: nat :: i + |sub| <= |s| && OccursAt(s, sub, i)
  }

  // ---------------------------------------------------------------- strip

  function LStrip(s: string): (r: string)
    ensures |r| <= |s|
    ensures r == [] || !IsSpace(r[0])
    ensures forall i :: 0 <= i < |s| - |r| ==> IsSpace(s[i])
  {
    if |s| > 0 && IsSpace(s[0]) then LStrip(s[1..]) else s
  }

  function RStrip(s: string): (r: string)
    ensures |r| <= |s|
    ensures r == [] || !IsSpace(r[|r| - 1])
    ensures forall i :: |r| <= i < |s| ==> IsSpace(s[i])
  {
    if |s| > 0 && IsSpace(s[|s| - 1]) then RStrip(s[..|s| - 1]) else s
  }

  /** What `LStrip` leaves is a suffix of its input. */
  lemma {:induction false} LStripSuffix(s: string)
    ensures LStrip(s) == s[|s| - |LStrip(s)|..]
    decreases |s|
  {
    if |s| > 0 && IsSpace(s[0]) {
      LStripSuffix(s[1..]);
    }
  }

  /** What `RStrip` leaves is a prefix of its input. */
  lemma {:induction false} RStripPrefix(s: string)
    ensures RStrip(s) == s[..|RStrip(s)|]
    decreases |s|
  {
    if |s| > 0 && IsSpace(s[|s| - 1]) {
      RStripPrefix(s[..|s| - 1]);
    }
  }

  /** Python's `str.strip()`. */
  function Strip(s: string): (r: string)
    ensures |r| <= |s|
    ensures r == [] || (!IsSpace(r[0]) && !IsSpace(r[|r| - 1]))
  {
    RStripPrefix(LStrip(s));
    RStrip(LStrip(s))
  }

  lemma StripOfWord(w: string)
    requires NoSpace(w)
    ensures Strip(w) == w
  {
    if |w| > 0 {
      assert !IsSpace(w[0]);
      assert !IsSpace(w[|w| - 1]);
    }
  }

  /** Python's `str.lstrip(chars)`: drop every leading character found in `chars`. */
  function LStripChars(s: string, chars: set<char>): (r: string)
    ensures |r| <= |s| && r == s[|s| - |r|..]
    ensures r == [] || r[0] !in chars
  {
    if |s| > 0 && s[0] in chars then LStripChars(s[1..], chars) else s
  }

  // ----------------------------------------------------------------- case

  function LowerChar(c: char): char {
    if 'A' <= c <= 'Z' then (c as int + 32) as char else c
  }

  function UpperChar(c: char): char {
    if 'a' <= c <= 'z' then (c as int - 32) as char else c
  }

  /** `str.lower()` on ASCII letters. */
  function Lower(s: string): (r: string)
    ensures |r| == |s| && forall i :: 0 <= i < |s| ==> r[i] == LowerChar(s[i])
  {
    if |s| == 0 then [] else [LowerChar(s[0])] + Lower(s[1..])
  }

  /** `str.upper()` on ASCII letters. */
  function Upper(s: string): (r: string)
    ensures |r| == |s| && forall i :: 0 <= i < |s| ==> r[i] == UpperChar(s[i])
  {
    if |s| == 0 then [] else [UpperChar(s[0])] + Upper(s[1..])
  }

  // ---------------------------------------------------------------- words

  /** Length of the leading run of non-whitespace characters. */
  function WordLen(s: string): (n: nat)
    ensures n <= |s|
    ensures NoSpace(s[..n])
    ensures n < |s| ==> IsSpace(s[n])
  {
    if |s| == 0 || IsSpace(s[0]) then 0 else 1 + WordLen(s[1..])
  }

  /** Python's `str.split()` with no argument. */
  function Words(s: string): (ws: seq<string>)
    decreases |s|
  {
    if |s| == 0 then []
    else if IsSpace(s[0]) then Words(s[1..])
    else
      var n := WordLen(s);
      [s[..n]] + Words(s[n..])
  }

  /** Python's `' '.join(ws)`. */
  function JoinSpace(ws: seq<string>): string {
    JoinWith(" ", ws)
  }

  /** Python's `sep.join(ws)`. */
  function JoinWith(sep: string, ws: seq<string>): string {
    if |ws| == 0 then ""
    else if |ws| == 1 then ws[0]
    else ws[0] + sep + JoinWith(sep, ws[1..])
  }

  lemma {:induction false} WordsAreWords(s: string)
    ensures forall k :: 0 <= k < |Words(s)| ==> IsWord(Words(s)[k])
    decreases |s|
  {
    if |s| == 0 {
    } else if IsSpace(s[0]) {
      WordsAreWords(s[1..]);
    } else {
      var n := WordLen(s);
      WordsAreWords(s[n..]);
    }
  }

  lemma {:induction false} WordLenAppend(w: string, t: string)
    requires NoSpace(w)
    ensures WordLen(w + t) == |w| + WordLen(t)
    decreases |w|
  {
    if |w| > 0 {
      assert (w + t)[1..] == w[1..] + t;
      WordLenAppend(w[1..], t);
    } else {
      assert w + t == t;
    }
  }

  /** Splitting the space-joined words gives the words back. */
  lemma {:induction false} WordsOfJoin(ws: seq<string>)
    requires forall k :: 0 <= k < |ws| ==> IsWord(ws[k])
    ensures Words(JoinSpace(ws)) == ws
    decreases |ws|
  {
    if |ws| == 0 {
    } else if |ws| == 1 {
      var w := ws[0];
      WordLenAppend(w, "");
      assert w + "" == w;
      assert w[|w|..] == "";
    } else {
      var w, rest := ws[0], JoinSpace(ws[1..]);
      var s := w + " " + rest;
      assert JoinSpace(ws) == s;
      assert s == w + (" " + rest);
      WordLenAppend(w, " " + rest);
      assert s[..|w|] == w;
      assert s[|w|..] == " " + rest;
      assert (" " + rest)[1..] == rest;
      WordsOfJoin(ws[1..]);
    }
  }

  /** Appending text to a space-joined sequence extends its last word. */
  lemma {:induction false} JoinSpaceAppend(ws: seq<string>, x: string)
    requires |ws| > 0
    ensures JoinSpace(ws) + x == JoinSpace(ws[..|ws| - 1] + [ws[|ws| - 1] + x])
    decreases |ws|
  {
    if |ws| == 1 {
      assert ws[..0] + [ws[0] + x] == [ws[0] + x];
    } else {
      var tail := ws[1..];
      JoinSpaceAppend(tail, x);
      var ws' := ws[..|ws| - 1] + [ws[|ws| - 1] + x];
      assert ws'[0] == ws[0];
      assert ws'[1..] == tail[..|tail| - 1] + [tail[|tail| - 1] + x];
    }
  }

  /** Joining one more word adds a space and the word. */
  lemma {:induction false} JoinSpaceSnoc(ws: seq<string>, x: string)
    requires |ws| > 0
    ensures JoinSpace(ws + [x]) == JoinSpace(ws) + " " + x
    decreases |ws|
  {
    if |ws| == 1 {
      assert ws + [x] == [ws[0], x];
      assert [ws[0], x][1..] == [x];
      assert JoinWith(" ", [x]) == x;
      assert JoinWith(" ", [ws[0], x]) == ws[0] + " " + JoinWith(" ", [x]);
    } else {
      JoinSpaceSnoc(ws[1..], x);
      assert (ws + [x])[1..] == ws[1..] + [x];
    }
  }

  // ------------------------------------------------------------ searching

  /** Index of the first occurrence of `sub` in `s` at or after `from`. */
  function FindFrom(s: string, sub: string, from: nat): (r: Option<nat>)
    requires from <= |s|
    ensures r.Some? ==> (from <= r.value && OccursAt(s, sub, r.value)
      && forall j :: from <= j < r.value ==> !OccursAt(s, sub, j))
    ensures r.None? ==> forall j :: from <= j ==> !OccursAt(s, sub, j)
    decreases |s| - from
  {
    if OccursAt(s, sub, from) then Some(from)
    else if from + |sub| >= |s| then
      assert forall j :: from <= j ==> !OccursAt(s, sub, j) by {
        forall j | from < j ensures !OccursAt(s, sub, j) { }
      }
      None
    else FindFrom(s, sub, from + 1)
  }

  function Find(s: string, sub: string): (r: Option<nat>)
    ensures r.Some? <==> Contains(s, sub)
    ensures r.Some? ==> OccursAt(s, sub, r.value) && forall j :: 0 <= j < r.value ==> !OccursAt(s, sub, j)
  {
    var r := FindFrom(s, sub, 0);
    if r.Some? then assert OccursAt(s, sub, r.value); r else r
  }

  /** The text before the first occurrence of `sep`, or all of `s`:
      Python's `s.split(sep)[0]` for a non-empty `sep`. */
  function Before(s: string, sep: string): (r: string)
    ensures StartsWith(s, r)
  {
    match Find(s, sep)
    case Some(k) => s[..k]
    case None => s
  }

  /** The text after the first occurrence of `sep`, or "". */
  function After(s: string, sep: string): (r: string)
    ensures EndsWith(s, r)
  {
    match Find(s, sep)
    case Some(k) => s[k + |sep|..]
    case None => ""
  }

  /** Python's `s.split(sep)[1]` for a `sep` that occurs in `s`. */
  function SplitSecond(s: string, sep: string): string {
    Before(After(s, sep), sep)
  }

  /** The part before the first separator holds no separator, so taking it
      twice changes nothing. */
  lemma BeforeIdempotent(s: string, sep: string)
    requires |sep| > 0
    ensures Before(Before(s, sep), sep) == Before(s, sep)
  {
    var b := Before(s, sep);
    if Find(s, sep).Some? {
      var k := Find(s, sep).value;
      forall j: nat | j + |sep| <= |b| ensures !OccursAt(b, sep, j) {
        assert b[j..j + |sep|] == s[j..j + |sep|];
        assert !OccursAt(s, sep, j);
      }
      assert Find(b, sep).None?;
    }
  }

  lemma BeforeWhenAbsent(s: string, sep: string)
    requires !Contains(s, sep)
    ensures Before(s, sep) == s
  {
  }

  // ---------------------------------------------------------------- paths

  /** The position of the last `c` in `s`, if any. */
  function LastIndex(s: string, c: char): Option<nat> {
    if |s| == 0 then None
    else if s[|s| - 1] == c then Some(|s| - 1)
    else LastIndex(s[..|s| - 1], c)
  }

  /** `LastIndex` finds the last occurrence, and reports none only when
      there is none. Kept apart from the function so that a caller holding
      many strings does not instantiate these facts for each of them. */
  lemma {:induction false} LastIndexSpec(s: string, c: char)
    ensures var r := LastIndex(s, c);
      (r.Some? ==> r.value < |s| && s[r.value] == c && forall j :: r.value < j < |s| ==> s[j] != c)
      && (r.None? ==> forall j :: 0 <= j < |s| ==> s[j] != c)
    decreases |s|
  {
    if |s| > 0 && s[|s| - 1] != c {
      LastIndexSpec(s[..|s| - 1], c);
    }
  }

  /** `PurePath(p).name`: the text after the last '/'. */
  function Name(p: string): string {
    LastIndexSpec(p, '/');
    match LastIndex(p, '/')
    case None => p
    case Some(i) => p[i + 1..]
  }

  /** The name is the end of the path and holds no '/'. */
  lemma NameSpec(p: string)
    ensures EndsWith(p, Name(p))
    ensures forall i :: 0 <= i < |Name(p)| ==> Name(p)[i] != '/'
  {
    LastIndexSpec(p, '/');
  }

  /** `PurePath(name).suffix` of a file name: from the last '.' on, unless
      that dot is the first or the last character. */
  function Suffix(name: string): string {
    match LastIndex(name, '.')
    case Some(i) => if 0 < i < |name| - 1 then name[i..] else ""
    case None => ""
  }

  /** The suffix ends the name; it is empty or a '.' followed by at least
      one character, and never the whole name. */
  lemma SuffixSpec(name: string)
    ensures EndsWith(name, Suffix(name))
    ensures Suffix(name) == [] || (|Suffix(name)| >= 2 && Suffix(name)[0] == '.' && |Suffix(name)| < |name|)
  {
    LastIndexSpec(name, '.');
  }

  /** `PurePath(name).stem`: the name without its suffix. */
  function Stem(name: string): string {
    match LastIndex(name, '.')
    case Some(i) => if 0 < i < |name| - 1 then name[..i] else name
    case None => name
  }

  /** Stem and suffix split the name: `PurePath(n).stem + PurePath(n).suffix == n`. */
  lemma StemSuffix(name: string)
    ensures Stem(name) + Suffix(name) == name
  {
    LastIndexSpec(name, '.');
  }

  /** `PurePath(p).suffix` and `PurePath(p).stem` of a whole path. */
  function PathSuffix(p: string): string {
    Suffix(Name(p))
  }

  function PathStem(p: string): string {
    Stem(Name(p))
  }

  lemma StemOfSimpleName(base: string, ext: string)
    requires IsWord(base) && '.' !in base && '/' !in base
    requires |ext| >= 2 && ext[0] == '.' && '.' !in ext[1..]
    ensures Stem(base + ext) == base && Suffix(base + ext) == ext
  {
    var name := base + ext;
    assert name[|base|] == '.';
    assert forall j :: |base| < j < |name| ==> name[j] == ext[j - |base|] && name[j] != '.' by {
      forall j | |base| < j < |name| ensures name[j] == ext[j - |base|] && name[j] != '.' {
        assert name[j] == ext[j - |base|] == ext[1..][j - |base| - 1];
      }
    }
    LastIndexSpec(name, '.');
    var li := LastIndex(name, '.');
    assert li == Some(|base|);
    assert name[..|base|] == base;
  }

  // -------------------------------------------------------------- numbers

  predicate IsDigit(c: char) {
    '0' <= c <= '9'
  }

  function DigitChar(d: nat): (c: char)
    requires d < 10
    ensures IsDigit(c) && c as int - '0' as int == d
  {
    ('0' as int + d) as char
  }

  /** Python's `str(n)` for a natural number. */
  function NatToString(n: nat): (s: string)
    ensures |s| > 0
    decreases n
  {
    if n < 10 then [DigitChar(n)] else NatToString(n / 10) + [DigitChar(n % 10)]
  }

  /** Python's `str(n)` for any integer. */
  function IntToString(n: int): (s: string)
    ensures |s| > 0
    ensures n < 0 <==> s[0] == '-'
  {
    if n < 0 then "-" + NatToString(-n) else
      var d := NatToString(n);
      assert IsDigit(d[0]) by { NatStringDigits(n); }
      d
  }

  lemma {:induction false} NatStringDigits(n: nat)
    ensures AllDigits(NatToString(n))
    decreases n
  {
    if n >= 10 {
      NatStringDigits(n / 10);
    }
  }

  /** A non-empty run of decimal digits. */
  predicate AllDigits(s: string) {
    |s| > 0 && forall i :: 0 <= i < |s| ==> IsDigit(s[i])
  }

  /** The value of a run of decimal digits, most significant first. */
  function DigitsValue(s: string): nat
    requires forall i :: 0 <= i < |s| ==> IsDigit(s[i])
    decreases |s|
  {
    if |s| == 0 then 0
    else
      assert IsDigit(s[|s| - 1]);
      DigitsValue(s[..|s| - 1]) * 10 + (s[|s| - 1] as int - '0' as int)
  }

  /** Python's `int(line)` on a typed line, for ASCII digits: surrounding
      whitespace is ignored, then an optional sign and decimal digits;
      anything else is the `ValueError` case, `None`. The `_` digit
      separators and the non-ASCII digits `int` also accepts are read as
      `None` here. */
  function ParseInt(line: string): Option<int> {
    var t := Strip(line);
    if |t| > 0 && (t[0] == '+' || t[0] == '-') then
      if AllDigits(t[1..]) then
        Some(if t[0] == '-' then 0 - DigitsValue(t[1..]) as int else DigitsValue(t[1..]))
      else None
    else if AllDigits(t) then Some(DigitsValue(t))
    else None
  }

  lemma {:induction false} DigitsValueOfNatToString(n: nat)
    ensures AllDigits(NatToString(n)) && DigitsValue(NatToString(n)) == n
    decreases n
  {
    NatStringDigits(n);
    if n >= 10 {
      var s := NatToString(n);
      DigitsValueOfNatToString(n / 10);
      assert s[..|s| - 1] == NatToString(n / 10);
    }
  }

  /** `int(str(n)) == n`: the parser reads back every number the program prints. */
  lemma ParseIntOfIntToString(n: int)
    ensures ParseInt(IntToString(n)) == Some(n)
  {
    var s := IntToString(n);
    var m: nat := if n < 0 then -n else n;
    DigitsValueOfNatToString(m);
    assert NoSpace(s) by {
      forall i | 0 <= i < |s| ensures !IsSpace(s[i]) {
        if n < 0 && i > 0 {
          assert s[i] == NatToString(m)[i - 1];
        }
      }
    }
    StripOfWord(s);
    if n < 0 {
      assert s[1..] == NatToString(m);
    }
  }

  /** Python's `s.split(sep)` for a one-character separator: the pieces
      between separators, empty ones included. */
  function SplitOn(s: string, sep: char): (r: seq<string>)
    ensures |r| > 0
    decreases |s|
  {
    if |s| == 0 then [""]
    else
      var rest := SplitOn(s[1..], sep);
      if s[0] == sep then [""] + rest
      else [[s[0]] + rest[0]] + rest[1..]
  }

  /** The separator joins what split took apart: `sep.join(s.split(sep)) == s`. */
  lemma {:induction false} JoinSplit(s: string, sep: char)
    ensures JoinWith([sep], SplitOn(s, sep)) == s
    decreases |s|
  {
    if |s| > 0 {
      JoinSplit(s[1..], sep);
      var rest := SplitOn(s[1..], sep);
      if s[0] == sep {
        JoinAfterEmpty([sep], rest);
      } else {
        JoinIntoFirst([sep], s[0], rest);
      }
      assert s == [s[0]] + s[1..];
    }
  }

  /** No piece of a split holds the separator. */
  lemma {:induction false} SplitPiecesClean(s: string, sep: char)
    ensures forall i :: 0 <= i < |SplitOn(s, sep)| ==> sep !in SplitOn(s, sep)[i]
    decreases |s|
  {
    if |s| > 0 {
      SplitPiecesClean(s[1..], sep);
      var rest := SplitOn(s[1..], sep);
      if s[0] != sep {
        var r := SplitOn(s, sep);
        assert r[0] == [s[0]] + rest[0];
        forall i | 1 <= i < |r| ensures sep !in r[i] {
          assert r[i] == rest[i];
        }
      }
    }
  }

  lemma JoinAfterEmpty(sep: string, rest: seq<string>)
    requires |rest| > 0
    ensures JoinWith(sep, [""] + rest) == sep + JoinWith(sep, rest)
  {
    var ws := [""] + rest;
    assert ws[0] == "" && ws[1..] == rest && |ws| > 1;
  }

  lemma JoinIntoFirst(sep: string, c: char, rest: seq<string>)
    requires |rest| > 0
    ensures JoinWith(sep, [[c] + rest[0]] + rest[1..]) == [c] + JoinWith(sep, rest)
  {
    var ws := [[c] + rest[0]] + rest[1..];
    assert ws[0] == [c] + rest[0] && ws[1..] == rest[1..];
    if |rest| > 1 {
      assert JoinWith(sep, rest) == rest[0] + sep + JoinWith(sep, rest[1..]);
    }
  }

  // -------------------------------------------------- sequence identities

  /** The two halves of a concatenation can be cut back out. */
  lemma AppendParts<T>(a: seq<T>, b: seq<T>)
    ensures (a + b)[..|a|] == a && (a + b)[|a|..] == b
  {
  }

  /** Concatenation regroups. Stated over an opaque element type so that a
      caller with records of strings does not compare them field by field. */
  lemma AppendAssoc<T>(a: seq<T>, b: seq<T>, c: seq<T>)
    ensures (a + b) + c == a + (b + c)
  {
  }

  lemma AppendEmpty<T>(a: seq<T>)
    ensures a + [] == a && [] + a == a
  {
  }

  /** A prefix one longer, cut back, is the shorter prefix. */
  lemma PrefixOfPrefix<T>(s: seq<T>, i: nat)
    requires i < |s|
    ensures s[..i + 1][..i] == s[..i] && s[..i + 1][i] == s[i]
  {
  }

  /** A prefix one longer is the shorter prefix and the next element. */
  lemma PrefixSnoc<T>(s: seq<T>, i: nat)
    requires i < |s|
    ensures s[..i + 1] == s[..i] + [s[i]]
  {
  }

  lemma FirstIsElement<T>(s: seq<T>)
    requires |s| > 0
    ensures s[0] in s
  {
  }

  /** A suffix starts with its first element and continues with the next suffix. */
  lemma SuffixFromHere<T>(s: seq<T>, i: nat)
    requires i < |s|
    ensures s[i..][0] == s[i] && s[i..][1..] == s[i + 1..]
  {
  }

  lemma ConsTail<T>(x: T, s: seq<T>)
    ensures ([x] + s)[0] == x && ([x] + s)[1..] == s
  {
  }

  lemma DropOfDrop<T>(s: seq<T>, i: nat, j: nat)
    requires i + j <= |s|
    ensures s[i..][j..] == s[i + j..]
  {
  }

  lemma WholePrefix<T>(s: seq<T>)
    ensures s[..|s|] == s && s[0..] == s
  {
  }

  lemma HeadTail<T>(s: seq<T>)
    requires |s| > 0
    ensures [s[0]] + s[1..] == s
  {
  }

  /** Cutting position `i` out of a tail is cutting `i + 1` out of the whole. */
  lemma ConsSplice<T>(h: T, t: seq<T>, i: nat)
    requires i < |t|
    ensures [h] + (t[..i] + t[i + 1..]) == ([h] + t)[..i + 1] + ([h] + t)[i + 2..]
  {
    assert ([h] + t)[..i + 1] == [h] + t[..i];
    assert ([h] + t)[i + 2..] == t[i + 1..];
  }
}
