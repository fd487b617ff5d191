/** Python's `shlex.quote`, and the part of POSIX shell word splitting
    (section 2.2, Quoting, and section 2.3, Token Recognition, of the POSIX
    Shell Command Language) that reads its output back: a quoted word is
    read by the shell as exactly the string that was quoted, and words
    joined by spaces are read back as the list they came from. */
module Shlex {
  import opened Strings

  /** The characters `shlex.quote` leaves unquoted: ASCII letters, digits,
      `_` and `@%+=:,./-`. */
  predicate SafeChar(c: char) {
    ('a' <= c <= 'z') || ('A' <= c <= 'Z') || ('0' <= c <= '9')
    || c == '_' || c == '@' || c == '%' || c == '+' || c == '=' || c == ':' || c == ','
    || c == '.' || c == '/' || c == '-'
  }

  /** A word `shlex.quote` returns unchanged. */
  predicate SafeWord(s: string) {
    |s| > 0 && forall i :: 0 <= i < |s| ==> SafeChar(s[i])
  }

  /** `s.replace("'", "'\"'\"'")`: each single quote closes the quoted
      run, is written inside double quotes, and reopens the run. */
  function Escaped(s: string): (r: string)
    ensures |r| >= |s|
  {
    if |s| == 0 then []
    else (if s[0] == '\'' then "'\"'\"'" else [s[0]]) + Escaped(s[1..])
  }

  /** `shlex.quote(s)`. */
  function Quote(s: string): (r: string)
    ensures |r| > 0
    ensures SafeWord(s) ==> r == s
    ensures !SafeWord(s) ==> r[0] == '\'' && r[|r| - 1] == '\''
  {
    if |s| == 0 then "''"
    else if SafeWord(s) then s
    else "'" + Escaped(s) + "'"
  }

  /** `shlex.quote` leaves a string unchanged exactly when it is a safe word. */
  lemma QuoteIdentity(s: string)
    ensures Quote(s) == s <==> SafeWord(s)
  {
    if !SafeWord(s) && |s| > 0 {
      assert |Quote(s)| == |Escaped(s)| + 2;
    }
  }

  // ------------------------------------------------------------ the shell's reading

  /** The words read so far plus the word being read, if one has started. */
  function Close(ws: seq<string>, cur: Option<string>): seq<string> {
    if cur.Some? then ws + [cur.value] else ws
  }

  /** Reads `w` outside any quotes, with words `ws` finished and `cur` under
      way. Spaces end a word, `'` and `"` open quoted runs, characters
      `shlex.quote` leaves unquoted stand for themselves; anything else
      (a pipe, a `$`, a backslash) is beyond this reading: `None`. */
  function Lex(w: string, ws: seq<string>, cur: Option<string>): Option<seq<string>>
    decreases |w|
  {
    if |w| == 0 then Some(Close(ws, cur))
    else if w[0] == ' ' then Lex(w[1..], Close(ws, cur), None)
    else if w[0] == '\'' then LexSingle(w[1..], ws, cur.GetOr(""))
    else if w[0] == '"' then LexDouble(w[1..], ws, cur.GetOr(""))
    else if SafeChar(w[0]) then Lex(w[1..], ws, Some(cur.GetOr("") + [w[0]]))
    else None
  }

  /** Inside single quotes every character stands for itself up to the next `'`. */
  function LexSingle(w: string, ws: seq<string>, cur: string): Option<seq<string>>
    decreases |w|
  {
    if |w| == 0 then None
    else if w[0] == '\'' then Lex(w[1..], ws, Some(cur))
    else LexSingle(w[1..], ws, cur + [w[0]])
  }

  /** Inside double quotes characters stand for themselves up to the next
      `"`, except `$`, `` ` `` and `\`, which are beyond this reading. */
  function LexDouble(w: string, ws: seq<string>, cur: string): Option<seq<string>>
    decreases |w|
  {
    if |w| == 0 then None
    else if w[0] == '"' then Lex(w[1..], ws, Some(cur))
    else if w[0] == '$' || w[0] == '`' || w[0] == '\\' then None
    else LexDouble(w[1..], ws, cur + [w[0]])
  }

  /** The words the shell reads from a command line. */
  function ShellWords(line: string): Option<seq<string>> {
    Lex(line, [], None)
  }

  /** `t` is read by the shell as the text `v`, whatever follows it. */
  ghost predicate Reads(t: string, v: string) {
    |t| > 0 && forall rest, ws :: Lex(t + rest, ws, None) == Lex(rest, ws, Some(v))
  }

  // ------------------------------------------------------------ round trip

  lemma {:induction false} LexSafe(s: string, rest: string, ws: seq<string>, cur: Option<string>)
    requires forall i :: 0 <= i < |s| ==> SafeChar(s[i])
    requires |s| > 0 || cur.Some?
    ensures Lex(s + rest, ws, cur) == Lex(rest, ws, Some(cur.GetOr("") + s))
    decreases |s|
  {
    if |s| > 0 {
      assert (s + rest)[0] == s[0] && (s + rest)[1..] == s[1..] + rest;
      LexSafe(s[1..], rest, ws, Some(cur.GetOr("") + [s[0]]));
      assert cur.GetOr("") + [s[0]] + s[1..] == cur.GetOr("") + s;
    } else {
      assert s + rest == rest;
      assert cur.GetOr("") + s == cur.value;
    }
  }

  /** The single-quoted body of a quoted word is read back as the word. */
  lemma {:induction false} LexEscaped(s: string, rest: string, ws: seq<string>, cur: string)
    ensures LexSingle(Escaped(s) + "'" + rest, ws, cur) == Lex(rest, ws, Some(cur + s))
    decreases |s|
  {
    if |s| == 0 {
      assert Escaped(s) + "'" + rest == "'" + rest;
      assert cur + s == cur;
    } else {
      var tail := Escaped(s[1..]) + "'" + rest;
      LexEscaped(s[1..], rest, ws, cur + [s[0]]);
      assert cur + [s[0]] + s[1..] == cur + s;
      if s[0] == '\'' {
        assert Escaped(s) + "'" + rest == "'\"'\"'" + tail;
        LexQuotedQuote(tail, ws, cur);
      } else {
        assert Escaped(s) + "'" + rest == [s[0]] + tail;
        assert ([s[0]] + tail)[1..] == tail;
      }
    }
  }

  lemma Cons(c: char, x: string)
    ensures ([c] + x)[0] == c && ([c] + x)[1..] == x
  {
  }

  /** Inside a quoted run, `'"'"'` is read as one single quote. */
  lemma LexQuotedQuote(tail: string, ws: seq<string>, cur: string)
    ensures LexSingle("'\"'\"'" + tail, ws, cur) == LexSingle(tail, ws, cur + "'")
  {
    var w4 := ['\''] + tail;
    var w3 := ['"'] + w4;
    var w2 := ['\''] + w3;
    var w1 := ['"'] + w2;
    var w0 := ['\''] + w1;
    assert "'\"'\"'" + tail == w0;
    Cons('\'', w1);
    Cons('"', w2);
    Cons('\'', w3);
    Cons('"', w4);
    Cons('\'', tail);
    assert LexSingle(w0, ws, cur) == Lex(w1, ws, Some(cur));
    assert Lex(w1, ws, Some(cur)) == LexDouble(w2, ws, cur);
    assert LexDouble(w2, ws, cur) == LexDouble(w3, ws, cur + "'");
    assert LexDouble(w3, ws, cur + "'") == Lex(w4, ws, Some(cur + "'"));
  }

  /** Whatever `shlex.quote` returns is read by the shell as the original
      string, as one word or part of one. */
  lemma QuoteReads(s: string)
    ensures Reads(Quote(s), s)
  {
    forall rest, ws ensures Lex(Quote(s) + rest, ws, None) == Lex(rest, ws, Some(s)) {
      if SafeWord(s) {
        LexSafe(s, rest, ws, None);
        assert "" + s == s;
      } else {
        QuotedReads(s, rest, ws);
      }
    }
  }

  /** A string `shlex.quote` wraps in single quotes is read back whole. */
  lemma QuotedReads(s: string, rest: string, ws: seq<string>)
    requires !SafeWord(s)
    ensures Lex(Quote(s) + rest, ws, None) == Lex(rest, ws, Some(s))
  {
    assert Quote(s) + rest == "'" + (Escaped(s) + "'" + rest);
    LexEscaped(s, rest, ws, "");
    assert "" + s == s;
  }

  /** A word of unquoted-safe characters is read as itself. */
  lemma SafeReads(s: string)
    requires SafeWord(s)
    ensures Reads(s, s)
  {
    forall rest, ws ensures Lex(s + rest, ws, None) == Lex(rest, ws, Some(s)) {
      LexSafe(s, rest, ws, None);
      assert "" + s == s;
    }
  }

  /** Words joined by single spaces, followed by one more space and `rest`,
      are read as the words' values, then whatever `rest` holds. */
  lemma {:induction false} JoinReadsThen(ts: seq<string>, vs: seq<string>, rest: string, ws: seq<string>)
    requires |ts| == |vs| && |ts| > 0
    requires forall i :: 0 <= i < |ts| ==> Reads(ts[i], vs[i])
    ensures Lex(JoinSpace(ts) + " " + rest, ws, None) == Lex(rest, ws + vs, None)
    decreases |ts|
  {
    var t := ts[0];
    assert Reads(t, vs[0]);
    if |ts| == 1 {
      assert JoinSpace(ts) + " " + rest == t + (" " + rest);
      assert Lex(t + (" " + rest), ws, None) == Lex(" " + rest, ws, Some(vs[0]));
      assert (" " + rest)[1..] == rest;
      assert ws + vs == ws + [vs[0]];
    } else {
      var more := JoinSpace(ts[1..]) + " " + rest;
      assert JoinSpace(ts) + " " + rest == t + (" " + more);
      assert Lex(t + (" " + more), ws, None) == Lex(" " + more, ws, Some(vs[0]));
      assert (" " + more)[1..] == more;
      JoinReadsThen(ts[1..], vs[1..], rest, ws + [vs[0]]);
      assert ws + [vs[0]] + vs[1..] == ws + vs;
    }
  }

  /** Every character is one `shlex.quote` leaves alone, checked one by one. */
  predicate SafeText(s: string)
    decreases |s|
  {
    |s| == 0 || (SafeChar(s[0]) && SafeText(s[1..]))
  }

  lemma {:induction false} SafeTextChars(s: string)
    requires SafeText(s)
    ensures forall i :: 0 <= i < |s| ==> SafeChar(s[i])
    decreases |s|
  {
    if |s| > 0 {
      SafeTextChars(s[1..]);
      forall i | 1 <= i < |s| ensures SafeChar(s[i]) {
        assert s[i] == s[1..][i - 1];
      }
    }
  }

  /** A non-empty word of such characters is read as itself. */
  lemma SafeTextReads(s: string)
    requires |s| > 0 && SafeText(s)
    ensures Reads(s, s)
  {
    SafeTextChars(s);
    SafeReads(s);
  }

  /** Each text is read as the value in the same position. */
  ghost predicate ReadsAll(ts: seq<string>, vs: seq<string>) {
    |ts| == |vs| && forall i :: 0 <= i < |ts| ==> Reads(ts[i], vs[i])
  }

  lemma ReadsAllAppend(ts: seq<string>, vs: seq<string>, ts': seq<string>, vs': seq<string>)
    requires ReadsAll(ts, vs) && ReadsAll(ts', vs')
    ensures ReadsAll(ts + ts', vs + vs')
  {
    forall i | 0 <= i < |ts + ts'| ensures Reads((ts + ts')[i], (vs + vs')[i]) {
      if i >= |ts| {
        assert (ts + ts')[i] == ts'[i - |ts|] && (vs + vs')[i] == vs'[i - |ts|];
      }
    }
  }

  /** Characters `shlex.quote` leaves alone, concatenated, are still such characters. */
  lemma SafeConcat(a: string, b: string)
    requires forall i :: 0 <= i < |a| ==> SafeChar(a[i])
    requires forall i :: 0 <= i < |b| ==> SafeChar(b[i])
    ensures forall i :: 0 <= i < |a + b| ==> SafeChar((a + b)[i])
  {
    forall i | 0 <= i < |a + b| ensures SafeChar((a + b)[i]) {
      if i >= |a| {
        assert (a + b)[i] == b[i - |a|];
      }
    }
  }

  /** Words joined by single spaces are read back as the list of their values. */
  lemma JoinReads(ts: seq<string>, vs: seq<string>)
    requires |ts| == |vs|
    requires forall i :: 0 <= i < |ts| ==> Reads(ts[i], vs[i])
    ensures ShellWords(JoinSpace(ts)) == Some(vs)
  {
    if |ts| > 0 {
      JoinFrom(ts, vs, []);
      assert [] + vs == vs;
    }
  }

  lemma {:induction false} JoinFrom(ts: seq<string>, vs: seq<string>, ws: seq<string>)
    requires |ts| == |vs| && |ts| > 0
    requires forall i :: 0 <= i < |ts| ==> Reads(ts[i], vs[i])
    ensures Lex(JoinSpace(ts), ws, None) == Some(ws + vs)
    decreases |ts|
  {
    var t := ts[0];
    assert Reads(t, vs[0]);
    if |ts| == 1 {
      assert JoinSpace(ts) == t + "";
      assert Lex(t + "", ws, None) == Lex("", ws, Some(vs[0]));
      assert ws + vs == ws + [vs[0]];
    } else {
      var more := JoinSpace(ts[1..]);
      assert JoinSpace(ts) == t + (" " + more);
      assert Lex(t + (" " + more), ws, None) == Lex(" " + more, ws, Some(vs[0]));
      assert (" " + more)[1..] == more;
      JoinFrom(ts[1..], vs[1..], ws + [vs[0]]);
      assert ws + [vs[0]] + vs[1..] == ws + vs;
    }
  }

  /** Each argument quoted. */
  function QuoteAll(args: seq<string>): (r: seq<string>)
    ensures |r| == |args|
    ensures forall i :: 0 <= i < |args| ==> r[i] == Quote(args[i])
  {
    seq(|args|, i requires 0 <= i < |args| => Quote(args[i]))
  }

  /** `' '.join(shlex.quote(a) for a in args)` is read by the shell as `args`. */
  lemma QuotedJoinReads(args: seq<string>)
    ensures ShellWords(JoinSpace(QuoteAll(args))) == Some(args)
  {
    forall i | 0 <= i < |args| ensures Reads(QuoteAll(args)[i], args[i]) {
      QuoteReads(args[i]);
    }
    JoinReads(QuoteAll(args), args);
  }
}
