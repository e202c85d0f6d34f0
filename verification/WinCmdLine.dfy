/**
  TclX_SplitWinCmdLine: splitting a Windows command line into arguments, written in place into a
  buffer sized by a separate counting pass.
*/
module WinCmdLine {
  import opened Common

  // ---------------------------------------------------------------- what the splitter computes

  /** Leading backslashes. */
  function Slashes(s: string): (n: nat)
    ensures n <= |s| && (n < |s| ==> s[n] != '\\')
  {
    if s == "" || s[0] != '\\' then 0 else 1 + Slashes(s[1..])
  }

  lemma {:induction false} SlashesAre(s: string)
    ensures s[..Slashes(s)] == Rep(Slashes(s))
  {
    if Slashes(s) > 0 {
      SlashesAre(s[1..]);
      assert s[..Slashes(s)] == [s[0]] + s[1..][..Slashes(s[1..])];
    }
  }

  function Rep(n: nat): (r: string)
    ensures |r| == n && forall i :: 0 <= i < n ==> r[i] == '\\'
  {
    if n == 0 then "" else "\\" + Rep(n - 1)
  }

  /** Leading white space skipped. */
  function Skip(s: string): (t: string)
    ensures |t| <= |s| && (t != "" ==> !IsSpace(t[0]))
    ensures s != "" && IsSpace(s[0]) ==> |t| < |s|
  {
    if s != "" && IsSpace(s[0]) then Skip(s[1..]) else s
  }

  /** One turn of the inner loop: backslashes and the character after them. */
  datatype Piece = Stop(out: string, rest: string) | More(out: string, rest: string, inquote: bool)

  /** 2n backslashes before a quote give n; 2n+1 give n and a literal quote; a doubled quote inside
      quotes is one quote; other backslashes are literal. */
  function Turn(s: string, inquote: bool): (r: Piece)
    ensures |r.out| + |r.rest| <= |s|
    ensures r.More? ==> |r.rest| < |s|
    ensures r.Stop? && r.rest != "" ==> IsSpace(r.rest[0])
    ensures r.Stop? && s != "" && !IsSpace(s[0]) ==> |r.rest| < |s|
  {
    var n := Slashes(s);
    var t := s[n..];
    if t == "" then Stop(Rep(n), "")
    else if t[0] == '"' && n % 2 == 1 then More(Rep(n / 2) + "\"", t[1..], inquote)
    else if t[0] == '"' && inquote && |t| > 1 && t[1] == '"' then More(Rep(n / 2) + "\"", t[2..], true)
    else if t[0] == '"' then More(Rep(n / 2), t[1..], !inquote)
    else if !inquote && IsSpace(t[0]) then Stop(Rep(n), t)
    else More(Rep(n) + [t[0]], t[1..], inquote)
  }

  /** One argument, read with inquote as given, and what follows it. */
  function Lex(s: string, inquote: bool): (r: (string, string))
    ensures |r.0| + |r.1| <= |s|
    ensures r.1 != "" ==> IsSpace(r.1[0])
    ensures s != "" && !IsSpace(s[0]) ==> |r.1| < |s|
    decreases |s|
  {
    match Turn(s, inquote)
    case Stop(out, rest) => (out, rest)
    case More(out, rest, q) => (out + Lex(rest, q).0, Lex(rest, q).1)
  }

  function Split(s: string): seq<string>
    decreases |s|
  {
    var t := Skip(s);
    if t == "" then [] else [Lex(t, false).0] + Split(Lex(t, false).1)
  }

  // ---------------------------------------------------------------- round trip

  /** n backslashes before an inner quote become 2n+1, n trailing backslashes become 2n. */
  function Escape(a: string): string
    decreases |a|
  {
    var n := Slashes(a);
    var t := a[n..];
    if t == "" then Rep(2 * n)
    else Rep(if t[0] == '"' then 2 * n + 1 else n) + ([t[0]] + Escape(t[1..]))
  }

  function Quote(a: string): string { ['"'] + (Escape(a) + ['"']) }

  function Join(args: seq<string>): string {
    if args == [] then ""
    else Quote(args[0]) + if |args| == 1 then "" else " " + Join(args[1..])
  }

  lemma {:induction false} SlashesOf(n: nat, s: string)
    requires s != "" ==> s[0] != '\\'
    ensures Slashes(Rep(n) + s) == n && (Rep(n) + s)[n..] == s
  {
    if n == 0 {
      assert Rep(0) + s == s;
    } else {
      assert (Rep(n) + s)[1..] == Rep(n - 1) + s;
      SlashesOf(n - 1, s);
    }
  }

  lemma Regroup(a: string, c: char, b: string, d: string)
    ensures (a + ([c] + b)) + d == a + ([c] + (b + d))
  {
  }

  /** What a turn does with n backslashes followed by c and u. */
  lemma TurnAfter(n: nat, c: char, u: string, inquote: bool)
    requires c != '\\'
    ensures Turn(Rep(n) + ([c] + u), inquote) ==
            if c == '"' && n % 2 == 1 then More(Rep((n - 1) / 2) + "\"", u, inquote)
            else if c == '"' && inquote && u != "" && u[0] == '"' then More(Rep(n / 2) + "\"", u[1..], true)
            else if c == '"' then More(Rep(n / 2), u, !inquote)
            else if White(c) && !inquote then Stop(Rep(n), [c] + u)
            else More(Rep(n) + [c], u, inquote)
  {
    var t := [c] + u;
    SlashesOf(n, t);
    assert t[0] == c && t[1..] == u && |t| == 1 + |u|;
    assert u != "" ==> t[1] == u[0] && t[2..] == u[1..];
    TurnWith(Rep(n) + t, n, t, inquote);
    assert n % 2 == 1 ==> (n - 1) / 2 == n / 2;
  }

  lemma TurnWith(s: string, n: nat, t: string, inquote: bool)
    requires n == Slashes(s) && t == s[n..] && t != "" && t[0] != '\\'
    ensures Turn(s, inquote) ==
            if t[0] == '"' && n % 2 == 1 then More(Rep(n / 2) + "\"", t[1..], inquote)
            else if t[0] == '"' && inquote && |t| > 1 && t[1] == '"' then More(Rep(n / 2) + "\"", t[2..], true)
            else if t[0] == '"' then More(Rep(n / 2), t[1..], !inquote)
            else if White(t[0]) && !inquote then Stop(Rep(n), t)
            else More(Rep(n) + [t[0]], t[1..], inquote)
  {
  }

  /** Backslashes at the end of the command line stand for themselves. */
  lemma TurnAtEnd(n: nat, inquote: bool)
    ensures Turn(Rep(n), inquote) == Stop(Rep(n), "")
  {
    SlashesOf(n, "");
    assert Rep(n) + "" == Rep(n);
  }

  lemma LexMore(s: string, inquote: bool, out: string, rest: string, q: bool)
    requires Turn(s, inquote) == More(out, rest, q)
    ensures Lex(s, inquote) == (out + Lex(rest, q).0, Lex(rest, q).1)
  {
  }

  lemma LexStop(rest: string)
    requires rest != "" ==> IsSpace(rest[0])
    ensures Lex(rest, false) == ("", rest)
  {
    if rest != "" { assert Slashes(rest) == 0 && rest[0..] == rest; }
  }

  /** Trailing backslashes, doubled, and the closing quote. */
  lemma LexClose(n: nat, rest: string)
    requires rest != "" ==> rest[0] != '"'
    ensures Lex(Rep(2 * n) + (['"'] + rest), true) == (Rep(n) + Lex(rest, false).0, Lex(rest, false).1)
  {
    TurnAfter(2 * n, '"', rest, true);
    LexMore(Rep(2 * n) + (['"'] + rest), true, Rep(n), rest, false);
  }

  /** Trailing backslashes, doubled, and a doubled quote. */
  lemma LexDouble(n: nat, rest: string)
    ensures Lex(Rep(2 * n) + (['"'] + (['"'] + rest)), true) == (Rep(n) + "\"" + Lex(rest, true).0, Lex(rest, true).1)
  {
    TurnAfter(2 * n, '"', ['"'] + rest, true);
    assert (['"'] + rest)[1..] == rest;
    LexMore(Rep(2 * n) + (['"'] + (['"'] + rest)), true, Rep(n) + "\"", rest, true);
  }

  /** Backslashes and one more character of an escaped text. */
  lemma LexStep(n: nat, c: char, u: string)
    requires c != '\\'
    ensures var m := if c == '"' then 2 * n + 1 else n;
            Lex(Rep(m) + ([c] + u), true) == (Rep(n) + [c] + Lex(u, true).0, Lex(u, true).1)
  {
    var m := if c == '"' then 2 * n + 1 else n;
    TurnAfter(m, c, u, true);
    assert c == '"' ==> m / 2 == n && m % 2 == 1 && "\"" == [c];
    LexMore(Rep(m) + ([c] + u), true, Rep(n) + [c], u, true);
  }

  /** After backslashes inside quotes, tail goes on with r. */
  ghost predicate GoesOn(tail: string, r: (string, string)) {
    forall n: nat :: Lex(Rep(2 * n) + tail, true) == (Rep(n) + r.0, r.1)
  }

  lemma {:induction false} EscapedThen(a: string, tail: string, r: (string, string))
    requires GoesOn(tail, r)
    ensures Lex(Escape(a) + tail, true) == (a + r.0, r.1)
    decreases |a|
  {
    var n := Slashes(a);
    var t := a[n..];
    SlashesAre(a);
    SplitAt(a, n);
    if t == "" {
      assert Escape(a) == Rep(2 * n);
    } else {
      EscapedThen(t[1..], tail, r);
      EscapedStep(a, n, t, tail, (t[1..] + r.0, r.1));
      Concat(Rep(n) + [t[0]], t[1..], r.0);
    }
  }

  lemma Concat(a: string, b: string, c: string)
    ensures a + (b + c) == a + b + c
  {
  }

  /** Inside quotes, the escaped text and a closing quote read as the original text. */
  lemma LexEscaped(a: string, rest: string)
    requires rest != "" ==> rest[0] != '"'
    ensures Lex(Escape(a) + (['"'] + rest), true) == (a + Lex(rest, false).0, Lex(rest, false).1)
  {
    forall n: nat
      ensures Lex(Rep(2 * n) + (['"'] + rest), true) == (Rep(n) + Lex(rest, false).0, Lex(rest, false).1)
    {
      LexClose(n, rest);
    }
    EscapedThen(a, ['"'] + rest, Lex(rest, false));
  }

  /** A doubled quote reads as one, which does not close the quotes. */
  lemma LexDoubled(a: string, rest: string)
    ensures Lex(Escape(a) + (['"'] + (['"'] + rest)), true) == (a + "\"" + Lex(rest, true).0, Lex(rest, true).1)
  {
    var tail, r := ['"'] + (['"'] + rest), ("\"" + Lex(rest, true).0, Lex(rest, true).1);
    forall n: nat ensures Lex(Rep(2 * n) + tail, true) == (Rep(n) + r.0, r.1) {
      LexDouble(n, rest);
      Concat(Rep(n), "\"", Lex(rest, true).0);
    }
    EscapedThen(a, tail, r);
    Concat(a, "\"", Lex(rest, true).0);
  }

  lemma EscapedStep(a: string, n: nat, t: string, tail: string, r: (string, string))
    requires n == Slashes(a) && a[n..] == t != "" && t[0] != '\\'
    requires Lex(Escape(t[1..]) + tail, true) == r
    ensures Lex(Escape(a) + tail, true) == (Rep(n) + [t[0]] + r.0, r.1)
  {
    var m, e := if t[0] == '"' then 2 * n + 1 else n, Escape(t[1..]);
    EscapeUnfolds(a, n, t);
    LexStep(n, t[0], e + tail);
    Regroup(Rep(m), t[0], e, tail);
  }

  lemma EscapeUnfolds(a: string, n: nat, t: string)
    requires n == Slashes(a) && a[n..] == t != ""
    ensures Escape(a) == Rep(if t[0] == '"' then 2 * n + 1 else n) + ([t[0]] + Escape(t[1..]))
  {
  }

  lemma SplitAt(a: string, n: nat)
    requires n <= |a|
    ensures n == |a| ==> a == a[..n]
    ensures n < |a| ==> a == a[..n] + [a[n..][0]] + a[n..][1..]
  {
  }

  lemma LexQuoted(a: string, rest: string)
    requires rest != "" ==> rest[0] != '"'
    ensures Lex(Quote(a) + rest, false) == (a + Lex(rest, false).0, Lex(rest, false).1)
  {
    QuoteRest(a, rest);
    LexOpen(Escape(a) + (['"'] + rest));
    LexEscaped(a, rest);
  }

  lemma QuoteRest(a: string, rest: string)
    ensures Quote(a) + rest == ['"'] + (Escape(a) + (['"'] + rest))
  {
    var e := Escape(a);
    assert (['"'] + (e + ['"'])) + rest == ['"'] + (e + (['"'] + rest));
  }

  /** Splitting the quoted and joined arguments gives the arguments back. */
  lemma {:induction false} SplitJoin(args: seq<string>)
    ensures Split(Join(args)) == args
  {
    if args != [] {
      SplitJoin(args[1..]);
      SplitJoinStep(args[0], args[1..]);
      assert args == [args[0]] + args[1..];
    }
  }

  lemma SplitJoinStep(a: string, args: seq<string>)
    requires Split(Join(args)) == args
    ensures Split(Join([a] + args)) == [a] + args
  {
    var rest := if args == [] then "" else " " + Join(args);
    assert ([a] + args)[1..] == args;
    assert Join([a] + args) == Quote(a) + rest;
    SplitFirst(a, rest);
    SplitSpace(Join(args));
  }

  lemma SplitFirst(a: string, rest: string)
    requires rest != "" ==> IsSpace(rest[0])
    ensures Split(Quote(a) + rest) == [a] + Split(rest)
  {
    LexQuoted(a, rest);
    LexStop(rest);
    assert a + "" == a;
    var s := Quote(a) + rest;
    assert s[0] == '"';
    SplitArg(s, a, rest);
  }

  lemma SplitArg(s: string, a: string, rest: string)
    requires s != "" && !IsSpace(s[0]) && Lex(s, false) == (a, rest)
    ensures Split(s) == [a] + Split(rest)
  {
    assert Skip(s) == s;
  }

  /** "a""b" is one argument with one quote in it, whatever the texts. */
  lemma DoubledQuote(a: string, b: string)
    ensures Split("\"" + Escape(a) + "\"\"" + Escape(b) + "\"") == [a + "\"" + b]
  {
    var s, v := "\"" + Escape(a) + "\"\"" + Escape(b) + "\"", Escape(b) + (['"'] + "");
    var u := Escape(a) + (['"'] + (['"'] + v));
    assert s == ['"'] + u;
    LexOpen(u);
    LexDoubled(a, v);
    LexClosed(b);
    SplitArg(s, a + "\"" + b, "");
  }

  lemma LexOpen(u: string)
    ensures Lex(['"'] + u, false) == Lex(u, true)
  {
    TurnAfter(0, '"', u, false);
    assert Rep(0) + (['"'] + u) == ['"'] + u;
    LexMore(['"'] + u, false, "", u, true);
    assert "" + Lex(u, true).0 == Lex(u, true).0;
  }

  lemma LexClosed(b: string)
    ensures Lex(Escape(b) + (['"'] + ""), true) == (b, "")
  {
    LexEscaped(b, "");
    LexStop("");
    assert b + "" == b;
  }

  predicate Plain(s: string) {
    forall i :: 0 <= i < |s| ==> s[i] != '"' && s[i] != '\\' && !White(s[i])
  }

  lemma {:induction false} LexPlain(a: string, rest: string)
    requires Plain(a)
    ensures Lex(a + rest, false) == (a + Lex(rest, false).0, Lex(rest, false).1)
  {
    if a == "" {
      assert a + rest == rest && a + Lex(rest, false).0 == Lex(rest, false).0;
    } else {
      LexPlain(a[1..], rest);
      LexPlainStep(a[0], a[1..] + rest);
      FirstOf(a, rest);
      FirstOf(a, Lex(rest, false).0);
    }
  }

  lemma FirstOf(a: string, b: string)
    requires a != ""
    ensures a + b == [a[0]] + (a[1..] + b)
  {
  }

  lemma LexPlainStep(c: char, u: string)
    requires c != '"' && c != '\\' && !White(c)
    ensures Lex([c] + u, false) == ([c] + Lex(u, false).0, Lex(u, false).1)
  {
    TurnAfter(0, c, u, false);
    assert Rep(0) + ([c] + u) == [c] + u && Rep(0) + [c] == [c];
    LexMore([c] + u, false, [c], u, false);
  }

  lemma LexWord(c: string)
    requires Plain(c)
    ensures Lex(c, false) == (c, "")
  {
    LexPlain(c, "");
    LexStop("");
    assert c + "" == c;
  }

  /** Quotes in the middle of an argument neither end nor begin one: a"b"c is one argument. */
  lemma QuoteInside(a: string, b: string, c: string)
    requires Plain(a) && Plain(c)
    ensures Split(a + Quote(b) + c) == [a + b + c]
  {
    var s := a + Quote(b) + c;
    Concat(a, Quote(b), c);
    assert s[0] == if a == "" then '"' else a[0];
    LexPlain(a, Quote(b) + c);
    LexQuoted(b, c);
    LexWord(c);
    Concat(a, b, c);
    SplitArg(s, a + b + c, "");
  }

  /** A quote that is not closed takes the rest of the line. */
  lemma {:induction false} OpenQuote(a: string)
    requires '"' !in a
    ensures Split("\"" + a) == [a]
  {
    LexOpen(a);
    LexToEnd(a);
    SplitArg("\"" + a, a, "");
  }

  lemma {:induction false} LexToEnd(a: string)
    requires '"' !in a
    ensures Lex(a, true) == (a, "")
    decreases |a|
  {
    var n := Slashes(a);
    SlashesAre(a);
    SplitAt(a, n);
    if n < |a| {
      LexToEnd(a[n..][1..]);
      assert a == Rep(n) + [a[n]] + a[n..][1..];
    }
  }

  lemma Tail(s: string, p: nat)
    requires p < |s|
    ensures s[p..] != "" && s[p..][0] == s[p] && s[p..][1..] == s[p + 1..]
  {
  }

  lemma SkipStep(s: string, p: nat)
    requires p < |s| && IsSpace(s[p])
    ensures Skip(s[p..]) == Skip(s[p + 1..])
  {
    Tail(s, p);
  }

  lemma SkipDone(s: string, p: nat)
    requires p <= |s| && (p < |s| ==> !IsSpace(s[p]))
    ensures Skip(s[p..]) == s[p..]
  {
  }

  lemma SplitSpace(s: string)
    ensures Split(" " + s) == Split(s)
  {
    assert (" " + s)[1..] == s;
  }

  // ---------------------------------------------------------------- the sizing pass

  /** Runs of white space. */
  function Spans(s: string): nat
    decreases |s|
  {
    if s == "" then 0
    else if IsSpace(s[0]) then 1 + Spans(Skip(s))
    else Spans(s[1..])
  }

  /** t is what is left of s after some of its characters. */
  ghost predicate Suffix(t: string, s: string) {
    |t| <= |s| && t == s[|s| - |t|..]
  }

  lemma SuffixStep(t: string, s: string, i: nat)
    requires i <= |s| && Suffix(t, s[i..])
    ensures Suffix(t, s)
  {
    assert s[i..][|s[i..]| - |t|..] == s[|s| - |t|..];
  }

  lemma {:induction false} SkipSuffix(s: string)
    ensures Suffix(Skip(s), s)
  {
    if s != "" && IsSpace(s[0]) {
      SkipSuffix(s[1..]);
      SuffixStep(Skip(s), s, 1);
    }
  }

  lemma TurnSuffix(s: string, inquote: bool)
    ensures Suffix(Turn(s, inquote).rest, s)
  {
    var n := Slashes(s);
    var t := s[n..];
    SuffixAt(s, n, 0);
    if t != "" {
      SuffixAt(s, n, 1);
      if |t| > 1 { SuffixAt(s, n, 2); }
      TurnWith(s, n, t, inquote);
    } else {
      SuffixAt(s, |s|, 0);
    }
  }

  lemma SuffixAt(s: string, n: nat, k: nat)
    requires n + k <= |s|
    ensures Suffix(s[n..][k..], s)
  {
    assert s[n..][k..] == s[n + k..];
  }

  lemma {:induction false} LexSuffix(s: string, inquote: bool)
    ensures Suffix(Lex(s, inquote).1, s)
    decreases |s|
  {
    TurnSuffix(s, inquote);
    var r := Turn(s, inquote);
    if r.More? {
      LexSuffix(r.rest, r.inquote);
      SuffixStep(Lex(s, inquote).1, s, |s| - |r.rest|);
    }
  }

  lemma SpansStep(s: string, p: nat)
    requires p < |s|
    ensures Spans(s[p..]) == if IsSpace(s[p]) then 1 + Spans(Skip(s[p..])) else Spans(s[p + 1..])
  {
    Tail(s, p);
  }

  lemma {:induction false} SpansOfSuffix(s: string, i: nat)
    requires i <= |s|
    ensures Spans(s[i..]) <= Spans(s)
    decreases |s|
  {
    if i == 0 {
      assert s[0..] == s;
    } else if IsSpace(s[0]) {
      var t := Skip(s);
      SkipSuffix(s);
      if i < |s| - |t| { SkipInside(s, i); }
      else { assert s[i..] == t[i - (|s| - |t|)..]; SpansOfSuffix(t, i - (|s| - |t|)); }
    } else {
      assert s[i..] == s[1..][i - 1..];
      SpansOfSuffix(s[1..], i - 1);
    }
  }

  lemma {:induction false} SkipInside(s: string, i: nat)
    requires i < |s| - |Skip(s)|
    ensures IsSpace(s[i]) && Skip(s[i..]) == Skip(s)
  {
    if i == 0 { assert s[0..] == s; } else { assert s[i..] == s[1..][i - 1..]; SkipInside(s[1..], i - 1); }
  }

  /** There is at most one argument more than there are runs of white space. */
  lemma {:induction false} ArgsVersusSpans(s: string)
    ensures |Split(s)| <= Spans(s) + if s != "" && !IsSpace(s[0]) then 1 else 0
    decreases |s|
  {
    var t := Skip(s);
    if t != "" {
      var r := Lex(t, false).1;
      ArgsVersusSpans(r);
      LexSuffix(t, false);
      SpansOfSuffix(t, |t| - |r|);
    }
  }

  /** The size of argv: one slot for each argument there may be, and one for the final NULL. */
  method CountSlots(cmdLine: string) returns (size: nat)
    ensures size == Spans(cmdLine) + 2
    ensures |Split(cmdLine)| < size
  {
    size := 2;
    var p := 0;
    assert cmdLine[0..] == cmdLine;
    while p < |cmdLine|
      invariant p <= |cmdLine| && size + Spans(cmdLine[p..]) == Spans(cmdLine) + 2
    {
      SpansStep(cmdLine, p);
      if IsSpace(cmdLine[p]) {
        size := size + 1;
        p := PassSpaces(cmdLine, p);
        if p == |cmdLine| { break; }
        SpansStep(cmdLine, p);
      }
      p := p + 1;
    }
    ArgsVersusSpans(cmdLine);
  }

  /** Past white space. */
  method PassSpaces(cmdLine: string, start: nat) returns (p: nat)
    requires start <= |cmdLine|
    ensures start <= p <= |cmdLine| && cmdLine[p..] == Skip(cmdLine[start..])
    ensures p < |cmdLine| ==> !IsSpace(cmdLine[p])
    ensures start < |cmdLine| && IsSpace(cmdLine[start]) ==> start < p
  {
    p := start;
    while p < |cmdLine| && IsSpace(cmdLine[p])
      invariant start <= p <= |cmdLine| && Skip(cmdLine[p..]) == Skip(cmdLine[start..])
      invariant start < |cmdLine| && IsSpace(cmdLine[start]) && p == start ==> p < |cmdLine|
    {
      SkipStep(cmdLine, p);
      p := p + 1;
    }
    SkipDone(cmdLine, p);
  }

  // ---------------------------------------------------------------- the splitter

  /** The C string at an offset of the buffer. */
  ghost predicate StringAt(buf: seq<char>, at: int, s: string) {
    0 <= at && at + |s| < |buf| && buf[at..at + |s|] == s && buf[at + |s|] == '\0'
  }

  const NULL := -1

  /** Past backslashes, counting them. */
  method PassSlashes(cmdLine: string, start: nat) returns (slashes: nat, p: nat)
    requires start <= |cmdLine|
    ensures slashes == Slashes(cmdLine[start..]) && p == start + slashes <= |cmdLine|
    ensures p < |cmdLine| ==> cmdLine[p] != '\\'
  {
    slashes, p := 0, start;
    while p < |cmdLine| && cmdLine[p] == '\\'
      invariant start <= p == start + slashes <= |cmdLine|
      invariant slashes + Slashes(cmdLine[p..]) == Slashes(cmdLine[start..])
    {
      Tail(cmdLine, p);
      slashes, p := slashes + 1, p + 1;
    }
    SlashesDone(cmdLine, p);
  }

  lemma SlashesDone(s: string, p: nat)
    requires p <= |s| && (p < |s| ==> s[p] != '\\')
    ensures Slashes(s[p..]) == 0
  {
  }

  /** So many backslashes at arg. */
  method WriteSlashes(buf: array<char>, arg: nat, slashes: nat)
    requires arg + slashes <= buf.Length
    modifies buf
    ensures buf[..arg + slashes] == old(buf[..arg]) + Rep(slashes)
  {
    for i := 0 to slashes
      invariant buf[..arg] == old(buf[..arg])
      invariant forall j :: arg <= j < arg + i ==> buf[j] == '\\'
    {
      buf[arg + i] := '\\';
    }
  }

  /** What a turn whose reading half ended at p leaves: it stops before white space or at the end,
      and otherwise takes the character at p, copied or not. */
  function Reached(s: string, p: nat, inquote: bool, copy: bool, slashes: nat): Piece
    requires p <= |s|
  {
    if p == |s| || (!inquote && IsSpace(s[p])) then Stop(Rep(slashes), s[p..])
    else More(if copy then Rep(slashes) + [s[p]] else Rep(slashes), s[p + 1..], inquote)
  }

  /** The quote at q behind n backslashes: literal, one of a doubled pair, or the end of the quoting. */
  function AtQuote(s: string, q: nat, n: nat, inquote: bool): Piece
    requires q < |s|
  {
    if n % 2 == 1 then Reached(s, q, inquote, true, n / 2)
    else if inquote && q + 1 < |s| && s[q + 1] == '"' then Reached(s, q + 1, inquote, true, n / 2)
    else Reached(s, q, !inquote, false, n / 2)
  }

  function AtChar(s: string, q: nat, n: nat, inquote: bool): Piece
    requires q <= |s|
  {
    if q == |s| || s[q] != '"' then Reached(s, q, inquote, true, n) else AtQuote(s, q, n, inquote)
  }

  /** What a turn does, from the position after its backslashes. */
  lemma TurnAt(s: string, p: nat, n: nat, inquote: bool)
    requires p + n <= |s| && n == Slashes(s[p..])
    ensures Turn(s[p..], inquote) == AtChar(s, p + n, n, inquote)
  {
    assert s[p..][n..] == s[p + n..];
    if p + n < |s| {
      Tail(s, p + n);
      assert p + n + 1 < |s| ==> s[p + n..][2..] == s[p + n + 2..];
    }
  }

  /** The writing half of a turn, at arg0. */
  method WriteTurn(cmdLine: string, q: nat, inquote: bool, copy: bool, slashes: nat, buf: array<char>, arg0: nat)
      returns (stop: bool, p: nat, arg: nat, ghost out: string)
    requires arg0 + slashes <= q <= |cmdLine| && buf.Length == |cmdLine| + 1
    modifies buf
    ensures q <= p <= |cmdLine| && arg0 <= arg <= p && (!stop ==> q < p)
    ensures buf[..arg] == old(buf[..arg0]) + out
    ensures Reached(cmdLine, q, inquote, copy, slashes) ==
            if stop then Stop(out, cmdLine[p..]) else More(out, cmdLine[p..], inquote)
  {
    WriteSlashes(buf, arg0, slashes);
    p, arg, out := q, arg0 + slashes, Rep(slashes);
    stop := p == |cmdLine| || (!inquote && IsSpace(cmdLine[p]));
    if !stop {
      if copy {
        buf[arg] := cmdLine[p];
        arg, out := arg + 1, out + [cmdLine[p]];
      }
      p := p + 1;
    }
  }

  /** The reading half of a turn: past the backslashes, what the quote after them does. */
  method ScanTurn(cmdLine: string, start: nat, inquote0: bool) returns (p: nat, inquote: bool, copy: bool, slashes: nat)
    requires start <= |cmdLine|
    ensures start + slashes <= p <= |cmdLine|
    ensures var n := Slashes(cmdLine[start..]);
            AtChar(cmdLine, start + n, n, inquote0) == Reached(cmdLine, p, inquote, copy, slashes)
  {
    copy, inquote := true, inquote0;
    slashes, p := PassSlashes(cmdLine, start);
    if p < |cmdLine| && cmdLine[p] == '"' {
      p, inquote, copy, slashes := ScanQuote(cmdLine, p, slashes, inquote0);
    }
  }

  /** A quote behind so many backslashes. */
  method ScanQuote(cmdLine: string, q: nat, n: nat, inquote0: bool)
    returns (p: nat, inquote: bool, copy: bool, slashes: nat)
    requires q < |cmdLine| && cmdLine[q] == '"'
    ensures q <= p < |cmdLine| && slashes == n / 2
    ensures Reached(cmdLine, p, inquote, copy, slashes) == AtQuote(cmdLine, q, n, inquote0)
  {
    p, copy, inquote := q, true, inquote0;
    if n % 2 == 0 {
      copy := false;
      if inquote && p + 1 < |cmdLine| && cmdLine[p + 1] == '"' {
        p, copy := p + 1, true;
      } else {
        inquote := !inquote;
      }
    }
    slashes := n / 2;
  }

  /** The inner loop: one argument, its characters and its terminator. */
  method ReadArg(cmdLine: string, start: nat, buf: array<char>, free: nat) returns (p: nat, arg: nat)
    requires start < |cmdLine| && !IsSpace(cmdLine[start]) && free <= start && buf.Length == |cmdLine| + 1
    modifies buf
    ensures start < p <= |cmdLine| && free <= arg <= p && cmdLine[p..] == Lex(cmdLine[start..], false).1
    ensures buf[..arg + 1] == old(buf[..free]) + Lex(cmdLine[start..], false).0 + ['\0']
  {
    var inquote, stop := false, false;
    p, arg := start, free;
    ghost var was, whole, done := buf[..free], Lex(cmdLine[start..], false), "";
    assert "" + whole.0 == whole.0;
    while !stop
      invariant start <= p <= |cmdLine| && free <= arg <= p && buf[..arg] == was + done
      invariant if stop then whole == (done, cmdLine[p..])
                else whole == (done + Lex(cmdLine[p..], inquote).0, Lex(cmdLine[p..], inquote).1)
      decreases !stop, |cmdLine| - p
    {
      LexAdvance(whole, done, cmdLine[p..], inquote);
      ghost var out;
      stop, p, inquote, arg, out := TakeTurn(cmdLine, p, inquote, buf, arg);
      Associates(was, done, out);
      done := done + out;
    }
    assert |whole.1| < |cmdLine[start..]|;
    buf[arg] := '\0';
  }

  /** Both halves of a turn. */
  method TakeTurn(cmdLine: string, start: nat, inquote0: bool, buf: array<char>, arg0: nat)
      returns (stop: bool, p: nat, inquote: bool, arg: nat, ghost out: string)
    requires arg0 <= start <= |cmdLine| && buf.Length == |cmdLine| + 1
    modifies buf
    ensures start <= p <= |cmdLine| && arg0 <= arg <= p && (!stop ==> start < p)
    ensures buf[..arg] == old(buf[..arg0]) + out
    ensures Turn(cmdLine[start..], inquote0) ==
            if stop then Stop(out, cmdLine[p..]) else More(out, cmdLine[p..], inquote)
  {
    var q, copy, slashes;
    TurnAt(cmdLine, start, Slashes(cmdLine[start..]), inquote0);
    q, inquote, copy, slashes := ScanTurn(cmdLine, start, inquote0);
    stop, p, arg, out := WriteTurn(cmdLine, q, inquote, copy, slashes, buf, arg0);
  }

  /** Having written out, the rest of the argument is still to be read from s. */
  lemma LexAdvance(whole: (string, string), out: string, s: string, inquote: bool)
    requires whole == (out + Lex(s, inquote).0, Lex(s, inquote).1)
    ensures whole ==
            match Turn(s, inquote)
            case Stop(w, rest) => (out + w, rest)
            case More(w, rest, q) => ((out + w) + Lex(rest, q).0, Lex(rest, q).1)
  {
    match Turn(s, inquote)
    case Stop(w, rest) =>
    case More(w, rest, q) =>
      LexMore(s, inquote, w, rest, q);
      Associates(out, w, Lex(rest, q).0);
  }

  lemma Associates<T>(a: seq<T>, b: seq<T>, c: seq<T>)
    ensures a + (b + c) == (a + b) + c
  {
  }

  lemma FirstAt(s: string, p: nat)
    requires p <= |s|
    ensures s[p..] == "" <==> p == |s|
    ensures p < |s| ==> s[p..][0] == s[p]
  {
  }

  lemma SplitAtArg(s: string, p: nat, q: nat)
    requires p <= |s| && q <= |s| && s[q..] == Skip(s[p..])
    ensures Split(s[p..]) == if q == |s| then [] else [Lex(s[q..], false).0] + Split(Lex(s[q..], false).1)
  {
  }

  /** One round of the outer loop: pass white space, then read an argument if there is one. */
  method NextArg(cmdLine: string, start: nat, buf: array<char>, free: nat)
    returns (got: bool, p: nat, arg: nat, ghost s: string)
    requires start <= |cmdLine| && free <= start + 1 && buf.Length == |cmdLine| + 1
    requires free == 0 || start == |cmdLine| || IsSpace(cmdLine[start])
    modifies buf
    ensures p <= |cmdLine| && (!got ==> buf[..free] == old(buf[..free]))
    ensures !got ==> Split(cmdLine[start..]) == []
    ensures got ==> free <= arg <= p && buf[..arg + 1] == old(buf[..free]) + s + ['\0']
    ensures got && p < |cmdLine| ==> IsSpace(cmdLine[p])
    ensures got ==> Split(cmdLine[start..]) == [s] + Split(cmdLine[p..])
  {
    var q := PassSpaces(cmdLine, start);
    SplitAtArg(cmdLine, start, q);
    got := q < |cmdLine|;
    p, arg, s := q, free, "";
    if got {
      s := Lex(cmdLine[q..], false).0;
      p, arg := ReadArg(cmdLine, q, buf, free);
      FirstAt(cmdLine, p);
    }
  }

  /** The arguments read so far, up to p: where they are, and that buf is used no further than the
      command line has been read. */
  ghost predicate Filled(cmdLine: string, p: nat, done: seq<string>, buf: seq<char>, at: seq<int>) {
    && p <= |cmdLine| && |buf| <= p + 1 && |buf| <= |cmdLine| + 1
    && (buf == [] || p == |cmdLine| || IsSpace(cmdLine[p]))
    && Split(cmdLine) == done + Split(cmdLine[p..])
    && StringsAt(buf, at, done)
  }

  lemma FilledStep(cmdLine: string, p: nat, q: nat, done: seq<string>, buf: seq<char>, at: seq<int>, arg: string,
                   buf1: seq<char>, at1: seq<int>)
    requires Filled(cmdLine, p, done, buf, at) && q <= |cmdLine| && |buf| + |arg| <= q
    requires q < |cmdLine| ==> IsSpace(cmdLine[q])
    requires Split(cmdLine[p..]) == [arg] + Split(cmdLine[q..])
    requires buf1 == buf + arg + ['\0'] && at1 == at + [|buf|]
    ensures Filled(cmdLine, q, done + [arg], buf1, at1)
  {
    Associates(done, [arg], Split(cmdLine[q..]));
    StringsGrow(buf, buf1, at, done, |buf|, arg);
  }

  lemma FilledEnd(cmdLine: string, p: nat, done: seq<string>, buf: seq<char>, at: seq<int>)
    requires Filled(cmdLine, p, done, buf, at)
    requires Split(cmdLine[p..]) == [] || |Split(cmdLine)| <= |done|
    ensures Split(cmdLine) == done
  {
    assert done + [] == done;
  }

  /** One round of the outer loop: the slot, and the argument if there is one. */
  method StoreArg(cmdLine: string, start: nat, argv: array<int>, argc: nat, argSpace: array<char>, free0: nat,
                  ghost done0: seq<string>)
      returns (got: bool, p: nat, free: nat, ghost done: seq<string>)
    requires argSpace.Length == |cmdLine| + 1 && argc < argv.Length && free0 <= argSpace.Length
    requires Filled(cmdLine, start, done0, argSpace[..free0], argv[..argc])
    modifies argv, argSpace
    ensures free <= argSpace.Length
    ensures !got ==> done == done0 == Split(cmdLine) && StringsAt(argSpace[..free], argv[..argc], done)
    ensures got ==> |done| == |done0| + 1 && Filled(cmdLine, p, done, argSpace[..free], argv[..argc + 1])
  {
    ghost var was, at := argSpace[..free0], argv[..argc];
    argv[argc] := free0;
    assert argv[..argc + 1] == at + [|was|];
    assert argv[..argc] == at;
    var arg;
    ghost var s;
    got, p, arg, s := NextArg(cmdLine, start, argSpace, free0);
    if got {
      free, done := arg + 1, done0 + [s];
      FilledStep(cmdLine, start, p, done0, was, at, s, argSpace[..free], argv[..argc + 1]);
    } else {
      free, done := free0, done0;
      FilledEnd(cmdLine, start, done, was, at);
    }
  }

  /** The outer loop. */
  method FillArgs(cmdLine: string, argv: array<int>, argSpace: array<char>) returns (argc: nat, ghost used: nat)
    requires argSpace.Length == |cmdLine| + 1 && argv.Length > |Split(cmdLine)|
    modifies argv, argSpace
    ensures argc == |Split(cmdLine)| && used <= argSpace.Length
    ensures StringsAt(argSpace[..used], argv[..argc], Split(cmdLine))
  {
    var size := argv.Length - 1;
    var p: nat, free: nat := 0, 0;
    argc := 0;
    ghost var done: seq<string> := [];
    assert cmdLine[0..] == cmdLine;
    while argc < size
      invariant argc == |done| <= size && free <= argSpace.Length
      invariant Filled(cmdLine, p, done, argSpace[..free], argv[..argc])
    {
      var got;
      got, p, free, done := StoreArg(cmdLine, p, argv, argc, argSpace, free, done);
      if !got {
        return argc, free;
      }
      argc := argc + 1;
    }
    FilledEnd(cmdLine, p, done, argSpace[..free], argv[..argc]);
    used := free;
  }

  /** TclX_SplitWinCmdLine. argv holds offsets into the argument space; every write stays inside
      the strlen + 1 bytes and the slots that were counted beforehand. */
  method SplitWinCmdLine(cmdLine: string) returns (argc: nat, argv: array<int>, argSpace: array<char>)
    requires '\0' !in cmdLine
    ensures argSpace.Length == |cmdLine| + 1 && argv.Length == Spans(cmdLine) + 2
    ensures argc == |Split(cmdLine)| < argv.Length && argv[argc] == NULL
    ensures StringsAt(argSpace[..], argv[..argc], Split(cmdLine))
  {
    var size := CountSlots(cmdLine);
    argSpace := new char[|cmdLine| + 1];
    argv := new int[size];
    ghost var used;
    argc, used := FillArgs(cmdLine, argv, argSpace);
    StringsKept(argSpace[..used], argSpace[..], argv[..argc], Split(cmdLine));
    argv[argc] := NULL;
  }

  /** A command line made by quoting and joining the arguments is split into exactly those
      arguments, as C strings in the argument space. */
  method SplitJoined(args: seq<string>) returns (argc: nat, argv: array<int>, argSpace: array<char>)
    requires forall i :: 0 <= i < |args| ==> '\0' !in args[i]
    ensures argc == |args| < argv.Length && argv[argc] == NULL
    ensures StringsAt(argSpace[..], argv[..argc], args)
  {
    JoinNoNul(args);
    SplitJoin(args);
    argc, argv, argSpace := SplitWinCmdLine(Join(args));
  }

  lemma {:induction false} EscapeNoNul(a: string)
    requires '\0' !in a
    ensures '\0' !in Escape(a)
    decreases |a|
  {
    var n := Slashes(a);
    var t := a[n..];
    if t != "" {
      EscapeUnfolds(a, n, t);
      EscapeNoNul(t[1..]);
    }
  }

  lemma {:induction false} JoinNoNul(args: seq<string>)
    requires forall i :: 0 <= i < |args| ==> '\0' !in args[i]
    ensures '\0' !in Join(args)
  {
    if args != [] {
      EscapeNoNul(args[0]);
      JoinNoNul(args[1..]);
    }
  }

  ghost predicate StringsAt(buf: seq<char>, at: seq<int>, strings: seq<string>) {
    |at| == |strings| && forall i :: 0 <= i < |at| ==> StringAt(buf, at[i], strings[i])
  }

  lemma StringsGrow(buf0: seq<char>, buf1: seq<char>, at: seq<int>, strings: seq<string>, free: nat, s: string)
    requires StringsAt(buf0, at, strings) && buf0 <= buf1 && free == |buf0| && |buf1| == free + |s| + 1
    requires buf1[free..free + |s|] == s && buf1[free + |s|] == '\0'
    ensures StringsAt(buf1, at + [free], strings + [s])
  {
    StringsKept(buf0, buf1, at, strings);
  }

  lemma StringsKept(buf0: seq<char>, buf1: seq<char>, at: seq<int>, strings: seq<string>)
    requires buf0 <= buf1 && StringsAt(buf0, at, strings)
    ensures StringsAt(buf1, at, strings)
  {
  }
}
