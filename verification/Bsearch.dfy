/**
  bsearch: binary search over the byte offsets of a file of variable-length lines.
  A probe at offset m > 0 skips the rest of the line that holds m and looks at the next line; a
  probe at 0 looks at the first line.
*/
module Bsearch {
  import opened Common

  // ---------------------------------------------------------------- lines of a file

  /** The newline that ends the line at p, or the end of the file. */
  function LineEnd(f: string, p: nat): (e: nat)
    requires p <= |f|
    ensures p <= e <= |f| && (e < |f| ==> f[e] == '\n')
    ensures forall i :: p <= i < e ==> f[i] != '\n'
    decreases |f| - p
  {
    if p == |f| || f[p] == '\n' then p else LineEnd(f, p + 1)
  }

  /** Where the channel stands after Tcl_Gets read the line at p. */
  function After(f: string, p: nat): (q: nat)
    requires p < |f|
    ensures p < q <= |f|
  {
    if LineEnd(f, p) < |f| then LineEnd(f, p) + 1 else |f|
  }

  function LineAt(f: string, p: nat): string
    requires p < |f|
  {
    f[p..LineEnd(f, p)]
  }

  predicate IsLineStart(f: string, s: nat) {
    s < |f| && (s == 0 || f[s - 1] == '\n')
  }

  /** The offset of the line that a probe at m looks at; |f| is the end of the file. */
  function NextLine(f: string, m: nat): nat
    requires m == 0 || m < |f|
  {
    if m == 0 then 0 else After(f, m)
  }

  /** A comparator: negative, zero or positive, or an error of the user's procedure. */
  type Comparator = string -> Option<int>

  function CompareAt(f: string, cmp: Comparator, s: nat): Option<int> {
    if s >= |f| then Some(-1) else cmp(LineAt(f, s))
  }

  lemma ProbesSeeLines(f: string, m: nat)
    requires m == 0 || m < |f|
    ensures NextLine(f, m) < |f| ==> IsLineStart(f, NextLine(f, m)) && NextLine(f, m) != 1
  {
  }

  lemma ProbesInOrder(f: string, m: nat, n: nat)
    requires m <= n && (n == 0 || n < |f|)
    ensures NextLine(f, m) <= NextLine(f, n)
  {
    if 0 < m {
      var e := LineEnd(f, m);
      if e < n { assert f[e] == '\n'; }
      else { assert forall i :: n <= i < e ==> f[i] != '\n'; }
    }
  }

  /** Every line start but offset 1 is seen by some probe; offset 1 (the line after an empty first
      line) is seen by none. */
  lemma ProbeFor(f: string, s: nat) returns (m: nat)
    requires IsLineStart(f, s) && s != 1
    ensures m < |f| && NextLine(f, m) == s
  {
    m := if s == 0 then 0 else s - 1;
  }

  /** The signs along the file fall from positive through zero to negative. */
  ghost predicate Sorted(f: string, cmp: Comparator) {
    forall s, t :: IsLineStart(f, s) && IsLineStart(f, t) && s < t ==>
      cmp(LineAt(f, s)).Some? && cmp(LineAt(f, t)).Some? &&
      (cmp(LineAt(f, s)).value <= 0 ==> cmp(LineAt(f, t)).value <= 0) &&
      (cmp(LineAt(f, s)).value < 0 ==> cmp(LineAt(f, t)).value < 0)
  }

  /** A line, at an offset a probe can see, that compares equal. */
  ghost predicate Match(f: string, cmp: Comparator, s: nat) {
    IsLineStart(f, s) && s != 1 && cmp(LineAt(f, s)) == Some(0)
  }

  ghost predicate HasMatch(f: string, cmp: Comparator) {
    exists s :: Match(f, cmp, s)
  }

  /** A probe at w sees a match. */
  ghost predicate Shows(f: string, cmp: Comparator, w: nat) {
    w < |f| && Match(f, cmp, NextLine(f, w))
  }

  // ---------------------------------------------------------------- the number of probes

  function Log2(n: nat): nat {
    if n <= 1 then 0 else 1 + Log2(n / 2)
  }

  lemma {:induction false} Log2Mono(m: nat, n: nat)
    requires m <= n
    ensures Log2(m) <= Log2(n)
  {
    if m > 1 { Log2Mono(m / 2, n / 2); }
  }

  /** Probes still needed for a window of width d. */
  function ProbesLeft(d: nat): nat {
    if d == 0 then 1 else Log2(d) + 2
  }

  function Pow2(k: nat): nat {
    if k == 0 then 1 else 2 * Pow2(k - 1)
  }

  lemma {:induction false} Log2Below(n: nat, k: nat)
    requires 0 < n < Pow2(k)
    ensures Log2(n) < k
  {
    if n > 1 { Log2Below(n / 2, k - 1); }
  }

  /** A file of less than 2^k bytes needs at most k + 1 probes. */
  lemma ProbesBelow(d: nat, k: nat)
    requires d < Pow2(k)
    ensures ProbesLeft(d) <= k + 1
  {
    if d > 0 { Log2Below(d, k); }
  }

  /** Either way of closing the window leaves one probe fewer to make. */
  lemma CloseWindow(low: nat, high: nat)
    requires low < high
    ensures var middle := (high + low + 1) / 2;
            low < middle <= high && 1 + ProbesLeft(high - middle) <= ProbesLeft(high - low) &&
            1 + ProbesLeft(middle - 1 - low) <= ProbesLeft(high - low)
  {
    var d, middle := high - low, (high + low + 1) / 2;
    assert Log2(d) == if d <= 1 then 0 else 1 + Log2(d / 2);
    Log2Mono(high - middle, d / 2);
    Log2Mono(middle - 1 - low, d / 2);
  }

  // ---------------------------------------------------------------- the search

  datatype Result = Found | NotFound | Failed

  class BinSearchCB {
    const file: string
    const cmp: Comparator
    var pos: nat
    var lineBuf: string
    var lastRecOffset: int
    var cmpResult: int

    constructor (file: string, cmp: Comparator)
      ensures this.file == file && this.cmp == cmp && lineBuf == "" && lastRecOffset == -1
    {
      this.file, this.cmp, pos := file, cmp, 0;
      lineBuf, lastRecOffset, cmpResult := "", -1, 0;
    }

    /** Tcl_Gets: append the next line to lineBuf, unless at the end of the file. */
    method Gets() returns (ok: bool)
      requires pos <= |file|
      modifies this`pos, this`lineBuf
      ensures ok <==> old(pos) < |file|
      ensures ok ==> lineBuf == old(lineBuf) + LineAt(file, old(pos)) && pos == After(file, old(pos))
      ensures !ok ==> lineBuf == old(lineBuf) && pos == old(pos)
    {
      ok := pos < |file|;
      if ok {
        lineBuf, pos := lineBuf + LineAt(file, pos), After(file, pos);
      }
    }

    /** What is remembered about the last line read: its comparison, which was not a match. */
    ghost predicate Remembers()
      reads this
    {
      lastRecOffset >= 0 ==> CompareAt(file, cmp, lastRecOffset) == Some(cmpResult) && cmpResult != 0
    }

    /** ReadAndCompare: the unexpected end of file comes exactly from probing the end itself. */
    method ReadAndCompare(fileOffset: nat) returns (ok: bool)
      requires fileOffset <= |file| && Remembers()
      modifies this
      ensures ok <==> (fileOffset == 0 || fileOffset < |file|) &&
                      CompareAt(file, cmp, NextLine(file, fileOffset)).Some?
      ensures ok ==> CompareAt(file, cmp, NextLine(file, fileOffset)) == Some(cmpResult) &&
                     lastRecOffset == NextLine(file, fileOffset)
      ensures ok && cmpResult == 0 ==> lastRecOffset < |file| && lineBuf == LineAt(file, lastRecOffset)
    {
      pos := fileOffset;
      if fileOffset != 0 {
        var got := Gets();
        if !got { return false; }
      }
      if pos == lastRecOffset { return true; }
      lastRecOffset := pos;
      lineBuf := "";
      var got := Gets();
      if !got {
        cmpResult := -1;
        return true;
      }
      assert lineBuf == LineAt(file, lastRecOffset);
      var c := cmp(lineBuf);
      if c.None? { return false; }
      cmpResult := c.value;
      return true;
    }

    /** BinSearch. On any file and with any comparator: every probe is inside the file, the end is
        probed only in a file of size 1 or 0, and the number of probes is logarithmic; a found line
        is one complete line that compares equal. On a sorted file: found exactly when there is a
        matching line that does not start at offset 1. */
    method BinSearch() returns (r: Result, ghost probes: seq<nat>)
      requires lineBuf == "" && lastRecOffset == -1
      modifies this
      ensures |file| == 1 ==> r == Failed
      ensures r == Failed ==> |file| == 1 || exists s :: IsLineStart(file, s) && cmp(LineAt(file, s)).None?
      ensures r == Found ==> exists s :: Match(file, cmp, s) && lineBuf == LineAt(file, s)
      ensures |probes| <= ProbesLeft(|file|) && forall m <- probes :: InFile(file, m)
      ensures r == Found ==> HasMatch(file, cmp)
      ensures Sorted(file, cmp) && HasMatch(file, cmp) ==> r != NotFound
    {
      var low, high := 0, |file|;
      ghost var target := Sorted(file, cmp) && HasMatch(file, cmp);
      ghost var w := if target then Witness(file, cmp) else 0;
      probes := [];
      while true
        invariant 0 <= low <= high <= |file| && (low == 0 || low + 2 <= |file|)
        invariant |file| == 1 ==> low == 0 && high == 1
        invariant Remembers()
        invariant |probes| + ProbesLeft(high - low) <= ProbesLeft(|file|) && forall m <- probes :: InFile(file, m)
        invariant target ==> low <= w <= high && Shows(file, cmp, w)
        decreases high - low
      {
        var middle := (high + low + 1) / 2;
        assert InFile(file, middle);
        probes := probes + [middle];
        assert low >= middle ==> low == middle == high;
        var ok := ReadAndCompare(middle);
        if !ok { return Failed, probes; }
        ProbesSeeLines(file, middle);
        if cmpResult == 0 { return Found, probes; }
        if low >= middle { return NotFound, probes; }
        if target { SortedProbes(file, cmp, middle, w); }
        ghost var low0, high0 := low, high;
        if cmpResult > 0 {
          low := middle;
        } else {
          high := middle - 1;
        }
        Narrowed(low0, high0, low, high);
      }
    }
  }

  /** The end of the file is only probed when it cannot be helped. */
  predicate InFile(f: string, m: nat) {
    if |f| <= 1 then m <= |f| else m < |f|
  }

  /** A probe that sees a match. */
  ghost function Witness(f: string, cmp: Comparator): (w: nat)
    requires HasMatch(f, cmp)
    ensures w <= |f| && Shows(f, cmp, w)
  {
    var s :| Match(f, cmp, s);
    ProbeExists(f, s);
    var w: nat :| w < |f| && NextLine(f, w) == s;
    w
  }

  lemma ProbeExists(f: string, s: nat)
    requires IsLineStart(f, s) && s != 1
    ensures exists m: nat :: m < |f| && NextLine(f, m) == s
  {
    var m := ProbeFor(f, s);
  }

  lemma Narrowed(low0: nat, high0: nat, low: nat, high: int)
    requires var middle := (high0 + low0 + 1) / 2;
             low0 < middle && ((low == middle && high == high0) || (low == low0 && high == middle - 1))
    ensures low0 <= low <= high <= high0 && high - low < high0 - low0
    ensures 1 + ProbesLeft(high - low) <= ProbesLeft(high0 - low0)
  {
    CloseWindow(low0, high0);
  }

  /** On a sorted file a probe that misses says on which side the match lies. */
  lemma SortedProbes(f: string, cmp: Comparator, m: nat, w: nat)
    requires Sorted(f, cmp) && (m == 0 || m < |f|) && Shows(f, cmp, w)
    requires CompareAt(f, cmp, NextLine(f, m)).Some? && CompareAt(f, cmp, NextLine(f, m)).value != 0
    ensures CompareAt(f, cmp, NextLine(f, m)).value > 0 ==> m < w
    ensures CompareAt(f, cmp, NextLine(f, m)).value < 0 ==> w < m
  {
    ProbesSeeLines(f, m);
    if m <= w { ProbesInOrder(f, m, w); } else { ProbesInOrder(f, w, m); }
  }

  // ---------------------------------------------------------------- the standard comparator

  /** strcmp, as a sign. */
  function StrCmp(a: string, b: string): (c: int)
    ensures c == 0 <==> a == b
    ensures -1 <= c <= 1
  {
    if a == [] && b == [] then 0
    else if a == [] then -1
    else if b == [] then 1
    else if a[0] < b[0] then -1
    else if a[0] > b[0] then 1
    else
      assert a == [a[0]] + a[1..] && b == [b[0]] + b[1..];
      StrCmp(a[1..], b[1..])
  }

  lemma {:induction false} StrCmpTransitive(a: string, b: string, c: string)
    requires StrCmp(b, c) <= 0
    ensures StrCmp(a, b) <= 0 ==> StrCmp(a, c) <= 0
    ensures StrCmp(a, b) < 0 ==> StrCmp(a, c) < 0
  {
    if a != [] && b != [] && c != [] && a[0] == b[0] == c[0] {
      StrCmpTransitive(a[1..], b[1..], c[1..]);
    }
  }

  /** The first field of a line: up to white space or the end of the C string. */
  function Field(line: string): string {
    if line == [] || IsSpace(line[0]) || line[0] == '\0' then [] else [line[0]] + Field(line[1..])
  }

  /** StandardKeyCompare */
  function StandardKeyCompare(key: string): Comparator {
    line => Some(StrCmp(key, Field(line)))
  }

  /** The characters that end a field: white space, and the end of the C string. */
  predicate EndsField(c: char) {
    c == ' ' || c == '\t' || c == '\n' || c == '\r' || c == '\U{000B}' || c == '\U{000C}' || c == '\0'
  }

  /** A text that holds no such character, and is followed in f at u by one or by the end. */
  ghost predicate FieldAt(f: string, s: nat, u: nat) {
    s <= u <= |f| && (forall i :: s <= i < u ==> !EndsField(f[i])) && (u < |f| ==> EndsField(f[u]))
  }

  /** a comes before b, or is b: by the first character that differs, a proper prefix first. */
  ghost predicate Ordered(a: string, b: string) {
    exists n: nat :: n <= |a| && n <= |b| && Agree(a, b, n) && (n == |a| || (n < |b| && a[n] < b[n]))
  }

  ghost predicate Agree(a: string, b: string, n: nat) {
    n <= |a| && n <= |b| && forall i :: 0 <= i < n ==> a[i] == b[i]
  }

  /** strcmp goes by the first character that differs. */
  lemma {:induction false} StrCmpOrders(a: string, b: string)
    ensures StrCmp(a, b) <= 0 <==> Ordered(a, b)
    ensures StrCmp(a, b) == -StrCmp(b, a)
  {
    if a == [] || b == [] || a[0] != b[0] {
      assert Agree(a, b, 0);
    } else {
      StrCmpOrders(a[1..], b[1..]);
      OrderedRest(a, b);
    }
  }

  lemma OrderedRest(a: string, b: string)
    requires a != [] && b != [] && a[0] == b[0]
    ensures Ordered(a[1..], b[1..]) <==> Ordered(a, b)
  {
    var a', b' := a[1..], b[1..];
    if Ordered(a', b') {
      var n: nat :| n <= |a'| && n <= |b'| && Agree(a', b', n) && (n == |a'| || (n < |b'| && a'[n] < b'[n]));
      assert forall i :: 0 < i <= n ==> a[i] == a'[i - 1] && b[i] == b'[i - 1];
      assert Agree(a, b, n + 1);
    }
    if Ordered(a, b) {
      var n: nat :| n <= |a| && n <= |b| && Agree(a, b, n) && (n == |a| || (n < |b| && a[n] < b[n]));
      assert n > 0 && Agree(a', b', n - 1);
    }
  }

  /** The field of a line goes up to the first character that ends it. */
  lemma {:induction false} FieldIs(line: string)
    ensures |Field(line)| <= |line| && Field(line) == line[..|Field(line)|] && FieldAt(line, 0, |Field(line)|)
  {
    if line != [] && !EndsField(line[0]) {
      FieldIs(line[1..]);
      var n := |Field(line[1..])|;
      assert forall i :: 0 < i < |line| ==> line[i] == line[1..][i - 1];
      assert line[..1 + n] == [line[0]] + line[1..][..n];
    }
  }

  /** The field of a line in the file ends where the line does, or before. */
  lemma FieldInFile(f: string, s: nat)
    requires s < |f|
    ensures var u := s + |Field(LineAt(f, s))|; FieldAt(f, s, u) && f[s..u] == Field(LineAt(f, s))
  {
    FieldIs(LineAt(f, s));
    var line, u := LineAt(f, s), s + |Field(LineAt(f, s))|;
    assert forall i :: 0 <= i < |line| ==> line[i] == f[s + i];
    assert forall i :: s <= i < u ==> f[i] == line[i - s];
  }

  lemma FieldUnique(f: string, s: nat, u: nat, v: nat)
    requires FieldAt(f, s, u) && FieldAt(f, s, v)
    ensures u == v
  {
  }

  /** The file is sorted by the first field of its lines. */
  ghost predicate SortedByField(f: string) {
    forall s: nat, u: nat, t: nat, v: nat ::
      IsLineStart(f, s) && IsLineStart(f, t) && s < t && FieldAt(f, s, u) && FieldAt(f, t, v) ==>
        Ordered(f[s..u], f[t..v])
  }

  /** A line starts at s with the key as its first field. */
  ghost predicate BeginsWith(f: string, s: nat, key: string) {
    s < |f| && (s == 0 || f[s - 1] == '\n') && FieldAt(f, s, s + |key|) && f[s..s + |key|] == key
  }

  /** The whole line at s, without its newline. */
  ghost predicate IsLine(f: string, s: nat, line: string) {
    && s + |line| <= |f| && f[s..s + |line|] == line && '\n' !in line
    && (s + |line| < |f| ==> f[s + |line|] == '\n')
  }

  lemma BeginsIff(f: string, s: nat, key: string)
    requires IsLineStart(f, s)
    ensures BeginsWith(f, s, key) <==> StrCmp(key, Field(LineAt(f, s))) == 0
    ensures IsLine(f, s, LineAt(f, s))
  {
    FieldInFile(f, s);
    if FieldAt(f, s, s + |key|) { FieldUnique(f, s, s + |key|, s + |Field(LineAt(f, s))|); }
  }

  lemma SortedForKey(f: string, key: string)
    requires SortedByField(f)
    ensures Sorted(f, StandardKeyCompare(key))
  {
    forall s, t | IsLineStart(f, s) && IsLineStart(f, t) && s < t
      ensures var c, d := StrCmp(key, Field(LineAt(f, s))), StrCmp(key, Field(LineAt(f, t)));
              (c <= 0 ==> d <= 0) && (c < 0 ==> d < 0)
    {
      FieldInFile(f, s);
      FieldInFile(f, t);
      StrCmpOrders(Field(LineAt(f, s)), Field(LineAt(f, t)));
      StrCmpTransitive(key, Field(LineAt(f, s)), Field(LineAt(f, t)));
    }
  }

  lemma MatchIff(f: string, key: string)
    ensures forall s: nat :: Match(f, StandardKeyCompare(key), s) <==> s != 1 && BeginsWith(f, s, key)
  {
    forall s: nat ensures Match(f, StandardKeyCompare(key), s) <==> s != 1 && BeginsWith(f, s, key) {
      if IsLineStart(f, s) { BeginsIff(f, s, key); }
    }
  }

  /** bsearch with the default comparison on a file sorted by first field: an error exactly on a
      file of one byte, and otherwise found exactly when some line, not starting at offset 1,
      begins with the key, followed by white space or its end; the line found is such a line. */
  method SearchSorted(file: string, key: string) returns (r: Result, line: string)
    requires SortedByField(file)
    ensures r == Failed <==> |file| == 1
    ensures |file| != 1 ==> (r == Found <==> exists s: nat :: s != 1 && BeginsWith(file, s, key))
    ensures r == Found ==> exists s: nat :: BeginsWith(file, s, key) && IsLine(file, s, line)
  {
    var cb := new BinSearchCB(file, StandardKeyCompare(key));
    SortedForKey(file, key);
    MatchIff(file, key);
    ghost var probes;
    r, probes := cb.BinSearch();
    line := cb.lineBuf;
    if r == Found {
      ghost var s: nat :| Match(file, StandardKeyCompare(key), s) && line == LineAt(file, s);
      BeginsIff(file, s, key);
    }
    assert HasMatch(file, StandardKeyCompare(key)) <==> exists s :: Match(file, StandardKeyCompare(key), s);
  }

  /** A line that starts at offset 1 exists exactly when the first line is empty and is not the
      last, so on any other file the search finds every key that is there. */
  lemma LineAtOneIffFirstEmpty(f: string)
    ensures IsLineStart(f, 1) <==> |f| > 1 && LineAt(f, 0) == ""
  {
    if |f| > 1 {
      assert LineEnd(f, 0) == 0 <==> f[0] == '\n';
    }
  }

  /** After an empty first line any second line is in order. */
  lemma SortedAfterEmpty(f: string)
    requires |f| > 1 && f[0] == '\n' && forall i :: 1 <= i < |f| - 1 ==> f[i] != '\n'
    ensures SortedByField(f)
  {
    forall s: nat, u: nat, t: nat, v: nat |
      IsLineStart(f, s) && IsLineStart(f, t) && s < t && FieldAt(f, s, u) && FieldAt(f, t, v)
      ensures Ordered(f[s..u], f[t..v])
    {
      assert EndsField(f[0]);
      FieldUnique(f, 0, u, 0);
      assert Agree(f[s..u], f[t..v], 0);
    }
  }

  /** Such a line is missed. */
  method SecondLineMissed() returns (r: Result, line: string)
    ensures SortedByField("\nk\n") && BeginsWith("\nk\n", 1, "k") && r == NotFound
  {
    var f := "\nk\n";
    SortedAfterEmpty(f);
    assert forall s: nat :: IsLineStart(f, s) ==> s == 0 || s == 1;
    assert !BeginsWith(f, 0, "k");
    r, line := SearchSorted(f, "k");
  }

  /** The only line of a file of one byte is not found either: the search ends in an error. */
  method OneByteFails() returns (r: Result, line: string)
    ensures SortedByField("k") && BeginsWith("k", 0, "k") && r == Failed
  {
    assert forall s: nat :: IsLineStart("k", s) ==> s == 0;
    r, line := SearchSorted("k", "k");
  }
}
