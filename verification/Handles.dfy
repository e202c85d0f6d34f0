/**
  Handle tables: a growable array of slots with the free list threaded through the unallocated
  ones, addressed by texts of the form "baseNN".
*/
module Handles {
  import opened Common

  // ---------------------------------------------------------------- numbers in text

  const UINT_MOD := 0x1_0000_0000
  const INT_MAX := 0x7fff_ffff
  const ULONG_MAX := 0xffff_ffff_ffff_ffff

  predicate IsDigit(c: char) { '0' <= c <= '9' }

  function Digit(n: nat): (c: char)
    requires n < 10
    ensures IsDigit(c) && c as int == '0' as int + n
  {
    (n + '0' as int) as char
  }

  /** sprintf ("%d") of a non-negative number. */
  function Decimal(n: nat): (s: string)
    ensures s != "" && forall i :: 0 <= i < |s| ==> IsDigit(s[i])
  {
    if n < 10 then [Digit(n)] else Decimal(n / 10) + [Digit(n % 10)]
  }

  /** The number that s[b..e] spells. */
  function Val(s: string, b: nat, e: nat): nat
    requires b <= e <= |s| && forall i :: b <= i < e ==> IsDigit(s[i])
    decreases e
  {
    if b == e then 0
    else
      assert IsDigit(s[e - 1]);
      10 * Val(s, b, e - 1) + (s[e - 1] as int - '0' as int)
  }

  function SpacesEnd(s: string, p: nat): (e: nat)
    requires p <= |s|
    ensures p <= e <= |s| && (e < |s| ==> !IsSpace(s[e]))
    decreases |s| - p
  {
    if p == |s| || !IsSpace(s[p]) then p else SpacesEnd(s, p + 1)
  }

  function DigitsEnd(s: string, p: nat): (e: nat)
    requires p <= |s|
    ensures p <= e <= |s| && (e < |s| ==> !IsDigit(s[e])) && forall i :: p <= i < e ==> IsDigit(s[i])
    decreases |s| - p
  {
    if p == |s| || !IsDigit(s[p]) then p else DigitsEnd(s, p + 1)
  }

  /** What TclX_StrToUnsigned accepts in base 10: white space, an optional sign, digits whose value
      fits an unsigned long, white space. The value is negated in unsigned long arithmetic and then
      cut to an unsigned int. */
  function ParseUnsigned(s: string): Option<nat> {
    var a := SpacesEnd(s, 0);
    var b := if a < |s| && (s[a] == '+' || s[a] == '-') then a + 1 else a;
    var e := DigitsEnd(s, b);
    if e == b || Val(s, b, e) > ULONG_MAX || SpacesEnd(s, e) != |s| then None
    else Some((if s[a] == '-' then (ULONG_MAX + 1 - Val(s, b, e)) % (ULONG_MAX + 1) else Val(s, b, e)) % UINT_MOD)
  }

  /** TclX_StrToUnsigned */
  method StrToUnsigned(s: string) returns (r: Option<nat>)
    ensures r == ParseUnsigned(s)
  {
    var p := PassSpaces(s, 0);
    var negative := p < |s| && s[p] == '-';
    var b := if p < |s| && (s[p] == '+' || s[p] == '-') then p + 1 else p;
    var end, i := PassDigits(s, b);
    if end == b || i > ULONG_MAX { return None; }
    end := PassSpaces(s, end);
    if end < |s| { return None; }
    r := Some((if negative then (ULONG_MAX + 1 - i) % (ULONG_MAX + 1) else i) % UINT_MOD);
  }

  /** Past white space. */
  method PassSpaces(s: string, start: nat) returns (p: nat)
    requires start <= |s|
    ensures p == SpacesEnd(s, start)
  {
    p := start;
    while p < |s| && IsSpace(s[p])
      invariant p <= |s| && SpacesEnd(s, p) == SpacesEnd(s, start)
    {
      p := p + 1;
    }
  }

  /** The digits of strtoul and their value. */
  method PassDigits(s: string, start: nat) returns (end: nat, i: nat)
    requires start <= |s|
    ensures end == DigitsEnd(s, start) && i == Val(s, start, end)
  {
    end, i := start, 0;
    while end < |s| && IsDigit(s[end])
      invariant start <= end <= |s| && DigitsEnd(s, end) == DigitsEnd(s, start)
      invariant forall j :: start <= j < end ==> IsDigit(s[j])
      invariant i == Val(s, start, end)
    {
      i := 10 * i + (s[end] as int - '0' as int);
      end := end + 1;
    }
  }

  lemma {:induction false} ValDecimal(base: string, n: nat, s: string)
    requires base + Decimal(n) <= s
    ensures forall i :: |base| <= i < |base| + |Decimal(n)| ==> IsDigit(s[i])
    ensures Val(s, |base|, |base| + |Decimal(n)|) == n
  {
    var d := Decimal(n);
    assert forall i :: 0 <= i < |d| ==> s[|base| + i] == d[i];
    if n >= 10 {
      assert base + Decimal(n / 10) <= base + d;
      ValDecimal(base, n / 10, s);
      assert s[|base| + |d| - 1] == Digit(n % 10);
    } else {
      assert Val(s, |base|, |base|) == 0;
    }
  }

  lemma DigitsEndAll(s: string, p: nat)
    requires p <= |s| && forall i :: p <= i < |s| ==> IsDigit(s[i])
    ensures DigitsEnd(s, p) == |s|
    decreases |s| - p
  {
  }

  lemma ParseDecimal(n: nat)
    ensures ParseUnsigned(Decimal(n)) == if n > ULONG_MAX then None else Some(n % UINT_MOD)
  {
    var s := Decimal(n);
    assert "" + s == s;
    ValDecimal("", n, s);
    ParseDigits(s);
  }

  lemma ParseDigits(s: string)
    requires s != "" && forall i :: 0 <= i < |s| ==> IsDigit(s[i])
    ensures ParseUnsigned(s) == if Val(s, 0, |s|) > ULONG_MAX then None else Some(Val(s, 0, |s|) % UINT_MOD)
  {
    assert IsDigit(s[0]);
    assert SpacesEnd(s, 0) == 0 && SpacesEnd(s, |s|) == |s|;
    DigitsEndAll(s, 0);
  }

  /** The digits s[b..e] spell v in base ten: vs are the values up to each of them. */
  ghost predicate Spells(s: string, b: nat, e: nat, v: nat) {
    b <= e <= |s| && exists vs: seq<nat> :: |vs| == e - b + 1 && vs[0] == 0 && vs[e - b] == v && Counts(s, b, e, vs)
  }

  ghost predicate Counts(s: string, b: nat, e: nat, vs: seq<nat>) {
    b <= e <= |s| && |vs| == e - b + 1 && forall i :: b <= i < e ==> CountsOn(s, b, vs, i)
  }

  ghost predicate CountsOn(s: string, b: nat, vs: seq<nat>, i: nat) {
    b <= i < |s| && i - b + 1 < |vs| && '0' <= s[i] <= '9' && vs[i - b + 1] == 10 * vs[i - b] + (s[i] as int - 48)
  }

  lemma {:induction false} SpellsIff(s: string, b: nat, e: nat, v: nat)
    requires b <= e <= |s|
    ensures Spells(s, b, e, v) <==> (forall i :: b <= i < e ==> IsDigit(s[i])) && Val(s, b, e) == v
  {
    if forall i :: b <= i < e ==> IsDigit(s[i]) {
      var _ := ValCounts(s, b, e);
    }
    if Spells(s, b, e, v) {
      var vs: seq<nat> :| |vs| == e - b + 1 && vs[0] == 0 && vs[e - b] == v && Counts(s, b, e, vs);
      CountsVal(s, b, e, vs);
    }
  }

  lemma {:induction false} ValCounts(s: string, b: nat, e: nat) returns (vs: seq<nat>)
    requires b <= e <= |s| && forall i :: b <= i < e ==> IsDigit(s[i])
    ensures |vs| == e - b + 1 && vs[0] == 0 && vs[e - b] == Val(s, b, e) && Counts(s, b, e, vs)
    decreases e
  {
    if b == e {
      vs := [0];
    } else {
      var us := ValCounts(s, b, e - 1);
      vs := us + [Val(s, b, e)];
      forall i | b <= i < e ensures CountsOn(s, b, vs, i) {
        assert i < e - 1 ==> CountsOn(s, b, us, i);
      }
    }
  }

  lemma {:induction false} CountsVal(s: string, b: nat, e: nat, vs: seq<nat>)
    requires b <= e <= |s| && |vs| == e - b + 1 && vs[0] == 0 && Counts(s, b, e, vs)
    ensures (forall i :: b <= i < e ==> IsDigit(s[i])) && Val(s, b, e) == vs[e - b]
    decreases e
  {
    forall i | b <= i < e ensures IsDigit(s[i]) { assert CountsOn(s, b, vs, i); }
    if b < e {
      var us := vs[..e - b];
      forall i | b <= i < e - 1 ensures CountsOn(s, b, us, i) { assert CountsOn(s, b, vs, i); }
      CountsVal(s, b, e - 1, us);
      assert CountsOn(s, b, vs, e - 1);
    }
  }

  /** A text of a number: white space up to a, a sign or none, digits from b to e that spell a number
      of 64 bits, white space. A minus sign negates it modulo 2^64; 32 bits of that are left. */
  ghost predicate NumberAt(s: string, a: nat, b: nat, e: nat, v: nat, u: int) {
    && a <= b < e <= |s| && (forall i :: 0 <= i < a || e <= i < |s| ==> White(s[i]))
    && (b == a || (b == a + 1 && (s[a] == '+' || s[a] == '-')))
    && Spells(s, b, e, v) && v <= 0xffff_ffff_ffff_ffff
    && u == (if s[a] == '-' then (0x1_0000_0000_0000_0000 - v) % 0x1_0000_0000_0000_0000 else v) % 0x1_0000_0000
  }

  ghost predicate IsNumber(s: string, u: int) {
    exists a, b, e, v :: NumberAt(s, a, b, e, v, u)
  }

  lemma SpacesEndAt(s: string, p: nat, a: nat)
    requires p <= a <= |s| && (forall i :: p <= i < a ==> White(s[i])) && (a < |s| ==> !White(s[a]))
    ensures SpacesEnd(s, p) == a
    decreases a - p
  {
  }

  lemma SpacesAre(s: string, p: nat)
    requires p <= |s|
    ensures forall i :: p <= i < SpacesEnd(s, p) ==> White(s[i])
    decreases |s| - p
  {
  }

  lemma {:induction false} DigitsEndAt(s: string, p: nat, e: nat)
    requires p <= e <= |s| && (forall i :: p <= i < e ==> IsDigit(s[i])) && (e < |s| ==> !IsDigit(s[e]))
    ensures DigitsEnd(s, p) == e
    decreases e - p
  {
    if p < e { DigitsEndAt(s, p + 1, e); }
  }

  lemma {:induction false} ParsedNumber(s: string, a: nat, b: nat, e: nat, v: nat, u: int)
    requires NumberAt(s, a, b, e, v, u)
    ensures ParseUnsigned(s) == Some(u)
  {
    SpellsIff(s, b, e, v);
    assert IsDigit(s[b]);
    SpacesEndAt(s, 0, a);
    assert e < |s| ==> White(s[e]);
    DigitsEndAt(s, b, e);
    SpacesEndAt(s, e, |s|);
  }

  lemma {:induction false} ParseGives(s: string)
    requires ParseUnsigned(s).Some?
    ensures IsNumber(s, ParseUnsigned(s).value)
  {
    var a := SpacesEnd(s, 0);
    var b := if a < |s| && (s[a] == '+' || s[a] == '-') then a + 1 else a;
    var e := DigitsEnd(s, b);
    SpellsIff(s, b, e, Val(s, b, e));
    SpacesAre(s, 0);
    SpacesAre(s, e);
    assert NumberAt(s, a, b, e, Val(s, b, e), ParseUnsigned(s).value);
  }

  /** Exactly the texts of numbers are read, and as that number. */
  lemma ParseIff(s: string, u: nat)
    ensures ParseUnsigned(s) == Some(u) <==> IsNumber(s, u)
  {
    if ParseUnsigned(s).Some? { ParseGives(s); }
    if IsNumber(s, u) {
      var a, b, e, v :| NumberAt(s, a, b, e, v, u);
      ParsedNumber(s, a, b, e, v, u);
    }
  }

  /** Base ten, without leading zeros. */
  ghost predicate InDecimal(s: string, n: nat) {
    s != "" && Spells(s, 0, |s|, n) && (|s| > 1 ==> s[0] != '0')
  }

  lemma {:induction false} DecimalSpells(n: nat)
    ensures InDecimal(Decimal(n), n)
  {
    var s := Decimal(n);
    assert "" + s == s;
    ValDecimal("", n, s);
    SpellsIff(s, 0, |s|, n);
    DecimalStarts(n);
  }

  lemma {:induction false} DecimalStarts(n: nat)
    ensures n > 0 ==> Decimal(n)[0] != '0'
    ensures n < 10 ==> |Decimal(n)| == 1
  {
    if n >= 10 { DecimalStarts(n / 10); }
  }

  /** HandleDecode: an index, or a negative number for a text that is no handle of this table. The
      unsigned result is read back as an int. */
  function HandleDecode(base: string, handle: string): int {
    if !(base <= handle) then -1
    else
      match ParseUnsigned(handle[|base|..])
      case None => -1
      case Some(u) => if u <= INT_MAX then u else u - UINT_MOD
  }

  function HandleText(base: string, idx: nat): string { base + Decimal(idx) }

  /** Issued texts decode to their index, as long as the index is an int. */
  lemma DecodeText(base: string, idx: nat)
    requires idx <= INT_MAX
    ensures HandleDecode(base, HandleText(base, idx)) == idx
  {
    ParseDecimal(idx);
    assert HandleText(base, idx)[|base|..] == Decimal(idx);
  }

  // ---------------------------------------------------------------- the table

  const NULL_IDX := -1
  const ALLOCATED_IDX := -2

  datatype Slot<T> = Slot(freeLink: int, data: T)

  /** Following the links from head visits exactly the slots in free, in that order, and ends at
      NULL_IDX. */
  ghost predicate Linked<T>(slots: seq<Slot<T>>, head: int, free: seq<int>) {
    && head == FirstOf(free, 0)
    && (forall i :: 0 <= i < |free| ==> 0 <= free[i] < |slots| && slots[free[i]].freeLink == FirstOf(free, i + 1))
    && (forall i, j :: 0 <= i < j < |free| ==> free[i] != free[j])
  }

  ghost function FirstOf(free: seq<int>, i: nat): int {
    if i < |free| then free[i] else NULL_IDX
  }

  /** The slots that are off the free list are the allocated ones. */
  ghost predicate Partitioned<T>(slots: seq<Slot<T>>, free: seq<int>) {
    forall i :: 0 <= i < |slots| ==> (slots[i].freeLink == ALLOCATED_IDX <==> i !in free)
  }

  ghost function Live<T>(slots: seq<Slot<T>>): set<nat> {
    set i | 0 <= i < |slots| && slots[i].freeLink == ALLOCATED_IDX
  }

  /** New indices newIdx .. newIdx + n, in order. */
  ghost function Range(newIdx: nat, n: nat): (r: seq<int>)
    ensures |r| == n && forall i :: 0 <= i < n ==> r[i] == newIdx + i
  {
    seq(n, i => newIdx + i)
  }

  class HandleTable<T(0)> {
    const handleBase: string
    var freeHeadIdx: int
    var body: array<Slot<T>>       // body.Length is tableSize
    ghost var free: seq<int>       // the free list
    ghost const initEntries: nat
    ghost var peak: nat            // the most entries that were ever live at once

    ghost predicate Valid()
      reads this, body
    {
      && Linked(body[..], freeHeadIdx, free) && Partitioned(body[..], free)
      && 0 < body.Length <= INT_MAX
      && |Live(body[..])| <= peak
      && (body.Length == initEntries || body.Length <= 2 * peak)
    }

    /** TclX_HandleTblInit */
    constructor (handleBase: string, initEntries: nat)
      requires 1 <= initEntries <= INT_MAX
      ensures Valid() && fresh(body) && body.Length == initEntries && Live(body[..]) == {}
      ensures this.handleBase == handleBase && this.initEntries == initEntries && peak == 0
    {
      this.handleBase, this.initEntries := handleBase, initEntries;
      freeHeadIdx, free, peak := NULL_IDX, [], 0;
      body := new Slot<T>[initEntries];
      new;
      LinkInNewEntries(0, initEntries);
      forall i | 0 <= i < body.Length ensures body[i].freeLink != ALLOCATED_IDX { assert free[i] == i; }
      assert Live(body[..]) == {};
    }

    /** LinkInNewEntries: thread the new slots through, in front of the old free list. */
    method LinkInNewEntries(newIdx: nat, numEntries: nat)
      requires numEntries >= 1 && newIdx + numEntries == body.Length
      requires Linked(body[..newIdx], freeHeadIdx, free) && Partitioned(body[..newIdx], free)
      modifies this`freeHeadIdx, this`free, body
      ensures free == Range(newIdx, numEntries) + old(free)
      ensures Linked(body[..], freeHeadIdx, free) && Partitioned(body[..], free)
      ensures body[..newIdx] == old(body[..newIdx])
    {
      ghost var was := body[..newIdx];
      var lastIdx := newIdx + numEntries - 1;
      for entIdx := newIdx to lastIdx
        invariant body[..newIdx] == was && freeHeadIdx == old(freeHeadIdx) && free == old(free)
        invariant forall i :: newIdx <= i < entIdx ==> body[i].freeLink == i + 1
      {
        body[entIdx] := body[entIdx].(freeLink := entIdx + 1);
      }
      body[lastIdx] := body[lastIdx].(freeLink := freeHeadIdx);
      LinkNew(was, body[..], freeHeadIdx, free, numEntries);
      PartitionNew(was, body[..], freeHeadIdx, free, numEntries);
      freeHeadIdx := newIdx;
      free := Range(newIdx, numEntries) + free;
    }

    /** ExpandTable: to twice the size, or just far enough for neededIdx. */
    method ExpandTable(neededIdx: int)
      requires Linked(body[..], freeHeadIdx, free) && Partitioned(body[..], free) && body.Length > 0
      requires neededIdx < 0 || body.Length <= neededIdx
      modifies this`freeHeadIdx, this`free, this`body
      ensures fresh(body) && body.Length == if neededIdx < 0 then 2 * old(body.Length) else neededIdx + 1
      ensures Linked(body[..], freeHeadIdx, free) && Partitioned(body[..], free)
      ensures free == Range(old(body.Length), body.Length - old(body.Length)) + old(free)
      ensures old(body[..]) <= body[..]
    {
      var numNewEntries := if neededIdx < 0 then body.Length else neededIdx - body.Length + 1;
      var size := body.Length;
      ghost var was := body[..];
      body := CopyBody(body, size + numNewEntries);
      LinkInNewEntries(size, numNewEntries);
    }

    /** A larger body that starts with the old one. */
    static method CopyBody(from: array<Slot<T>>, newSize: nat) returns (to: array<Slot<T>>)
      requires newSize >= from.Length
      ensures fresh(to) && to.Length == newSize && to[..from.Length] == from[..]
    {
      to := new Slot<T>[newSize];
      for i := 0 to from.Length
        invariant forall j :: 0 <= j < i ==> to[j] == from[j]
      {
        to[i] := from[i];
      }
    }

    /** AllocEntry: the first free slot, after expanding when there is none. */
    method AllocEntry() returns (entryIdx: nat)
      requires Valid() && (free == [] ==> 2 * body.Length <= INT_MAX)
      modifies this`freeHeadIdx, this`free, this`body, this`peak, body
      ensures Valid() && (body == old(body) || fresh(body)) && entryIdx < body.Length
      ensures entryIdx !in old(Live(body[..])) && Live(body[..]) == old(Live(body[..])) + {entryIdx}
      ensures forall i <- old(Live(body[..])) ::
                i < old(body.Length) <= body.Length && body[i].data == old(body[i].data)
      ensures old(free) != [] ==> free == old(free)[1..] && body == old(body)
      ensures body.Length == if old(free) == [] then 2 * old(body.Length) else old(body.Length)
      ensures peak == if |Live(body[..])| > old(peak) then |Live(body[..])| else old(peak)
    {
      if freeHeadIdx == NULL_IDX { Refill(); }
      ghost var slots := body[..];
      entryIdx := freeHeadIdx;
      assert free[0] == entryIdx;
      freeHeadIdx := body[entryIdx].freeLink;
      body[entryIdx] := body[entryIdx].(freeLink := ALLOCATED_IDX);
      assert body[..] == slots[entryIdx := slots[entryIdx].(freeLink := ALLOCATED_IDX)];
      PopLinked(slots, entryIdx, free);
      PopPartitioned(slots, free);
      PopLive(slots, entryIdx);
      free := free[1..];
      if |Live(body[..])| > peak { peak := |Live(body[..])|; }
    }

    /** The expansion of a full table. */
    method Refill()
      requires Valid() && freeHeadIdx == NULL_IDX && 2 * body.Length <= INT_MAX
      modifies this`freeHeadIdx, this`free, this`body
      ensures Linked(body[..], freeHeadIdx, free) && Partitioned(body[..], free) && free != [] && old(free) == []
      ensures fresh(body) && body.Length == 2 * old(body.Length) && old(body[..]) <= body[..]
      ensures Live(body[..]) == old(Live(body[..])) && |Live(body[..])| == old(body.Length)
    {
      ghost var was := body[..];
      FullTable(body[..], free);
      ExpandTable(-1);
      ExpandedLive(was, body[..], free);
    }

    /** TclX_HandleAlloc: the entry and its text, which translates back to it. */
    method HandleAlloc() returns (handle: string, entryIdx: nat)
      requires Valid() && (free == [] ==> 2 * body.Length <= INT_MAX)
      modifies this`freeHeadIdx, this`free, this`body, this`peak, body
      ensures Valid() && (body == old(body) || fresh(body)) && entryIdx < body.Length
      ensures entryIdx !in old(Live(body[..])) && Live(body[..]) == old(Live(body[..])) + {entryIdx}
      ensures forall i <- old(Live(body[..])) ::
                i < old(body.Length) <= body.Length && body[i].data == old(body[i].data)
      ensures handle == HandleText(handleBase, entryIdx) && HandleDecode(handleBase, handle) == entryIdx
      ensures handleBase <= handle && InDecimal(handle[|handleBase|..], entryIdx)
      ensures body.Length == if old(free) == [] then 2 * old(body.Length) else old(body.Length)
      ensures peak == if |Live(body[..])| > old(peak) then |Live(body[..])| else old(peak)
    {
      entryIdx := AllocEntry();
      handle := HandleText(handleBase, entryIdx);
      DecodeText(handleBase, entryIdx);
      DecimalSpells(entryIdx);
      assert handle[|handleBase|..] == Decimal(entryIdx);
    }

    /** TclX_HandleXlate: a text translates to an allocated slot exactly if it is the table's base and
        that slot's number; so an issued text translates exactly while its slot is allocated. */
    method HandleXlate(handle: string) returns (r: Option<nat>)
      requires Valid()
      ensures forall u: nat ::
                r == Some(u) <==> handleBase <= handle && u in Live(body[..]) && IsNumber(handle[|handleBase|..], u)
      ensures forall i :: 0 <= i < body.Length && handle == HandleText(handleBase, i) ==>
                r == if i in Live(body[..]) then Some(i) else None
    {
      if handleBase <= handle {
        forall u: nat
          ensures ParseUnsigned(handle[|handleBase|..]) == Some(u) <==> IsNumber(handle[|handleBase|..], u)
        {
          ParseIff(handle[|handleBase|..], u);
        }
      }
      var entryIdx := HandleDecode(handleBase, handle);
      r := None;
      if 0 <= entryIdx < body.Length && body[entryIdx].freeLink == ALLOCATED_IDX {
        r := Some(entryIdx);
      }
      forall i | 0 <= i < body.Length && handle == HandleText(handleBase, i) ensures entryIdx == i {
        DecodeText(handleBase, i);
      }
    }

    /** TclX_HandleFree; panics on an entry that is not allocated. */
    method HandleFree(entryIdx: nat) returns (panic: bool)
      requires Valid() && entryIdx < body.Length
      modifies this`freeHeadIdx, this`free, body
      ensures Valid() && panic == (entryIdx !in old(Live(body[..])))
      ensures panic ==> body[..] == old(body[..]) && free == old(free)
      ensures !panic ==> Live(body[..]) == old(Live(body[..])) - {entryIdx} && free == [entryIdx] + old(free)
      ensures forall i :: 0 <= i < body.Length ==> body[i].data == old(body[i].data)
    {
      panic := body[entryIdx].freeLink != ALLOCATED_IDX;
      if !panic {
        ghost var slots := body[..];
        body[entryIdx] := body[entryIdx].(freeLink := freeHeadIdx);
        assert body[..] == slots[entryIdx := slots[entryIdx].(freeLink := freeHeadIdx)];
        PushLinked(slots, entryIdx, freeHeadIdx, free);
        PushPartitioned(slots, entryIdx, freeHeadIdx, free);
        PushLive(slots, entryIdx, freeHeadIdx);
        freeHeadIdx := entryIdx;
        free := [entryIdx] + free;
      }
    }

    /** One call of a history; false for a free of an entry that is not live. */
    method Call(op: Op) returns (ok: bool)
      requires Valid() && (op.AllocOp? ==> Fits(|Live(body[..])| + 1, body.Length))
      modifies this, body
      ensures Valid() && (body == old(body) || fresh(body)) && body.Length >= old(body.Length)
      ensures ok ==> |Live(body[..])| == |old(Live(body[..]))| + (if op.AllocOp? then 1 else -1)
      ensures ok ==> peak == if |Live(body[..])| > old(peak) then |Live(body[..])| else old(peak)
      ensures !ok ==> op.FreeOp? && op.entryIdx !in Live(body[..])
      ensures !ok ==> peak == old(peak) && Live(body[..]) == old(Live(body[..]))
    {
      ghost var live := Live(body[..]);
      match op
      case AllocOp =>
        if free == [] { FullTable(body[..], free); }
        var _, entryIdx := HandleAlloc();
        LiveGrows(live, entryIdx);
        ok := true;
      case FreeOp(entryIdx) =>
        if entryIdx >= body.Length { return false; }
        var panic := HandleFree(entryIdx);
        ok := !panic;
        if ok { LiveShrinks(live, entryIdx); }
    }

    /** The first call of a history: there is room for the others. */
    method CallFirst(ops: seq<Op>) returns (ok: bool)
      requires Valid() && ops != [] && Fits(Highest(|Live(body[..])|, ops), body.Length)
      modifies this, body
      ensures Valid() && (body == old(body) || fresh(body))
      ensures ok ==> |Live(body[..])| == |old(Live(body[..]))| + (if ops[0].AllocOp? then 1 else -1)
      ensures ok ==> peak == if |Live(body[..])| > old(peak) then |Live(body[..])| else old(peak)
      ensures ok ==> Fits(Highest(|Live(body[..])|, ops[1..]), body.Length)
      ensures !ok ==> ops[0].FreeOp? && ops[0].entryIdx !in Live(body[..])
      ensures !ok ==> peak == old(peak) && Live(body[..]) == old(Live(body[..]))
    {
      ghost var size := body.Length;
      HighestFirst(|Live(body[..])|, ops, size);
      ok := Call(ops[0]);
      if ok { FitsLarger(Highest(|Live(body[..])|, ops[1..]), size, body.Length); }
    }

    /** Any history of allocs and frees, up to a free of an entry that is not live. The table grows
        no larger than its initial size or twice the most entries that were live at once. */
    method Run(ops: seq<Op>) returns (ghost counts: seq<nat>)
      requires Valid() && Fits(Highest(|Live(body[..])|, ops), body.Length)
      modifies this, body
      ensures Valid() && Follows(|old(Live(body[..]))|, ops, counts) && peak == Most(old(peak), counts)
      ensures |counts| < |ops| ==> ops[|counts|].FreeOp? && ops[|counts|].entryIdx !in Live(body[..])
      ensures |Live(body[..])| == LastOf(|old(Live(body[..]))|, counts)
      ensures body.Length <= initEntries || body.Length <= 2 * Most(old(peak), counts)
      decreases |ops|
    {
      counts := [];
      if ops != [] {
        ghost var was, top := |Live(body[..])|, peak;
        var ok := CallFirst(ops);
        if ok {
          ghost var n := |Live(body[..])|;
          ghost var rest := Run(ops[1..]);
          counts := [n] + rest;
          CountsFirst(was, top, ops, n, rest);
        }
      }
    }

    /** TclX_HandleWalk: the next allocated entry after the key, if any. */
    method HandleWalk(walkKey: int) returns (found: bool, key: int)
      requires Valid() && walkKey >= -1
      ensures match NextLive(Live(body[..]), walkKey + 1, body.Length)
              case Some(k) => found && key == k
              case None => !found && key == walkKey
    {
      var entryIdx: nat := if walkKey == -1 then 0 else walkKey + 1;
      ghost var live := Live(body[..]);
      while entryIdx < body.Length
        invariant NextLive(live, entryIdx, body.Length) == NextLive(live, walkKey + 1, body.Length)
      {
        LiveAt(body[..], entryIdx);
        if body[entryIdx].freeLink == ALLOCATED_IDX {
          return true, entryIdx;
        }
        entryIdx := entryIdx + 1;
      }
      found, key := false, walkKey;
    }
  }

  /** A history of calls. */
  datatype Op = AllocOp | FreeOp(entryIdx: nat)

  /** The most entries that can come to be live at once when n are live at first: n and the largest
      excess of allocs over frees in any first part of the history. */
  function Highest(n: int, ops: seq<Op>): (m: int)
    ensures m >= n
    decreases |ops|
  {
    if ops == [] then n
    else
      var rest := Highest(if ops[0].AllocOp? then n + 1 else n - 1, ops[1..]);
      if rest > n then rest else n
  }

  /** A table of the given size can come to hold high entries without outgrowing an int. */
  predicate Fits(high: int, size: nat) {
    high <= size || 2 * (high - 1) <= INT_MAX
  }

  lemma HighestFirst(n: nat, ops: seq<Op>, size: nat)
    requires ops != [] && Fits(Highest(n, ops), size)
    ensures ops[0].AllocOp? ==> Fits(n + 1, size) && Fits(Highest(n + 1, ops[1..]), size)
    ensures ops[0].FreeOp? ==> Fits(Highest(n - 1, ops[1..]), size)
  {
  }

  lemma FitsLarger(high: int, size: nat, size': nat)
    requires Fits(high, size) && size <= size'
    ensures Fits(high, size')
  {
  }

  function Most(n: nat, counts: seq<nat>): (m: nat)
    ensures m >= n && forall i :: 0 <= i < |counts| ==> counts[i] <= m
    ensures m == n || m in counts
  {
    if counts == [] then n
    else
      var rest := Most(n, counts[1..]);
      if counts[0] > rest then counts[0] else rest
  }

  lemma MostFirst(n: nat, first: nat, rest: seq<nat>)
    ensures Most(if first > n then first else n, rest) == Most(n, [first] + rest)
  {
    assert ([first] + rest)[1..] == rest;
    MostOf(n, first, rest);
  }

  lemma {:induction false} MostOf(n: nat, first: nat, rest: seq<nat>)
    ensures Most(if first > n then first else n, rest) == if first > Most(n, rest) then first else Most(n, rest)
  {
    if rest != [] { MostOf(n, first, rest[1..]); }
  }

  /** counts follows the history: one live entry more for each alloc, one fewer for each free. */
  ghost predicate Follows(n: nat, ops: seq<Op>, counts: seq<nat>)
    decreases |counts|
  {
    counts == [] ||
    (ops != [] && counts[0] == (if ops[0].AllocOp? then n + 1 else n - 1) && Follows(counts[0], ops[1..], counts[1..]))
  }

  ghost function LastOf(n: nat, counts: seq<nat>): nat {
    if counts == [] then n else counts[|counts| - 1]
  }

  lemma CountsFirst(was: nat, top: nat, ops: seq<Op>, n: nat, rest: seq<nat>)
    requires ops != [] && n == (if ops[0].AllocOp? then was + 1 else was - 1) && Follows(n, ops[1..], rest)
    ensures Follows(was, ops, [n] + rest) && LastOf(was, [n] + rest) == LastOf(n, rest)
    ensures Most(if n > top then n else top, rest) == Most(top, [n] + rest)
  {
    assert ([n] + rest)[1..] == rest;
    MostFirst(top, n, rest);
  }

  /** The least member of live in [from, size). */
  ghost function NextLive(live: set<nat>, from: nat, size: nat): (r: Option<nat>)
    decreases size - from
  {
    if from >= size then None else if from in live then Some(from) else NextLive(live, from + 1, size)
  }

  lemma {:induction false} NextLiveIsLeast(live: set<nat>, from: nat, size: nat)
    ensures var r := NextLive(live, from, size);
            if r.Some? then from <= r.value < size && r.value in live && forall i <- live :: i < from || r.value <= i
            else forall i <- live :: i < from || size <= i
    decreases size - from
  {
    if from < size && from !in live { NextLiveIsLeast(live, from + 1, size); }
  }

  // ---------------------------------------------------------------- walking

  /** The keys that repeated HandleWalk returns from key on, when lives[k] is the set of allocated
      entries at the k-th call; the walk stops at NULL or when the calls run out. */
  ghost function Walk(lives: seq<set<nat>>, key: int, size: nat): (r: seq<nat>)
    requires key >= -1
    decreases |lives|
  {
    if lives == [] then []
    else
      match NextLive(lives[0], key + 1, size)
      case None => []
      case Some(k) => [k] + Walk(lives[1..], k, size)
  }

  /** Entries returned so far that lie below index i: the number of calls made when the walk
      reaches i. */
  ghost function CallsBelow(walk: seq<nat>, i: nat): nat {
    if walk == [] || walk[0] >= i then 0 else 1 + CallsBelow(walk[1..], i)
  }

  /** Whatever is freed between the calls, the walk returns an index exactly when the entry is
      still allocated at the call that reaches it; indices come in increasing order, each once. */
  lemma {:induction false} WalkExact(lives: seq<set<nat>>, key: int, size: nat, i: nat)
    requires key >= -1 && key < i < size
    ensures var walk := Walk(lives, key, size);
            CallsBelow(walk, i) < |lives| ==> (i in walk <==> i in lives[CallsBelow(walk, i)])
    ensures var walk := Walk(lives, key, size);
            CallsBelow(walk, i) == |lives| ==> i !in walk
    ensures CallsBelow(Walk(lives, key, size), i) <= |lives|
    decreases |lives|
  {
    if lives != [] {
      NextLiveIsLeast(lives[0], key + 1, size);
      var r := NextLive(lives[0], key + 1, size);
      if r.Some? {
        var k := r.value;
        WalkIncreasing(lives[1..], k, size);
        var rest := Walk(lives[1..], k, size);
        assert Walk(lives, key, size)[1..] == rest;
        if k < i {
          WalkExact(lives[1..], k, size, i);
        }
      }
    }
  }

  ghost predicate Increasing(walk: seq<nat>, key: int, size: nat) {
    && (forall j :: 0 <= j < |walk| ==> key < walk[j] < size)
    && (forall j, k :: 0 <= j < k < |walk| ==> walk[j] < walk[k])
  }

  lemma {:induction false} WalkIncreasing(lives: seq<set<nat>>, key: int, size: nat)
    requires key >= -1
    ensures Increasing(Walk(lives, key, size), key, size)
    decreases |lives|
  {
    if lives != [] {
      NextLiveIsLeast(lives[0], key + 1, size);
      var r := NextLive(lives[0], key + 1, size);
      if r.Some? {
        WalkIncreasing(lives[1..], r.value, size);
        IncreasingCons(r.value, Walk(lives[1..], r.value, size), key, size);
      }
    }
  }

  lemma IncreasingCons(k: nat, rest: seq<nat>, key: int, size: nat)
    requires key < k < size && Increasing(rest, k, size)
    ensures Increasing([k] + rest, key, size)
  {
  }

  // ---------------------------------------------------------------- the free list under each operation

  /** With an empty free list every slot is live. */
  lemma FullTable<T>(slots: seq<Slot<T>>, free: seq<int>)
    requires Linked(slots, NULL_IDX, free) && Partitioned(slots, free)
    ensures free == [] && |Live(slots)| == |slots|
  {
    AllLive(slots);
  }

  lemma {:induction false} AllLive<T>(slots: seq<Slot<T>>)
    requires forall i :: 0 <= i < |slots| ==> slots[i].freeLink == ALLOCATED_IDX
    ensures |Live(slots)| == |slots|
  {
    if slots != [] {
      var n := |slots| - 1;
      AllLive(slots[..n]);
      assert Live(slots) == Live(slots[..n]) + {n};
    }
  }

  lemma ExpandedLive<T>(slots0: seq<Slot<T>>, slots1: seq<Slot<T>>, free: seq<int>)
    requires slots0 <= slots1 && Partitioned(slots1, free) && free == Range(|slots0|, |slots1| - |slots0|)
    ensures Live(slots1) == Live(slots0)
  {
    forall i | |slots0| <= i < |slots1| ensures slots1[i].freeLink != ALLOCATED_IDX { assert free[i - |slots0|] == i; }
  }

  lemma PopLinked<T>(slots: seq<Slot<T>>, h: nat, free: seq<int>)
    requires Linked(slots, h, free)
    ensures free != [] && free[0] == h < |slots|
    ensures Linked(slots[h := slots[h].(freeLink := ALLOCATED_IDX)], slots[h].freeLink, free[1..])
  {
    var slots1, free1 := slots[h := slots[h].(freeLink := ALLOCATED_IDX)], free[1..];
    assert slots[free[0]].freeLink == FirstOf(free, 1) == FirstOf(free1, 0);
    forall i | 0 <= i < |free1| ensures 0 <= free1[i] < |slots1| && slots1[free1[i]].freeLink == FirstOf(free1, i + 1) {
      assert free1[i] == free[i + 1] && free[0] != free[i + 1];
      assert slots[free[i + 1]].freeLink == FirstOf(free, i + 2);
    }
  }

  lemma PopPartitioned<T>(slots: seq<Slot<T>>, free: seq<int>)
    requires Linked(slots, FirstOf(free, 0), free) && Partitioned(slots, free) && free != []
    ensures Partitioned(slots[free[0] := slots[free[0]].(freeLink := ALLOCATED_IDX)], free[1..])
  {
    var slots1 := slots[free[0] := slots[free[0]].(freeLink := ALLOCATED_IDX)];
    forall i | 0 <= i < |slots1| ensures slots1[i].freeLink == ALLOCATED_IDX <==> i !in free[1..] {
      InTail(free, i);
    }
    assert forall k :: 0 <= k < |free[1..]| ==> free[1..][k] == free[k + 1];
  }

  lemma InTail(free: seq<int>, x: int)
    requires free != []
    ensures x in free <==> x == free[0] || x in free[1..]
  {
    assert free == [free[0]] + free[1..];
  }

  lemma PopLive<T>(slots: seq<Slot<T>>, h: nat)
    requires h < |slots| && slots[h].freeLink != ALLOCATED_IDX
    ensures Live(slots[h := slots[h].(freeLink := ALLOCATED_IDX)]) == Live(slots) + {h}
  {
  }

  lemma PushLinked<T>(slots: seq<Slot<T>>, x: nat, head: int, free: seq<int>)
    requires Linked(slots, head, free) && x < |slots| && x !in free
    ensures Linked(slots[x := slots[x].(freeLink := head)], x, [x] + free)
  {
    var slots1, free1 := slots[x := slots[x].(freeLink := head)], [x] + free;
    forall i | 0 <= i < |free1| ensures 0 <= free1[i] < |slots1| && slots1[free1[i]].freeLink == FirstOf(free1, i + 1) {
      PushAt(slots, x, head, free, i);
    }
    assert forall i :: 0 <= i < |free| ==> free[i] != x by {
      forall i | 0 <= i < |free| ensures free[i] != x { assert free[i] in free; }
    }
  }

  lemma PushAt<T>(slots: seq<Slot<T>>, x: nat, head: int, free: seq<int>, i: nat)
    requires Linked(slots, head, free) && x < |slots| && x !in free && i <= |free|
    ensures var slots1, free1 := slots[x := slots[x].(freeLink := head)], [x] + free;
            0 <= free1[i] < |slots1| && slots1[free1[i]].freeLink == FirstOf(free1, i + 1)
  {
    assert FirstOf([x] + free, i + 1) == FirstOf(free, i);
    if i > 0 {
      assert ([x] + free)[i] == free[i - 1] && free[i - 1] in free;
      assert slots[free[i - 1]].freeLink == FirstOf(free, i);
    }
  }

  lemma PushPartitioned<T>(slots: seq<Slot<T>>, x: nat, head: int, free: seq<int>)
    requires Partitioned(slots, free) && x < |slots| && head != ALLOCATED_IDX
    ensures Partitioned(slots[x := slots[x].(freeLink := head)], [x] + free)
  {
  }

  lemma PushLive<T>(slots: seq<Slot<T>>, x: nat, head: int)
    requires x < |slots| && head != ALLOCATED_IDX
    ensures Live(slots[x := slots[x].(freeLink := head)]) == Live(slots) - {x}
  {
  }

  /** slots1 is slots0 and n new slots, linked to each other and then to head. */
  ghost predicate Grown<T>(slots0: seq<Slot<T>>, slots1: seq<Slot<T>>, head: int, n: nat) {
    && n >= 1 && |slots1| == |slots0| + n && slots0 <= slots1
    && (forall i :: |slots0| <= i < |slots1| - 1 ==> slots1[i].freeLink == i + 1)
    && slots1[|slots1| - 1].freeLink == head
  }

  lemma LinkNew<T>(slots0: seq<Slot<T>>, slots1: seq<Slot<T>>, head: int, free: seq<int>, n: nat)
    requires Linked(slots0, head, free) && Grown(slots0, slots1, head, n)
    ensures Linked(slots1, |slots0|, Range(|slots0|, n) + free)
  {
    var m := |slots0|;
    var free1 := Range(m, n) + free;
    forall i | 0 <= i < |free1| ensures 0 <= free1[i] < |slots1| && slots1[free1[i]].freeLink == FirstOf(free1, i + 1) {
      if i >= n { LinkOld(slots0, slots1, head, free, i - n); } else { LinkFresh(slots0, slots1, head, n, i); }
      LinkNewAt(m, slots1, head, free, n, i);
    }
    DistinctNew(m, n, free);
  }

  lemma DistinctNew(m: nat, n: nat, free: seq<int>)
    requires forall i :: 0 <= i < |free| ==> free[i] < m
    requires forall i, j :: 0 <= i < j < |free| ==> free[i] != free[j]
    ensures var free1 := Range(m, n) + free;
            forall i, j :: 0 <= i < j < |free1| ==> free1[i] != free1[j]
  {
    var free1 := Range(m, n) + free;
    forall i, j | 0 <= i < j < |free1| ensures free1[i] != free1[j] {
      if i >= n { assert free[i - n] != free[j - n]; }
    }
  }

  lemma LinkNewAt<T>(m: nat, slots1: seq<Slot<T>>, head: int, free: seq<int>, n: nat, i: nat)
    requires head == FirstOf(free, 0) && |slots1| == m + n && i < n + |free|
    requires i < n ==> slots1[m + i].freeLink == if i + 1 < n then m + i + 1 else head
    requires i >= n ==> 0 <= free[i - n] < |slots1| && slots1[free[i - n]].freeLink == FirstOf(free, i - n + 1)
    ensures var free1 := Range(m, n) + free;
            0 <= free1[i] < |slots1| && slots1[free1[i]].freeLink == FirstOf(free1, i + 1)
  {
    FirstOfRange(m, n, free, i + 1);
  }

  lemma LinkOld<T>(slots0: seq<Slot<T>>, slots1: seq<Slot<T>>, head: int, free: seq<int>, k: nat)
    requires Linked(slots0, head, free) && slots0 <= slots1 && k < |free|
    ensures 0 <= free[k] < |slots1| && slots1[free[k]].freeLink == FirstOf(free, k + 1)
  {
    assert 0 <= free[k] < |slots0| && slots1[free[k]] == slots0[free[k]];
  }

  lemma LinkFresh<T>(slots0: seq<Slot<T>>, slots1: seq<Slot<T>>, head: int, n: nat, i: nat)
    requires Grown(slots0, slots1, head, n) && i < n
    ensures slots1[|slots0| + i].freeLink == if i + 1 < n then |slots0| + i + 1 else head
  {
  }

  lemma FirstOfRange(m: nat, n: nat, free: seq<int>, i: nat)
    ensures FirstOf(Range(m, n) + free, i) == if i < n then m + i else FirstOf(free, i - n)
  {
  }

  lemma PartitionNew<T>(slots0: seq<Slot<T>>, slots1: seq<Slot<T>>, head: int, free: seq<int>, n: nat)
    requires Linked(slots0, head, free) && Partitioned(slots0, free) && Grown(slots0, slots1, head, n)
    ensures Partitioned(slots1, Range(|slots0|, n) + free)
  {
    var m := |slots0|;
    var free1 := Range(m, n) + free;
    forall i | 0 <= i < |slots1| ensures slots1[i].freeLink == ALLOCATED_IDX <==> i !in free1 {
      if i < m {
        assert i !in Range(m, n);
        assert slots1[i] == slots0[i];
      } else {
        assert free1[i - m] == i;
      }
    }
  }

  lemma LiveAt<T>(slots: seq<Slot<T>>, i: nat)
    requires i < |slots|
    ensures i in Live(slots) <==> slots[i].freeLink == ALLOCATED_IDX
  {
  }

  lemma LiveGrows(live: set<nat>, i: nat)
    requires i !in live
    ensures |live + {i}| == |live| + 1
  {
  }

  lemma LiveShrinks(live: set<nat>, i: nat)
    requires i in live
    ensures |live - {i}| == |live| - 1
  {
  }

  /** From its creation on, the table never holds more than its initial size or twice the most
      entries that were live at once. */
  method History<T(0)>(handleBase: string, initEntries: nat, ops: seq<Op>)
    returns (t: HandleTable<T>, ghost counts: seq<nat>)
    requires 1 <= initEntries <= INT_MAX && Fits(Highest(0, ops), initEntries)
    ensures fresh(t) && t.Valid() && Follows(0, ops, counts)
    ensures t.body.Length <= initEntries || t.body.Length <= 2 * Most(0, counts)
  {
    t := new HandleTable(handleBase, initEntries);
    counts := t.Run(ops);
  }
}
