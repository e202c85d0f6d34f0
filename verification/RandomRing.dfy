/**
  The BSD random() package: an additive-feedback generator over a ring buffer, with several state
  arrays switched in and out through a packed header word.
*/
module RandomRing {
  import opened Common

  /** Words are 32-bit longs, the size the break values presume, kept as residues in [0, 2^32). */
  const WORD := 0x1_0000_0000
  const HALF := 0x8000_0000
  const MAX_TYPES := 5

  type Word = w: int | 0 <= w < WORD

  function Deg(kind: nat): nat {
    match kind case 1 => 7 case 2 => 15 case 3 => 31 case 4 => 63 case _ => 0
  }

  function Sep(kind: nat): nat {
    match kind case 1 => 3 case 2 => 1 case 3 => 3 case 4 => 1 case _ => 0
  }

  /** The best generator for n bytes of state. */
  function KindFor(n: nat): nat {
    if n < 32 then 0 else if n < 64 then 1 else if n < 128 then 2 else if n < 256 then 3 else 4
  }

  /** Words of state behind the header. */
  function Size(kind: nat): nat {
    if kind == 0 then 1 else Deg(kind)
  }

  /** The words of the table that is current when the program starts. */
  const RANDTBL: seq<Word> := [
    0x9a319039, 0x32d9c024, 0x9b663182, 0x5da1f342, 0xde3b81e0, 0xdf0a6fb5, 0xf103bc02, 0x48f340fb,
    0x7449e56b, 0xbeb1dbb0, 0xab5c5918, 0x946554fd, 0x8c2e680f, 0xeb3d799f, 0xb11ee0b7, 0x2d436b86,
    0xda672e2a, 0x1588ca88, 0xe369735d, 0x904f35f7, 0xd7158fd6, 0x6fa6f051, 0x616e6b96, 0xac94efdc,
    0x36413f93, 0xc622c298, 0xf5a42ab8, 0x8a88d77b, 0xf5ad9d0e, 0x8999220b, 0x27fb47b9
  ]

  // ---------------------------------------------------------------- positions in the ring

  /** a mod d, by repeated wrapping. */
  function Wrap(d: nat, a: nat): (w: nat)
    requires d > 0
    ensures w < d
  {
    if a < d then a else Wrap(d, a - d)
  }

  lemma {:induction false} WrapPlus(d: nat, a: nat, j: nat)
    requires d > 0
    ensures Wrap(d, Wrap(d, a) + j) == Wrap(d, a + j)
  {
    if a >= d { WrapPlus(d, a - d, j); }
  }

  lemma WrapOther(d: nat, a: nat, j: nat)
    requires 0 < j < d
    ensures Wrap(d, a + j) != Wrap(d, a)
  {
    WrapPlus(d, a, j);
  }

  // ---------------------------------------------------------------- one generator

  /** What one state array amounts to: its kind, the place of the rear pointer, and its words. */
  datatype Gen = Gen(kind: nat, rear: nat, words: seq<Word>)

  predicate GenOk(g: Gen) {
    g.kind < MAX_TYPES && |g.words| == Size(g.kind) && (if g.kind == 0 then g.rear == 0 else g.rear < Deg(g.kind))
  }

  function Front(kind: nat, rear: nat): nat
    requires 0 < kind < MAX_TYPES
  {
    Wrap(Deg(kind), rear + Sep(kind))
  }

  lemma {:induction false} WrapIsMod(kind: nat, a: nat)
    requires 0 < kind < MAX_TYPES
    ensures Wrap(Deg(kind), a) == a % Deg(kind)
  {
    ModStep(kind, a);
    if a >= Deg(kind) { WrapIsMod(kind, a - Deg(kind)); }
  }

  lemma ModStep(kind: nat, a: nat)
    requires 0 < kind < MAX_TYPES
    ensures a % Deg(kind) == if a < Deg(kind) then a else (a - Deg(kind)) % Deg(kind)
  {
    if kind == 1 { assert a % 7 == if a < 7 then a else (a - 7) % 7; }
    else if kind == 2 { assert a % 15 == if a < 15 then a else (a - 15) % 15; }
    else if kind == 3 { assert a % 31 == if a < 31 then a else (a - 31) % 31; }
    else { assert a % 63 == if a < 63 then a else (a - 63) % 63; }
  }

  /** The front pointer: three places ahead of the rear one in types 1 and 3, one in types 2 and 4. */
  lemma FrontIsMod(kind: nat, rear: nat)
    requires 0 < kind < MAX_TYPES && rear < Deg(kind)
    ensures (rear + Sep(kind)) % Deg(kind) == Front(kind, rear)
    ensures kind == 1 ==> Front(kind, rear) == (rear + 3) % 7
    ensures kind == 2 ==> Front(kind, rear) == (rear + 1) % 15
    ensures kind == 3 ==> Front(kind, rear) == (rear + 3) % 31
    ensures kind == 4 ==> Front(kind, rear) == (rear + 1) % 63
  {
    WrapIsMod(kind, rear + Sep(kind));
  }

  /** random() on one generator: the next state and the number returned. */
  function Next(g: Gen): (r: (Gen, int))
    requires GenOk(g)
    ensures GenOk(r.0) && r.0.kind == g.kind && 0 <= r.1 < HALF
  {
    if g.kind == 0 then
      var w := (g.words[0] * 1103515245 + 12345) % HALF;
      (Gen(0, 0, [w]), w)
    else
      var f := Front(g.kind, g.rear);
      var w := (g.words[f] + g.words[g.rear]) % WORD;
      (Gen(g.kind, Wrap(Deg(g.kind), g.rear + 1), g.words[f := w]), w / 2)
  }

  function After(g: Gen, n: nat): (r: Gen)
    requires GenOk(g)
    ensures GenOk(r) && r.kind == g.kind
  {
    if n == 0 then g else Next(After(g, n - 1)).0
  }

  /** The linear congruential filling of srandom. */
  function Lcg(x: Word, n: nat): (ws: seq<Word>)
    requires n >= 1
    ensures |ws| == n && ws[0] == x
  {
    if n == 1 then [x]
    else
      var ws := Lcg(x, n - 1);
      ws + [(1103515245 * ws[n - 2] + 12345) % WORD]
  }

  /** The generator that srandom leaves. */
  function Seeded(kind: nat, x: Word): (g: Gen)
    requires kind < MAX_TYPES
    ensures GenOk(g) && g.kind == kind
  {
    if kind == 0 then Gen(0, 0, [x]) else After(Gen(kind, 0, Lcg(x, Deg(kind))), 10 * Deg(kind))
  }

  // ---------------------------------------------------------------- the ring computes a recurrence

  /** The sequence x with x[i] = x[i - deg] + x[i - sep], started from the ring's content in the
      order in which the front pointer will meet it. */
  function X(g: Gen, i: nat): Word
    requires GenOk(g) && g.kind > 0
  {
    var d, s := Deg(g.kind), Sep(g.kind);
    if i < d then g.words[Wrap(d, g.rear + s + i)]
    else (X(g, i - d) + X(g, i - s)) % WORD
  }

  lemma {:induction false} XStep(g: Gen, n: nat)
    requires GenOk(g) && g.kind > 0
    ensures X(g, n + Deg(g.kind)) == (X(g, n) + X(g, n + Deg(g.kind) - Sep(g.kind))) % WORD
  {
  }

  /** h holds x[n .. n + deg) and its rear pointer is n places on from g's. */
  ghost predicate Holds(g: Gen, h: Gen, n: nat)
    requires GenOk(g) && GenOk(h) && h.kind == g.kind > 0
  {
    h.rear == Wrap(Deg(g.kind), g.rear + n) && forall j :: 0 <= j < Deg(g.kind) ==> Slot(g, h, n, j)
  }

  ghost predicate Slot(g: Gen, h: Gen, n: nat, j: nat)
    requires GenOk(g) && GenOk(h) && h.kind == g.kind > 0
  {
    h.words[Wrap(Deg(g.kind), g.rear + Sep(g.kind) + n + j)] == X(g, n + j)
  }

  /** At such a moment random() adds x[n] at the front and x[n + deg - sep] at the rear. */
  lemma {:induction false} HoldsNext(g: Gen, h: Gen, n: nat)
    requires GenOk(g) && GenOk(h) && h.kind == g.kind > 0 && Holds(g, h, n)
    ensures var d, s := Deg(g.kind), Sep(g.kind);
            Front(g.kind, h.rear) == Wrap(d, g.rear + s + n) &&
            h.words[Front(g.kind, h.rear)] == X(g, n) && h.words[h.rear] == X(g, n + d - s)
  {
    var d, s := Deg(g.kind), Sep(g.kind);
    WrapPlus(d, g.rear + n, s);
    assert Slot(g, h, n, 0) && Slot(g, h, n, d - s);
    WrapTurn(d, g.rear + n);
    assert g.rear + n + s == g.rear + s + n + 0 && g.rear + s + n + (d - s) == g.rear + n + d;
    assert n + (d - s) == n + d - s;
  }

  lemma WrapTurn(d: nat, a: nat)
    requires d > 0
    ensures Wrap(d, a + d) == Wrap(d, a)
  {
  }

  lemma {:induction false} SlotNext(g: Gen, h: Gen, n: nat, j: nat)
    requires GenOk(g) && GenOk(h) && h.kind == g.kind > 0 && Holds(g, h, n) && j < Deg(g.kind)
    ensures Slot(g, Next(h).0, n + 1, j)
  {
    HoldsNext(g, h, n);
    if j + 1 < Deg(g.kind) {
      SlotKept(g, h, n, j);
    } else {
      XStep(g, n);
      SlotWritten(g, h, n);
    }
  }

  lemma {:induction false} SlotKept(g: Gen, h: Gen, n: nat, j: nat)
    requires GenOk(g) && GenOk(h) && h.kind == g.kind > 0 && Holds(g, h, n) && j + 1 < Deg(g.kind)
    requires Front(g.kind, h.rear) == Wrap(Deg(g.kind), g.rear + Sep(g.kind) + n)
    ensures Slot(g, Next(h).0, n + 1, j)
  {
    var base := g.rear + Sep(g.kind) + n;
    WrapOther(Deg(g.kind), base, j + 1);
    assert Slot(g, h, n, j + 1);
    assert base + (j + 1) == g.rear + Sep(g.kind) + (n + 1) + j && n + (j + 1) == n + 1 + j;
  }

  lemma {:induction false} SlotWritten(g: Gen, h: Gen, n: nat)
    requires GenOk(g) && GenOk(h) && h.kind == g.kind > 0 && Holds(g, h, n)
    requires Front(g.kind, h.rear) == Wrap(Deg(g.kind), g.rear + Sep(g.kind) + n)
    requires X(g, n + Deg(g.kind)) == (h.words[Front(g.kind, h.rear)] + h.words[h.rear]) % WORD
    ensures Slot(g, Next(h).0, n + 1, Deg(g.kind) - 1)
  {
    var d, base := Deg(g.kind), g.rear + Sep(g.kind) + n;
    WrapTurn(d, base);
    assert base + d == g.rear + Sep(g.kind) + (n + 1) + (d - 1) && n + d == n + 1 + (d - 1);
  }

  lemma StepHolds(g: Gen, h: Gen, n: nat)
    requires GenOk(g) && GenOk(h) && h.kind == g.kind > 0 && Holds(g, h, n)
    ensures Holds(g, Next(h).0, n + 1)
  {
    WrapPlus(Deg(g.kind), g.rear + n, 1);
    assert g.rear + n + 1 == g.rear + (n + 1);
    var h1, m := Next(h).0, n + 1;
    forall j | 0 <= j < Deg(g.kind) ensures Slot(g, h1, m, j) { SlotNext(g, h, n, j); }
  }

  /** After n calls the ring holds x[n .. n + deg) and the rear pointer has advanced n places. */
  lemma {:induction false} RingHolds(g: Gen, n: nat)
    requires GenOk(g) && g.kind > 0
    ensures Holds(g, After(g, n), n)
  {
    if n > 0 {
      RingHolds(g, n - 1);
      StepHolds(g, After(g, n - 1), n - 1);
    } else {
      forall j | 0 <= j < Deg(g.kind) ensures Slot(g, g, 0, j) {}
    }
  }

  /** The n-th call generates x[n + deg] and returns its upper 31 bits. */
  lemma {:induction false} RandomIsRecurrence(g: Gen, n: nat)
    requires GenOk(g) && g.kind > 0
    ensures Next(After(g, n)).1 == X(g, n + Deg(g.kind)) / 2
    ensures X(g, n + Deg(g.kind)) == (X(g, n) + X(g, n + Deg(g.kind) - Sep(g.kind))) % WORD
  {
    RingHolds(g, n);
    RecurrenceAt(g, After(g, n), n);
  }

  lemma {:induction false} RecurrenceAt(g: Gen, h: Gen, n: nat)
    requires GenOk(g) && GenOk(h) && h.kind == g.kind > 0 && Holds(g, h, n)
    ensures Next(h).1 == X(g, n + Deg(g.kind)) / 2
    ensures X(g, n + Deg(g.kind)) == (X(g, n) + X(g, n + Deg(g.kind) - Sep(g.kind))) % WORD
  {
    HoldsNext(g, h, n);
    XStep(g, n);
  }

  /** x goes on from its first deg terms by x[k + deg] = x[k] + x[k + mid], n times. */
  ghost predicate Sums(x: seq<int>, n: nat, deg: nat, mid: nat) {
    mid < deg && |x| == n + deg && forall k :: 0 <= k < n ==> Sum(x, k, deg, mid)
  }

  ghost predicate Sum(x: seq<int>, k: nat, deg: nat, mid: nat) {
    mid < deg && k + deg < |x| && x[k + deg] == (x[k] + x[k + mid]) % 0x1_0000_0000
  }

  /** x[from ..] is the ring of deg words, read from place start round. */
  ghost predicate Around(x: seq<int>, from: nat, ring: seq<int>, start: nat, deg: nat) {
    0 < deg == |ring| && from + deg <= |x| && forall j :: 0 <= j < deg ==> Meets(x, from, ring, start, j)
  }

  ghost predicate Meets(x: seq<int>, from: nat, ring: seq<int>, start: nat, j: nat) {
    from + j < |x| && |ring| > 0 && x[from + j] == ring[(start + j) % |ring|]
  }

  ghost function Terms(g: Gen, n: nat): (x: seq<int>)
    requires GenOk(g) && g.kind > 0
    ensures |x| == n + Deg(g.kind)
  {
    seq(n + Deg(g.kind), i requires 0 <= i => X(g, i))
  }

  lemma {:induction false} TermAt(g: Gen, n: nat, i: nat)
    requires GenOk(g) && g.kind > 0 && i < n + Deg(g.kind)
    ensures Terms(g, n)[i] == X(g, i)
  {
  }

  lemma {:induction false} TermsSum(g: Gen, n: nat, k: nat)
    requires GenOk(g) && g.kind > 0 && k < n
    ensures Sum(Terms(g, n), k, Deg(g.kind), Deg(g.kind) - Sep(g.kind))
  {
    XStep(g, k);
    var d, mid := Deg(g.kind), Deg(g.kind) - Sep(g.kind);
    TermAt(g, n, k);
    TermAt(g, n, k + mid);
    TermAt(g, n, k + d);
    SumOf(Terms(g, n), k, d, mid);
  }

  lemma {:induction false} TermReturned(g: Gen, n: nat, k: nat)
    requires GenOk(g) && g.kind > 0 && k < n
    ensures Next(After(g, k)).1 == Terms(g, n)[k + Deg(g.kind)] / 2
  {
    RandomIsRecurrence(g, k);
    TermAt(g, n, k + Deg(g.kind));
  }

  lemma SumOf(x: seq<int>, k: nat, deg: nat, mid: nat)
    requires mid < deg && k + deg < |x| && x[k + deg] == (x[k] + x[k + mid]) % WORD
    ensures Sum(x, k, deg, mid)
  {
  }

  lemma {:induction false} TermsStart(g: Gen, n: nat, j: nat)
    requires GenOk(g) && g.kind > 0 && j < Deg(g.kind)
    ensures Meets(Terms(g, n), 0, g.words, g.rear + Sep(g.kind), j)
  {
    WrapIsMod(g.kind, g.rear + Sep(g.kind) + j);
  }

  lemma {:induction false} TermsMeet(g: Gen, n: nat, j: nat)
    requires GenOk(g) && g.kind > 0 && j < Deg(g.kind) && Holds(g, After(g, n), n)
    ensures Meets(Terms(g, n), n, After(g, n).words, g.rear + Sep(g.kind) + n, j)
  {
    assert Slot(g, After(g, n), n, j);
    WrapIsMod(g.kind, g.rear + Sep(g.kind) + n + j);
  }

  /** n calls go on from the ring by the recurrence, and leave its last terms there. */
  lemma {:induction false} TermsGoOn(g: Gen, n: nat)
    requires GenOk(g) && g.kind > 0
    ensures Sums(Terms(g, n), n, Deg(g.kind), Deg(g.kind) - Sep(g.kind))
    ensures Around(Terms(g, n), 0, g.words, g.rear + Sep(g.kind), Deg(g.kind))
    ensures Around(Terms(g, n), n, After(g, n).words, g.rear + Sep(g.kind) + n, Deg(g.kind))
  {
    var d, mid, x, start := Deg(g.kind), Deg(g.kind) - Sep(g.kind), Terms(g, n), g.rear + Sep(g.kind);
    forall k | 0 <= k < n ensures Sum(x, k, d, mid) { TermsSum(g, n, k); }
    forall j | 0 <= j < d ensures Meets(x, 0, g.words, start, j) { TermsStart(g, n, j); }
    var h, end := After(g, n), start + n;
    RingHolds(g, n);
    forall j | 0 <= j < d ensures Meets(x, n, h.words, end, j) { TermsMeet(g, n, j); }
  }

  /** What n calls return, in the numbers of each type: x[0 ..] is the ring from the front pointer
      on, and the k-th number is the upper 31 bits of x[k + deg]. */
  lemma {:induction false} Trinomials(g: Gen, n: nat)
    requires GenOk(g) && g.kind > 0
    ensures g.kind == 1 ==> Sums(Terms(g, n), n, 7, 4) && Around(Terms(g, n), 0, g.words, g.rear + 3, 7)
    ensures g.kind == 2 ==> Sums(Terms(g, n), n, 15, 14) && Around(Terms(g, n), 0, g.words, g.rear + 1, 15)
    ensures g.kind == 3 ==> Sums(Terms(g, n), n, 31, 28) && Around(Terms(g, n), 0, g.words, g.rear + 3, 31)
    ensures g.kind == 4 ==> Sums(Terms(g, n), n, 63, 62) && Around(Terms(g, n), 0, g.words, g.rear + 1, 63)
    ensures forall k :: 0 <= k < n ==> Next(After(g, k)).1 == Terms(g, n)[k + Deg(g.kind)] / 2
  {
    TermsGoOn(g, n);
    forall k | 0 <= k < n ensures Next(After(g, k)).1 == Terms(g, n)[k + Deg(g.kind)] / 2 {
      TermReturned(g, n, k);
    }
  }

  lemma {:induction false} WrapMultiple(d: nat, k: nat)
    requires d > 0
    ensures Wrap(d, k * d) == 0
  {
    if k > 0 {
      assert k * d == (k - 1) * d + d;
      WrapMultiple(d, k - 1);
    }
  }

  /** The discarded calls of srandom bring both pointers back to where they started. */
  lemma SeededAtStart(kind: nat, x: Word)
    requires 0 < kind < MAX_TYPES
    ensures Seeded(kind, x).rear == 0 && Front(kind, Seeded(kind, x).rear) == Sep(kind)
  {
    RingHolds(Gen(kind, 0, Lcg(x, Deg(kind))), 10 * Deg(kind));
    WrapMultiple(Deg(kind), 10);
  }

  /** y is filled from the seed by the linear congruential generator. */
  ghost predicate Filled(y: seq<int>, seed: int, deg: nat) {
    |y| == deg > 0 && y[0] == seed && forall i :: 0 <= i < deg - 1 ==> Congruent(y, i)
  }

  ghost predicate Congruent(y: seq<int>, i: nat) {
    i + 1 < |y| && y[i + 1] == (1103515245 * y[i] + 12345) % 0x1_0000_0000
  }

  lemma {:induction false} LcgFills(x: Word, n: nat)
    requires n >= 1
    ensures Filled(Lcg(x, n), x, n)
  {
    if n > 1 {
      LcgFills(x, n - 1);
      var ws, y := Lcg(x, n - 1), Lcg(x, n);
      forall i | 0 <= i < n - 1 ensures Congruent(y, i) {
        assert i < n - 2 ==> Congruent(ws, i);
      }
    }
  }

  /** What srandom makes of the ring: filled, then run in by the given number of discarded calls. */
  ghost predicate Seeding(ring: seq<int>, seed: int, deg: nat, mid: nat, calls: nat) {
    mid < deg && exists y: seq<int>, x: seq<int> ::
      && Filled(y, seed, deg) && Sums(x, calls, deg, mid)
      && Around(x, 0, y, deg - mid, deg) && Around(x, calls, ring, deg - mid + calls, deg)
  }

  /** Seeding in the numbers of each type. */
  ghost predicate SeededRing(kind: nat, ring: seq<int>, seed: int) {
    match kind
    case 0 => ring == [seed]
    case 1 => Seeding(ring, seed, 7, 4, 70)
    case 2 => Seeding(ring, seed, 15, 14, 150)
    case 3 => Seeding(ring, seed, 31, 28, 310)
    case 4 => Seeding(ring, seed, 63, 62, 630)
    case _ => false
  }

  /** The words of an array behind its header, and the rear pointer, as srandom leaves them. */
  ghost predicate SeededArray(kind: nat, words: seq<int>, rear: nat, seed: int) {
    (kind > 0 ==> rear == 0) && |words| > 0 && exists ring :: ring <= words[1..] && SeededRing(kind, ring, seed)
  }

  lemma SeedingIs(kind: nat, seed: Word)
    requires kind < MAX_TYPES
    ensures SeededRing(kind, Seeded(kind, seed).words, seed)
  {
    if kind > 0 {
      SeedingAt(kind, seed);
    }
  }

  lemma {:induction false} SeedingAt(kind: nat, seed: Word)
    requires 0 < kind < MAX_TYPES
    ensures Seeding(Seeded(kind, seed).words, seed, Deg(kind), Deg(kind) - Sep(kind), 10 * Deg(kind))
  {
    var y := Lcg(seed, Deg(kind));
    LcgFills(seed, Deg(kind));
    TermsGoOn(Gen(kind, 0, y), 10 * Deg(kind));
  }

  /** One random() in numbers: how the array, whose word 0 is its header, and the rear pointer
      change, and the number returned. */
  ghost predicate OneCall(kind: nat, was: seq<int>, rear: nat, now: seq<int>, rear': nat, i: int) {
    && (kind == 0 ==> |was| > 1 && i == (was[1] * 1103515245 + 12345) % 0x8000_0000 && now == was[1 := i])
    && (kind == 1 ==> OneSum(was, rear, now, rear', i, 7, 3))
    && (kind == 2 ==> OneSum(was, rear, now, rear', i, 15, 1))
    && (kind == 3 ==> OneSum(was, rear, now, rear', i, 31, 3))
    && (kind == 4 ==> OneSum(was, rear, now, rear', i, 63, 1))
  }

  /** The word at the rear pointer is added to the one sep places on, and the rear pointer moves. */
  ghost predicate OneSum(was: seq<int>, rear: nat, now: seq<int>, rear': nat, i: int, deg: nat, sep: nat) {
    && rear < deg < |was| && rear' == (rear + 1) % deg
    && var front := (rear + sep) % deg;
       && now == was[1 + front := (was[1 + front] + was[1 + rear]) % 0x1_0000_0000]
       && i == now[1 + front] / 2
  }

  lemma OneCallIs(kind: nat, was: seq<int>, rear: nat, now: seq<int>, rear': nat, i: int)
    requires 0 < kind < MAX_TYPES && rear < Deg(kind) < |was|
    requires var f := Front(kind, rear); now == was[1 + f := (was[1 + f] + was[1 + rear]) % WORD] && i == now[1 + f] / 2
    requires rear' == Wrap(Deg(kind), rear + 1)
    ensures OneCall(kind, was, rear, now, rear', i)
  {
    FrontIsMod(kind, rear);
    WrapIsMod(kind, rear + 1);
  }

  /** The numbers that random() returns from an array on, for each type: upper 31 bits of the terms
      that follow the ring, read from the front pointer on, by the trinomial of the type. */
  ghost predicate Numbers(kind: nat, ring: seq<int>, rear: nat, outs: seq<int>) {
    match kind
    case 0 => |ring| == 1 && Congruences(ring[0], outs)
    case 1 => exists x :: Sums(x, |outs|, 7, 4) && Around(x, 0, ring, rear + 3, 7) && Upper(outs, x, 7)
    case 2 => exists x :: Sums(x, |outs|, 15, 14) && Around(x, 0, ring, rear + 1, 15) && Upper(outs, x, 15)
    case 3 => exists x :: Sums(x, |outs|, 31, 28) && Around(x, 0, ring, rear + 3, 31) && Upper(outs, x, 31)
    case 4 => exists x :: Sums(x, |outs|, 63, 62) && Around(x, 0, ring, rear + 1, 63) && Upper(outs, x, 63)
    case _ => false
  }

  /** The linear congruential generator from the given word on. */
  ghost predicate Congruences(first: int, outs: seq<int>) {
    forall k :: 0 <= k < |outs| ==>
      outs[k] == ((if k == 0 then first else outs[k - 1]) * 1103515245 + 12345) % 0x8000_0000
  }

  /** The numbers from an array whose word 0 is its header. */
  ghost predicate ArrayNumbers(kind: nat, words: seq<int>, rear: nat, outs: seq<int>) {
    |words| > 0 && exists ring :: ring <= words[1..] && Numbers(kind, ring, rear, outs)
  }

  ghost predicate Upper(outs: seq<int>, x: seq<int>, deg: nat) {
    |x| == |outs| + deg && forall k :: 0 <= k < |outs| ==> outs[k] == x[k + deg] / 2
  }

  /** What calls from g on return. */
  ghost predicate Returned(g: Gen, outs: seq<int>) {
    GenOk(g) && forall k :: 0 <= k < |outs| ==> outs[k] == Next(After(g, k)).1
  }

  lemma {:induction false} ReturnedNext(g: Gen, outs: seq<int>, r: int)
    requires Returned(g, outs) && r == Next(After(g, |outs|)).1
    ensures Returned(g, outs + [r])
  {
  }

  lemma {:induction false} NumbersAre(g: Gen, outs: seq<int>)
    requires Returned(g, outs)
    ensures Numbers(g.kind, g.words, g.rear, outs)
  {
    if g.kind == 0 {
      forall k | 0 <= k < |outs|
        ensures outs[k] == ((if k == 0 then g.words[0] else outs[k - 1]) * 1103515245 + 12345) % 0x8000_0000
      {
        assert k > 0 ==> After(g, k) == Next(After(g, k - 1)).0;
      }
    } else {
      Trinomials(g, |outs|);
      assert Upper(outs, Terms(g, |outs|), Deg(g.kind));
    }
  }

  // ---------------------------------------------------------------- state arrays

  /** The packed header word: MAX_TYPES * rear + kind. */
  function Pack(kind: nat, rear: nat): int {
    if kind == 0 then 0 else MAX_TYPES * rear + kind
  }

  function KindOf(header: int): nat
    requires header >= 0
  {
    header % MAX_TYPES
  }

  function RearOf(header: int): nat
    requires header >= 0
  {
    header / MAX_TYPES
  }

  /** Packing loses nothing. */
  lemma PackRoundTrip(kind: nat, rear: nat)
    requires kind < MAX_TYPES
    ensures Pack(kind, rear) >= 0 && KindOf(Pack(kind, rear)) == kind
    ensures kind > 0 ==> RearOf(Pack(kind, rear)) == rear
  {
  }

  /** An array of longs whose n words behind the header are in range. */
  predicate WordsOk(words: seq<int>, n: nat) {
    |words| >= 1 + n && forall i :: 1 <= i <= n ==> 0 <= words[i] < WORD
  }

  function ToWords(words: seq<int>, n: nat): (ws: seq<Word>)
    requires WordsOk(words, n)
    ensures |ws| == n
  {
    seq(n, i requires 0 <= i < n => words[1 + i] as Word)
  }

  lemma WordsInPlace(words: seq<int>, n: nat)
    requires WordsOk(words, n)
    ensures ToWords(words, n) <= words[1..]
  {
  }

  /** A header that initstate or setstate left, with the words it announces. */
  predicate HeaderOk(words: seq<int>) {
    && |words| > 0 && words[0] >= 0 && WordsOk(words, Size(KindOf(words[0])))
    && (KindOf(words[0]) > 0 ==> RearOf(words[0]) < Deg(KindOf(words[0])))
  }

  /** The generator saved in an array that is not current. */
  function Saved(words: seq<int>): (g: Gen)
    requires HeaderOk(words)
    ensures GenOk(g)
  {
    var kind := KindOf(words[0]);
    Gen(kind, if kind == 0 then 0 else RearOf(words[0]), ToWords(words, Size(kind)))
  }

  /** The rear pointer that a header records. */
  function MarkOf(header: int): nat {
    if header < 0 || KindOf(header) == 0 then 0 else RearOf(header)
  }

  /** A state array in use: the generator, and the rear pointer its header records. */
  datatype Machine = Machine(gen: Gen, mark: nat)

  predicate MachineOk(m: Machine) {
    GenOk(m.gen) && (if m.gen.kind == 0 then m.mark == 0 else m.mark < Deg(m.gen.kind))
  }

  /** The header is up to date. */
  function Fresh(g: Gen): (m: Machine)
    requires GenOk(g)
    ensures MachineOk(m)
  {
    Machine(g, g.rear)
  }

  /** The rear pointer taken from the header, and the header from the rear pointer. */
  function Rewound(m: Machine): (r: Machine)
    requires MachineOk(m)
    ensures MachineOk(r)
  {
    Machine(Gen(m.gen.kind, m.mark, m.gen.words), m.gen.rear)
  }

  /** The header that says where the array of words was left: five times the rear pointer, and the type. */
  ghost predicate SavedIn(words: seq<int>, kind: nat, rear: nat, was: seq<int>) {
    |was| > 0 && words == was[0 := if kind == 0 then 0 else 5 * rear + kind]
  }

  class Random {
    var state: array<int>          // the current array; state[0] is the header
    var randType: nat
    var rptr: nat                  // rptr - state and fptr - state
    var fptr: nat
    ghost var known: set<array<int>>   // the arrays that have been initialised

    /** The static variables at the start of the program: a type 3 table with the rear pointer at 0. */
    constructor ()
      ensures Valid() && fresh(state) && known == {state} && state.Length == 1 + |RANDTBL|
      ensures Held(state) == Fresh(Gen(3, 0, RANDTBL))
    {
      var randtbl := new int[1 + |RANDTBL|];
      randtbl[0] := 3;
      for i := 0 to |RANDTBL|
        invariant randtbl[0] == 3 && forall j :: 0 <= j < i ==> randtbl[1 + j] == RANDTBL[j]
      {
        randtbl[1 + i] := RANDTBL[i];
      }
      state, randType, rptr, fptr, known := randtbl, 3, 0, Sep(3), {randtbl};
      new;
      assert forall i :: 1 <= i <= 31 ==> state[i] == RANDTBL[i - 1];
      assert ToWords(state[..], 31) == RANDTBL;
    }

    /** The current array holds the words of randType, and every other known array a saved state. */
    ghost predicate Running()
      reads this, known
    {
      && state in known && randType < MAX_TYPES && WordsOk(state[..], Size(randType))
      && (randType > 0 ==> rptr < Deg(randType) && fptr == Front(randType, rptr))
      && (forall a <- known :: a != state ==> HeaderOk(a[..]))
    }

    /** Between calls the current array has a header too, whose rear pointer may be out of date. */
    ghost predicate Valid()
      reads this, known
    {
      Running() && HeaderOk(state[..]) && KindOf(state[0]) == randType
    }

    /** What every array amounts to: the current one is described by the pointers, the others by
        their headers. */
    ghost function View(a: array<int>): (g: Gen)
      requires Running() && a in known
      reads this, known
      ensures GenOk(g)
    {
      if a == state then Gen(randType, if randType == 0 then 0 else rptr, ToWords(state[..], Size(randType)))
      else Saved(a[..])
    }

    ghost function Held(a: array<int>): (m: Machine)
      requires Running() && a in known
      reads this, known
      ensures Valid() ==> MachineOk(m)
    {
      Machine(View(a), MarkOf(a[0]))
    }

    /** random() */
    method Rand() returns (i: int)
      requires Running()
      modifies this`rptr, this`fptr, state
      ensures Running() && (old(Valid()) ==> Valid()) && state[0] == old(state[0])
      ensures View(state) == Next(old(View(state))).0 && i == Next(old(View(state))).1
      ensures OneCall(randType, old(state[..]), old(rptr), state[..], rptr, i)
      ensures forall a <- known :: a != state ==> Held(a) == old(Held(a))
    {
      if randType == 0 {
        i := RandOne();
      } else {
        i := RandRing();
      }
    }

    method RandOne() returns (i: int)
      requires Running() && randType == 0
      modifies state
      ensures Running() && (old(Valid()) ==> Valid()) && state[0] == old(state[0])
      ensures View(state) == Next(old(View(state))).0 && i == Next(old(View(state))).1
      ensures OneCall(randType, old(state[..]), old(rptr), state[..], rptr, i)
      ensures forall a <- known :: a != state ==> Held(a) == old(Held(a))
    {
      ghost var words, w := state[..], (state[1] * 1103515245 + 12345) % HALF;
      WordsUpdate(words, 1, 0, w);
      state[1] := (state[1] * 1103515245 + 12345) % HALF;
      i := state[1];
      assert state[..] == words[1 := w];
    }

    method RandRing() returns (i: int)
      requires Running() && randType > 0
      modifies this`rptr, this`fptr, state
      ensures Running() && (old(Valid()) ==> Valid()) && state[0] == old(state[0])
      ensures View(state) == Next(old(View(state))).0 && i == Next(old(View(state))).1
      ensures OneCall(randType, old(state[..]), old(rptr), state[..], rptr, i)
      ensures forall a <- known :: a != state ==> Held(a) == old(Held(a))
    {
      ghost var words, rear := state[..], rptr;
      i := RandSum();
      OneCallIs(randType, words, rear, state[..], rptr, i);
    }

    method RandSum() returns (i: int)
      requires Running() && randType > 0
      modifies this`rptr, this`fptr, state
      ensures Running() && (old(Valid()) ==> Valid()) && state[0] == old(state[0])
      ensures View(state) == Next(old(View(state))).0 && i == Next(old(View(state))).1
      ensures state[..] == old(state[..][1 + fptr := (state[1 + fptr] + state[1 + rptr]) % WORD])
      ensures i == state[1 + old(fptr)] / 2 && rptr == Wrap(Deg(randType), old(rptr) + 1)
      ensures forall a <- known :: a != state ==> Held(a) == old(Held(a))
    {
      ghost var words, w := state[..], (state[1 + fptr] + state[1 + rptr]) % WORD;
      AdvanceBoth(randType, rptr);
      WordsUpdate(words, Size(randType), fptr, w);
      state[1 + fptr] := (state[1 + fptr] + state[1 + rptr]) % WORD;
      assert state[..] == words[1 + fptr := w];
      i := state[1 + fptr] / 2;
      Advance();
    }

    /** srandom() */
    method Srandom(x: Word)
      requires state in known && randType < MAX_TYPES && state.Length >= 1 + Size(randType)
      requires forall a <- known :: a != state ==> HeaderOk(a[..])
      modifies this`rptr, this`fptr, state
      ensures Running() && state[0] == old(state[0]) && View(state) == Seeded(randType, x)
      ensures SeededArray(randType, state[..], rptr, x)
      ensures forall a <- known :: a != state ==> Held(a) == old(Fresh(Saved(a[..])))
    {
      if randType == 0 {
        state[1] := x;
        assert ToWords(state[..], 1) == [x];
      } else {
        Fill(x);
        RunIn(10 * Deg(randType));
        SeededAtStart(randType, x);
      }
      SeedingIs(randType, x);
      WordsInPlace(state[..], Size(randType));
    }

    /** Calls of random() whose numbers are discarded. */
    method RunIn(n: nat)
      requires Running()
      modifies this`rptr, this`fptr, state
      ensures Running() && (old(Valid()) ==> Valid()) && state[0] == old(state[0])
      ensures View(state) == After(old(View(state)), n)
      ensures forall a <- known :: a != state ==> Held(a) == old(Held(a))
    {
      for i := 0 to n
        invariant Running() && (old(Valid()) ==> Valid()) && state[0] == old(state[0])
        invariant View(state) == After(old(View(state)), i)
        invariant forall a <- known :: a != state ==> Held(a) == old(Held(a))
      {
        var r := Rand();
      }
    }

    /** What a run of calls returns. */
    method Draws(n: nat) returns (outs: seq<int>)
      requires Running()
      modifies this`rptr, this`fptr, state
      ensures Running() && |outs| == n && ArrayNumbers(randType, old(state[..]), old(rptr), outs)
    {
      ghost var words, kind, rear := state[..], randType, rptr;
      WordsInPlace(words, Size(kind));
      outs := DrawAll(n);
      NumbersAre(old(View(state)), outs);
      assert Numbers(kind, old(View(state)).words, rear, outs);
    }

    method DrawAll(n: nat) returns (outs: seq<int>)
      requires Running()
      modifies this`rptr, this`fptr, state
      ensures Running() && |outs| == n && Returned(old(View(state)), outs)
    {
      ghost var g := View(state);
      outs := [];
      for i := 0 to n
        invariant Running() && |outs| == i && Returned(g, outs) && View(state) == After(g, |outs|)
      {
        outs := DrawNext(g, outs);
      }
    }

    method DrawNext(ghost g: Gen, outs: seq<int>) returns (outs': seq<int>)
      requires Running() && Returned(g, outs) && View(state) == After(g, |outs|)
      modifies this`rptr, this`fptr, state
      ensures Running() && |outs'| == |outs| + 1 && Returned(g, outs') && View(state) == After(g, |outs'|)
    {
      var r := Rand();
      ReturnedNext(g, outs, r);
      outs' := outs + [r];
    }

    /** The linear congruential filling, and the pointers in their places. */
    method Fill(x: Word)
      requires state in known && 0 < randType < MAX_TYPES && state.Length >= 1 + Size(randType)
      requires forall a <- known :: a != state ==> HeaderOk(a[..])
      modifies this`rptr, this`fptr, state
      ensures Running() && state[0] == old(state[0])
      ensures View(state) == Gen(randType, 0, Lcg(x, Deg(randType)))
      ensures forall a <- known :: a != state ==> Held(a) == old(Fresh(Saved(a[..])))
    {
      state[1] := x;
      for i := 1 to Deg(randType)
        invariant state[0] == old(state[0]) && state[i] == Lcg(x, i)[i - 1]
        invariant forall j :: 0 <= j < i ==> state[1 + j] == Lcg(x, i)[j]
      {
        state[1 + i] := (1103515245 * state[i] + 12345) % WORD;
      }
      fptr, rptr := Sep(randType), 0;
      assert forall j :: 1 <= j <= Deg(randType) ==> state[..][j] == Lcg(x, Deg(randType))[j - 1];
      assert ToWords(state[..], Deg(randType)) == Lcg(x, Deg(randType));
    }

    /** The header of the current array brought up to date. */
    method SaveHeader()
      requires Running()
      modifies state
      ensures Valid() && known == old(known) && Saved(state[..]) == View(state)
      ensures state[0] == Pack(randType, rptr) && SavedIn(state[..], randType, rptr, old(state[..]))
      ensures Held(state) == Fresh(old(View(state)))
      ensures forall a <- known :: a != state ==> Held(a) == old(Held(a))
    {
      PackRoundTrip(randType, rptr);
      ghost var words := state[..];
      state[0] := if randType == 0 then randType else MAX_TYPES * rptr + randType;
      assert ToWords(state[..], Size(randType)) == ToWords(words, Size(randType));
    }

    /** initstate(): fewer than 8 bytes are refused; otherwise the array becomes current, freshly
        seeded, and every other array keeps its generator. */
    method Initstate(seed: Word, a: array<int>, n: int) returns (ostate: Option<array<int>>)
      requires Valid() && 4 * a.Length >= n
      modifies this, state, if n >= 8 then {a} else {}
      ensures Valid()
      ensures n < 8 ==> ostate == None && state == old(state) && known == old(known)
      ensures n >= 8 ==> ostate == Some(old(state)) && state == a && known == old(known) + {a}
      ensures n >= 8 ==> Held(a) == Fresh(Seeded(KindFor(n), seed))
      ensures n >= 8 ==>
                && randType ==
                   (if n < 32 then 0 else if n < 64 then 1 else if n < 128 then 2 else if n < 256 then 3 else 4)
                && a[0] == randType && SeededArray(randType, a[..], rptr, seed)
      ensures a != old(state) || n < 8 ==> SavedIn(old(state)[..], old(randType), old(rptr), old(state[..]))
      ensures n < 8 || a != old(state) ==> Held(old(state)) == Fresh(old(View(state)))
      ensures forall b <- old(known) :: b != old(state) && (n >= 8 ==> b != a) ==> Held(b) == old(Held(b))
    {
      ostate := None;
      SaveHeader();
      if n >= 8 {
        ostate := Some(state);
        Begin(seed, a, n);
      }
    }

    /** The half of initstate() after the size has been accepted. */
    method Begin(seed: Word, a: array<int>, n: int)
      requires Valid() && 4 * a.Length >= n >= 8 && Held(state) == Fresh(View(state))
      modifies this, a
      ensures Valid() && state == a && known == old(known) + {a} && Held(a) == Fresh(Seeded(KindFor(n), seed))
      ensures randType == (if n < 32 then 0 else if n < 64 then 1 else if n < 128 then 2 else if n < 256 then 3 else 4)
      ensures a[0] == randType && SeededArray(randType, a[..], rptr, seed)
      ensures forall b <- old(known) :: b != a ==> Held(b) == old(Held(b))
    {
      assert forall b <- known :: HeaderOk(b[..]) && Fresh(Saved(b[..])) == Held(b);
      randType, state, known := KindFor(n), a, known + {a};
      Srandom(seed);
      ghost var words := state[..];
      SaveHeader();
      assert words[1..] == state[..][1..];
    }

    /** setstate(): the array becomes current with the generator its header describes. An array
        other than the current one resumes exactly where it was left. The current array does so
        only if its header is up to date, because the header is read before it is refreshed. */
    method Setstate(b: array<int>) returns (ostate: array<int>)
      requires Valid() && b in known
      modifies this`state, this`randType, this`rptr, this`fptr, state
      ensures Valid() && state == b && ostate == old(state)
      ensures View(b) == old(Saved(b[..]))
      ensures randType == old(b[0]) % 5 && (randType > 0 ==> rptr == old(b[0]) / 5)
      ensures SavedIn(old(state)[..], old(randType), old(rptr), old(state[..]))
      ensures Held(b) == if b == old(state) then Rewound(old(Held(b))) else old(Held(b))
      ensures b != old(state) ==> Held(old(state)) == Fresh(old(View(state)))
      ensures forall a <- known :: a != b && a != old(state) ==> Held(a) == old(Held(a))
      ensures View(b) == old(View(b)) <==> b != old(state) || old(randType == 0 || RearOf(state[0]) == rptr)
    {
      var kind, rear := KindOf(b[0]), RearOf(b[0]);
      ostate := state;
      SaveHeader();
      Switch(b, kind, rear);
    }

    /** The array becomes current, with the kind and the rear pointer read from its header. */
    method Switch(b: array<int>, kind: nat, rear: nat)
      requires Valid() && Held(state) == Fresh(View(state)) && b in known
      requires kind == KindOf(b[0]) && (kind > 0 ==> rear < Deg(kind))
      modifies this`state, this`randType, this`rptr, this`fptr
      ensures Valid() && state == b
      ensures Held(b) == Machine(Gen(kind, if kind == 0 then 0 else rear, old(View(b)).words), MarkOf(b[0]))
      ensures forall a <- known :: a != b ==> Held(a) == old(Held(a))
    {
      assert forall a <- known :: HeaderOk(a[..]) && Fresh(Saved(a[..])) == Held(a);
      randType := kind;
      state := b;
      if randType != 0 {
        FrontIsMod(kind, rear);
        rptr := rear;
        fptr := (rear + Sep(kind)) % Deg(kind);
      }
    }

    /** setstate on the current array, n calls after its header was saved, changes nothing exactly
        when the pointers have gone round the ring a whole number of times in between. */
    method DrawThenSetstate(n: nat) returns (ostate: array<int>)
      requires Valid() && Held(state) == Fresh(View(state))
      modifies this`state, this`randType, this`rptr, this`fptr, state
      ensures Valid() && state == old(state) && known == old(known)
      ensures View(state) == After(old(View(state)), n) <==> randType == 0 || Wrap(Deg(randType), n) == 0
      ensures forall a <- known :: a != state ==> Held(a) == old(Held(a))
    {
      ghost var m := Held(state);
      RunIn(n);
      RewoundIff(m.gen, n);
      ostate := Setstate(state);
    }

    /** What all the known arrays amount to. */
    ghost function Views(): (m: map<array<int>, Machine>)
      requires Valid()
      reads this, known
      ensures m.Keys == known && forall a <- m :: MachineOk(m[a])
    {
      map a | a in known :: Held(a)
    }

    /** Any script of calls, with the outputs labelled by the array that was current: every array
        ends in the state, and has yielded the outputs, that its own calls would give if it were
        alone. */
    method Run(ops: seq<Op>) returns (outs: seq<(array<int>, int)>)
      requires Valid() && ScriptOk(ops, known)
      modifies this, known + Arrays(ops)
      ensures Valid() && known == old(known) + Arrays(ops)
      ensures Isolated(old(Views()), Views(), old(state), ops, outs)
      decreases |ops|
    {
      outs := [];
      if ops != [] {
        ghost var views0, state0 := Views(), state;
        var first := StepViews(ops[0]);
        ghost var views1, known1 := Views(), known;
        assert known1 + Arrays(ops[1..]) == old(known) + Arrays(ops);
        var rest := Run(ops[1..]);
        outs := first + rest;
        IsolatedCompose(views0, views1, Views(), state0, ops, first, rest);
      }
    }

    method StepViews(op: Op) returns (outs: seq<(array<int>, int)>)
      requires Valid() && OpOk(op, known)
      modifies this, known + Initialised(op)
      ensures Valid() && known == old(known) + Initialised(op) && state == Current(op, old(state))
      ensures Stepped(old(Views()), Views(), old(state), op, outs)
    {
      ghost var views, cur := Views(), state;
      assert forall a :: HeldOf(a) == Lookup(views, a);
      outs := Step(op);
      SteppedFrom(views, cur, op, outs);
    }

    lemma SteppedFrom(views: map<array<int>, Machine>, cur: array<int>, op: Op, outs: seq<(array<int>, int)>)
      requires Valid() && views.Keys <= known && (forall a <- views :: MachineOk(views[a]))
      requires cur in known && Initialised(op) <= known && |outs| <= 1 && (outs != [] ==> outs[0].0 in known)
      requires forall a <- known :: Acts(Lookup(views, a), EventOf(op, cur, a), Held(a), Outputs(outs, a))
      ensures Stepped(views, Views(), cur, op, outs)
    {
    }

    ghost function HeldOf(a: array<int>): (m: Option<Machine>)
      requires Valid()
      reads this, known
      ensures m.Some? ==> MachineOk(m.value)
    {
      if a in known then Some(Held(a)) else None
    }

    /** One call of a script. */
    method Step(op: Op) returns (outs: seq<(array<int>, int)>)
      requires Valid() && OpOk(op, known)
      modifies this, known + Initialised(op)
      ensures Valid() && known == old(known) + Initialised(op) && state == Current(op, old(state))
      ensures forall a <- known :: Acts(old(HeldOf(a)), EventOf(op, old(state), a), Held(a), Outputs(outs, a))
      ensures |outs| <= 1 && (outs != [] ==> outs[0].0 in known)
    {
      if op.RandOp? {
        outs := StepRand(op);
      } else {
        outs := [];
        if op.SeedOp? {
          StepSeed(op);
        } else if op.SetOp? {
          StepSet(op);
        } else {
          StepInit(op);
        }
      }
    }

    method StepRand(op: Op) returns (outs: seq<(array<int>, int)>)
      requires Valid() && op.RandOp?
      modifies this, known
      ensures Valid() && known == old(known) && state == old(state)
      ensures forall a <- known :: Acts(old(HeldOf(a)), EventOf(op, old(state), a), Held(a), Outputs(outs, a))
      ensures |outs| <= 1 && (outs != [] ==> outs[0].0 in known)
    {
      var i := Rand();
      outs := [(state, i)];
      forall a | a in known
        ensures Outputs(outs, a) == if a == state then [i] else []
      {
        OutputsOne((state, i), a);
      }
    }

    method StepSeed(op: Op)
      requires Valid() && op.SeedOp?
      modifies this, known
      ensures Valid() && known == old(known) && state == old(state)
      ensures forall a <- known :: Acts(old(HeldOf(a)), EventOf(op, old(state), a), Held(a), [])
    {
      Srandom(op.x);
    }

    method StepSet(op: Op)
      requires Valid() && op.SetOp? && op.a in known
      modifies this, known
      ensures Valid() && known == old(known) && state == op.a
      ensures forall a <- known :: Acts(old(HeldOf(a)), EventOf(op, old(state), a), Held(a), [])
    {
      var ostate := Setstate(op.a);
    }

    method StepInit(op: Op)
      requires Valid() && op.InitOp? && 4 * op.a.Length >= op.n
      modifies this, known + Initialised(op)
      ensures Valid() && known == old(known) + Initialised(op) && state == Current(op, old(state))
      ensures forall a <- known :: Acts(old(HeldOf(a)), EventOf(op, old(state), a), Held(a), [])
    {
      var ostate := Initstate(op.x, op.a, op.n);
    }

    /** fptr and rptr move on; the rear pointer is not tested when the front one has wrapped. */
    method Advance()
      requires 0 < randType < MAX_TYPES && rptr < Deg(randType) && fptr == Front(randType, rptr)
      modifies this`rptr, this`fptr
      ensures rptr == Wrap(Deg(randType), old(rptr) + 1) && fptr == Front(randType, rptr)
    {
      AdvanceBoth(randType, rptr);
      if fptr + 1 >= Deg(randType) {
        fptr := 0;
        rptr := rptr + 1;
      } else if rptr + 1 >= Deg(randType) {
        fptr := fptr + 1;
        rptr := 0;
      } else {
        fptr, rptr := fptr + 1, rptr + 1;
      }
    }
  }

  /** The first random number of a program. */
  method FirstNumber() returns (i: int)
    ensures i == 2078917053
  {
    var r := new Random();
    ghost var words := r.state[..];
    i := r.Rand();
    assert OneSum(words, 0, r.state[..], r.rptr, i, 31, 3);
  }

  /** A header saved at g is still right n calls later exactly when the pointers have gone round
      the ring a whole number of times. */
  lemma RewoundIff(g: Gen, n: nat)
    requires GenOk(g)
    ensures Rewound(Machine(After(g, n), g.rear)).gen == After(g, n) <==> g.kind == 0 || Wrap(Deg(g.kind), n) == 0
  {
    SameIff(After(g, n), g.rear);
    if g.kind > 0 {
      RearAfter(g, n);
      WrapBackIff(Deg(g.kind), g.rear, n);
    }
  }

  lemma SameIff(h: Gen, mark: nat)
    requires MachineOk(Machine(h, mark))
    ensures Rewound(Machine(h, mark)).gen == h <==> h.rear == mark
  {
  }

  lemma RearAfter(g: Gen, n: nat)
    requires GenOk(g) && g.kind > 0
    ensures After(g, n).rear == Wrap(Deg(g.kind), g.rear + n)
  {
    RingHolds(g, n);
  }

  lemma WrapBackIff(d: nat, r: nat, n: nat)
    requires r < d
    ensures Wrap(d, r + n) == r <==> Wrap(d, n) == 0
  {
    var w := Wrap(d, n);
    WrapPlus(d, n, r);
    assert n + r == r + n && w + r == r + w;
    if w > 0 { WrapOther(d, r, w); }
  }

  // ---------------------------------------------------------------- scripts of calls

  datatype Op = RandOp | SeedOp(x: Word) | SetOp(a: array<int>) | InitOp(x: Word, a: array<int>, n: int)

  /** What a call means to one array. */
  datatype Event = Draw | Reseed(x: Word) | Init(n: nat, x: Word) | Save | Rewind

  /** The array that a call initialises. */
  ghost function Initialised(op: Op): set<array<int>> {
    if op.InitOp? && op.n >= 8 then {op.a} else {}
  }

  ghost function Arrays(ops: seq<Op>): set<array<int>> {
    if ops == [] then {} else Initialised(ops[0]) + Arrays(ops[1..])
  }

  function Current(op: Op, cur: array<int>): array<int> {
    if op.SetOp? || (op.InitOp? && op.n >= 8) then op.a else cur
  }

  /** setstate is given initialised arrays, and initstate is told the size. */
  ghost predicate ScriptOk(ops: seq<Op>, known: set<array<int>>)
    decreases |ops|
  {
    ops != [] ==> OpOk(ops[0], known) && ScriptOk(ops[1..], known + Initialised(ops[0]))
  }

  ghost predicate OpOk(op: Op, known: set<array<int>>) {
    (op.SetOp? ==> op.a in known) && (op.InitOp? ==> 4 * op.a.Length >= op.n)
  }

  ghost function EventOf(op: Op, cur: array<int>, a: array<int>): seq<Event> {
    match op
    case RandOp => if a == cur then [Draw] else []
    case SeedOp(x) => if a == cur then [Reseed(x)] else []
    case SetOp(b) => if a != cur then [] else if a == b then [Rewind] else [Save]
    case InitOp(x, b, n) => if a == b && n >= 8 then [Init(n, x)] else if a == cur then [Save] else []
  }

  /** The calls that concern array a, in order. */
  ghost function Events(ops: seq<Op>, cur: array<int>, a: array<int>): seq<Event>
    decreases |ops|
  {
    if ops == [] then [] else EventOf(ops[0], cur, a) + Events(ops[1..], Current(ops[0], cur), a)
  }

  /** One event for one array. */
  ghost function React(m: Option<Machine>, e: Event): (r: (Option<Machine>, seq<int>))
    requires m.Some? ==> MachineOk(m.value)
    ensures r.0.Some? ==> MachineOk(r.0.value)
  {
    if e.Init? then (Some(Fresh(Seeded(KindFor(e.n), e.x))), [])
    else if m.None? then (None, [])
    else
      var g, mark := m.value.gen, m.value.mark;
      match e
      case Reseed(x) => (Some(Machine(Seeded(g.kind, x), mark)), [])
      case Draw => (Some(Machine(Next(g).0, mark)), [Next(g).1])
      case Save => (Some(Fresh(g)), [])
      case Rewind => (Some(Rewound(m.value)), [])
  }

  /** One generator running alone: the state it ends in and what it returned. */
  ghost function Solo(m: Option<Machine>, es: seq<Event>): (r: (Option<Machine>, seq<int>))
    requires m.Some? ==> MachineOk(m.value)
    ensures r.0.Some? ==> MachineOk(r.0.value)
    decreases |es|
  {
    if es == [] then (m, [])
    else
      var (m', out) := React(m, es[0]);
      (Solo(m', es[1..]).0, out + Solo(m', es[1..]).1)
  }

  /** The source promises that setstate may be called with the current array. One number after
      initstate it is not so: initstate(x, a, 128); random(); setstate(a) moves the rear pointer back
      over words that have already changed. */
  lemma SetstateRewinds(x: Word)
    ensures var drawn := Solo(None, [Init(128, x), Draw]).0;
            var after := Solo(None, [Init(128, x), Draw, Rewind]).0;
            drawn.Some? && after.Some? && after.value.gen != drawn.value.gen &&
            after.value.gen.words == drawn.value.gen.words && drawn.value.gen.rear == 1 && after.value.gen.rear == 0
  {
    var g := Seeded(3, x);
    SeededAtStart(3, x);
    var h := Next(g).0;
    assert Wrap(31, 0 + 1) == 1;
    SoloThree(x, g, h);
  }

  lemma SoloThree(x: Word, g: Gen, h: Gen)
    requires g == Seeded(3, x) && h == Next(g).0
    ensures Solo(None, [Init(128, x), Draw]).0 == Some(Machine(h, g.rear))
    ensures Solo(None, [Init(128, x), Draw, Rewind]).0 == Some(Rewound(Machine(h, g.rear)))
  {
    assert [Init(128, x), Draw][1..] == [Draw] && [Draw][1..] == [];
    assert [Init(128, x), Draw, Rewind][1..] == [Draw, Rewind];
    assert [Draw, Rewind][1..] == [Rewind] && [Rewind][1..] == [];
  }

  ghost function Lookup(m: map<array<int>, Machine>, a: array<int>): Option<Machine> {
    if a in m then Some(m[a]) else None
  }

  /** From views0 to views1, every array behaved as if it were alone. */
  ghost predicate Isolated(views0: map<array<int>, Machine>, views1: map<array<int>, Machine>, cur: array<int>,
                           ops: seq<Op>, outs: seq<(array<int>, int)>)
  {
    && (forall a <- views0 :: MachineOk(views0[a])) && (forall a <- views1 :: MachineOk(views1[a]))
    && forall a <- views1 :: Solo(Lookup(views0, a), Events(ops, cur, a)) == (Some(views1[a]), Outputs(outs, a))
  }

  /** At most one event, seen from one array. */
  ghost predicate Acts(m: Option<Machine>, e: seq<Event>, m': Machine, out: seq<int>) {
    && (m.Some? ==> MachineOk(m.value)) && MachineOk(m') && |e| <= 1
    && (if e == [] then m == Some(m') && out == [] else React(m, e[0]) == (Some(m'), out))
  }

  /** From views0 to views1, one call, seen from every array. */
  ghost predicate Stepped(views0: map<array<int>, Machine>, views1: map<array<int>, Machine>, cur: array<int>, op: Op,
                          outs: seq<(array<int>, int)>)
  {
    && views0.Keys <= views1.Keys && (forall a <- views0 :: MachineOk(views0[a]))
    && cur in views1 && Initialised(op) <= views1.Keys && |outs| <= 1 && (outs != [] ==> outs[0].0 in views1)
    && forall a <- views1 :: Acts(Lookup(views0, a), EventOf(op, cur, a), views1[a], Outputs(outs, a))
  }

  lemma ActsThenSolo(m: Option<Machine>, e: seq<Event>, m': Machine, out: seq<int>, es: seq<Event>)
    requires Acts(m, e, m', out)
    ensures Solo(m, e + es) == (Solo(Some(m'), es).0, out + Solo(Some(m'), es).1)
  {
    if e == [] {
      assert e + es == es && [] + Solo(m, es).1 == Solo(m, es).1;
    } else {
      assert (e + es)[1..] == es && (e + es)[0] == e[0];
    }
  }

  lemma IsolatedOne(view0: Option<Machine>, view1: Option<Machine>, view2: Machine, cur: array<int>, ops: seq<Op>,
                    first: seq<(array<int>, int)>, rest: seq<(array<int>, int)>, a: array<int>)
    requires ops != [] && (view0.Some? ==> MachineOk(view0.value)) && (view1.Some? ==> MachineOk(view1.value))
    requires if view1.Some? then Acts(view0, EventOf(ops[0], cur, a), view1.value, Outputs(first, a))
             else view0.None? && EventOf(ops[0], cur, a) == [] && Outputs(first, a) == []
    requires Solo(view1, Events(ops[1..], Current(ops[0], cur), a)) == (Some(view2), Outputs(rest, a))
    ensures Solo(view0, Events(ops, cur, a)) == (Some(view2), Outputs(first + rest, a))
  {
    OutputsAppend(first, rest, a);
    var e, es := EventOf(ops[0], cur, a), Events(ops[1..], Current(ops[0], cur), a);
    assert Events(ops, cur, a) == e + es;
    if view1.Some? {
      ActsThenSolo(view0, e, view1.value, Outputs(first, a), es);
    } else {
      assert e + es == es && [] + Outputs(rest, a) == Outputs(rest, a);
    }
  }

  lemma IsolatedCompose(views0: map<array<int>, Machine>, views1: map<array<int>, Machine>,
                        views2: map<array<int>, Machine>,
                        cur: array<int>, ops: seq<Op>, first: seq<(array<int>, int)>, rest: seq<(array<int>, int)>)
    requires ops != [] && Stepped(views0, views1, cur, ops[0], first)
    requires Isolated(views1, views2, Current(ops[0], cur), ops[1..], rest)
    ensures Isolated(views0, views2, cur, ops, first + rest)
  {
    forall a | a in views2
      ensures Solo(Lookup(views0, a), Events(ops, cur, a)) == (Some(views2[a]), Outputs(first + rest, a))
    {
      if a !in views1 { NoPart(ops[0], cur, first, a, views1.Keys); }
      IsolatedOne(Lookup(views0, a), Lookup(views1, a), views2[a], cur, ops, first, rest, a);
    }
  }

  lemma NoPart(op: Op, cur: array<int>, outs: seq<(array<int>, int)>, a: array<int>, known: set<array<int>>)
    requires cur in known && Initialised(op) <= known && a !in known
    requires |outs| <= 1 && (outs != [] ==> outs[0].0 in known)
    ensures EventOf(op, cur, a) == [] && Outputs(outs, a) == []
  {
  }

  ghost function Outputs(outs: seq<(array<int>, int)>, a: array<int>): seq<int> {
    if outs == [] then []
    else (if outs[0].0 == a then [outs[0].1] else []) + Outputs(outs[1..], a)
  }

  lemma Regroup<T>(u: seq<T>, v: seq<T>, w: seq<T>)
    ensures u + (v + w) == (u + v) + w
  {
  }

  lemma OutputsOne(o: (array<int>, int), a: array<int>)
    ensures Outputs([o], a) == if o.0 == a then [o.1] else []
  {
    assert [o][1..] == [];
  }

  lemma {:induction false} OutputsAppend(u: seq<(array<int>, int)>, w: seq<(array<int>, int)>, a: array<int>)
    ensures Outputs(u + w, a) == Outputs(u, a) + Outputs(w, a)
  {
    if u == [] {
      assert u + w == w;
    } else {
      OutputsAppend(u[1..], w, a);
      var first := if u[0].0 == a then [u[0].1] else [];
      assert (u + w)[1..] == u[1..] + w;
      Regroup(first, Outputs(u[1..], a), Outputs(w, a));
    }
  }

  /** The two pointers wrap as their distance requires, and never on the same call. */
  lemma AdvanceBoth(kind: nat, rear: nat)
    requires 0 < kind < MAX_TYPES && rear < Deg(kind)
    ensures var d, f := Deg(kind), Front(kind, rear);
            f < d && f != rear && (f + 1 == d ==> rear + 1 < d) &&
            Wrap(d, rear + 1) == (if rear + 1 == d then 0 else rear + 1) &&
            Front(kind, Wrap(d, rear + 1)) == (if f + 1 == d then 0 else f + 1)
  {
    var d, s := Deg(kind), Sep(kind);
    assert 0 < s < d;
    assert Wrap(d, rear + s) == if rear + s < d then rear + s else rear + s - d;
    assert Wrap(d, rear + 1) == if rear + 1 < d then rear + 1 else 0;
    assert rear + 1 < d ==> Wrap(d, rear + 1 + s) == if rear + 1 + s < d then rear + 1 + s else rear + 1 + s - d;
  }

  /** Writing one word of the state. */
  lemma WordsUpdate(words: seq<int>, n: nat, f: nat, w: Word)
    requires WordsOk(words, n) && f < n
    ensures var words' := words[1 + f := w];
            WordsOk(words', n) && ToWords(words', n) == ToWords(words, n)[f := w] &&
            (HeaderOk(words) && Size(KindOf(words[0])) == n ==> HeaderOk(words'))
    ensures forall j :: 0 <= j < n ==> ToWords(words, n)[j] == words[1 + j]
  {
    var words' := words[1 + f := w];
    assert ToWords(words', n) == ToWords(words, n)[f := w];
  }
}
