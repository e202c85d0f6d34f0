/**
  Keyed lists in a heap of shared, reference-counted Tcl objects.

  A reference is an index into the heap. Holders outside the heap (variables, argument vectors,
  elements of Tcl lists) are slots. The valuation `vals` gives the value each object denotes; it
  is pinned down locally, object by object, and ValuationUnique shows there is only one.
*/
module KeyedObjects {
  import opened Common
  import opened KeyedValue
  import opened KeyedLevel

  type Ref = nat

  /** Internal representation: not (yet) a keyed list, or a converted level of children. */
  datatype Rep = Plain(v: Value) | Keyed(level: Level<Ref>)

  /** A Tcl_Obj; bytes is the cached string, modelled as the value it was made from. */
  datatype Obj = Obj(refCount: int, bytes: Option<Value>, rep: Rep)

  function Refs(es: seq<Entry<Ref>>): (cs: seq<Ref>)
    ensures |cs| == |es| && forall i :: 0 <= i < |es| ==> cs[i] == es[i].value
  {
    seq(|es|, i requires 0 <= i < |es| => es[i].value)
  }

  function Children(o: Obj): seq<Ref> {
    if o.rep.Keyed? then Refs(o.rep.level.entries) else []
  }

  predicate Below(cs: seq<Ref>, n: nat) {
    forall i :: 0 <= i < |cs| ==> cs[i] < n
  }

  function Values(es: seq<Entry<Ref>>, vals: seq<Value>): (r: seq<Entry<Value>>)
    requires Below(Refs(es), |vals|)
    ensures |r| == |es|
  {
    seq(|es|, i requires 0 <= i < |es| => assert Refs(es)[i] < |vals|; Entry(es[i].key, vals[es[i].value]))
  }

  /** What an object denotes, given what its children denote. */
  function Denote(o: Obj, vals: seq<Value>): Value
    requires Below(Children(o), |vals|)
  {
    match o.rep
    case Plain(v) => v
    case Keyed(l) => FromEntries(Values(l.entries, vals))
  }

  /** How often c occurs in s. */
  ghost function Occ(s: seq<Ref>, c: Ref): nat {
    if s == [] then 0 else Occ(s[..|s| - 1], c) + (if s[|s| - 1] == c then 1 else 0)
  }

  /** How many slots hold c. */
  ghost function Slots(slots: seq<Option<Ref>>, c: Ref): nat {
    if slots == [] then 0
    else Slots(slots[..|slots| - 1], c) + (if slots[|slots| - 1] == Some(c) then 1 else 0)
  }

  /** How many references to c the heap objects hold. */
  ghost function Edges(objs: seq<Obj>, c: Ref): nat {
    if objs == [] then 0 else Edges(objs[..|objs| - 1], c) + Occ(Children(objs[|objs| - 1]), c)
  }

  ghost predicate WellFormed(o: Obj, n: nat) {
    Below(Children(o), n) && (o.rep.Keyed? ==> IndexOk(o.rep.level))
  }

  /** The object's representation and its cached string both denote v. */
  ghost predicate Consistent(o: Obj, vals: seq<Value>, v: Value) {
    Below(Children(o), |vals|) && Denote(o, vals) == v && (o.bytes.Some? ==> o.bytes.value == v)
  }

  ghost function Held(objs: seq<Obj>, slots: seq<Option<Ref>>, c: Ref): nat {
    Edges(objs, c) + Slots(slots, c)
  }

  ghost predicate Shaped(objs: seq<Obj>, slots: seq<Option<Ref>>) {
    && (forall x :: 0 <= x < |objs| ==> WellFormed(objs[x], |objs|))
    && (forall s :: 0 <= s < |slots| && slots[s].Some? ==> slots[s].value < |objs|)
  }

  /** A reference count may exceed the number of holders but never falls short of it. */
  ghost predicate Counted(objs: seq<Obj>, slots: seq<Option<Ref>>) {
    forall x :: 0 <= x < |objs| ==> Held(objs, slots, x) <= objs[x].refCount
  }

  /** vals is right, except perhaps at the objects in A (the ancestors of an update in progress). */
  ghost predicate Valued(objs: seq<Obj>, vals: seq<Value>, A: set<Ref>) {
    |vals| == |objs| && forall x :: 0 <= x < |objs| && x !in A ==> Consistent(objs[x], vals, vals[x])
  }

  // ---------------------------------------------------------------- edges and holders

  lemma {:induction false} OccUpdate(s: seq<Ref>, i: nat, x: Ref, c: Ref)
    requires i < |s|
    ensures Occ(s[i := x], c) == Occ(s, c) - (if s[i] == c then 1 else 0) + (if x == c then 1 else 0)
  {
    var n := |s| - 1;
    var t := s[i := x];
    assert t != [] && t[..n] == if i == n then s[..n] else s[..n][i := x];
    if i < n { OccUpdate(s[..n], i, x, c); }
  }

  lemma {:induction false} OccRemove(s: seq<Ref>, i: nat, c: Ref)
    requires i < |s|
    ensures Occ(s[..i] + s[i + 1..], c) == Occ(s, c) - (if s[i] == c then 1 else 0)
  {
    var n := |s| - 1;
    var t := s[..i] + s[i + 1..];
    if i == n {
      assert t == s[..n];
    } else {
      assert t[..n - 1] == s[..n][..i] + s[..n][i + 1..] && t[n - 1] == s[n];
      OccRemove(s[..n], i, c);
    }
  }

  lemma {:induction false} OccIn(s: seq<Ref>, c: Ref)
    ensures c in s <==> Occ(s, c) > 0
  {
    if s != [] {
      assert s == s[..|s| - 1] + [s[|s| - 1]];
      OccIn(s[..|s| - 1], c);
    }
  }

  lemma OccTwice(s: seq<Ref>, i: nat, j: nat)
    requires i < |s| && j < |s| && i != j && s[i] == s[j]
    ensures Occ(s, s[i]) >= 2
  {
    OccRemove(s, i, s[i]);
    var t := s[..i] + s[i + 1..];
    assert t[if j < i then j else j - 1] == s[i];
    OccIn(t, s[i]);
  }

  lemma {:induction false} SlotsIn(slots: seq<Option<Ref>>, c: Ref)
    ensures Some(c) in slots <==> Slots(slots, c) > 0
  {
    if slots != [] {
      assert slots == slots[..|slots| - 1] + [slots[|slots| - 1]];
      SlotsIn(slots[..|slots| - 1], c);
    }
  }

  lemma {:induction false} SlotsUpdate(slots: seq<Option<Ref>>, i: nat, x: Option<Ref>, c: Ref)
    requires i < |slots|
    ensures Slots(slots[i := x], c) ==
            Slots(slots, c) - (if slots[i] == Some(c) then 1 else 0) + (if x == Some(c) then 1 else 0)
  {
    var n := |slots| - 1;
    var t := slots[i := x];
    assert t != [] && t[..n] == if i == n then slots[..n] else slots[..n][i := x];
    if i < n { SlotsUpdate(slots[..n], i, x, c); }
  }

  lemma {:induction false} EdgesUpdate(objs: seq<Obj>, x: nat, o: Obj, c: Ref)
    requires x < |objs|
    ensures Edges(objs[x := o], c) == Edges(objs, c) - Occ(Children(objs[x]), c) + Occ(Children(o), c)
  {
    AllButLast(objs, x, o);
    if x < |objs| - 1 { EdgesUpdate(objs[..|objs| - 1], x, o, c); }
  }

  lemma AllButLast<T>(s: seq<T>, x: nat, o: T)
    requires x < |s|
    ensures var n := |s| - 1; s[x := o][..n] == if x == n then s[..n] else s[..n][x := o]
  {
  }

  lemma HolderCounts(objs: seq<Obj>, x: nat, y: nat, c: Ref)
    requires x < |objs| && y < |objs|
    ensures Occ(Children(objs[x]), c) <= Edges(objs, c)
    ensures x != y ==> Occ(Children(objs[x]), c) + Occ(Children(objs[y]), c) <= Edges(objs, c)
  {
    var none := Obj(0, None, Plain(List([])));
    EdgesUpdate(objs, x, none, c);
    EdgesUpdate(objs[x := none], y, none, c);
  }

  lemma {:induction false} NoHolderNoEdge(objs: seq<Obj>, c: Ref)
    requires forall x :: 0 <= x < |objs| ==> c !in Children(objs[x])
    ensures Edges(objs, c) == 0
  {
    if objs != [] {
      OccIn(Children(objs[|objs| - 1]), c);
      NoHolderNoEdge(objs[..|objs| - 1], c);
    }
  }

  /** Every holder of a member of C is itself in C. */
  ghost predicate UpClosed(objs: seq<Obj>, C: set<Ref>) {
    && (forall c <- C :: c < |objs|)
    && (forall x, c :: 0 <= x < |objs| && c in C && c in Children(objs[x]) ==> x in C)
  }

  /** Every reference to an older object, other than to v, is an older reference. */
  ghost predicate OldEdgesOnly(objs0: seq<Obj>, objs1: seq<Obj>, v: int) {
    |objs0| <= |objs1| &&
    forall x, c :: 0 <= x < |objs1| && c in Children(objs1[x]) && c < |objs0| && c != v ==>
      x < |objs0| && c in Children(objs0[x])
  }

  /** All references held by objects from n on lead to n or beyond. */
  ghost predicate NewFrom(objs: seq<Obj>, n: nat) {
    forall x, y :: n <= x < |objs| && y in Children(objs[x]) ==> y >= n
  }

  /** Appending objects that refer to each other only, and letting o refer to them. */
  lemma EditEdges(objs0: seq<Obj>, mid: seq<Obj>, o: Ref, o': Obj)
    requires objs0 <= mid && NewFrom(mid, |objs0|) && o < |objs0|
    requires forall c :: c in Children(o') && c < |objs0| ==> c in Children(objs0[o])
    ensures OldEdgesOnly(objs0, mid[o := o'], -1)
  {
    var objs1 := mid[o := o'];
    forall x, c | 0 <= x < |objs1| && c in Children(objs1[x]) && c < |objs0| && c != -1
      ensures x < |objs0| && c in Children(objs0[x])
    {
      if x != o { assert objs1[x] == mid[x]; }
    }
  }

  lemma UpClosedStays(objs0: seq<Obj>, objs1: seq<Obj>, v: int, C: set<Ref>)
    requires UpClosed(objs0, C) && OldEdgesOnly(objs0, objs1, v) && v !in C
    ensures UpClosed(objs1, C)
  {
  }

  lemma OldEdgesCompose(objs0: seq<Obj>, objs1: seq<Obj>, objs2: seq<Obj>, u: int, v: int)
    requires OldEdgesOnly(objs0, objs1, u) && OldEdgesOnly(objs1, objs2, v)
    requires u < 0 || u == v
    ensures OldEdgesOnly(objs0, objs2, v)
  {
  }

  /** An object counted at most once and held by entry i of o has no other holder. */
  lemma SoleHolder(objs: seq<Obj>, slots: seq<Option<Ref>>, o: Ref, i: nat, c: Ref)
    requires Counted(objs, slots) && o < |objs| && c < |objs| && objs[c].refCount <= 1
    requires i < |Children(objs[o])| && Children(objs[o])[i] == c
    ensures Some(c) !in slots
    ensures forall x :: 0 <= x < |objs| && c in Children(objs[x]) ==> x == o
    ensures forall j :: 0 <= j < |Children(objs[o])| && j != i ==> Children(objs[o])[j] != c
  {
    SlotsIn(slots, c);
    OccIn(Children(objs[o]), c);
    HolderCounts(objs, o, o, c);
    assert Held(objs, slots, c) <= 1;
    forall x | 0 <= x < |objs| && c in Children(objs[x]) ensures x == o {
      OccIn(Children(objs[x]), c);
      HolderCounts(objs, o, x, c);
    }
    forall j | 0 <= j < |Children(objs[o])| && j != i ensures Children(objs[o])[j] != c {
      if Children(objs[o])[j] == c { OccTwice(Children(objs[o]), i, j); }
    }
  }

  /** Appending objects whose references all lead to appended objects. */
  lemma {:induction false} AppendedEdges(objs0: seq<Obj>, objs1: seq<Obj>, c: Ref)
    requires objs0 <= objs1 && c < |objs0|
    requires forall x :: |objs0| <= x < |objs1| ==> c !in Children(objs1[x])
    ensures Edges(objs1, c) == Edges(objs0, c)
  {
    if |objs0| < |objs1| {
      OccIn(Children(objs1[|objs1| - 1]), c);
      AppendedEdges(objs0, objs1[..|objs1| - 1], c);
    } else {
      assert objs0 == objs1;
    }
  }

  lemma {:induction false} OccIncreasing(s: seq<Ref>, c: Ref)
    requires forall i, j :: 0 <= i < j < |s| ==> s[i] < s[j]
    ensures Occ(s, c) == if c in s then 1 else 0
  {
    if s != [] {
      var n := |s| - 1;
      assert s == s[..n] + [s[n]];
      OccIncreasing(s[..n], c);
    }
  }

  // ---------------------------------------------------------------- values

  function Size(v: Value): (n: nat)
    ensures n >= 1
  {
    match v
    case Atom(_) => 1
    case List(vs) => 1 + Sizes(vs)
    case Stored(es) => 1 + EntrySizes(es)
  }

  function EntrySizes(es: seq<Entry<Value>>): nat {
    if es == [] then 0 else Size(es[0].value) + EntrySizes(es[1..])
  }

  function Sizes(vs: seq<Value>): nat {
    if vs == [] then 0 else Size(vs[0]) + Sizes(vs[1..])
  }

  lemma {:induction false} SizeAt(vs: seq<Value>, i: nat)
    requires i < |vs|
    ensures Size(vs[i]) <= Sizes(vs)
  {
    if i > 0 { SizeAt(vs[1..], i - 1); }
  }

  lemma {:induction false} EntrySizeAt(es: seq<Entry<Value>>, i: nat)
    requires i < |es|
    ensures Size(es[i].value) <= EntrySizes(es)
  {
    if i > 0 { EntrySizeAt(es[1..], i - 1); }
  }

  lemma ChildSmaller(o: Obj, vals: seq<Value>, i: nat)
    requires o.rep.Keyed? && Below(Children(o), |vals|) && i < |o.rep.level.entries|
    ensures Children(o)[i] < |vals| && Size(vals[Children(o)[i]]) < Size(Denote(o, vals))
  {
    var e := o.rep.level.entries[i];
    var v, es := Denote(o, vals), Values(o.rep.level.entries, vals);
    if v.Stored? {
      EntrySizeAt(es, i);
    } else {
      assert v.elems[i] == Pair(e.key, vals[e.value]);
      SizeAt(v.elems, i);
      SizeAt(v.elems[i].elems, 1);
    }
  }

  /** The denotation of a heap is unique: two valuations that are locally right are equal. */
  lemma {:induction false} ValuationUnique(objs: seq<Obj>, u: seq<Value>, w: seq<Value>, x: Ref)
    requires x < |objs| && Valued(objs, u, {}) && Valued(objs, w, {})
    ensures u[x] == w[x]
    decreases Size(u[x])
  {
    if objs[x].rep.Keyed? {
      var es := objs[x].rep.level.entries;
      forall i | 0 <= i < |es| ensures es[i].value < |objs| && u[es[i].value] == w[es[i].value] {
        ChildSmaller(objs[x], u, i);
        assert Children(objs[x])[i] == es[i].value;
        ValuationUnique(objs, u, w, es[i].value);
      }
      assert Values(es, u) == Values(es, w);
    }
  }

  /** Growing the valuation does not change what older objects denote. */
  lemma DenoteFrame(o: Obj, vals0: seq<Value>, vals1: seq<Value>)
    requires Below(Children(o), |vals0|) && Below(Children(o), |vals1|)
    requires forall c :: c in Children(o) && c < |vals0| ==> c < |vals1| && vals0[c] == vals1[c]
    ensures Denote(o, vals0) == Denote(o, vals1)
  {
    if o.rep.Keyed? {
      var es := o.rep.level.entries;
      forall i | 0 <= i < |es| ensures Values(es, vals0)[i] == Values(es, vals1)[i] {
        assert Refs(es)[i] in Children(o);
      }
      assert Values(es, vals0) == Values(es, vals1);
    }
  }

  // ---------------------------------------------------------------- elementary heap steps

  lemma AllocEdges(objs: seq<Obj>, o: Obj, c: Ref)
    requires forall x :: 0 <= x < |objs| ==> Below(Children(objs[x]), |objs|)
    requires Below(Children(o), |objs|)
    ensures Edges(objs + [o], c) == Edges(objs, c) + Occ(Children(o), c)
    ensures c == |objs| ==> Edges(objs + [o], c) == 0
  {
    assert (objs + [o])[..|objs|] == objs;
    if c == |objs| {
      NoHolderNoEdge(objs, c);
      OccIn(Children(o), c);
    }
  }

  lemma AllocCounted(objs: seq<Obj>, slots: seq<Option<Ref>>, o: Obj)
    requires Shaped(objs, slots) && Counted(objs, slots) && WellFormed(o, |objs|) && o.refCount >= 0
    requires forall x :: 0 <= x < |objs| ==> Held(objs, slots, x) + Occ(Children(o), x) <= objs[x].refCount
    ensures Shaped(objs + [o], slots) && Counted(objs + [o], slots)
  {
    var objs1 := objs + [o];
    forall x | 0 <= x < |objs1| ensures Held(objs1, slots, x) <= objs1[x].refCount {
      AllocEdges(objs, o, x);
      SlotsIn(slots, x);
      assert x < |objs| ==> Held(objs1, slots, x) == Held(objs, slots, x) + Occ(Children(o), x);
    }
  }

  lemma AllocValued(objs: seq<Obj>, vals: seq<Value>, A: set<Ref>, o: Obj)
    requires Valued(objs, vals, A) && Below(Children(o), |objs|)
    requires forall x :: 0 <= x < |objs| ==> Below(Children(objs[x]), |objs|)
    requires o.bytes.Some? ==> o.bytes.value == Denote(o, vals)
    ensures Valued(objs + [o], vals + [Denote(o, vals)], A)
  {
    var objs1, vals1 := objs + [o], vals + [Denote(o, vals)];
    forall x | 0 <= x < |objs1| && x !in A ensures Consistent(objs1[x], vals1, vals1[x]) {
      assert Below(Children(objs1[x]), |vals|);
      DenoteFrame(objs1[x], vals, vals1);
    }
  }

  function WithCount(objs: seq<Obj>, c: Ref, n: int): seq<Obj>
    requires c < |objs|
  {
    objs[c := objs[c].(refCount := n)]
  }

  /** One object more is held, or one less; every other count is as it was. */
  ghost predicate CountsMoved(objs0: seq<Obj>, objs1: seq<Obj>, up: Option<Ref>, down: Option<Ref>) {
    |objs0| == |objs1| && forall x :: 0 <= x < |objs0| ==>
      objs1[x].refCount == objs0[x].refCount + (if up == Some(x) then 1 else 0) - (if down == Some(x) then 1 else 0)
  }

  lemma RefCountStep(objs: seq<Obj>, slots: seq<Option<Ref>>, c: Ref, n: int)
    requires Shaped(objs, slots) && Counted(objs, slots) && c < |objs| && Held(objs, slots, c) <= n
    ensures Shaped(WithCount(objs, c, n), slots) && Counted(WithCount(objs, c, n), slots)
    ensures forall x :: Edges(WithCount(objs, c, n), x) == Edges(objs, x)
  {
    forall x ensures Edges(WithCount(objs, c, n), x) == Edges(objs, x) {
      EdgesUpdate(objs, c, objs[c].(refCount := n), x);
    }
  }

  lemma RefCountValued(objs: seq<Obj>, vals: seq<Value>, A: set<Ref>, c: Ref, n: int)
    requires Valued(objs, vals, A) && c < |objs|
    ensures Valued(WithCount(objs, c, n), vals, A)
  {
  }

  lemma ReplaceCounted(objs: seq<Obj>, slots: seq<Option<Ref>>, x: Ref, o: Obj)
    requires Shaped(objs, slots) && Counted(objs, slots) && x < |objs| && WellFormed(o, |objs|)
    requires o.refCount == objs[x].refCount
    requires forall c :: 0 <= c < |objs| ==>
               Held(objs, slots, c) - Occ(Children(objs[x]), c) + Occ(Children(o), c) <= objs[c].refCount
    ensures Shaped(objs[x := o], slots) && Counted(objs[x := o], slots)
  {
    var objs1 := objs[x := o];
    forall c | 0 <= c < |objs1| ensures Held(objs1, slots, c) <= objs1[c].refCount {
      EdgesUpdate(objs, x, o, c);
      assert Held(objs1, slots, c) == Held(objs, slots, c) - Occ(Children(objs[x]), c) + Occ(Children(o), c);
    }
  }

  /** Replace an object by one that denotes the same value. */
  lemma ReplaceSame(objs: seq<Obj>, vals: seq<Value>, A: set<Ref>, x: Ref, o: Obj)
    requires Valued(objs, vals, A) && x < |objs| && Consistent(o, vals, vals[x])
    ensures Valued(objs[x := o], vals, A)
  {
  }

  /** Replace an object by one with a new value: right again at x, if only A and x itself could
      have seen the old one. */
  lemma ReplaceValued(objs: seq<Obj>, vals: seq<Value>, A: set<Ref>, x: Ref, o: Obj)
    requires Valued(objs, vals, A + {x}) && x < |objs| && Below(Children(o), |objs|)
    requires UpClosed(objs, A + {x}) && x !in Children(o)
    requires o.bytes.Some? ==> o.bytes.value == Denote(o, vals)
    ensures Valued(objs[x := o], vals[x := Denote(o, vals)], A)
  {
    var objs1, vals1 := objs[x := o], vals[x := Denote(o, vals)];
    forall y | 0 <= y < |objs| && y !in A ensures Consistent(objs1[y], vals1, vals1[y]) {
      assert x !in Children(objs1[y]);
      DenoteFrame(objs1[y], vals, vals1);
    }
  }

  // ---------------------------------------------------------------- levels seen through a valuation

  lemma ScanThroughValues(l: Level<Ref>, vals: seq<Value>, key: string)
    requires Below(Refs(l.entries), |vals|) && IndexOk(l)
    ensures Scan(Values(l.entries, vals), Head(key)) == Scan(l.entries, Head(key))
    ensures Distinct(Values(l.entries, vals)) && Scannable(key) ==>
              Find(l, key) == Scan(Values(l.entries, vals), Head(key))
    ensures -1 <= Find(l, key) < |l.entries| && (Find(l, key) >= 0 ==> l.entries[Find(l, key)].key == Head(key))
  {
    var es, vs, k := l.entries, Values(l.entries, vals), Head(key);
    var a, b := Scan(es, k), Scan(vs, k);
    assert forall j :: 0 <= j < |es| ==> vs[j].key == es[j].key;
    if a >= 0 { assert vs[a].key == k; }
    if b >= 0 { assert es[b].key == k; }
    FindIsEntry(l, key);
    if Distinct(vs) && Scannable(key) {
      assert Distinct(es) by {
        forall i, j | 0 <= i < j < |es| ensures es[i].key != es[j].key { assert vs[i].key != vs[j].key; }
      }
      FoundIffScanned(es, key);
      assert Level(es, l.index) == l;
    }
  }

  /** The outcome of following the path does not depend on which keys are indexed: no level it
      visits repeats a key, and no component but the last is empty. */
  ghost predicate Determined(v: Value, p: seq<string>) {
    DistinctPath(v, p) && forall i :: 0 <= i < |p| - 1 ==> p[i] != ""
  }

  /** One step along such a path. */
  lemma DeterminedStep(v: Value, key: string)
    requires Determined(v, Split(key))
    ensures Scannable(key)
    ensures AsKeyed(v).Some? ==> Distinct(AsKeyed(v).value)
    ensures AsKeyed(v).Some? && Rest(key).Some? && Scan(AsKeyed(v).value, Head(key)) >= 0 ==>
              Determined(AsKeyed(v).value[Scan(AsKeyed(v).value, Head(key))].value, Split(Rest(key).value))
    ensures Rest(key).Some? ==> Determined(List([]), Split(Rest(key).value))
  {
    var p := Split(key);
    EmptyList();
    if Rest(key).Some? {
      assert p[1..] == Split(Rest(key).value);
      assert p[0] != "";
      assert forall i :: 0 <= i < |p[1..]| - 1 ==> p[1..][i] == p[i + 1];
    }
  }

  lemma KeyedDenotes(o: Obj, vals: seq<Value>, n: nat)
    requires WellFormed(o, n) && n == |vals| && o.rep.Keyed?
    ensures AsKeyed(Denote(o, vals)) == Some(Values(o.rep.level.entries, vals))
  {
    LevelRoundTrip(Values(o.rep.level.entries, vals));
  }

  /** Outside D nothing changed: neither value, representation nor cached string. */
  ghost predicate Frame(objs0: seq<Obj>, vals0: seq<Value>, objs1: seq<Obj>, vals1: seq<Value>, D: set<Ref>) {
    |objs0| == |vals0| <= |objs1| == |vals1| &&
    forall x :: 0 <= x < |objs0| && x !in D ==>
      vals1[x] == vals0[x] && objs1[x].rep == objs0[x].rep && objs1[x].bytes == objs0[x].bytes
  }

  lemma EditFrame(objs0: seq<Obj>, vals0: seq<Value>, mid: seq<Obj>, vals1: seq<Value>, o: Ref, o': Obj)
    requires objs0 <= mid && vals0 <= vals1 && |objs0| == |vals0| && |mid| == |vals1| && o < |objs0|
    ensures Frame(objs0, vals0, mid[o := o'], vals1, {o})
  {
  }

  // ---------------------------------------------------------------- duplication

  lemma NewFromAppend(objs: seq<Obj>, o: Obj, n: nat)
    requires NewFrom(objs, n) && forall i :: 0 <= i < |Children(o)| ==> Children(o)[i] >= n
    ensures NewFrom(objs + [o], n)
  {
  }

  /** The copies have the values of the originals. */
  ghost predicate SameValues(es: seq<Entry<Ref>>, copies: seq<Ref>, vals: seq<Value>) {
    |copies| == |es| &&
    forall j :: 0 <= j < |copies| ==>
      copies[j] < |vals| && es[j].value < |vals| && vals[copies[j]] == vals[es[j].value]
  }

  /** Copies made from n on, in order, each counted once and not yet held. */
  ghost predicate Fresh(objs: seq<Obj>, slots: seq<Option<Ref>>, copies: seq<Ref>, n: nat) {
    && (forall j :: 0 <= j < |copies| ==> n <= copies[j] < |objs|)
    && (forall j, k :: 0 <= j < k < |copies| ==> copies[j] < copies[k])
    && (forall j :: 0 <= j < |copies| ==> Held(objs, slots, copies[j]) == 0 && objs[copies[j]].refCount == 1)
    && NewFrom(objs, n)
  }

  /** Counting does not change who holds an object. */
  lemma CountHeld(objs: seq<Obj>, slots: seq<Option<Ref>>, c: Ref, x: Ref)
    requires c < |objs|
    ensures Held(WithCount(objs, c, 1), slots, x) == Held(objs, slots, x)
  {
    EdgesUpdate(objs, c, WithCount(objs, c, 1)[c], x);
  }

  lemma CopiesHeld(objs0: seq<Obj>, objs1: seq<Obj>, slots: seq<Option<Ref>>, copies: seq<Ref>, c: Ref, n: nat)
    requires Fresh(objs0, slots, copies, n) && objs0 <= objs1 && NewFrom(objs1, |objs0|) && c < |objs1|
    ensures forall j :: 0 <= j < |copies| ==> Held(WithCount(objs1, c, 1), slots, copies[j]) == 0
  {
    forall j | 0 <= j < |copies| ensures Held(WithCount(objs1, c, 1), slots, copies[j]) == 0 {
      CountHeld(objs1, slots, c, copies[j]);
      AppendedEdges(objs0, objs1, copies[j]);
    }
  }

  lemma FreshStep(objs0: seq<Obj>, objs1: seq<Obj>, slots: seq<Option<Ref>>, copies: seq<Ref>, c: Ref, n: nat)
    requires Fresh(objs0, slots, copies, n) && objs0 <= objs1 && n <= |objs0| && NewFrom(objs1, |objs0|)
    requires |objs0| <= c < |objs1| && Held(objs1, slots, c) == 0
    ensures Fresh(WithCount(objs1, c, 1), slots, copies + [c], n)
  {
    var objs2 := WithCount(objs1, c, 1);
    CopiesHeld(objs0, objs1, slots, copies, c, n);
    CountHeld(objs1, slots, c, c);
    assert forall x :: 0 <= x < |objs2| ==> Children(objs2[x]) == Children(objs1[x]);
  }

  lemma SameValuesStep(es: seq<Entry<Ref>>, i: nat, copies: seq<Ref>, c: Ref, vals0: seq<Value>, vals1: seq<Value>)
    requires i < |es| && vals0 <= vals1 && SameValues(es[..i], copies, vals0)
    requires c < |vals1| && es[i].value < |vals0| && vals1[c] == vals0[es[i].value]
    ensures SameValues(es[..i + 1], copies + [c], vals1)
  {
    assert forall j :: 0 <= j < i ==> es[..i + 1][j] == es[..i][j];
  }

  lemma FreshCounts(objs: seq<Obj>, slots: seq<Option<Ref>>, copies: seq<Ref>, n: nat)
    requires Counted(objs, slots) && Fresh(objs, slots, copies, n)
    ensures forall x :: 0 <= x < |objs| ==> Held(objs, slots, x) + Occ(copies, x) <= objs[x].refCount
  {
    forall x: Ref | x < |objs| ensures Held(objs, slots, x) + Occ(copies, x) <= objs[x].refCount {
      OccIncreasing(copies, x);
    }
  }

  lemma DupDenotes(o: Obj, copy: Obj, vals: seq<Value>, copies: seq<Ref>)
    requires WellFormed(o, |vals|) && o.rep.Keyed? && |copies| == |o.rep.level.entries|
    requires SameValues(o.rep.level.entries, copies, vals)
    requires copy.rep == Keyed(Level(WithValues(o.rep.level.entries, copies), None))
    ensures Children(copy) == copies && WellFormed(copy, |vals|) && Denote(copy, vals) == Denote(o, vals)
  {
    assert Children(copy) == copies;
    assert Values(copy.rep.level.entries, vals) == Values(o.rep.level.entries, vals);
  }

  // ---------------------------------------------------------------- conversion

  lemma FreshAlloc(objs: seq<Obj>, slots: seq<Option<Ref>>, copies: seq<Ref>, o: Obj, n: nat)
    requires Shaped(objs, slots) && Fresh(objs, slots, copies, n) && n <= |objs|
    requires o.rep.Plain? && o.refCount == 1
    ensures Fresh(objs + [o], slots, copies + [|objs|], n)
  {
    var objs1 := objs + [o];
    forall j | 0 <= j <= |copies| ensures Held(objs1, slots, (copies + [|objs|])[j]) == 0 {
      if j < |copies| { AppendedEdges(objs, objs1, copies[j]); }
      else { AllocEdges(objs, o, |objs|); SlotsIn(slots, |objs|); }
    }
  }

  /** A converted level of copies denotes the list it was read from. */
  lemma ConvertDenotes(v: Value, es: seq<Entry<Value>>, copies: seq<Ref>, vals: seq<Value>, o: Obj)
    requires AsKeyed(v) == Some(es) && |copies| == |es|
    requires forall j :: 0 <= j < |es| ==> copies[j] < |vals| && vals[copies[j]] == es[j].value
    requires o.rep == Keyed(Level(WithValues(es, copies), Some(IndexAll(WithValues(es, copies)))))
    ensures Children(o) == copies && WellFormed(o, |vals|) && Denote(o, vals) == v
  {
    ValueRoundTrip(v);
    assert Children(o) == copies;
    assert Values(o.rep.level.entries, vals) == es;
  }

  /** o' may take the place of o: it has the same value, and refers to objects made since objs0 or to
      those that o referred to. */
  ghost predicate Replaceable(objs: seq<Obj>, vals: seq<Value>, slots: seq<Option<Ref>>, o: Ref, o': Obj,
                              objs0: seq<Obj>, vals0: seq<Value>)
  {
    && o < |objs| == |vals| && WellFormed(o', |objs|) && Denote(o', vals) == vals[o]
    && o'.refCount == objs[o].refCount && o'.bytes == objs[o].bytes
    && (forall x :: 0 <= x < |objs| ==>
          Held(objs, slots, x) - Occ(Children(objs[o]), x) + Occ(Children(o'), x) <= objs[x].refCount)
    && objs0 <= objs && vals0 <= vals && |objs0| == |vals0| && o < |objs0| && NewFrom(objs, |objs0|)
    && forall c :: c in Children(o') && c < |objs0| ==> c in Children(objs0[o])
  }

  /** A converted list may take the place of the list. */
  lemma ConvertReady(objs: seq<Obj>, vals: seq<Value>, slots: seq<Option<Ref>>, o: Ref, o': Obj, v: Value,
                     es: seq<Entry<Value>>, copies: seq<Ref>, objs0: seq<Obj>, vals0: seq<Value>)
    requires Counted(objs, slots) && Fresh(objs, slots, copies, |objs0|) && objs0 <= objs && vals0 <= vals
    requires |objs0| == |vals0| && |objs| == |vals| && o < |objs0| && objs[o].rep == Plain(v) && vals[o] == v
    requires AsKeyed(v) == Some(es) && |copies| == |es|
    requires forall j :: 0 <= j < |es| ==> copies[j] < |vals| && vals[copies[j]] == es[j].value
    requires o' == objs[o].(rep := Keyed(Level(WithValues(es, copies), Some(IndexAll(WithValues(es, copies))))))
    ensures Replaceable(objs, vals, slots, o, o', objs0, vals0)
    ensures AsKeyed(vals[o]) == Some(Values(o'.rep.level.entries, vals))
  {
    ConvertDenotes(v, es, copies, vals, o');
    FreshCounts(objs, slots, copies, |objs0|);
    KeyedDenotes(o', vals, |vals|);
    forall x | 0 <= x < |objs|
      ensures Held(objs, slots, x) - Occ(Children(objs[o]), x) + Occ(Children(o'), x) <= objs[x].refCount
    {
      assert Held(objs, slots, x) + Occ(copies, x) <= objs[x].refCount;
    }
  }

  lemma NotOwnChild(objs: seq<Obj>, vals: seq<Value>, A: set<Ref>, o: Ref)
    requires Valued(objs, vals, A) && o < |objs| && o !in A
    ensures o !in Children(objs[o])
  {
    if o in Children(objs[o]) {
      var i :| 0 <= i < |Children(objs[o])| && Children(objs[o])[i] == o;
      ChildSmaller(objs[o], vals, i);
    }
  }

  /** Entry i with another child. */
  function Swapped(l: Level<Ref>, i: nat, c: Ref): Level<Ref>
    requires i < |l.entries|
  {
    Level(l.entries[i := Entry(l.entries[i].key, c)], l.index)
  }

  lemma FindSwapped(l: Level<Ref>, i: nat, key: string)
    requires i < |l.entries|
    ensures forall c :: Find(Swapped(l, i, c), key) == Find(l, key)
  {
    forall c: Ref ensures Find(Swapped(l, i, c), key) == Find(l, key) {
      ScanAfterUpdate(l.entries, i, Entry(l.entries[i].key, c), Head(key));
    }
  }

  /** Give entry i of a level another child of the same value. */
  lemma SwapChild(o: Obj, vals: seq<Value>, i: nat, c: Ref)
    requires o.rep.Keyed? && WellFormed(o, |vals|) && i < |o.rep.level.entries| && c < |vals|
    requires o.rep.level.entries[i].value < |vals| && vals[c] == vals[o.rep.level.entries[i].value]
    ensures var o' := o.(rep := Keyed(Swapped(o.rep.level, i, c)));
            Children(o') == Children(o)[i := c] && WellFormed(o', |vals|) && Denote(o', vals) == Denote(o, vals)
  {
    var l := o.rep.level;
    var o' := o.(rep := Keyed(Swapped(l, i, c)));
    assert Children(o') == Children(o)[i := c];
    assert Values(o'.rep.level.entries, vals) == Values(l.entries, vals);
  }

  lemma SwapCounts(objs: seq<Obj>, slots: seq<Option<Ref>>, o: Ref, i: nat, c: Ref, o': Obj)
    requires Counted(objs, slots) && o < |objs| && c < |objs|
    requires Held(objs, slots, c) == 0 && objs[c].refCount == 1
    requires i < |Children(objs[o])| && Children(o') == Children(objs[o])[i := c]
    ensures forall x :: 0 <= x < |objs| ==>
              Held(objs, slots, x) - Occ(Children(objs[o]), x) + Occ(Children(o'), x) <= objs[x].refCount
  {
    forall x: Ref | x < |objs| ensures
        Held(objs, slots, x) - Occ(Children(objs[o]), x) + Occ(Children(o'), x) <= objs[x].refCount {
      OccUpdate(Children(objs[o]), i, c, x);
    }
  }

  // ---------------------------------------------------------------- storing a child

  lemma PutLevel(l: Level<Ref>, vals: seq<Value>, i: int, k: string, v: Ref)
    requires WellFormed(Obj(0, None, Keyed(l)), |vals|) && v < |vals|
    requires -1 <= i < |l.entries| && (i >= 0 ==> l.entries[i].key == k)
    ensures WellFormed(Obj(0, None, Keyed(PutAt(l, i, k, v))), |vals|)
    ensures Refs(PutAt(l, i, k, v).entries) == if i < 0 then Refs(l.entries) + [v] else Refs(l.entries)[i := v]
    ensures Values(PutAt(l, i, k, v).entries, vals) == Put(Values(l.entries, vals), i, k, vals[v])
  {
    var l' := PutAt(l, i, k, v);
    IndexSurvivesPut(l, i, k, v);
    assert Refs(l'.entries) == if i < 0 then Refs(l.entries) + [v] else Refs(l.entries)[i := v];
    assert Values(l'.entries, vals) == Put(Values(l.entries, vals), i, k, vals[v]);
  }

  /** o holds v where it held its i-th child, or in addition. */
  ghost predicate PutRefs(o: Obj, l: Level<Ref>, i: int, v: Ref) {
    i < |Children(o)| && Refs(l.entries) == if i < 0 then Children(o) + [v] else Children(o)[i := v]
  }

  lemma PutOcc(o: Obj, l: Level<Ref>, i: int, v: Ref, x: Ref)
    requires PutRefs(o, l, i, v)
    ensures Occ(Refs(l.entries), x) ==
            Occ(Children(o), x) + (if x == v then 1 else 0) - (if i >= 0 && Children(o)[i] == x then 1 else 0)
  {
    if i >= 0 { OccUpdate(Children(o), i, v, x); }
    else { assert (Children(o) + [v])[..|Children(o)|] == Children(o); }
  }

  lemma PutCounts(objs: seq<Obj>, slots: seq<Option<Ref>>, o: Ref, l: Level<Ref>, i: int, v: Ref)
    requires Counted(objs, slots) && o < |objs| && v < |objs| && PutRefs(objs[o], l, i, v)
    requires Held(objs, slots, v) < objs[v].refCount
    ensures forall x :: 0 <= x < |objs| ==>
              Held(objs, slots, x) - Occ(Children(objs[o]), x) + Occ(Refs(l.entries), x) <= objs[x].refCount
  {
    forall x: Ref | x < |objs| ensures
        Held(objs, slots, x) - Occ(Children(objs[o]), x) + Occ(Refs(l.entries), x) <= objs[x].refCount {
      PutOcc(objs[o], l, i, v, x);
    }
  }

  /** The replaced child has one holder fewer. */
  lemma PutReleases(objs0: seq<Obj>, objs1: seq<Obj>, slots: seq<Option<Ref>>, o: Ref, l: Level<Ref>, i: nat, v: Ref)
    requires Counted(objs0, slots) && o < |objs0| && PutRefs(objs0[o], l, i, v) && Children(objs0[o])[i] < |objs0|
    requires v < |objs0| && Held(objs0, slots, v) < objs0[v].refCount
    requires objs1 == objs0[o := Obj(objs0[o].refCount, None, Keyed(l))]
    ensures Held(objs1, slots, Children(objs0[o])[i]) < objs0[Children(objs0[o])[i]].refCount
  {
    var was := Children(objs0[o])[i];
    EdgesUpdate(objs0, o, Obj(objs0[o].refCount, None, Keyed(l)), was);
    PutOcc(objs0[o], l, i, v, was);
  }

  /** Storing a child at o and adjusting counts touches nothing outside o. */
  lemma LeafFrame(objs0: seq<Obj>, vals0: seq<Value>, v: Ref, o: Ref, l: Level<Ref>, i: int, x: Value,
                  released: Option<Ref>, objs1: seq<Obj>, vals1: seq<Value>)
    requires |objs0| == |vals0| && o < |objs0| && v < |objs0| && PutRefs(objs0[o], l, i, v)
    requires released.Some? ==> released.value < |objs0|
    requires objs1 == WithLeaf(objs0, v, o, l, released) && vals1 == vals0[o := x]
    ensures Frame(objs0, vals0, objs1, vals1, {o}) && OldEdgesOnly(objs0, objs1, v)
  {
    forall y, c | 0 <= y < |objs1| && c in Children(objs1[y]) && c < |objs0| && c != v
      ensures c in Children(objs0[y])
    {
      if y != o { assert Children(objs1[y]) == Children(objs0[y]); }
    }
  }

  /** The objects after a leaf has been set: v is counted once more, and what it replaces once less. */
  function WithLeaf(objs0: seq<Obj>, v: Ref, o: Ref, l: Level<Ref>, released: Option<Ref>): (objs1: seq<Obj>)
    requires o < |objs0| && v < |objs0| && (released.Some? ==> released.value < |objs0|)
    ensures |objs1| == |objs0|
  {
    var counted := WithCount(objs0, v, objs0[v].refCount + 1);
    var stored := counted[o := Obj(counted[o].refCount, None, Keyed(l))];
    if released.None? then stored else WithCount(stored, released.value, stored[released.value].refCount - 1)
  }

  lemma LeafCounts(objs0: seq<Obj>, v: Ref, o: Ref, l: Level<Ref>, released: Option<Ref>, objs1: seq<Obj>)
    requires o < |objs0| && v < |objs0| && (released.Some? ==> released.value < |objs0|)
    requires objs1 == WithLeaf(objs0, v, o, l, released)
    ensures CountsMoved(objs0, objs1, Some(v), released) && objs1[o].rep == Keyed(l) && objs1[o].bytes == None
  {
  }

  // ---------------------------------------------------------------- descending and coming back

  /** o may be updated in place: all its holders are in A or o itself, where A holds the objects
      above o on the path from the root, whose values are larger. */
  ghost predicate Private(objs: seq<Obj>, vals: seq<Value>, o: Ref, A: set<Ref>) {
    && |vals| == |objs| && o < |objs| && o !in A && UpClosed(objs, A + {o})
    && forall a <- A :: a < |vals| && Size(vals[o]) < Size(vals[a])
  }

  /** The objects in D, which an update through o may change, have no holder outside D, except
      that o itself may be held from above and by slots. */
  ghost predicate Exclusive(objs: seq<Obj>, slots: seq<Option<Ref>>, o: Ref, D: set<Ref>) {
    && o in D
    && (forall d <- D :: d < |objs|)
    && (forall d <- D :: d != o ==> Some(d) !in slots)
    && (forall x, d :: 0 <= x < |objs| && d in D && d != o && d in Children(objs[x]) ==> x in D)
  }

  /** What an update of o below A leaves behind. */
  ghost predicate Updated(objs0: seq<Obj>, vals0: seq<Value>, objs1: seq<Obj>, vals1: seq<Value>,
                          slots: seq<Option<Ref>>, o: Ref, A: set<Ref>, v: int, D: set<Ref>) {
    && Frame(objs0, vals0, objs1, vals1, D) && OldEdgesOnly(objs0, objs1, v)
    && Exclusive(objs0, slots, o, D) && D !! A && objs1[o].rep.Keyed?
    && forall d <- D :: d != o ==> Size(vals0[d]) < Size(vals0[o])
  }

  lemma Descend(objs: seq<Obj>, slots: seq<Option<Ref>>, vals: seq<Value>, A: set<Ref>, o: Ref, i: nat, c: Ref)
    requires Shaped(objs, slots) && Counted(objs, slots) && Valued(objs, vals, {}) && Private(objs, vals, o, A)
    requires i < |Children(objs[o])| && Children(objs[o])[i] == c && c < |objs| && objs[c].refCount <= 1
    ensures Private(objs, vals, c, A + {o}) && Some(c) !in slots && o !in Children(objs[o])
  {
    SoleHolder(objs, slots, o, i, c);
    ChildSmaller(objs[o], vals, i);
    NotOwnChild(objs, vals, {}, o);
  }

  /** Back at o after an update of its child c that changed the objects in Dc. */
  function Back(objs0: seq<Obj>, o: Ref, Dc: set<Ref>): set<Ref> {
    {o} + (set d <- Dc | d < |objs0|)
  }

  lemma Ascend(objs0: seq<Obj>, vals0: seq<Value>, objs1: seq<Obj>, vals1: seq<Value>, slots: seq<Option<Ref>>,
               A: set<Ref>, o: Ref, i: nat, c: Ref, Dc: set<Ref>)
    requires Frame(objs0, vals0, objs1, vals1, {o}) && o < |objs0| && o !in A
    requires Consistent(objs1[o], vals1, vals1[o]) && vals0[o] == vals1[o] && objs1[o].rep.Keyed?
    requires Counted(objs1, slots) && i < |Children(objs1[o])| && Children(objs1[o])[i] == c
    requires c < |objs1| && objs1[c].refCount <= 1 && Exclusive(objs1, slots, c, Dc) && Dc !! A + {o}
    requires forall d <- Dc :: d != c ==> d < |vals1| && Size(vals1[d]) < Size(vals1[c])
    ensures Exclusive(objs0, slots, o, Back(objs0, o, Dc)) && Back(objs0, o, Dc) !! A
    ensures forall d <- Back(objs0, o, Dc) :: d != o ==> Size(vals0[d]) < Size(vals0[o])
    ensures forall j :: 0 <= j < |Children(objs1[o])| && j != i ==> Children(objs1[o])[j] !in Dc
  {
    SoleHolder(objs1, slots, o, i, c);
    ChildSmaller(objs1[o], vals1, i);
    var D := Back(objs0, o, Dc);
    forall x, d | 0 <= x < |objs0| && d in D && d != o && d in Children(objs0[x]) ensures x in D {
      if x != o {
        assert Children(objs1[x]) == Children(objs0[x]);
        assert d == c ==> x == o;
      }
    }
    forall j | 0 <= j < |Children(objs1[o])| && j != i ensures Children(objs1[o])[j] !in Dc {
      var d := Children(objs1[o])[j];
      assert d in Children(objs1[o]);
    }
  }

  /** The level of o after only its i-th child has changed value. */
  lemma LevelAfter(es: seq<Entry<Ref>>, vals1: seq<Value>, vals2: seq<Value>, i: nat, Dc: set<Ref>)
    requires Below(Refs(es), |vals1|) && |vals1| <= |vals2| && i < |es|
    requires forall x :: 0 <= x < |vals1| && x !in Dc ==> vals2[x] == vals1[x]
    requires forall j :: 0 <= j < |es| && j != i ==> es[j].value !in Dc
    ensures Below(Refs(es), |vals2|) && es[i].value < |vals2|
    ensures Values(es, vals2) == Values(es, vals1)[i := Entry(es[i].key, vals2[es[i].value])]
  {
    assert Refs(es)[i] == es[i].value;
    forall j | 0 <= j < |es| && j != i ensures es[j].value < |vals1| { assert Refs(es)[j] == es[j].value; }
    assert Values(es, vals2) == Values(es, vals1)[i := Entry(es[i].key, vals2[es[i].value])];
  }

  /** The situation at o after DupSharedKeyListChild: entry i holds the private child c. */
  ghost predicate Unshared(objs0: seq<Obj>, vals0: seq<Value>, objs1: seq<Obj>, vals1: seq<Value>,
                           slots: seq<Option<Ref>>, o: Ref, i: nat, c: Ref, v: int, A: set<Ref>) {
    && Private(objs0, vals0, o, A) && v !in A + {o} && vals0 <= vals1
    && Frame(objs0, vals0, objs1, vals1, {o}) && OldEdgesOnly(objs0, objs1, -1)
    && Shaped(objs1, slots) && Counted(objs1, slots) && Valued(objs1, vals1, {})
    && objs1[o].rep.Keyed? && i < |Children(objs1[o])| && Children(objs1[o])[i] == c
    && c < |objs1| && objs1[c].refCount <= 1 && c != o
  }

  lemma BackFrame(objs0: seq<Obj>, vals0: seq<Value>, objs1: seq<Obj>, vals1: seq<Value>,
                  objs2: seq<Obj>, vals2: seq<Value>, objs3: seq<Obj>, vals3: seq<Value>, o: Ref, v: int, Dc: set<Ref>)
    requires Frame(objs0, vals0, objs1, vals1, {o}) && Frame(objs1, vals1, objs2, vals2, Dc)
    requires o < |objs0| && |vals3| == |objs3| == |objs2| && OldEdgesOnly(objs0, objs2, v)
    requires objs3 == objs2[o := objs2[o].(bytes := None)] && vals3 == vals2[o := vals3[o]]
    ensures Frame(objs0, vals0, objs3, vals3, Back(objs0, o, Dc)) && OldEdgesOnly(objs0, objs3, v)
  {
    forall x, c | 0 <= x < |objs3| && c in Children(objs3[x]) && c < |objs0| && c != v
      ensures x < |objs0| && c in Children(objs0[x])
    {
      assert Children(objs3[x]) == Children(objs2[x]);
    }
  }

  /** A converted object that denotes v. */
  ghost predicate Reads(o: Obj, vals: seq<Value>, v: Value) {
    o.rep.Keyed? && WellFormed(o, |vals|) && Denote(o, vals) == v
  }

  /** The conversion of o comes before an update of o. */
  lemma AfterConversion(objs0: seq<Obj>, vals0: seq<Value>, objs1: seq<Obj>, vals1: seq<Value>,
                        objs2: seq<Obj>, vals2: seq<Value>, slots: seq<Option<Ref>>, o: Ref, A: set<Ref>,
                        v: int, D: set<Ref>)
    requires Frame(objs0, vals0, objs1, vals1, {o}) && OldEdgesOnly(objs0, objs1, -1) && vals0 <= vals1
    requires Updated(objs1, vals1, objs2, vals2, slots, o, A, v, D) && o < |objs0|
    ensures Updated(objs0, vals0, objs2, vals2, slots, o, A, v, Back(objs0, o, D))
  {
    OldEdgesCompose(objs0, objs1, objs2, -1, v);
    var E := Back(objs0, o, D);
    forall x, d | 0 <= x < |objs0| && d in E && d != o && d in Children(objs0[x]) ensures x in E {
      if x != o { assert Children(objs1[x]) == Children(objs0[x]); }
    }
  }

  /** A subtree nobody holds yet. */
  lemma NewPrivate(objs: seq<Obj>, slots: seq<Option<Ref>>, vals: seq<Value>, o: Obj)
    requires Shaped(objs, slots) && |vals| == |objs| && Children(o) == []
    ensures forall x :: Private(objs + [o], vals + [x], |objs|, {})
  {
  }

  lemma SlotsPush(objs: seq<Obj>, slots: seq<Option<Ref>>, r: Ref)
    requires Shaped(objs, slots) && Counted(objs, slots) && r < |objs| && Held(objs, slots, r) < objs[r].refCount
    ensures Shaped(objs, slots + [Some(r)]) && Counted(objs, slots + [Some(r)])
  {
    var slots1 := slots + [Some(r)];
    assert slots1[..|slots|] == slots;
    forall x: Ref | x < |objs| ensures Held(objs, slots1, x) <= objs[x].refCount {
      assert Held(objs, slots1, x) == Held(objs, slots, x) + if x == r then 1 else 0;
    }
  }

  lemma SlotsPop(objs: seq<Obj>, slots: seq<Option<Ref>>, r: Ref)
    requires Shaped(objs, slots + [Some(r)]) && Counted(objs, slots + [Some(r)])
    ensures Shaped(objs, slots) && Counted(objs, slots)
    ensures r < |objs| && Held(objs, slots, r) < objs[r].refCount
  {
    var slots1 := slots + [Some(r)];
    assert slots1[..|slots|] == slots && slots1[|slots|] == Some(r);
    forall s | 0 <= s < |slots| ensures slots[s] == slots1[s] {}
    forall x: Ref | x < |objs| ensures Held(objs, slots, x) + (if x == r then 1 else 0) <= objs[x].refCount {
      assert Held(objs, slots1, x) == Held(objs, slots, x) + if x == r then 1 else 0;
    }
  }

  /** A new subtree built beside the heap and then stored at o. */
  lemma GraftFrame(objs0: seq<Obj>, vals0: seq<Value>, new0: Obj, x0: Value, objs2: seq<Obj>, vals2: seq<Value>,
                   slots: seq<Option<Ref>>, D: set<Ref>, o: Ref, o': Obj, x: Value, v: int)
    requires |objs0| == |vals0| && o < |objs0| && Size(x0) == 1
    requires Updated(objs0 + [new0], vals0 + [x0], objs2, vals2, slots, |objs0|, {}, v, D)
    requires forall y :: 0 <= y < |objs0| ==> Below(Children(objs0[y]), |objs0|)
    requires Children(new0) == []
    requires forall c :: c in Children(o') && c < |objs0| && c != v ==> c in Children(objs0[o])
    ensures D == {|objs0|} && Frame(objs0, vals0, objs2[o := o'], vals2[o := x], {o})
    ensures OldEdgesOnly(objs0, objs2[o := o'], v)
  {
    var objs1 := objs0 + [new0];
    var objs3 := objs2[o := o'];
    forall y, c | 0 <= y < |objs3| && c in Children(objs3[y]) && c < |objs0| && c != v
      ensures y < |objs0| && c in Children(objs0[y])
    {
      if y != o {
        assert c in Children(objs2[y]);
        assert y < |objs1| && c in Children(objs1[y]);
      }
    }
  }

  // ---------------------------------------------------------------- removing a child

  lemma RemoveLevel(l: Level<Ref>, vals: seq<Value>, i: nat)
    requires WellFormed(Obj(0, None, Keyed(l)), |vals|) && i < |l.entries|
    ensures WellFormed(Obj(0, None, Keyed(DeleteAt(l, i))), |vals|)
    ensures Refs(DeleteAt(l, i).entries) == Refs(l.entries)[..i] + Refs(l.entries)[i + 1..]
    ensures Values(DeleteAt(l, i).entries, vals) == Remove(Values(l.entries, vals), i)
  {
    var l' := DeleteAt(l, i);
    IndexSurvivesDelete(l, i);
    assert Refs(l'.entries) == Refs(l.entries)[..i] + Refs(l.entries)[i + 1..];
    assert Values(l'.entries, vals) == Remove(Values(l.entries, vals), i);
  }

  lemma RemoveCounts(objs: seq<Obj>, slots: seq<Option<Ref>>, o: Ref, i: nat, o': Obj)
    requires Counted(objs, slots) && o < |objs| && i < |Children(objs[o])|
    requires Children(o') == Children(objs[o])[..i] + Children(objs[o])[i + 1..]
    ensures forall x :: 0 <= x < |objs| ==>
              Held(objs, slots, x) - Occ(Children(objs[o]), x) + Occ(Children(o'), x) <= objs[x].refCount
    ensures Children(objs[o])[i] < |objs| ==>
              Held(objs[o := o'], slots, Children(objs[o])[i]) < objs[Children(objs[o])[i]].refCount
  {
    forall x: Ref | x < |objs| ensures
        Held(objs, slots, x) - Occ(Children(objs[o]), x) + Occ(Children(o'), x) <= objs[x].refCount {
      OccRemove(Children(objs[o]), i, x);
    }
    var was := Children(objs[o])[i];
    OccRemove(Children(objs[o]), i, was);
    EdgesUpdate(objs, o, o', was);
  }

  /** The object without entry i, its cached string dropped. */
  function WithoutEntry(o: Obj, i: nat): Obj
    requires o.rep.Keyed? && i < |o.rep.level.entries|
  {
    Obj(o.refCount, None, Keyed(DeleteAt(o.rep.level, i)))
  }

  lemma RemoveMoves(objs0: seq<Obj>, o: Ref, o': Obj, c: Ref, objs1: seq<Obj>)
    requires o < |objs0| && c < |objs0| && c != o && o'.refCount == objs0[o].refCount
    requires objs1 == WithCount(objs0[o := o'], c, objs0[c].refCount - 1)
    ensures CountsMoved(objs0, objs1, None, Some(c))
  {
  }

  lemma RemoveFrame(objs0: seq<Obj>, vals0: seq<Value>, o: Ref, o': Obj, x: Value, i: nat, c: Ref,
                    objs1: seq<Obj>, vals1: seq<Value>)
    requires |objs0| == |vals0| && o < |objs0| && c < |objs0| && c != o && i < |Children(objs0[o])|
    requires objs1 == WithCount(objs0[o := o'], c, objs0[c].refCount - 1) && vals1 == vals0[o := x]
    requires Children(o') == Children(objs0[o])[..i] + Children(objs0[o])[i + 1..]
    ensures Frame(objs0, vals0, objs1, vals1, {o}) && OldEdgesOnly(objs0, objs1, -1) && objs1[o] == o'
  {
    forall y, d | 0 <= y < |objs1| && d in Children(objs1[y]) ensures d in Children(objs0[y]) {
      if y != o { assert Children(objs1[y]) == Children(objs0[y]); }
    }
  }

  /** A further change confined to o itself. */
  lemma UpdatedThenSelf(objs0: seq<Obj>, vals0: seq<Value>, objs1: seq<Obj>, vals1: seq<Value>,
                        objs2: seq<Obj>, vals2: seq<Value>, slots: seq<Option<Ref>>, o: Ref, A: set<Ref>,
                        v: int, D: set<Ref>)
    requires Updated(objs0, vals0, objs1, vals1, slots, o, A, v, D)
    requires Frame(objs1, vals1, objs2, vals2, {o}) && OldEdgesOnly(objs1, objs2, -1) && objs2[o].rep.Keyed?
    ensures Updated(objs0, vals0, objs2, vals2, slots, o, A, v, D)
  {
    forall x, c | 0 <= x < |objs2| && c in Children(objs2[x]) && c < |objs0| && c != v
      ensures x < |objs0| && c in Children(objs0[x])
    {
      assert x < |objs1| && c in Children(objs1[x]);
    }
  }

  // ---------------------------------------------------------------- slots

  /** An object counted at most once and held by slot s has no other holder. */
  lemma SoleSlot(objs: seq<Obj>, slots: seq<Option<Ref>>, s: nat, o: Ref)
    requires Shaped(objs, slots) && Counted(objs, slots)
    requires s < |slots| && slots[s] == Some(o) && o < |objs| && objs[o].refCount <= 1
    ensures UpClosed(objs, {o})
    ensures forall j :: 0 <= j < |slots| && j != s ==> slots[j] != Some(o)
  {
    SlotsUpdate(slots, s, None, o);
    SlotsIn(slots[s := None], o);
    assert Held(objs, slots, o) <= 1;
    forall j | 0 <= j < |slots| && j != s ensures slots[j] != Some(o) {
      assert slots[j] == slots[s := None][j];
    }
    forall x | 0 <= x < |objs| && o in Children(objs[x]) ensures false {
      OccIn(Children(objs[x]), o);
      HolderCounts(objs, x, x, o);
    }
  }

  /** The local reference to o moves into slot s, whose old object loses a holder. */
  lemma SlotMove(objs: seq<Obj>, slots: seq<Option<Ref>>, s: nat, o: Ref)
    requires s < |slots| && Shaped(objs, slots + [Some(o)]) && Counted(objs, slots + [Some(o)])
    ensures Shaped(objs, slots[s := Some(o)]) && Counted(objs, slots[s := Some(o)])
    ensures slots[s].Some? ==>
              slots[s].value < |objs| && Held(objs, slots[s := Some(o)], slots[s].value) < objs[slots[s].value].refCount
  {
    var slots1, slots2 := slots + [Some(o)], slots[s := Some(o)];
    assert slots1[..|slots|] == slots && slots1[|slots|] == Some(o);
    forall j | 0 <= j < |slots| ensures slots[j] == slots1[j] {}
    forall x: Ref ensures Held(objs, slots2, x) == Held(objs, slots1, x) - if slots[s] == Some(x) then 1 else 0 {
      SlotsUpdate(slots, s, Some(o), x);
    }
  }

  // ---------------------------------------------------------------- release

  lemma ReleaseCounts(objs: seq<Obj>, slots: seq<Option<Ref>>, r: Ref, o': Obj)
    requires Shaped(objs, slots) && Counted(objs, slots) && r < |objs| && objs[r].refCount <= 0
    requires o'.rep.Plain? && o'.refCount == objs[r].refCount
    ensures UpClosed(objs, {r}) && Some(r) !in slots
    ensures Shaped(objs[r := o'], slots) && Counted(objs[r := o'], slots)
    ensures forall x :: 0 <= x < |objs| ==>
              Held(objs[r := o'], slots, x) + Occ(Children(objs[r]), x) <= objs[r := o'][x].refCount
  {
    assert Held(objs, slots, r) <= 0;
    SlotsIn(slots, r);
    forall x | 0 <= x < |objs| && r in Children(objs[x]) ensures false {
      OccIn(Children(objs[x]), r);
      HolderCounts(objs, x, x, r);
    }
    var objs1 := objs[r := o'];
    forall x: Ref | x < |objs| ensures Held(objs1, slots, x) + Occ(Children(objs[r]), x) <= objs1[x].refCount {
      EdgesUpdate(objs, r, o', x);
      assert Held(objs1, slots, x) == Held(objs, slots, x) - Occ(Children(objs[r]), x);
      assert Occ(Children(o'), x) == 0;
    }
  }

  lemma OccFirst(s: seq<Ref>, i: nat, x: Ref)
    requires i < |s|
    ensures Occ(s[i..], x) == Occ(s[i + 1..], x) + if s[i] == x then 1 else 0
  {
    OccRemove(s[i..], 0, x);
    assert s[i..][..0] + s[i..][1..] == s[i + 1..];
  }
}
