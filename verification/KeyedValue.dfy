/** Keyed lists as values: what a keyed list means, independently of how it is stored. */
module KeyedValue {
  import opened Common

  /** A Tcl value is an atom or a list (the empty string is List([])); a keyed list is a list of
      two-element lists {key value}. A path with an empty component puts an empty key into a keyed
      list in memory, and the list that such a keyed list spells cannot be read back: Stored is a
      keyed list in memory that has a key which its string form cannot have. */
  datatype Value = Atom(s: string) | List(elems: seq<Value>) | Stored(entries: seq<Entry<Value>>)

  datatype Entry<+T> = Entry(key: string, value: T)

  // ---------------------------------------------------------------- keys and key paths

  /** A key that survives conversion from a list: ValidateKey plus the check for '.'. */
  predicate GoodKey(k: string) {
    k != "" && '\0' !in k && '.' !in k
  }

  /** strchr (key, '.'), or the length of the key. */
  function DotAt(key: string): (i: nat)
    ensures i <= |key| && '.' !in key[..i] && (i < |key| ==> key[i] == '.')
  {
    if key == "" || key[0] == '.' then 0 else 1 + DotAt(key[1..])
  }

  function Head(key: string): string { key[..DotAt(key)] }

  function Rest(key: string): Option<string> {
    if DotAt(key) == |key| then None else Some(key[DotAt(key) + 1..])
  }

  function Split(key: string): (p: seq<string>)
    ensures |p| >= 1 && p[0] == Head(key)
    decreases |key|
  {
    if Rest(key).None? then [Head(key)] else [Head(key)] + Split(Rest(key).value)
  }

  function JoinPath(p: seq<string>): string
    requires |p| >= 1
  {
    if |p| == 1 then p[0] else p[0] + "." + JoinPath(p[1..])
  }

  lemma {:induction false} SplitJoin(p: seq<string>)
    requires |p| >= 1 && forall k <- p :: '.' !in k
    ensures Split(JoinPath(p)) == p
  {
    var s := JoinPath(p);
    if |p| == 1 {
      assert p[0] in p && s[..|s|] == s;
    } else {
      var t := JoinPath(p[1..]);
      assert s == p[0] + "." + t && s[|p[0]|] == '.';
      var i := DotAt(s);
      assert p[0] in p && s[..|p[0]|] == p[0];
      assert i == |p[0]|;
      assert s[i + 1..] == t;
      SplitJoin(p[1..]);
    }
  }

  // ---------------------------------------------------------------- one level

  /** The linear scan of FindKeyedListEntry: index of the first entry with key k, or -1. */
  function Scan<T>(es: seq<Entry<T>>, k: string): (r: int)
    ensures -1 <= r < |es|
    ensures r >= 0 ==> es[r].key == k && forall j :: 0 <= j < r ==> es[j].key != k
    ensures r < 0 ==> forall j :: 0 <= j < |es| ==> es[j].key != k
  {
    if es == [] then -1
    else if es[0].key == k then 0
    else
      var r := Scan(es[1..], k);
      if r < 0 then -1 else r + 1
  }

  ghost predicate Distinct<T>(es: seq<Entry<T>>) {
    forall i, j :: 0 <= i < j < |es| ==> es[i].key != es[j].key
  }

  /** Write x at entry i, or append it when the key was not found. */
  function Put<T>(es: seq<Entry<T>>, i: int, k: string, x: T): (r: seq<Entry<T>>)
    requires i < |es|
  {
    if i < 0 then es + [Entry(k, x)] else es[i := Entry(k, x)]
  }

  function Remove<T>(es: seq<Entry<T>>, i: nat): seq<Entry<T>>
    requires i < |es|
  {
    es[..i] + es[i + 1..]
  }

  function Keys<T>(es: seq<Entry<T>>): (ks: seq<string>)
    ensures |ks| == |es| && forall i :: 0 <= i < |es| ==> ks[i] == es[i].key
  {
    seq(|es|, i requires 0 <= i < |es| => es[i].key)
  }

  /** A valid element of a source list. */
  predicate IsPair(v: Value) {
    v.List? && |v.elems| == 2 && v.elems[0].Atom? && GoodKey(v.elems[0].s)
  }

  predicate GoodKeys<T>(es: seq<Entry<T>>) {
    forall i :: 0 <= i < |es| ==> GoodKey(es[i].key)
  }

  /** SetKeyedListFromAny: read one level of a value as a keyed list. */
  function AsKeyed(v: Value): Option<seq<Entry<Value>>> {
    match v
    case Atom(_) => None
    case List(elems) =>
      if exists e <- elems :: !IsPair(e) then None
      else Some(seq(|elems|, i requires 0 <= i < |elems| =>
                      assert elems[i] in elems; Entry(elems[i].elems[0].s, elems[i].elems[1])))
    case Stored(es) => if GoodKeys(es) then None else Some(es)
  }

  function Pair(k: string, v: Value): Value { List([Atom(k), v]) }

  /** UpdateStringOfKeyedList: the list that a level of entries spells. */
  function Spelled(es: seq<Entry<Value>>): Value {
    List(seq(|es|, i requires 0 <= i < |es| => Pair(es[i].key, es[i].value)))
  }

  /** The value of a level of entries. */
  function FromEntries(es: seq<Entry<Value>>): Value {
    if GoodKeys(es) then Spelled(es) else Stored(es)
  }

  /** Conversion from and to the string form are inverse, exactly on the levels whose keys are
      non-empty and free of '.' and NUL. */
  lemma SpelledRoundTrip(es: seq<Entry<Value>>)
    ensures AsKeyed(Spelled(es)) == Some(es) <==>
            forall i :: 0 <= i < |es| ==> es[i].key != "" && '.' !in es[i].key && '\0' !in es[i].key
    ensures AsKeyed(Spelled(es)) == if GoodKeys(es) then Some(es) else None
  {
    var v := Spelled(es);
    if GoodKeys(es) {
      assert AsKeyed(v).value == es;
    } else {
      var i :| 0 <= i < |es| && !GoodKey(es[i].key);
      assert !IsPair(v.elems[i]);
      assert v.elems[i] in v.elems;
    }
  }

  lemma LevelRoundTrip(es: seq<Entry<Value>>)
    ensures AsKeyed(FromEntries(es)) == Some(es)
  {
    SpelledRoundTrip(es);
  }

  lemma EntriesInjective(es: seq<Entry<Value>>, fs: seq<Entry<Value>>)
    ensures FromEntries(es) == FromEntries(fs) <==> es == fs
  {
    LevelRoundTrip(es);
    LevelRoundTrip(fs);
  }

  lemma ValueRoundTrip(v: Value)
    requires AsKeyed(v).Some?
    ensures FromEntries(AsKeyed(v).value) == v && (v.List? <==> GoodKeys(AsKeyed(v).value))
  {
    if v.List? {
      var es := AsKeyed(v).value;
      forall i | 0 <= i < |v.elems| ensures Spelled(es).elems[i] == v.elems[i] && GoodKey(es[i].key) {
        assert v.elems[i] in v.elems;
        assert v.elems[i].elems == [Atom(es[i].key), es[i].value];
      }
      assert Spelled(es).elems == v.elems;
    }
  }

  // ---------------------------------------------------------------- the four operations

  /** TclX_KeyedListGet */
  function Get(v: Value, p: seq<string>): Status<Value>
    requires |p| >= 1
    decreases |p|
  {
    match AsKeyed(v)
    case None => Error
    case Some(es) =>
      var i := Scan(es, p[0]);
      if i < 0 then Break
      else if |p| == 1 then Ok(es[i].value)
      else Get(es[i].value, p[1..])
  }

  /** A list is a keyed list if its elements are pairs, of a key that is not empty and has no dot or
      NUL, and a value. One component reads the value of the first pair with that key. */
  lemma {:induction false} GetInList(elems: seq<Value>, k: string)
    ensures Get(List(elems), [k]) == Error <==> exists i :: 0 <= i < |elems| && !LiteralPair(elems[i])
    ensures (forall i :: 0 <= i < |elems| ==> LiteralPair(elems[i])) ==>
              match Get(List(elems), [k])
              case Ok(x) => exists i :: 0 <= i < |elems| && elems[i] == List([Atom(k), x]) && NoneBefore(elems, i, k)
              case Break => NoneBefore(elems, |elems|, k)
              case Error => false
  {
    var v := List(elems);
    assert forall i :: 0 <= i < |elems| ==> (LiteralPair(elems[i]) <==> IsPair(elems[i]));
    if AsKeyed(v).Some? {
      var es := AsKeyed(v).value;
      assert forall i :: 0 <= i < |elems| ==> elems[i] in elems && es[i].key == elems[i].elems[0].s;
      var i := Scan(es, k);
      if i >= 0 { assert elems[i].elems == [Atom(k), es[i].value]; }
    }
  }

  predicate LiteralPair(v: Value) {
    match v
    case List(elems) =>
      |elems| == 2 && elems[0].Atom? && elems[0].s != "" && '.' !in elems[0].s && '\0' !in elems[0].s
    case _ => false
  }

  predicate NoneBefore(elems: seq<Value>, n: nat, k: string)
    requires n <= |elems|
  {
    forall j :: 0 <= j < n ==> !(LiteralPair(elems[j]) && elems[j].elems[0].s == k)
  }

  /** Further components are read from the value of the first. */
  lemma GetInside(v: Value, p: seq<string>)
    requires |p| > 1
    ensures Get(v, p) == if Get(v, [p[0]]).Ok? then Get(Get(v, [p[0]]).value, p[1..]) else Get(v, [p[0]])
  {
  }

  /** The level that a path asks the keys of, as a number of components: behind a last dot there may
      be nothing. */
  function LevelOf(p: seq<string>): nat {
    if p != [] && p[|p| - 1] == "" then |p| - 1 else |p|
  }

  /** TclX_KeyedListGetKeys. A key that is empty, or of which nothing is left behind a dot, asks for
      the keys of the level reached. */
  function GetKeys(v: Value, p: seq<string>): Status<seq<string>>
    decreases |p|
  {
    match AsKeyed(v)
    case None => Error
    case Some(es) =>
      if LevelOf(p) == 0 then Ok(Keys(es))
      else
        var i := Scan(es, p[0]);
        if i < 0 then Break else GetKeys(es[i].value, p[1..])
  }

  /** The keys listed at a level are those that can be read there. */
  lemma {:induction false} KeysAreReadable(v: Value, r: seq<string>, k: string)
    requires GetKeys(v, r).Ok? && (r != [] ==> r[|r| - 1] != "")
    ensures Get(v, r + [k]) == Break || Get(v, r + [k]).Ok?
    ensures k in GetKeys(v, r).value <==> Get(v, r + [k]).Ok?
    decreases |r|
  {
    var es := AsKeyed(v).value;
    if r == [] {
      assert [] + [k] == [k];
      var i := Scan(es, k);
      if i >= 0 { assert Keys(es)[i] == k; }
    } else {
      assert (r + [k])[1..] == r[1..] + [k];
      KeysAreReadable(es[Scan(es, r[0])].value, r[1..], k);
    }
  }

  /** TclX_KeyedListSet; None is TCL_ERROR. */
  function Set(v: Value, p: seq<string>, x: Value): Option<Value>
    requires |p| >= 1
    decreases |p|
  {
    match AsKeyed(v)
    case None => None
    case Some(es) =>
      var i := Scan(es, p[0]);
      if |p| == 1 then Some(FromEntries(Put(es, i, p[0], x)))
      else
        match Set(if i < 0 then List([]) else es[i].value, p[1..], x)
        case None => None
        case Some(sub) => Some(FromEntries(Put(es, i, p[0], sub)))
  }

  /** TclX_KeyedListDelete */
  function Delete(v: Value, p: seq<string>): Status<Value>
    requires |p| >= 1
    decreases |p|
  {
    match AsKeyed(v)
    case None => Error
    case Some(es) =>
      var i := Scan(es, p[0]);
      if i < 0 then Break
      else if |p| == 1 then Ok(FromEntries(Remove(es, i)))
      else
        match Delete(es[i].value, p[1..])
        case Error => Error
        case Break => Break
        case Ok(sub) =>
          if sub == List([]) then Ok(FromEntries(Remove(es, i)))
          else Ok(FromEntries(es[i := Entry(es[i].key, sub)]))
  }

  // ---------------------------------------------------------------- laws of Set

  lemma ScanAfterPut<T>(es: seq<Entry<T>>, k: string, x: T, l: string)
    ensures var i := Scan(es, k);
            Scan(Put(es, i, k, x), l) == if l != k then Scan(es, l) else if i < 0 then |es| else i
  {
    var i := Scan(es, k);
    var es' := Put(es, i, k, x);
    var a, b := Scan(es, l), Scan(es', l);
    assert es'[if i < 0 then |es| else i].key == k;
    if a >= 0 { assert es'[a].key == l; }
    if b >= 0 && l != k { assert es[b].key == l; }
  }

  lemma SetLevel(v: Value, p: seq<string>, x: Value)
      returns (es: seq<Entry<Value>>, i: int, sub: Value, es': seq<Entry<Value>>)
    requires |p| >= 1 && Set(v, p, x).Some?
    ensures AsKeyed(v) == Some(es) && i == Scan(es, p[0]) && AsKeyed(Set(v, p, x).value) == Some(es')
    ensures sub == if i < 0 then List([]) else es[i].value
    ensures |p| == 1 ==> es' == Put(es, i, p[0], x)
    ensures |p| > 1 ==> Set(sub, p[1..], x).Some? && es' == Put(es, i, p[0], Set(sub, p[1..], x).value)
  {
    es := AsKeyed(v).value;
    i := Scan(es, p[0]);
    sub := if i < 0 then List([]) else es[i].value;
    ValueRoundTrip(v);
    es' := Put(es, i, p[0], if |p| == 1 then x else Set(sub, p[1..], x).value);
    LevelRoundTrip(es');
  }

  lemma EmptyList()
    ensures AsKeyed(List([])) == Some([]) && FromEntries([]) == List([])
  {
    assert AsKeyed(List([])).value == [];
  }

  /** After a successful Set the key path holds the value. */
  lemma {:induction false} GetAfterSet(v: Value, p: seq<string>, x: Value)
    requires |p| >= 1 && Set(v, p, x).Some?
    ensures Get(Set(v, p, x).value, p) == Ok(x)
    decreases |p|
  {
    var es, i, sub, es' := SetLevel(v, p, x);
    ScanAfterPut(es, p[0], if |p| == 1 then x else Set(sub, p[1..], x).value, p[0]);
    if |p| > 1 { GetAfterSet(sub, p[1..], x); }
  }

  /** A path that is neither a prefix nor an extension reads the same after Set. */
  lemma {:induction false} GetOtherAfterSet(v: Value, p: seq<string>, x: Value, q: seq<string>)
    requires |p| >= 1 && Set(v, p, x).Some? && |q| >= 1
    requires !(p <= q) && !(q <= p)
    ensures Get(Set(v, p, x).value, q) == Get(v, q)
    decreases |p|
  {
    var es, i, sub, es' := SetLevel(v, p, x);
    ScanAfterPut(es, p[0], if |p| == 1 then x else Set(sub, p[1..], x).value, q[0]);
    if q[0] == p[0] {
      Apart(p, q);
      GetOtherAfterSet(sub, p[1..], x, q[1..]);
      EmptyList();
    }
  }

  lemma Apart(p: seq<string>, q: seq<string>)
    requires p != [] && q != [] && p[0] == q[0] && !(p <= q) && !(q <= p)
    ensures |p| > 1 && |q| > 1 && !(p[1..] <= q[1..]) && !(q[1..] <= p[1..])
  {
    assert p == [p[0]] + p[1..] && q == [q[0]] + q[1..];
  }

  lemma KeysAfterPut<T>(es: seq<Entry<T>>, k: string, x: T)
    ensures Keys(Put(es, Scan(es, k), k, x)) == Keys(es) + if k in Keys(es) then [] else [k]
  {
    var i := Scan(es, k);
    if i >= 0 { assert Keys(es)[i] == k; }
    assert Keys(Put(es, i, k, x)) == if i < 0 then Keys(es) + [k] else Keys(es);
  }

  lemma GetKeysStep(v: Value, r: seq<string>, es: seq<Entry<Value>>)
    requires AsKeyed(v) == Some(es)
    ensures GetKeys(v, r) ==
            if LevelOf(r) == 0 then Ok(Keys(es))
            else if Scan(es, r[0]) < 0 then Break
            else GetKeys(es[Scan(es, r[0])].value, r[1..])
  {
  }

  lemma LevelOfRest(r: seq<string>)
    requires LevelOf(r) > 0
    ensures LevelOf(r[1..]) == LevelOf(r) - 1
  {
  }

  /** Key order at every level above the last component of p: the next component is appended at
      the end when it was absent, and nothing else moves. */
  lemma {:induction false} KeysAfterSet(v: Value, p: seq<string>, x: Value, r: seq<string>)
    requires |p| >= 1 && Set(v, p, x).Some? && r <= p && LevelOf(r) < |p|
    requires GetKeys(v, r).Ok?
    ensures var next := p[LevelOf(r)];
            GetKeys(Set(v, p, x).value, r) ==
            Ok(GetKeys(v, r).value + if next in GetKeys(v, r).value then [] else [next])
    decreases |p|
  {
    var es, i, sub, es' := SetLevel(v, p, x);
    GetKeysStep(v, r, es);
    GetKeysStep(Set(v, p, x).value, r, es');
    if LevelOf(r) == 0 {
      KeysAfterPut(es, p[0], if |p| == 1 then x else Set(sub, p[1..], x).value);
    } else {
      LevelOfRest(r);
      ScanAfterPut(es, p[0], Set(sub, p[1..], x).value, p[0]);
      KeysAfterSet(sub, p[1..], x, r[1..]);
    }
  }

  lemma {:induction false} SetIntoEmpty(p: seq<string>, x: Value)
    requires |p| >= 1
    ensures Set(List([]), p, x).Some?
    decreases |p|
  {
    EmptyList();
    if |p| > 1 { SetIntoEmpty(p[1..], x); }
  }

  /** Set fails exactly when reading the same path is an error. */
  lemma {:induction false} SetFailsIffGetErrs(v: Value, p: seq<string>, x: Value)
    requires |p| >= 1
    ensures Set(v, p, x).None? <==> Get(v, p) == Error
    decreases |p|
  {
    if AsKeyed(v).Some? && |p| > 1 {
      var es := AsKeyed(v).value;
      var i := Scan(es, p[0]);
      if i < 0 { SetIntoEmpty(p[1..], x); } else { SetFailsIffGetErrs(es[i].value, p[1..], x); }
    }
  }

  /** What Set makes of a value that is a list can still be spelled exactly when the first
      component is a good key: an empty one (as in ".b") is stored, but the string form of the
      result is not a keyed list. */
  lemma SetSpellableIffGoodKey(v: Value, p: seq<string>, x: Value)
    requires |p| >= 1 && v.List? && Set(v, p, x).Some?
    ensures AsKeyed(Set(v, p, x).value).Some?
    ensures AsKeyed(Spelled(AsKeyed(Set(v, p, x).value).value)).Some? <==>
            p[0] != "" && '.' !in p[0] && '\0' !in p[0]
  {
    var es, i, sub, es' := SetLevel(v, p, x);
    ValueRoundTrip(v);
    SpelledRoundTrip(es');
    assert es'[if i < 0 then |es| else i].key == p[0];
    assert forall j :: 0 <= j < |es| ==> es'[j].key == es[j].key;
  }

  // ---------------------------------------------------------------- laws of Delete

  /** No key is repeated on any level that the path visits. */
  ghost predicate DistinctPath(v: Value, p: seq<string>)
    decreases |p|
  {
    p != [] && AsKeyed(v).Some? ==>
      var es := AsKeyed(v).value;
      var i := Scan(es, p[0]);
      Distinct(es) && (i >= 0 ==> DistinctPath(es[i].value, p[1..]))
  }

  /** Removing entry i hides nothing else. */
  lemma {:induction false} ScanAfterRemove<T>(es: seq<Entry<T>>, i: nat, k: string)
    requires i < |es| && es[i].key != k
    ensures Scan(es, k) < 0 ==> Scan(Remove(es, i), k) < 0
    ensures Scan(es, k) >= 0 ==> Scan(Remove(es, i), k) >= 0 && Remove(es, i)[Scan(Remove(es, i), k)] == es[Scan(es, k)]
  {
    var r, a := Remove(es, i), Scan(es, k);
    RemoveAt(es, i);
    if a >= 0 {
      ScanIs(r, k, if a < i then a else a - 1);
    } else {
      ScanNone(r, k);
    }
  }

  lemma RemoveAt<T>(es: seq<Entry<T>>, i: nat)
    requires i < |es|
    ensures |Remove(es, i)| == |es| - 1
    ensures forall j :: 0 <= j < |es| - 1 ==> Remove(es, i)[j] == es[if j < i then j else j + 1]
  {
  }

  lemma {:induction false} ScanIs<T>(es: seq<Entry<T>>, k: string, i: nat)
    requires i < |es| && es[i].key == k && forall j :: 0 <= j < i ==> es[j].key != k
    ensures Scan(es, k) == i
  {
  }

  lemma {:induction false} ScanNone<T>(es: seq<Entry<T>>, k: string)
    requires forall j :: 0 <= j < |es| ==> es[j].key != k
    ensures Scan(es, k) < 0
  {
  }

  lemma ScanAfterUpdate<T>(es: seq<Entry<T>>, i: nat, e: Entry<T>, k: string)
    requires i < |es| && e.key == es[i].key
    ensures Scan(es[i := e], k) == Scan(es, k)
  {
    var r := es[i := e];
    assert forall j :: 0 <= j < |r| ==> r[j].key == es[j].key;
    var a, b := Scan(es, k), Scan(r, k);
    if a >= 0 { assert r[a].key == k; }
    if b >= 0 { assert es[b].key == k; }
  }

  /** The level that Delete leaves: one entry fewer, or the same entries with a smaller subtree. */
  function AfterDelete(es: seq<Entry<Value>>, i: nat, p: seq<string>): seq<Entry<Value>>
    requires i < |es| && |p| >= 1 && (|p| > 1 ==> Delete(es[i].value, p[1..]).Ok?)
  {
    if |p| == 1 || Delete(es[i].value, p[1..]).value == List([]) then Remove(es, i)
    else es[i := Entry(es[i].key, Delete(es[i].value, p[1..]).value)]
  }

  /** Delete answers as Get does: the path is there, is absent, or is an error. */
  lemma {:induction false} DeleteAnswersAsGet(v: Value, p: seq<string>)
    requires |p| >= 1
    ensures Delete(v, p).Ok? <==> Get(v, p).Ok?
    ensures Delete(v, p).Break? <==> Get(v, p).Break?
    decreases |p|
  {
    if AsKeyed(v).Some? && |p| > 1 && Scan(AsKeyed(v).value, p[0]) >= 0 {
      DeleteAnswersAsGet(AsKeyed(v).value[Scan(AsKeyed(v).value, p[0])].value, p[1..]);
    }
  }

  lemma DeleteLevel(v: Value, p: seq<string>) returns (es: seq<Entry<Value>>, i: nat, es': seq<Entry<Value>>)
    requires |p| >= 1 && Delete(v, p).Ok?
    ensures AsKeyed(v) == Some(es) && i == Scan(es, p[0]) && AsKeyed(Delete(v, p).value) == Some(es')
    ensures |p| > 1 ==> Delete(es[i].value, p[1..]).Ok?
    ensures es' == AfterDelete(es, i, p)
  {
    es := AsKeyed(v).value;
    i := Scan(es, p[0]);
    ValueRoundTrip(v);
    es' := AfterDelete(es, i, p);
    LevelRoundTrip(es');
  }

  lemma ScanAfterDelete(es: seq<Entry<Value>>, i: nat, p: seq<string>, k: string)
    requires i < |es| && |p| >= 1 && (|p| > 1 ==> Delete(es[i].value, p[1..]).Ok?)
    requires Distinct(es)
    ensures var es' := AfterDelete(es, i, p);
            if k != es[i].key then
              if Scan(es, k) < 0 then Scan(es', k) < 0
              else Scan(es', k) >= 0 && es'[Scan(es', k)] == es[Scan(es, k)]
            else if |es'| == |es| then Scan(es', k) == i else Scan(es', k) < 0
  {
    var es' := AfterDelete(es, i, p);
    if |es'| == |es| {
      ScanAfterUpdate(es, i, es'[i], k);
    } else if k != es[i].key {
      ScanAfterRemove(es, i, k);
    } else {
      assert forall j :: 0 <= j < |es'| ==> es'[j] == es[if j < i then j else j + 1];
    }
  }

  /** A successful Delete removes the path. */
  lemma {:induction false} DeleteRemoves(v: Value, p: seq<string>)
    requires |p| >= 1 && Delete(v, p).Ok? && DistinctPath(v, p)
    ensures Get(Delete(v, p).value, p) == Break
    decreases |p|
  {
    var es, i, es' := DeleteLevel(v, p);
    ScanAfterDelete(es, i, p, p[0]);
    if |es'| == |es| { DeleteRemoves(es[i].value, p[1..]); }
  }

  /** Disjoint paths are left alone. */
  lemma {:induction false} GetOtherAfterDelete(v: Value, p: seq<string>, q: seq<string>)
    requires |p| >= 1 && Delete(v, p).Ok? && DistinctPath(v, p)
    requires |q| >= 1 && !(p <= q) && !(q <= p)
    ensures Get(Delete(v, p).value, q) == Get(v, q)
    decreases |p|
  {
    var es, i, es' := DeleteLevel(v, p);
    ScanAfterDelete(es, i, p, q[0]);
    if q[0] == p[0] {
      Apart(p, q);
      GetOtherAfterDelete(es[i].value, p[1..], q[1..]);
      EmptyList();
    }
  }

  /** ks without its first k. */
  ghost predicate Without(ks: seq<string>, k: string, ks': seq<string>) {
    exists i :: 0 <= i < |ks| && ks[i] == k && k !in ks[..i] && ks' == ks[..i] + ks[i + 1..]
  }

  lemma KeysAfterRemove(es: seq<Entry<Value>>, i: nat, k: string)
    requires i < |es| && i == Scan(es, k)
    ensures Without(Keys(es), k, Keys(Remove(es, i)))
  {
    RemoveAt(es, i);
    var ks := Keys(es);
    assert Keys(Remove(es, i)) == ks[..i] + ks[i + 1..];
  }

  /** Key order at every level above the last component that is still there: the next component goes
      if it cannot be read any more, and nothing else moves. */
  lemma {:induction false} KeysAfterDelete(v: Value, p: seq<string>, r: seq<string>)
    requires |p| >= 1 && Delete(v, p).Ok? && DistinctPath(v, p) && r < p && (r != [] ==> r[|r| - 1] != "")
    requires GetKeys(Delete(v, p).value, r).Ok?
    ensures GetKeys(v, r).Ok?
    ensures var ks, ks' := GetKeys(v, r).value, GetKeys(Delete(v, p).value, r).value;
            if Get(Delete(v, p).value, p[..|r| + 1]) == Break then Without(ks, p[|r|], ks') else ks' == ks
    decreases |p|
  {
    var es, i, es' := DeleteLevel(v, p);
    ScanAfterDelete(es, i, p, p[0]);
    GetKeysStep(v, r, es);
    GetKeysStep(Delete(v, p).value, r, es');
    if r == [] {
      KeysAfterRemove(es, i, p[0]);
      assert p[..1] == [p[0]];
      assert |es'| == |es| ==> Keys(es') == Keys(es);
    } else {
      LevelOfRest(r);
      assert p[..|r| + 1][1..] == p[1..][..|r[1..]| + 1];
      KeysAfterDelete(es[i].value, p[1..], r[1..]);
    }
  }

  /** No list on the path is left empty below the root. */
  lemma {:induction false} NoEmptyListLeft(v: Value, p: seq<string>, n: nat)
    requires |p| >= 1 && Delete(v, p).Ok? && DistinctPath(v, p)
    requires 1 <= n < |p|
    ensures Get(Delete(v, p).value, p[..n]) != Ok(List([]))
    decreases |p|
  {
    var es, i, es' := DeleteLevel(v, p);
    ScanAfterDelete(es, i, p, p[0]);
    GetPrefix(Delete(v, p).value, p, n, es');
    if |es'| == |es| && n > 1 {
      NoEmptyListLeft(es[i].value, p[1..], n - 1);
    }
  }

  lemma GetPrefix(v: Value, p: seq<string>, n: nat, es: seq<Entry<Value>>)
    requires 1 <= n < |p| && AsKeyed(v) == Some(es)
    ensures Get(v, p[..n]) ==
            if Scan(es, p[0]) < 0 then Break
            else if n == 1 then Ok(es[Scan(es, p[0])].value)
            else Get(es[Scan(es, p[0])].value, p[1..][..n - 1])
  {
    assert n > 1 ==> p[..n][1..] == p[1..][..n - 1];
  }

  /** Some proper prefix of the path reads as an empty list. */
  ghost predicate HitsEmpty(v: Value, p: seq<string>) {
    exists n :: 1 <= n < |p| && Get(v, p[..n]) == Ok(List([]))
  }

  lemma HitsEmptyStep(v: Value, p: seq<string>)
    requires |p| > 1 && AsKeyed(v).Some? && Scan(AsKeyed(v).value, p[0]) >= 0
    ensures var w := AsKeyed(v).value[Scan(AsKeyed(v).value, p[0])].value;
            HitsEmpty(v, p) <==> w == List([]) || HitsEmpty(w, p[1..])
  {
    var w := AsKeyed(v).value[Scan(AsKeyed(v).value, p[0])].value;
    forall n | 1 <= n < |p| ensures Get(v, p[..n]) == if n == 1 then Ok(w) else Get(w, p[1..][..n - 1]) {
      assert p[..n][1..] == p[1..][..n - 1];
    }
    if HitsEmpty(w, p[1..]) {
      var m :| 1 <= m < |p[1..]| && Get(w, p[1..][..m]) == Ok(List([]));
      assert Get(v, p[..m + 1]) == Ok(List([]));
    }
    if w == List([]) { assert Get(v, p[..1]) == Ok(List([])); }
  }

  /** Delete undoes the Set of an absent path, order included, exactly when no proper prefix of
      the path already held an empty list (which Delete prunes). */
  lemma {:induction false} DeleteUndoesSet(v: Value, p: seq<string>, x: Value)
    requires |p| >= 1 && Get(v, p) == Break
    ensures Set(v, p, x).Some? && Delete(Set(v, p, x).value, p).Ok?
    ensures Delete(Set(v, p, x).value, p) == Ok(v) <==> !HitsEmpty(v, p)
    decreases |p|
  {
    SetFailsIffGetErrs(v, p, x);
    var es, i := AsKeyed(v).value, Scan(AsKeyed(v).value, p[0]);
    if i < 0 {
      AddedSubtreeGoes(v, p, x);
      assert forall n :: 1 <= n < |p| ==> Get(v, p[..n]) == Break;
    } else {
      var w := es[i].value;
      DeleteUndoesSet(w, p[1..], x);
      HitsEmptyStep(v, p);
      SetThenDelete(v, p, x, es, i);
      if w == List([]) {
        EmptyList();
        AddedSubtreeGoes(w, p[1..], x);
      }
      UndoneLevel(v, es, i, p[0], Delete(Set(w, p[1..], x).value, p[1..]).value);
    }
  }

  /** Set and then Delete through an entry that exists. */
  lemma SetThenDelete(v: Value, p: seq<string>, x: Value, es: seq<Entry<Value>>, i: nat)
    requires |p| > 1 && AsKeyed(v) == Some(es) && i == Scan(es, p[0])
    requires Set(es[i].value, p[1..], x).Some? && Delete(Set(es[i].value, p[1..], x).value, p[1..]).Ok?
    ensures var d := Delete(Set(es[i].value, p[1..], x).value, p[1..]).value;
            Set(v, p, x).Some? && Delete(Set(v, p, x).value, p) ==
            Ok(FromEntries(if d == List([]) then Remove(es, i) else es[i := Entry(p[0], d)]))
  {
    var w' := Set(es[i].value, p[1..], x).value;
    var es' := Put(es, i, p[0], w');
    LevelRoundTrip(es');
    ScanAfterPut(es, p[0], w', p[0]);
    assert Remove(es', i) == Remove(es, i);
    assert forall d :: es'[i := Entry(p[0], d)] == es[i := Entry(p[0], d)];
  }

  lemma UndoneLevel(v: Value, es: seq<Entry<Value>>, i: nat, k: string, d: Value)
    requires AsKeyed(v) == Some(es) && i < |es| && es[i].key == k
    ensures FromEntries(if d == List([]) then Remove(es, i) else es[i := Entry(k, d)]) == v
            <==> d == es[i].value && d != List([])
  {
    ValueRoundTrip(v);
    var fs := if d == List([]) then Remove(es, i) else es[i := Entry(k, d)];
    EntriesInjective(fs, es);
    assert fs == es ==> fs[i] == es[i];
  }

  /** The case where even the first component was absent: a whole subtree comes and goes. */
  lemma {:induction false} AddedSubtreeGoes(v: Value, p: seq<string>, x: Value)
    requires |p| >= 1 && AsKeyed(v).Some? && Scan(AsKeyed(v).value, p[0]) < 0
    ensures Set(v, p, x).Some? && Delete(Set(v, p, x).value, p) == Ok(v)
    decreases |p|
  {
    if |p| > 1 { SetIntoEmpty(p[1..], x); }
    var es, i, sub, es' := SetLevel(v, p, x);
    ScanAfterPut(es, p[0], if |p| == 1 then x else Set(sub, p[1..], x).value, p[0]);
    ValueRoundTrip(v);
    assert Remove(es', |es|) == es;
    if |p| > 1 {
      EmptyList();
      AddedSubtreeGoes(List([]), p[1..], x);
    }
  }
}
