/**
  The keyed-list commands on the heap of shared objects: copy-on-write, lazy conversion, cached
  strings and reference counts, as keylset, keyldel and keylget manage them. An object is changed in
  place only when nothing outside the path being worked on holds it; then every object on the way
  back drops its cached string.
*/
module KeyedHeap {
  import opened Common
  import opened KeyedValue
  import opened KeyedLevel
  import opened KeyedObjects

  class Heap {
    var objs: seq<Obj>
    var slots: seq<Option<Ref>>
    ghost var vals: seq<Value>

    ghost predicate ValidBut(A: set<Ref>)
      reads this
    {
      Shaped(objs, slots) && Counted(objs, slots) && Valued(objs, vals, A)
    }

    ghost predicate Valid()
      reads this
    {
      ValidBut({})
    }

    /** No object yet, and so many variables and argument positions that hold none. */
    constructor (n: nat)
      ensures Valid() && objs == [] && slots == seq(n, _ => None) && vals == []
    {
      objs, vals, slots := [], [], seq(n, _ => None);
    }

    /** A new object, as TclX_NewKeyedListObj or Tcl_NewObj make it. */
    method Alloc(o: Obj) returns (r: Ref)
      requires Valid() && WellFormed(o, |objs|) && o.refCount >= 0
      requires forall x :: 0 <= x < |objs| ==> Held(objs, slots, x) + Occ(Children(o), x) <= objs[x].refCount
      requires o.bytes.Some? ==> o.bytes.value == Denote(o, vals)
      modifies this`objs, this`vals
      ensures Valid() && r == |old(objs)| && objs == old(objs) + [o]
      ensures vals == old(vals) + [Denote(o, old(vals))]
      ensures Held(objs, slots, r) == 0
      ensures forall x :: 0 <= x < r ==> Edges(objs, x) == old(Edges(objs, x)) + Occ(Children(o), x)
    {
      AllocCounted(objs, slots, o);
      AllocValued(objs, vals, {}, o);
      r := |objs|;
      forall x | 0 <= x <= r ensures Edges(objs + [o], x) == Edges(objs, x) + Occ(Children(o), x)
                             ensures x == r ==> Edges(objs + [o], x) == 0 {
        AllocEdges(objs, o, x);
      }
      SlotsIn(slots, r);
      vals := vals + [Denote(o, vals)];
      objs := objs + [o];
    }

    /** Tcl_IncrRefCount and Tcl_DecrRefCount, without the release of dead objects. */
    method SetCount(c: Ref, n: int, ghost A: set<Ref>)
      requires ValidBut(A) && c < |objs| && Held(objs, slots, c) <= n
      modifies this`objs
      ensures ValidBut(A) && objs == WithCount(old(objs), c, n)
      ensures forall x :: Edges(objs, x) == old(Edges(objs, x))
    {
      RefCountStep(objs, slots, c, n);
      RefCountValued(objs, vals, A, c, n);
      objs := WithCount(objs, c, n);
    }

    /** Tcl_DuplicateObj: a deep copy of the keyed-list structure, sharing nothing with it. */
    method Dup(o: Ref) returns (c: Ref)
      requires Valid() && o < |objs|
      modifies this`objs, this`vals
      ensures Valid() && old(objs) <= objs && old(vals) <= vals
      ensures |old(objs)| <= c < |objs| && vals[c] == vals[o]
      ensures objs[c].refCount == 0 && Held(objs, slots, c) == 0
      ensures NewFrom(objs, |old(objs)|)
      decreases Size(vals[o]), 1
    {
      match objs[o].rep
      case Plain(v) =>
        c := Alloc(Obj(0, objs[o].bytes, Plain(v)));
      case Keyed(l) =>
        var copies := DupChildren(o, l);
        var copy := Obj(0, objs[o].bytes, Keyed(Level(WithValues(l.entries, copies), None)));
        DupDenotes(objs[o], copy, vals, copies);
        FreshCounts(objs, slots, copies, |old(objs)|);
        NewFromAppend(objs, copy, |old(objs)|);
        c := Alloc(copy);
    }

    /** The loop of DupKeyedListInternalRep. */
    method DupChildren(o: Ref, l: Level<Ref>) returns (copies: seq<Ref>)
      requires Valid() && o < |objs| && objs[o].rep == Keyed(l)
      modifies this`objs, this`vals
      ensures Valid() && old(objs) <= objs && old(vals) <= vals
      ensures |copies| == |l.entries| && Fresh(objs, slots, copies, |old(objs)|)
      ensures SameValues(l.entries, copies, vals)
      decreases Size(vals[o]), 0
    {
      copies := [];
      for i := 0 to |l.entries|
        invariant Valid() && old(objs) <= objs && old(vals) <= vals && |copies| == i
        invariant Fresh(objs, slots, copies, |old(objs)|)
        invariant SameValues(l.entries[..i], copies, vals)
      {
        ChildSmaller(objs[o], vals, i);
        assert Children(objs[o])[i] == l.entries[i].value < |old(objs)|;
        ghost var vals0 := vals;
        var child := DupChild(l.entries[i].value, copies, |old(objs)|);
        SameValuesStep(l.entries, i, copies, child, vals0, vals);
        copies := copies + [child];
      }
      assert l.entries[..|l.entries|] == l.entries;
    }

    /** Tcl_DuplicateObj and Tcl_IncrRefCount of one child, next to earlier copies. */
    method DupChild(x: Ref, copies: seq<Ref>, ghost n: nat) returns (c: Ref)
      requires Valid() && x < |objs| && n <= |objs| && Fresh(objs, slots, copies, n)
      modifies this`objs, this`vals
      ensures Valid() && old(objs) <= objs && old(vals) <= vals
      ensures |old(objs)| <= c < |objs| && vals[c] == vals[x]
      ensures Fresh(objs, slots, copies + [c], n) && Fresh(objs, slots, [c], |old(objs)|)
      decreases Size(vals[x]), 2
    {
      ghost var objs0 := objs;
      c := Dup(x);
      FreshStep(objs0, objs, slots, copies, c, n);
      FreshStep(objs0, objs, slots, [], c, |objs0|);
      SetCount(c, 1, {});
    }

    /** Tcl_ConvertToType to the keyed-list type: SetKeyedListFromAny unless converted already. */
    method Convert(o: Ref) returns (ok: bool)
      requires Valid() && o < |objs|
      modifies this`objs, this`vals
      ensures Valid() && old(vals) <= vals
      ensures ok <==> AsKeyed(vals[o]).Some?
      ensures ok ==> objs[o].rep.Keyed? && AsKeyed(vals[o]) == Some(Values(objs[o].rep.level.entries, vals))
      ensures Frame(old(objs), old(vals), objs, vals, {o})
      ensures OldEdgesOnly(old(objs), objs, -1)
    {
      match objs[o].rep
      case Keyed(l) =>
        KeyedDenotes(objs[o], vals, |vals|);
        ok := true;
      case Plain(v) =>
        match AsKeyed(v)
        case None => ok := false;
        case Some(es) =>
          ConvertList(o, v, es);
          ok := true;
    }

    /** The elements become entries, every one of them indexed. */
    method ConvertList(o: Ref, v: Value, es: seq<Entry<Value>>)
      requires Valid() && o < |objs| && objs[o].rep == Plain(v) && AsKeyed(v) == Some(es)
      modifies this`objs, this`vals
      ensures Valid() && old(vals) <= vals && objs[o].rep.Keyed?
      ensures AsKeyed(vals[o]) == Some(Values(objs[o].rep.level.entries, vals))
      ensures Frame(old(objs), old(vals), objs, vals, {o})
      ensures OldEdgesOnly(old(objs), objs, -1)
    {
      var copies := AllocPlain(es);
      var o' := objs[o].(rep := Keyed(Level(WithValues(es, copies), Some(IndexAll(WithValues(es, copies))))));
      ConvertReady(objs, vals, slots, o, o', v, es, copies, old(objs), old(vals));
      Overwrite(o, o', old(objs), old(vals));
    }

    /** The loop of SetKeyedListFromAny: one new object for each element's value. */
    method AllocPlain(es: seq<Entry<Value>>) returns (copies: seq<Ref>)
      requires Valid()
      modifies this`objs, this`vals
      ensures Valid() && old(objs) <= objs && old(vals) <= vals
      ensures |copies| == |es| && Fresh(objs, slots, copies, |old(objs)|)
      ensures forall j :: 0 <= j < |es| ==> copies[j] < |vals| && vals[copies[j]] == es[j].value
    {
      copies := [];
      for i := 0 to |es|
        invariant Valid() && old(objs) <= objs && old(vals) <= vals && |copies| == i
        invariant Fresh(objs, slots, copies, |old(objs)|)
        invariant forall j :: 0 <= j < i ==> copies[j] < |vals| && vals[copies[j]] == es[j].value
      {
        var c := AllocOne(es[i].value, copies, |old(objs)|);
        copies := copies + [c];
      }
    }

    /** A new object for one value, with the count of the entry that is to hold it. */
    method AllocOne(v: Value, copies: seq<Ref>, ghost n: nat) returns (c: Ref)
      requires Valid() && n <= |objs| && Fresh(objs, slots, copies, n)
      modifies this`objs, this`vals
      ensures Valid() && old(objs) <= objs && old(vals) <= vals
      ensures Fresh(objs, slots, copies + [c], n) && c < |vals| && vals[c] == v
    {
      FreshAlloc(objs, slots, copies, Obj(1, None, Plain(v)), n);
      c := Alloc(Obj(1, None, Plain(v)));
    }

    /** DupSharedKeyListChild: before descending into entry i, make its value private. The count
        of a shared original is left as it was. */
    method UnshareChild(o: Ref, i: nat) returns (c: Ref)
      requires Valid() && o < |objs| && objs[o].rep.Keyed? && i < |objs[o].rep.level.entries|
      modifies this`objs, this`vals
      ensures Valid() && old(vals) <= vals
      ensures c < |objs| && objs[c].refCount <= 1
      ensures objs[o].rep == Keyed(Swapped(old(objs)[o].rep.level, i, c))
      ensures var was := old(objs)[o].rep.level.entries[i].value;
              was < |old(vals)| && vals[c] == old(vals)[was] && (c == was || c >= |old(objs)|)
      ensures Frame(old(objs), old(vals), objs, vals, {o})
      ensures OldEdgesOnly(old(objs), objs, -1)
    {
      var l := objs[o].rep.level;
      c := l.entries[i].value;
      assert Children(objs[o])[i] == c < |objs|;
      assert Swapped(l, i, c) == l;
      if objs[c].refCount > 1 {
        c := SwapInCopy(o, i);
      }
    }

    method SwapInCopy(o: Ref, i: nat) returns (c: Ref)
      requires Valid() && o < |objs| && objs[o].rep.Keyed? && i < |objs[o].rep.level.entries|
      modifies this`objs, this`vals
      ensures Valid() && old(vals) <= vals
      ensures |old(objs)| <= c < |objs| && objs[c].refCount <= 1
      ensures objs[o].rep == Keyed(Swapped(old(objs)[o].rep.level, i, c))
      ensures var was := old(objs)[o].rep.level.entries[i].value;
              was < |old(vals)| && vals[c] == old(vals)[was]
      ensures Frame(old(objs), old(vals), objs, vals, {o})
      ensures OldEdgesOnly(old(objs), objs, -1)
    {
      var l := objs[o].rep.level;
      assert Children(objs[o])[i] == l.entries[i].value < |objs|;
      c := DupChild(l.entries[i].value, [], |objs|);
      assert [c][0] == c;
      PutCopy(o, i, c, old(objs), old(vals));
    }

    /** The copy takes the place of entry i's value. */
    method PutCopy(o: Ref, i: nat, c: Ref, ghost objs0: seq<Obj>, ghost vals0: seq<Value>)
      requires Valid() && objs0 <= objs && vals0 <= vals && o < |objs0| == |vals0| && NewFrom(objs, |objs0|)
      requires objs[o].rep.Keyed? && i < |objs[o].rep.level.entries| && objs[o].rep.level.entries[i].value < |vals|
      requires |objs0| <= c < |objs| && Held(objs, slots, c) == 0 && objs[c].refCount == 1
      requires vals[c] == vals[objs[o].rep.level.entries[i].value]
      modifies this`objs
      ensures Valid() && |objs| == |old(objs)| && objs[o].rep == Keyed(Swapped(old(objs)[o].rep.level, i, c))
      ensures c != o && objs[c] == old(objs)[c]
      ensures Frame(objs0, vals0, objs, vals, {o}) && OldEdgesOnly(objs0, objs, -1)
    {
      var o' := objs[o].(rep := Keyed(Swapped(objs[o].rep.level, i, c)));
      SwapChild(objs[o], vals, i, c);
      SwapCounts(objs, slots, o, i, c, o');
      Overwrite(o, o', objs0, vals0);
    }

    /** Replace o's representation by one of the same value, built on copies made since objs0. */
    method Overwrite(o: Ref, o': Obj, ghost objs0: seq<Obj>, ghost vals0: seq<Value>)
      requires Valid() && Replaceable(objs, vals, slots, o, o', objs0, vals0)
      modifies this`objs
      ensures Valid() && objs == old(objs)[o := o']
      ensures Frame(objs0, vals0, objs, vals, {o}) && OldEdgesOnly(objs0, objs, -1)
    {
      ReplaceCounted(objs, slots, o, o');
      ReplaceSame(objs, vals, {}, o, o');
      EditEdges(objs0, objs, o, o');
      EditFrame(objs0, vals0, objs, vals, o, o');
      objs := objs[o := o'];
    }

    /** Store a new level in o and drop its cached string (Tcl_InvalidateStringRep). */
    method Rewrite(o: Ref, l: Level<Ref>, ghost A: set<Ref>)
      requires ValidBut(A + {o}) && o < |objs| && WellFormed(Obj(0, None, Keyed(l)), |objs|)
      requires UpClosed(objs, A + {o}) && o !in Refs(l.entries)
      requires forall x :: 0 <= x < |objs| ==>
                 Held(objs, slots, x) - Occ(Children(objs[o]), x) + Occ(Refs(l.entries), x) <= objs[x].refCount
      modifies this`objs, this`vals
      ensures ValidBut(A) && objs == old(objs)[o := Obj(old(objs)[o].refCount, None, Keyed(l))]
      ensures Below(Refs(l.entries), |old(vals)|) && vals == old(vals)[o := FromEntries(Values(l.entries, old(vals)))]
    {
      var o' := Obj(objs[o].refCount, None, Keyed(l));
      assert Children(o') == Refs(l.entries);
      ReplaceCounted(objs, slots, o, o');
      ReplaceValued(objs, vals, A, o, o');
      vals := vals[o := Denote(o', vals)];
      objs := objs[o := o'];
    }

    /** Put child v, whose count has room for one more holder, under key k of o: in entry i, which
        has that key, or in a new entry. */
    method StoreChild(o: Ref, i: int, k: string, v: Ref, ghost A: set<Ref>)
      requires Valid() && o < |objs| && v < |objs| && objs[o].rep.Keyed?
      requires -1 <= i < |objs[o].rep.level.entries| && (i >= 0 ==> objs[o].rep.level.entries[i].key == k)
      requires o !in A && UpClosed(objs, A + {o}) && v !in A + {o}
      requires Held(objs, slots, v) < objs[v].refCount
      modifies this`objs, this`vals
      ensures ValidBut(A)
      ensures var l := old(objs)[o].rep.level;
              Below(Refs(l.entries), |old(vals)|) &&
              PutRefs(old(objs)[o], PutAt(l, i, k, v), i, v) &&
              objs == old(objs)[o := Obj(old(objs)[o].refCount, None, Keyed(PutAt(l, i, k, v)))] &&
              vals == old(vals)[o := FromEntries(Put(Values(l.entries, old(vals)), i, k, old(vals)[v]))] &&
              (i >= 0 ==> Held(objs, slots, l.entries[i].value) < old(objs)[l.entries[i].value].refCount)
    {
      var l := objs[o].rep.level;
      NotOwnChild(objs, vals, A, o);
      PutLevel(l, vals, i, k, v);
      PutCounts(objs, slots, o, PutAt(l, i, k, v), i, v);
      Rewrite(o, PutAt(l, i, k, v), A);
      if i >= 0 {
        PutReleases(old(objs), objs, slots, o, PutAt(l, i, k, v), i, v);
      }
    }

    /** The leaf of TclX_KeyedListSet: v becomes the value of key k of o, in entry i or a new one,
        and its count goes up; the count of a replaced value goes down. */
    method SetLeaf(o: Ref, i: int, k: string, v: Ref, ghost A: set<Ref>)
      requires Valid() && o < |objs| && v < |objs| && objs[o].rep.Keyed?
      requires -1 <= i < |objs[o].rep.level.entries| && (i >= 0 ==> objs[o].rep.level.entries[i].key == k)
      requires o !in A && UpClosed(objs, A + {o}) && v !in A + {o}
      modifies this`objs, this`vals
      ensures ValidBut(A) && |objs| == |old(objs)| && objs[o].rep.Keyed?
      ensures var l := old(objs)[o].rep.level;
              Below(Refs(l.entries), |old(vals)|) &&
              vals[o] == FromEntries(Put(Values(l.entries, old(vals)), i, k, old(vals)[v]))
      ensures CountsMoved(old(objs), objs, Some(v),
                          if i >= 0 then Some(old(objs)[o].rep.level.entries[i].value) else None)
      ensures objs[o].bytes == None
      ensures Frame(old(objs), old(vals), objs, vals, {o})
      ensures OldEdgesOnly(old(objs), objs, v)
    {
      ghost var objs0, vals0, l' := objs, vals, PutAt(objs[o].rep.level, i, k, v);
      var l := objs[o].rep.level;
      var released := if i >= 0 then Some(l.entries[i].value) else None;
      PutLeaf(o, i, k, v, A);
      if released.Some? {
        CountDown(released.value, objs0, v, o, l', A);
      }
      LeafCounts(objs0, v, o, l', released, objs);
      LeafFrame(objs0, vals0, v, o, l', i, vals[o], released, objs, vals);
    }

    method CountDown(r: Ref, ghost objs0: seq<Obj>, ghost v: Ref, ghost o: Ref, ghost l: Level<Ref>, ghost A: set<Ref>)
      requires ValidBut(A) && o < |objs0| && v < |objs0| && r < |objs0| && objs == WithLeaf(objs0, v, o, l, None)
      requires Held(objs, slots, r) < objs[r].refCount
      modifies this`objs
      ensures ValidBut(A) && objs == WithLeaf(objs0, v, o, l, Some(r))
    {
      SetCount(r, objs[r].refCount - 1, A);
    }

    /** The value is counted and stored; a replaced one still has its old count. */
    method PutLeaf(o: Ref, i: int, k: string, v: Ref, ghost A: set<Ref>)
      requires Valid() && o < |objs| && v < |objs| && objs[o].rep.Keyed?
      requires -1 <= i < |objs[o].rep.level.entries| && (i >= 0 ==> objs[o].rep.level.entries[i].key == k)
      requires o !in A && UpClosed(objs, A + {o}) && v !in A + {o}
      modifies this`objs, this`vals
      ensures ValidBut(A) && |objs| == |old(objs)| == |old(vals)|
      ensures var l := old(objs)[o].rep.level;
              && Below(Refs(l.entries), |old(vals)|) && PutRefs(old(objs)[o], PutAt(l, i, k, v), i, v)
              && objs == WithLeaf(old(objs), v, o, PutAt(l, i, k, v), None)
              && vals == old(vals)[o := FromEntries(Put(Values(l.entries, old(vals)), i, k, old(vals)[v]))]
              && (i >= 0 ==> l.entries[i].value < |objs| &&
                             Held(objs, slots, l.entries[i].value) < objs[l.entries[i].value].refCount)
    {
      CountUp(v, o, A);
      assert i >= 0 ==> Children(objs[o])[i] == objs[o].rep.level.entries[i].value;
      StoreChild(o, i, k, v, A);
    }

    method CountUp(v: Ref, ghost o: Ref, ghost A: set<Ref>)
      requires Valid() && v < |objs| && o < |objs| && UpClosed(objs, A + {o})
      modifies this`objs
      ensures Valid() && objs == WithCount(old(objs), v, old(objs)[v].refCount + 1)
      ensures UpClosed(objs, A + {o}) && objs[o].rep == old(objs)[o].rep
      ensures Held(objs, slots, v) < objs[v].refCount
    {
      ghost var objs0 := objs;
      SetCount(v, objs[v].refCount + 1, {});
      UpClosedStays(objs0, objs, -1, A + {o});
    }

    /** Tcl_InvalidateStringRep on o, whose children may have changed. */
    method Invalidate(o: Ref, ghost A: set<Ref>)
      requires ValidBut(A + {o}) && o < |objs| && objs[o].rep.Keyed?
      requires UpClosed(objs, A + {o}) && o !in Children(objs[o])
      modifies this`objs, this`vals
      ensures ValidBut(A) && objs == old(objs)[o := old(objs)[o].(bytes := None)]
      ensures var l := old(objs)[o].rep.level;
              Below(Refs(l.entries), |old(vals)|) && vals == old(vals)[o := FromEntries(Values(l.entries, old(vals)))]
    {
      assert Children(objs[o]) == Refs(objs[o].rep.level.entries);
      Rewrite(o, objs[o].rep.level, A);
    }

    /** Make the child in entry i private and show that it may be updated below o. */
    method EnterChild(o: Ref, i: nat, ghost v: int, ghost A: set<Ref>) returns (c: Ref)
      requires Valid() && Private(objs, vals, o, A) && v !in A + {o}
      requires objs[o].rep.Keyed? && i < |objs[o].rep.level.entries|
      modifies this`objs, this`vals
      ensures Valid() && old(vals) <= vals && |vals| == |objs|
      ensures Unshared(old(objs), old(vals), objs, vals, slots, o, i, c, v, A)
      ensures Private(objs, vals, c, A + {o}) && Some(c) !in slots
      ensures objs[o].rep == Keyed(Swapped(old(objs)[o].rep.level, i, c))
      ensures Reads(objs[o], vals, vals[o])
    {
      ghost var objs0 := objs;
      c := UnshareChild(o, i);
      UpClosedStays(objs0, objs, -1, A + {o});
      assert Children(objs[o])[i] == c;
      Descend(objs, slots, vals, A, o, i, c);
    }

    /** Back from an update of the private child c of o: drop o's cached string. */
    method FinishBelow(o: Ref, ghost i: nat, ghost c: Ref, ghost objs0: seq<Obj>, ghost vals0: seq<Value>,
                       ghost objs1: seq<Obj>, ghost vals1: seq<Value>, ghost v: int, ghost A: set<Ref>,
                       ghost Dc: set<Ref>)
      requires ValidBut(A + {o}) && Updated(objs1, vals1, objs, vals, slots, c, A + {o}, v, Dc)
      requires Unshared(objs0, vals0, objs1, vals1, slots, o, i, c, v, A)
      modifies this`objs, this`vals
      ensures ValidBut(A) && Updated(objs0, vals0, objs, vals, slots, o, A, v, Back(objs0, o, Dc))
      ensures objs == old(objs)[o := old(objs)[o].(bytes := None)] && objs[o].rep == objs1[o].rep
      ensures c < |vals| && vals[c] == old(vals)[c]
      ensures var es := objs1[o].rep.level.entries;
              Below(Refs(es), |vals1|) &&
              vals[o] == FromEntries(Values(es, vals1)[i := Entry(es[i].key, vals[c])])
    {
      ghost var es := objs1[o].rep.level.entries;
      Ascend(objs0, vals0, objs1, vals1, slots, A, o, i, c, Dc);
      NotOwnChild(objs1, vals1, {}, o);
      UpClosedStays(objs0, objs1, -1, A + {o});
      UpClosedStays(objs1, objs, v, A + {o});
      OldEdgesCompose(objs0, objs1, objs, -1, v);
      LevelAfter(es, vals1, vals, i, Dc);
      ghost var objs2, vals2 := objs, vals;
      Invalidate(o, A);
      BackFrame(objs0, vals0, objs1, vals1, objs2, vals2, objs, vals, o, v, Dc);
    }

    /** TclX_KeyedListSet: fails without changing any value, or stores v under the key path of o
        and changes no object that has a holder outside o. */
    method KeyedListSet(o: Ref, key: string, v: Ref, ghost A: set<Ref>) returns (ok: bool, ghost D: set<Ref>)
      requires Valid() && Private(objs, vals, o, A)
      requires v < |objs| && v !in A + {o} && Some(v) in slots
      modifies this
      ensures slots == old(slots) && ValidBut(A)
      ensures ok ==> Updated(old(objs), old(vals), objs, vals, slots, o, A, v, D)
      ensures !ok ==> Valid() && old(vals) <= vals && OldEdgesOnly(old(objs), objs, v)
      ensures SetSpec(old(vals), vals, o, Split(key), v, ok)
      decreases |key|, 2
    {
      ghost var objs0, vals0 := objs, vals;
      D := {o};
      ok := Convert(o);
      if ok {
        ghost var objs1, vals1 := objs, vals;
        UpClosedStays(objs0, objs1, -1, A + {o});
        ok, D := SetConverted(o, key, v, A);
        if ok {
          AfterConversion(objs0, vals0, objs1, vals1, objs, vals, slots, o, A, v, D);
          D := Back(objs0, o, D);
        } else {
          OldEdgesCompose(objs0, objs1, objs, -1, v);
        }
      }
    }

    method SetConverted(o: Ref, key: string, v: Ref, ghost A: set<Ref>) returns (ok: bool, ghost D: set<Ref>)
      requires Valid() && Private(objs, vals, o, A)
      requires v < |objs| && v !in A + {o} && Some(v) in slots && objs[o].rep.Keyed?
      modifies this
      ensures slots == old(slots) && ValidBut(A)
      ensures ok ==> Updated(old(objs), old(vals), objs, vals, slots, o, A, v, D)
      ensures !ok ==> Valid() && old(vals) <= vals && OldEdgesOnly(old(objs), objs, v)
      ensures SetSpec(old(vals), vals, o, Split(key), v, ok)
      decreases |key|, 1
    {
      var i := Find(objs[o].rep.level, key);
      if Rest(key).None? {
        SetLast(o, i, key, v, A);
        ok, D := true, {o};
      } else if i >= 0 {
        ok, D := SetBelow(o, i, key, v, A);
      } else {
        ok := SetNew(o, key, v, A);
        D := {o};
      }
    }

    /** The key has one component. */
    method SetLast(o: Ref, i: int, key: string, v: Ref, ghost A: set<Ref>)
      requires Valid() && Private(objs, vals, o, A)
      requires v < |objs| && v !in A + {o} && objs[o].rep.Keyed?
      requires i == Find(objs[o].rep.level, key) && Rest(key).None?
      modifies this`objs, this`vals
      ensures ValidBut(A) && Updated(old(objs), old(vals), objs, vals, slots, o, A, v, {o})
      ensures SetSpec(old(vals), vals, o, Split(key), v, true)
    {
      ghost var o1, vals1 := objs[o], vals;
      SetLeaf(o, i, Head(key), v, A);
      SetLeafSpec(o1, vals1, vals, o, key, v);
    }

    /** The first component of the key is absent: build the new subtree first, and insert it only
        when that succeeds. */
    method SetNew(o: Ref, key: string, v: Ref, ghost A: set<Ref>) returns (ok: bool)
      requires Valid() && Private(objs, vals, o, A)
      requires v < |objs| && v !in A + {o} && Some(v) in slots && objs[o].rep.Keyed?
      requires Find(objs[o].rep.level, key) < 0 && Rest(key).Some?
      modifies this
      ensures slots == old(slots) && ValidBut(A)
      ensures ok ==> Updated(old(objs), old(vals), objs, vals, slots, o, A, v, {o})
      ensures !ok ==> Valid() && old(vals) <= vals && OldEdgesOnly(old(objs), objs, v)
      ensures SetSpec(old(vals), vals, o, Split(key), v, ok)
      decreases |key|, 0
    {
      ghost var objs0, vals0 := objs, vals;
      var sub;
      ghost var D;
      ok, sub, D := BuildSubtree(Rest(key).value, v);
      ghost var vals1 := vals;
      if ok {
        Graft(o, Head(key), sub, v, A, objs0, vals0, slots + [Some(sub)], D);
      }
      SetNewSpec(objs0[o], vals0, vals1, vals, o, key, v, ok);
    }

    /** A new keyed list, held by a local pointer while key is set in it. */
    method BuildSubtree(key: string, v: Ref) returns (ok: bool, sub: Ref, ghost D: set<Ref>)
      requires Valid() && v < |objs| && Some(v) in slots
      modifies this
      ensures Valid() && slots == old(slots) && sub == |old(objs)|
      ensures ok ==> Updated(old(objs) + [EMPTY_LIST], old(vals) + [List([])], objs, vals, slots + [Some(sub)],
                             sub, {}, v, D)
      ensures !ok ==> old(vals) <= vals && OldEdgesOnly(old(objs), objs, v)
      ensures sub < |objs| && Held(objs, slots, sub) < objs[sub].refCount
      ensures SetSpec(old(vals) + [List([])], vals, sub, Split(key), v, ok)
      decreases |key|, 4
    {
      ghost var objs0, vals0, slots0 := objs, vals, slots;
      sub := NewSubtree();
      ok, D := FillSubtree(sub, key, v, objs0, vals0, slots0);
      DropLocal(sub, slots0);
    }

    /** The rest of the key is set in the new list. */
    method FillSubtree(sub: Ref, key: string, v: Ref, ghost objs0: seq<Obj>, ghost vals0: seq<Value>,
                       ghost slots0: seq<Option<Ref>>)
      returns (ok: bool, ghost D: set<Ref>)
      requires Valid() && v < |objs0| == |vals0| == sub && Some(v) in slots0
      requires objs == objs0 + [EMPTY_LIST] && vals == vals0 + [List([])] && slots == slots0 + [Some(sub)]
      requires Private(objs, vals, sub, {})
      modifies this
      ensures Valid() && slots == old(slots)
      ensures ok ==> Updated(old(objs), old(vals), objs, vals, slots, sub, {}, v, D)
      ensures !ok ==> vals0 <= vals && OldEdgesOnly(objs0, objs, v)
      ensures SetSpec(old(vals), vals, sub, Split(key), v, ok)
      decreases |key|, 3
    {
      ghost var objs1, vals1 := objs, vals;
      ok, D := KeyedListSet(sub, key, v, {});
      if !ok {
        NewEdgesOnly(objs0, objs1, objs, v);
        assert vals0 <= vals1 <= vals;
      }
    }

    /** TclX_NewKeyedListObj and Tcl_IncrRefCount: a new empty keyed list held by a local pointer,
        which counts as one more slot. */
    method NewSubtree() returns (sub: Ref)
      requires Valid()
      modifies this
      ensures Valid() && sub == |old(objs)| && objs == old(objs) + [EMPTY_LIST] && vals == old(vals) + [List([])]
      ensures slots == old(slots) + [Some(sub)] && Private(objs, vals, sub, {})
    {
      NewPrivate(objs, slots, vals, EMPTY_LIST);
      EmptyDenotes(vals);
      sub := Alloc(EMPTY_LIST);
      SlotsPush(objs, slots, sub);
      slots := slots + [Some(sub)];
    }

    /** The local pointer goes away; its count is left for the entry that will hold the object. */
    method DropLocal(sub: Ref, ghost slots0: seq<Option<Ref>>)
      requires Valid() && slots == slots0 + [Some(sub)]
      modifies this`slots
      ensures Valid() && slots == slots0
      ensures sub < |objs| && Held(objs, slots, sub) < objs[sub].refCount
    {
      SlotsPop(objs, slots0, sub);
      slots := slots[..|slots| - 1];
      assert slots == slots0;
    }

    /** Insert the finished subtree under the absent key k. */
    method Graft(o: Ref, k: string, sub: Ref, ghost v: Ref, ghost A: set<Ref>, ghost objs0: seq<Obj>,
                 ghost vals0: seq<Value>, ghost slots1: seq<Option<Ref>>, ghost D: set<Ref>)
      requires Valid() && Private(objs0, vals0, o, A) && v !in A + {o} && v < |objs0| && sub == |objs0|
      requires Shaped(objs0, slots) && objs0[o].rep.Keyed?
      requires Updated(objs0 + [EMPTY_LIST], vals0 + [List([])], objs, vals, slots1, sub, {}, v, D)
      requires Held(objs, slots, sub) < objs[sub].refCount
      modifies this`objs, this`vals
      ensures ValidBut(A) && Updated(objs0, vals0, objs, vals, slots, o, A, v, {o}) && |vals| == |old(vals)|
      ensures var l := objs0[o].rep.level;
              Below(Refs(l.entries), |vals0|) && sub < |vals| && vals[sub] == old(vals)[sub] &&
              vals[o] == FromEntries(Values(l.entries, vals0) + [Entry(k, vals[sub])])
    {
      ghost var objs2, vals2 := objs, vals;
      ghost var o' := GraftEntry(o, k, sub, v, A, objs0, vals0, slots1, D);
      GraftFrame(objs0, vals0, EMPTY_LIST, List([]), objs2, vals2, slots1, D, o, o', vals[o], v);
    }

    /** The new entry of o. */
    method GraftEntry(o: Ref, k: string, sub: Ref, ghost v: Ref, ghost A: set<Ref>, ghost objs0: seq<Obj>,
                      ghost vals0: seq<Value>, ghost slots1: seq<Option<Ref>>, ghost D: set<Ref>)
      returns (ghost o': Obj)
      requires Valid() && Private(objs0, vals0, o, A) && v !in A + {o} && v < |objs0| && sub == |objs0|
      requires Shaped(objs0, slots) && objs0[o].rep.Keyed?
      requires Updated(objs0 + [EMPTY_LIST], vals0 + [List([])], objs, vals, slots1, sub, {}, v, D)
      requires Held(objs, slots, sub) < objs[sub].refCount
      modifies this`objs, this`vals
      ensures ValidBut(A) && o < |old(objs)| && objs == old(objs)[o := o'] && Children(o') == Children(objs0[o]) + [sub]
      ensures sub < |old(vals)| && o < |old(vals)| && Below(Refs(objs0[o].rep.level.entries), |vals0|)
      ensures vals == old(vals)[o :=
                FromEntries(Values(objs0[o].rep.level.entries, vals0) + [Entry(k, old(vals)[sub])])]
    {
      GraftKeeps(objs0, vals0, objs, vals, slots1, sub, v, D, o, A);
      StoreNew(o, k, sub, A, vals0);
      o' := objs[o];
      assert Children(o') == Children(objs0[o]) + [sub];
    }

    /** A new entry; the values of the others have not changed since vals0. */
    method StoreNew(o: Ref, k: string, sub: Ref, ghost A: set<Ref>, ghost vals0: seq<Value>)
      requires Valid() && o < |objs| && sub < |objs| && objs[o].rep.Keyed?
      requires o !in A && UpClosed(objs, A + {o}) && sub !in A + {o} && Held(objs, slots, sub) < objs[sub].refCount
      requires var l := objs[o].rep.level;
               Below(Refs(l.entries), |vals0|) && |vals0| <= |vals| &&
               Values(l.entries, vals) == Values(l.entries, vals0)
      modifies this`objs, this`vals
      ensures ValidBut(A)
      ensures var l := old(objs)[o].rep.level;
              Below(Refs(l.entries), |vals0|) &&
              objs == old(objs)[o := Obj(old(objs)[o].refCount, None, Keyed(PutAt(l, -1, k, sub)))] &&
              vals == old(vals)[o := FromEntries(Values(l.entries, vals0) + [Entry(k, old(vals)[sub])])]
    {
      StoreChild(o, -1, k, sub, A);
    }

    /** Descend into entry i, which holds the first component of the key. */
    method SetBelow(o: Ref, i: nat, key: string, v: Ref, ghost A: set<Ref>) returns (ok: bool, ghost D: set<Ref>)
      requires Valid() && Private(objs, vals, o, A)
      requires v < |objs| && v !in A + {o} && Some(v) in slots
      requires objs[o].rep.Keyed? && i == Find(objs[o].rep.level, key) && i < |objs[o].rep.level.entries|
      requires Rest(key).Some?
      modifies this
      ensures slots == old(slots) && ValidBut(A)
      ensures ok ==> Updated(old(objs), old(vals), objs, vals, slots, o, A, v, D)
      ensures !ok ==> Valid() && old(vals) <= vals && OldEdgesOnly(old(objs), objs, v)
      ensures SetSpec(old(vals), vals, o, Split(key), v, ok)
      decreases |key|, 0
    {
      ghost var objs0, vals0 := objs, vals;
      FindSwapped(objs[o].rep.level, i, key);
      var c := EnterChild(o, i, v, A);
      ghost var objs1, vals1 := objs, vals;
      ghost var Dc;
      ok, Dc := KeyedListSet(c, Rest(key).value, v, A + {o});
      D := Back(objs0, o, Dc);
      if ok {
        FinishSet(o, i, key, v, c, objs0, vals0, objs1, vals1, A, Dc);
      } else {
        OldEdgesCompose(objs0, objs1, objs, -1, v);
        SetBelowSpec(objs1[o], vals1, vals, o, i, key, v, c, false);
      }
    }

    /** Back from setting the rest of the key in the private child c of o. */
    method FinishSet(o: Ref, i: nat, key: string, ghost v: Ref, c: Ref, ghost objs0: seq<Obj>, ghost vals0: seq<Value>,
                     ghost objs1: seq<Obj>, ghost vals1: seq<Value>, ghost A: set<Ref>, ghost Dc: set<Ref>)
      requires ValidBut(A + {o}) && Unshared(objs0, vals0, objs1, vals1, slots, o, i, c, v, A) && v < |vals0|
      requires Updated(objs1, vals1, objs, vals, slots, c, A + {o}, v, Dc)
      requires Rest(key).Some? && o < |objs1| == |vals1| && Reads(objs1[o], vals1, vals0[o])
      requires i == Find(objs1[o].rep.level, key) && objs1[o].rep.level.entries[i].value == c
      requires SetSpec(vals1, vals, c, Split(Rest(key).value), v, true)
      modifies this`objs, this`vals
      ensures ValidBut(A)
      ensures Updated(objs0, vals0, objs, vals, slots, o, A, v, Back(objs0, o, Dc))
      ensures SetSpec(vals0, vals, o, Split(key), v, true)
    {
      FinishBelow(o, i, c, objs0, vals0, objs1, vals1, v, A, Dc);
      ScanThroughValues(objs1[o].rep.level, vals1, key);
      SetBelowSpec(objs1[o], vals1, vals, o, i, key, v, c, true);
    }

    /** DeleteKeyedListEntry on entry i of o, then Tcl_InvalidateStringRep. */
    method RemoveChild(o: Ref, i: nat, ghost A: set<Ref>)
      requires ValidBut(A) && o < |objs| && objs[o].rep.Keyed? && i < |objs[o].rep.level.entries|
      requires o !in A && UpClosed(objs, A + {o}) && o !in Children(objs[o])
      modifies this`objs, this`vals
      ensures ValidBut(A) && |objs| == |old(objs)| && objs[o].rep.Keyed?
      ensures var l := old(objs)[o].rep.level;
              Below(Refs(l.entries), |old(vals)|) &&
              vals[o] == FromEntries(Remove(Values(l.entries, old(vals)), i))
      ensures CountsMoved(old(objs), objs, None, Some(old(objs)[o].rep.level.entries[i].value)) && objs[o].bytes == None
      ensures Frame(old(objs), old(vals), objs, vals, {o}) && OldEdgesOnly(old(objs), objs, -1)
    {
      ghost var objs0, vals0, o' := objs, vals, WithoutEntry(objs[o], i);
      var c := objs[o].rep.level.entries[i].value;
      DropEntry(o, i, A);
      SetCount(c, objs[c].refCount - 1, A);
      RemoveMoves(objs0, o, o', c, objs);
      RemoveFrame(objs0, vals0, o, o', vals[o], i, c, objs, vals);
    }

    /** The entry goes; its value still has its old count. */
    method DropEntry(o: Ref, i: nat, ghost A: set<Ref>)
      requires ValidBut(A) && o < |objs| && objs[o].rep.Keyed? && i < |objs[o].rep.level.entries|
      requires o !in A && UpClosed(objs, A + {o}) && o !in Children(objs[o])
      modifies this`objs, this`vals
      ensures ValidBut(A) && |objs| == |old(objs)| == |old(vals)|
      ensures objs == old(objs)[o := WithoutEntry(old(objs)[o], i)]
      ensures var l := old(objs)[o].rep.level;
              && Below(Refs(l.entries), |old(vals)|) && o !in Refs(l.entries)
              && l.entries[i].value < |objs|
              && Held(objs, slots, l.entries[i].value) < objs[l.entries[i].value].refCount
              && vals == old(vals)[o := FromEntries(Remove(Values(l.entries, old(vals)), i))]
              && Children(WithoutEntry(old(objs)[o], i)) == Refs(l.entries)[..i] + Refs(l.entries)[i + 1..]
    {
      var l := objs[o].rep.level;
      assert Children(objs[o])[i] == l.entries[i].value;
      RemoveLevel(l, vals, i);
      RemoveCounts(objs, slots, o, i, WithoutEntry(objs[o], i));
      Rewrite(o, DeleteAt(l, i), A);
    }

    /** TclX_KeyedListDelete */
    method KeyedListDelete(o: Ref, key: string, ghost A: set<Ref>) returns (st: Status<()>, ghost D: set<Ref>)
      requires Valid() && Private(objs, vals, o, A)
      modifies this`objs, this`vals
      ensures ValidBut(A)
      ensures st.Ok? ==> Updated(old(objs), old(vals), objs, vals, slots, o, A, -1, D)
      ensures !st.Ok? ==> Valid() && old(vals) <= vals && OldEdgesOnly(old(objs), objs, -1)
      ensures DeleteSpec(old(vals), vals, o, Split(key), st)
      decreases |key|, 2
    {
      ghost var objs0, vals0 := objs, vals;
      st, D := Error, {o};
      var ok := Convert(o);
      if ok {
        ghost var objs1, vals1 := objs, vals;
        UpClosedStays(objs0, objs1, -1, A + {o});
        st, D := DeleteConverted(o, key, A);
        if st.Ok? {
          AfterConversion(objs0, vals0, objs1, vals1, objs, vals, slots, o, A, -1, D);
          D := Back(objs0, o, D);
        } else {
          OldEdgesCompose(objs0, objs1, objs, -1, -1);
        }
      }
    }

    method DeleteConverted(o: Ref, key: string, ghost A: set<Ref>) returns (st: Status<()>, ghost D: set<Ref>)
      requires Valid() && Private(objs, vals, o, A) && objs[o].rep.Keyed?
      modifies this`objs, this`vals
      ensures ValidBut(A)
      ensures st.Ok? ==> Updated(old(objs), old(vals), objs, vals, slots, o, A, -1, D)
      ensures !st.Ok? ==> Valid() && old(vals) <= vals && OldEdgesOnly(old(objs), objs, -1)
      ensures DeleteSpec(old(vals), vals, o, Split(key), st)
      decreases |key|, 1
    {
      var i := Find(objs[o].rep.level, key);
      ScanThroughValues(objs[o].rep.level, vals, key);
      if i >= 0 && Rest(key).Some? {
        st, D := DeleteBelow(o, i, key, A);
      } else {
        D := {o};
        st := DeleteLeaf(o, i, key, A);
      }
    }

    /** The last component of the key, or one that is absent. */
    method DeleteLeaf(o: Ref, i: int, key: string, ghost A: set<Ref>) returns (st: Status<()>)
      requires Valid() && Private(objs, vals, o, A) && objs[o].rep.Keyed?
      requires -1 <= i == Find(objs[o].rep.level, key) < |objs[o].rep.level.entries| && (i >= 0 ==> Rest(key).None?)
      modifies this`objs, this`vals
      ensures ValidBut(A)
      ensures st.Ok? ==> Updated(old(objs), old(vals), objs, vals, slots, o, A, -1, {o})
      ensures !st.Ok? ==> objs == old(objs) && vals == old(vals)
      ensures DeleteSpec(old(vals), vals, o, Split(key), st)
    {
      ghost var o1, vals1 := objs[o], vals;
      st := Break;
      if i >= 0 {
        NotOwnChild(objs, vals, {}, o);
        RemoveChild(o, i, A);
        st := Ok(());
      }
      DeleteLeafSpec(o1, vals1, vals, o, key, st);
    }

    /** Delete below entry i; a subtree left empty goes too. */
    method DeleteBelow(o: Ref, i: nat, key: string, ghost A: set<Ref>) returns (st: Status<()>, ghost D: set<Ref>)
      requires Valid() && Private(objs, vals, o, A)
      requires objs[o].rep.Keyed? && i == Find(objs[o].rep.level, key) && i < |objs[o].rep.level.entries|
      requires Rest(key).Some?
      modifies this`objs, this`vals
      ensures ValidBut(A)
      ensures st.Ok? ==> Updated(old(objs), old(vals), objs, vals, slots, o, A, -1, D)
      ensures !st.Ok? ==> Valid() && old(vals) <= vals && OldEdgesOnly(old(objs), objs, -1)
      ensures DeleteSpec(old(vals), vals, o, Split(key), st)
      decreases |key|, 0
    {
      ghost var objs0, vals0 := objs, vals;
      FindSwapped(objs[o].rep.level, i, key);
      var c := EnterChild(o, i, -1, A);
      ghost var objs1, vals1 := objs, vals;
      ghost var Dc;
      st, Dc := KeyedListDelete(c, Rest(key).value, A + {o});
      OldEdgesCompose(objs0, objs1, objs, -1, -1);
      D := Back(objs0, o, Dc);
      if st.Ok? {
        FinishBelow(o, i, c, objs0, vals0, objs1, vals1, -1, A, Dc);
        ghost var vals2 := vals;
        PruneChild(o, i, c, objs0, vals0, A, D);
        DeleteBelowSpec(objs1[o], vals1, vals2, vals, o, i, key, c);
      } else {
        DeleteStopSpec(objs1[o], vals1, vals, o, i, key, c, st);
      }
    }

    /** Delete entry i when its keyed list c has become empty. */
    method PruneChild(o: Ref, i: nat, c: Ref, ghost objs0: seq<Obj>, ghost vals0: seq<Value>,
                      ghost A: set<Ref>, ghost D: set<Ref>)
      requires ValidBut(A) && Updated(objs0, vals0, objs, vals, slots, o, A, -1, D) && Private(objs0, vals0, o, A)
      requires i < |objs[o].rep.level.entries| && objs[o].rep.level.entries[i].value == c
      requires c < |objs| && c !in A && objs[c].rep.Keyed?
      modifies this`objs, this`vals
      ensures ValidBut(A) && Updated(objs0, vals0, objs, vals, slots, o, A, -1, D) && |vals| == |old(vals)|
      ensures c < |old(vals)| && AsKeyed(old(vals)[o]).Some? && i < |AsKeyed(old(vals)[o]).value|
      ensures vals[o] ==
              if old(vals)[c] == List([]) then FromEntries(Remove(AsKeyed(old(vals)[o]).value, i)) else old(vals)[o]
    {
      ghost var objs2, vals2 := objs, vals;
      KeyedDenotes(objs[o], vals, |vals|);
      KeyedDenotes(objs[c], vals, |vals|);
      EmptyList();
      if objs[c].rep.level.entries == [] {
        UpClosedStays(objs0, objs, -1, A + {o});
        NotOwnChild(objs, vals, A, o);
        RemoveChild(o, i, A);
        UpdatedThenSelf(objs0, vals0, objs2, vals2, objs, vals, slots, o, A, -1, D);
      } else {
        assert FromEntries(Values(objs[c].rep.level.entries, vals)) != List([]);
      }
    }

    /** TclX_KeyedListGet. Reading converts the levels it meets, shared or not, and changes no
        value. */
    method KeyedListGet(o: Ref, key: string) returns (st: Status<Ref>)
      requires Valid() && o < |objs|
      modifies this`objs, this`vals
      ensures Valid() && old(vals) <= vals && OldEdgesOnly(old(objs), objs, -1)
      ensures st.Ok? ==> st.value < |vals|
      ensures Determined(old(vals)[o], Split(key)) ==>
                Get(old(vals)[o], Split(key)) ==
                match st case Ok(r) => Ok(vals[r]) case Break => Break case Error => Error
    {
      ghost var v0, p := vals[o], Split(key);
      var keylPtr: Ref, k := o, key;
      while true
        invariant Valid() && old(vals) <= vals && OldEdgesOnly(old(objs), objs, -1)
        invariant keylPtr < |objs| == |vals|
        invariant Determined(v0, p) ==>
                    Determined(vals[keylPtr], Split(k)) && Get(v0, p) == Get(vals[keylPtr], Split(k))
        decreases |k|
      {
        ghost var objs0, v := objs, vals[keylPtr];
        var status, next := GetStep(keylPtr, k);
        OldEdgesCompose(old(objs), objs0, objs, -1, -1);
        if !status.Ok? || Rest(k).None? {
          return if status.Ok? then Ok(next) else if status.Break? then Break else Error;
        }
        if Determined(v0, p) { DeterminedStep(v, k); }
        assert Split(k)[1..] == Split(Rest(k).value);
        keylPtr, k := next, Rest(k).value;
      }
    }

    /** One turn of that loop: convert, and look for the first component of the key. */
    method GetStep(keylPtr: Ref, key: string) returns (status: Status<()>, next: Ref)
      requires Valid() && keylPtr < |objs|
      modifies this`objs, this`vals
      ensures Valid() && old(vals) <= vals && OldEdgesOnly(old(objs), objs, -1) && next < |objs| == |vals|
      ensures status.Error? <==> AsKeyed(vals[keylPtr]).None?
      ensures Determined(vals[keylPtr], Split(key)) && !status.Error? ==>
                var es := AsKeyed(vals[keylPtr]).value;
                var i := Scan(es, Head(key));
                (status.Ok? <==> i >= 0) && (i >= 0 ==> vals[next] == es[i].value)
    {
      next := keylPtr;
      var ok := Convert(keylPtr);
      if !ok { return Error, next; }
      var l := objs[keylPtr].rep.level;
      var findIdx := Find(l, key);
      ScanThroughValues(l, vals, key);
      if Determined(vals[keylPtr], Split(key)) { DeterminedStep(vals[keylPtr], key); }
      if findIdx < 0 { return Break, next; }
      next := l.entries[findIdx].value;
      assert Children(objs[keylPtr])[findIdx] == next < |objs|;
      status := Ok(());
    }

    // -------------------------------------------------------------- the commands

    /** A duplicate of x held by a local pointer. */
    method DupLocal(x: Ref) returns (o: Ref)
      requires Valid() && x < |objs|
      modifies this
      ensures Valid() && old(vals) <= vals && |old(objs)| <= o < |objs| && vals[o] == old(vals)[x]
      ensures slots == old(slots) + [Some(o)] && Private(objs, vals, o, {})
    {
      o := DupChild(x, [], |objs|);
      assert [o][0] == o;
      PushLocal(o);
    }

    /** A local pointer to an object that nothing else holds. */
    method PushLocal(o: Ref)
      requires Valid() && o < |objs| && Held(objs, slots, o) == 0 && objs[o].refCount == 1
      modifies this`slots
      ensures Valid() && slots == old(slots) + [Some(o)] && Private(objs, vals, o, {})
    {
      SlotsPush(objs, slots, o);
      slots := slots + [Some(o)];
      SoleSlot(objs, slots, |slots| - 1, o);
    }

    /** The assignments of keylset to o, up to the first failure; w are the values of o before, between
        and after them. */
    method SetAll(o: Ref, args: seq<(string, Ref)>) returns (ok: bool, ghost w: seq<Value>)
      requires Valid() && Private(objs, vals, o, {})
      requires forall a <- args :: a.1 < |objs| && a.1 != o && Some(a.1) in slots
      modifies this
      ensures Valid() && slots == old(slots) && Private(objs, vals, o, {}) && |old(vals)| <= |vals|
      ensures forall x :: 0 <= x < |old(vals)| && x != o && Some(x) in slots ==> vals[x] == old(vals)[x]
      ensures Between(w, old(vals)[o], vals[o], |args|, ok) && AllSet(w, args, old(vals))
      ensures !ok ==> CannotSet(w[|w| - 1], args[|w| - 1].0)
    {
      w := [vals[o]];
      for idx := 0 to |args|
        invariant Valid() && slots == old(slots) && Private(objs, vals, o, {}) && |old(vals)| <= |vals|
        invariant forall x :: 0 <= x < |old(vals)| && x != o && Some(x) in slots ==> vals[x] == old(vals)[x]
        invariant |w| == idx + 1 && w[0] == old(vals)[o] && w[idx] == vals[o] && AllSet(w, args, old(vals))
      {
        assert args[idx] in args;
        ok, w := SetNext(o, args, idx, w, old(vals));
        if !ok { return; }
      }
      ok := true;
    }

    /** One round of that loop. */
    method SetNext(o: Ref, args: seq<(string, Ref)>, idx: nat, ghost w0: seq<Value>, ghost vals0: seq<Value>)
      returns (ok: bool, ghost w: seq<Value>)
      requires Valid() && Private(objs, vals, o, {}) && idx < |args| && args[idx].1 < |objs| && args[idx].1 != o
      requires |w0| == idx + 1 && w0[idx] == vals[o] && AllSet(w0, args, vals0) && Some(args[idx].1) in slots
      requires args[idx].1 < |vals0| && args[idx].1 < |vals| && vals[args[idx].1] == vals0[args[idx].1]
      modifies this
      ensures Valid() && slots == old(slots) && Private(objs, vals, o, {}) && |old(vals)| <= |vals|
      ensures forall x :: 0 <= x < |old(vals)| && x != o && Some(x) in slots ==> vals[x] == old(vals)[x]
      ensures ok ==> |w| == idx + 2 && w[0] == w0[0] && w[idx + 1] == vals[o] && AllSet(w, args, vals0)
      ensures !ok ==> w == w0 && vals[o] == old(vals)[o] && CannotSet(vals[o], args[idx].0)
    {
      w := w0;
      var (key, v) := args[idx];
      ok := ValidKey(key);
      if ok { ok := SetOne(o, key, v); }
      if ok {
        w := w + [vals[o]];
        AllSetNext(w0, args, vals0, vals[o]);
      }
    }

    /** One assignment of keylset. */
    method SetOne(o: Ref, key: string, v: Ref) returns (ok: bool)
      requires Valid() && Private(objs, vals, o, {}) && ValidKey(key)
      requires v < |objs| && v != o && Some(v) in slots
      modifies this
      ensures Valid() && slots == old(slots) && Private(objs, vals, o, {}) && |old(vals)| <= |vals|
      ensures forall x :: 0 <= x < |old(vals)| && x != o && Some(x) in slots ==> vals[x] == old(vals)[x]
      ensures v < |old(vals)|
      ensures if ok then Sets(old(vals)[o], key, old(vals)[v], vals[o])
              else vals[o] == old(vals)[o] && CannotSet(vals[o], key)
    {
      ghost var objs0, vals0 := objs, vals;
      ghost var D;
      ok, D := KeyedListSet(o, key, v, {});
      SetSlotFrame(objs0, vals0, objs, vals, slots, o, v, D, ok);
      SetFailsIffGetErrs(vals0[o], Split(key), vals0[v]);
    }

    /** The object held by a local pointer becomes the value of slot s. */
    method StoreLocal(s: nat, o: Ref, ghost slots0: seq<Option<Ref>>)
      requires Valid() && s < |slots0| && slots == slots0 + [Some(o)]
      modifies this`objs, this`slots
      ensures Valid() && slots == slots0[s := Some(o)] && |objs| == |old(objs)|
      ensures forall x :: 0 <= x < |objs| ==> objs[x].rep == old(objs)[x].rep
      ensures CountsMoved(old(objs), objs, None, slots0[s])
    {
      SlotMove(objs, slots0, s, o);
      var was := slots[s];
      assert was == slots0[s];
      slots := slots[..|slots| - 1];
      assert slots == slots0;
      slots := slots[s := Some(o)];
      if was.Some? {
        SetCount(was.value, objs[was.value].refCount - 1, {});
      }
    }

    /** keylset on slot s; each argument is a key and the slot that holds its value. A variable
        that is unset or shared is replaced by a new object, and only when every assignment
        succeeded; an unshared one is updated in place. w are the values of the object worked on,
        before, between and after the assignments that succeed. */
    method Keylset(s: nat, args: seq<(string, nat)>) returns (ok: bool, ghost w: seq<Value>)
      requires Valid() && s < |slots| && ArgsOk(args, slots, s)
      modifies this
      ensures Valid() && OthersKept(old(slots), old(vals), slots, vals, s)
      ensures KeylsetSpec(old(objs), old(slots), old(vals), slots, vals, s, args, ok, w)
    {
      var refs := ArgRefs(args, slots, s);
      ArgRefsOk(args, slots, s, |objs|);
      if slots[s].Some? && objs[slots[s].value].refCount <= 1 {
        ok, w := KeylsetInPlace(s, refs);
      } else {
        ok, w := KeylsetFresh(s, refs);
      }
      KeylsetDone(old(objs), old(slots), old(vals), slots, vals, s, args, ok, w);
    }

    method KeylsetInPlace(s: nat, refs: seq<(string, Ref)>) returns (ok: bool, ghost w: seq<Value>)
      requires Valid() && s < |slots| && slots[s].Some?
      requires slots[s].value < |objs| && objs[slots[s].value].refCount <= 1
      requires forall r <- refs ::
                 r.1 < |objs| && Some(r.1) in slots && exists j :: 0 <= j < |slots| && j != s && slots[j] == Some(r.1)
      modifies this
      ensures Valid() && OthersKept(old(slots), old(vals), slots, vals, s)
      ensures KeylsetResult(old(objs), old(slots), old(vals), slots, vals, s, refs, ok, w)
    {
      SoleSlot(objs, slots, s, slots[s].value);
      ok, w := SetAll(slots[s].value, refs);
    }

    method KeylsetFresh(s: nat, refs: seq<(string, Ref)>) returns (ok: bool, ghost w: seq<Value>)
      requires Valid() && s < |slots|
      requires slots[s].Some? ==> slots[s].value < |objs| && objs[slots[s].value].refCount > 1
      requires forall r <- refs :: r.1 < |objs| && Some(r.1) in slots
      modifies this
      ensures Valid() && OthersKept(old(slots), old(vals), slots, vals, s)
      ensures KeylsetResult(old(objs), old(slots), old(vals), slots, vals, s, refs, ok, w)
    {
      ghost var objs0, vals0, slots0 := objs, vals, slots;
      var o := LocalFor(s);
      ghost var vals1 := vals;
      LocalArgs(refs, objs0, slots0, vals0, vals1, o);
      ok, w := SetAll(o, refs);
      AllSetBefore(w, refs, vals0, vals1);
      ghost var vals2 := vals;
      assert slots == slots0 + [Some(o)];
      LocalKept(slots0, vals0, vals1, vals2, o);
      EndLocal(s, o, slots0, ok);
    }

    /** The object that keylset works on when slot s is unset or shared, held by a local pointer. */
    method LocalFor(s: nat) returns (o: Ref)
      requires Valid() && s < |slots|
      modifies this
      ensures Valid() && old(vals) <= vals && |old(objs)| == |old(vals)| <= o < |vals|
      ensures slots == old(slots) + [Some(o)] && Private(objs, vals, o, {})
      ensures forall j :: 0 <= j < |old(slots)| && old(slots)[j].Some? ==> old(slots)[j].value < |old(vals)|
      ensures vals[o] == if old(slots)[s].None? then List([]) else old(vals)[old(slots)[s].value]
    {
      if slots[s].None? {
        o := NewSubtree();
      } else {
        o := DupLocal(slots[s].value);
      }
    }

    /** Success stores the local object in slot s; failure gives it up. */
    method EndLocal(s: nat, o: Ref, ghost slots0: seq<Option<Ref>>, ok: bool)
      requires Valid() && s < |slots0| && slots == slots0 + [Some(o)]
      modifies this`objs, this`slots
      ensures Valid() && slots == if ok then slots0[s := Some(o)] else slots0
      ensures CountsMoved(old(objs), objs, None, if ok then slots0[s] else Some(o))
    {
      if ok {
        StoreLocal(s, o, slots0);
      } else {
        DropLocal(o, slots0);
        SetCount(o, objs[o].refCount - 1, {});
      }
    }

    /** keyldel on slot s: a shared value is duplicated first, whatever happens next. w are the values
        of the variable before, between and after the deletions that succeed. */
    method Keyldel(s: nat, keys: seq<string>) returns (ok: bool, ghost w: seq<Value>)
      requires Valid() && s < |slots|
      modifies this
      ensures Valid() && OthersKept(old(slots), old(vals), slots, vals, s)
      ensures KeyldelSpec(old(slots), old(vals), slots, vals, s, keys, ok, w)
    {
      if slots[s].None? { return false, []; }
      if objs[slots[s].value].refCount > 1 {
        UnshareSlot(s);
      } else {
        SoleSlot(objs, slots, s, slots[s].value);
      }
      ghost var vals1 := vals;
      ok, w := DeleteAll(slots[s].value, keys);
    }

    /** Tcl_DuplicateObj and Tcl_ObjSetVar2 at the start of keyldel. */
    method UnshareSlot(s: nat)
      requires Valid() && s < |slots| && slots[s].Some?
      modifies this
      ensures Valid() && old(vals) <= vals
      ensures |slots| == |old(slots)| && slots[s].Some? && slots == old(slots)[s := slots[s]]
      ensures old(slots)[s].value < |old(vals)| && vals[slots[s].value] == old(vals)[old(slots)[s].value]
      ensures Private(objs, vals, slots[s].value, {}) && slots[s].value >= |old(objs)|
    {
      ghost var slots0 := slots;
      var copy := DupLocal(slots[s].value);
      ghost var objs1 := objs;
      StoreLocal(s, copy, slots0);
      assert forall x :: 0 <= x < |objs| ==> Children(objs[x]) == Children(objs1[x]);
    }

    /** The deletions of keyldel, up to the first failure; w are the values of o before, between and
        after them. */
    method DeleteAll(o: Ref, keys: seq<string>) returns (ok: bool, ghost w: seq<Value>)
      requires Valid() && Private(objs, vals, o, {})
      modifies this`objs, this`vals
      ensures Valid() && |old(vals)| <= |vals|
      ensures forall x :: 0 <= x < |old(vals)| && x != o && Some(x) in slots ==> vals[x] == old(vals)[x]
      ensures Between(w, old(vals)[o], vals[o], |keys|, ok) && AllDeleted(w, keys)
      ensures !ok ==> CannotDelete(w[|w| - 1], keys[|w| - 1])
    {
      w := [vals[o]];
      for idx := 0 to |keys|
        invariant Valid() && Private(objs, vals, o, {}) && |old(vals)| <= |vals|
        invariant forall x :: 0 <= x < |old(vals)| && x != o && Some(x) in slots ==> vals[x] == old(vals)[x]
        invariant |w| == idx + 1 && w[0] == old(vals)[o] && w[idx] == vals[o] && AllDeleted(w, keys)
      {
        ok := DeleteOne(o, keys[idx]);
        if !ok { return; }
        AllDeletedNext(w, keys, vals[o]);
        w := w + [vals[o]];
      }
      ok := true;
    }

    /** One deletion of keyldel: an absent key is an error too. */
    method DeleteOne(o: Ref, key: string) returns (ok: bool)
      requires Valid() && Private(objs, vals, o, {})
      modifies this`objs, this`vals
      ensures Valid() && Private(objs, vals, o, {}) && |old(vals)| <= |vals|
      ensures forall x :: 0 <= x < |old(vals)| && x != o && Some(x) in slots ==> vals[x] == old(vals)[x]
      ensures if ok then Deletes(old(vals)[o], key, vals[o]) else vals[o] == old(vals)[o] && CannotDelete(vals[o], key)
    {
      if !ValidKey(key) { return false; }
      ghost var objs0, vals0 := objs, vals;
      var st;
      ghost var D;
      st, D := KeyedListDelete(o, key, {});
      SetSlotFrame(objs0, vals0, objs, vals, slots, o, -1, D, st.Ok?);
      DeleteAnswersAsGet(vals0[o], Split(key));
      ok := st.Ok?;
    }

    /** Tcl_DecrRefCount reaching zero: the object gives up its representation and its references. */
    method Release(r: Ref)
      requires Valid() && r < |objs| && objs[r].refCount <= 0
      modifies this`objs, this`vals
      ensures Valid() && vals == old(vals)[r := List([])] && Some(r) !in slots
    {
      var children := Children(objs[r]);
      var o' := Obj(objs[r].refCount, None, Plain(List([])));
      ReleaseCounts(objs, slots, r, o');
      assert {} + {r} == {r};
      ReplaceValued(objs, vals, {}, r, o');
      vals := vals[r := List([])];
      objs := objs[r := o'];
      ReleaseChildren(children);
    }

    method ReleaseChildren(children: seq<Ref>)
      requires Valid() && Below(children, |objs|)
      requires forall x :: 0 <= x < |objs| ==> Held(objs, slots, x) + Occ(children, x) <= objs[x].refCount
      modifies this`objs
      ensures Valid()
    {
      assert children[0..] == children;
      for i := 0 to |children|
        invariant Valid() && |objs| == |old(objs)|
        invariant forall x :: 0 <= x < |objs| ==> Held(objs, slots, x) + Occ(children[i..], x) <= objs[x].refCount
      {
        forall x { OccFirst(children, i, x); }
        SetCount(children[i], objs[children[i]].refCount - 1, {});
      }
    }
  }

  /** The heap operation computes Set, whenever the path's outcome does not depend on the index. */
  ghost predicate SetSpec(vals0: seq<Value>, vals1: seq<Value>, o: Ref, p: seq<string>, v: Ref, ok: bool)
    requires |p| >= 1
  {
    o < |vals0| <= |vals1| && v < |vals0| &&
    (Determined(vals0[o], p) ==>
       if ok then Set(vals0[o], p, vals0[v]) == Some(vals1[o]) else Set(vals0[o], p, vals0[v]).None?)
  }

  const EMPTY_LIST := Obj(1, None, Keyed(Level([], Some(map[]))))

  lemma EmptyDenotes(vals: seq<Value>)
    ensures Children(EMPTY_LIST) == [] && Denote(EMPTY_LIST, vals) == List([]) && Size(List([])) == 1
  {
  }

  lemma SetLeafSpec(o1: Obj, vals1: seq<Value>, vals2: seq<Value>, o: Ref, key: string, v: Ref)
    requires Rest(key).None? && o < |vals1| <= |vals2| && v < |vals1|
    requires Reads(o1, vals1, vals1[o])
    requires var l := o1.rep.level;
             -1 <= Find(l, key) < |l.entries| &&
             vals2[o] == FromEntries(Put(Values(l.entries, vals1), Find(l, key), Head(key), vals1[v]))
    ensures SetSpec(vals1, vals2, o, Split(key), v, true)
  {
    KeyedDenotes(o1, vals1, |vals1|);
    ScanThroughValues(o1.rep.level, vals1, key);
  }

  /** Building a subtree beside the heap leaves o and everything older as they were. */
  lemma GraftKeeps(objs0: seq<Obj>, vals0: seq<Value>, objs2: seq<Obj>, vals2: seq<Value>, slots1: seq<Option<Ref>>,
                   sub: Ref, v: Ref, D: set<Ref>, o: Ref, A: set<Ref>)
    requires sub == |objs0| == |vals0| && Private(objs0, vals0, o, A) && v !in A + {o}
    requires Below(Children(objs0[o]), |objs0|)
    requires Updated(objs0 + [EMPTY_LIST], vals0 + [List([])], objs2, vals2, slots1, sub, {}, v, D)
    ensures D == {sub} && vals0 <= vals2 && objs2[o].rep == objs0[o].rep && UpClosed(objs2, A + {o})
    ensures objs0[o].rep.Keyed? ==>
              Values(objs0[o].rep.level.entries, vals2) == Values(objs0[o].rep.level.entries, vals0)
  {
    var objs1 := objs0 + [EMPTY_LIST];
    EmptyDenotes(vals0);
    assert (vals0 + [List([])])[sub] == List([]);
    assert UpClosed(objs1, A + {o});
    UpClosedStays(objs1, objs2, v, A + {o});
    if objs0[o].rep.Keyed? { DenoteSame(objs0[o].rep.level.entries, vals0, vals2); }
  }

  lemma NewEdgesOnly(objs0: seq<Obj>, objs1: seq<Obj>, objs2: seq<Obj>, v: int)
    requires objs1 == objs0 + [EMPTY_LIST] && OldEdgesOnly(objs1, objs2, v)
    ensures OldEdgesOnly(objs0, objs2, v)
  {
    EmptyDenotes([]);
  }

  lemma DenoteSame(es: seq<Entry<Ref>>, vals0: seq<Value>, vals1: seq<Value>)
    requires Below(Refs(es), |vals0|) && vals0 <= vals1
    ensures Below(Refs(es), |vals1|) && Values(es, vals1) == Values(es, vals0)
  {
    forall j | 0 <= j < |es| ensures Values(es, vals1)[j] == Values(es, vals0)[j] {
      assert Refs(es)[j] == es[j].value;
    }
  }

  lemma SetNewSpec(o1: Obj, vals0: seq<Value>, vals1: seq<Value>, vals2: seq<Value>, o: Ref, key: string, v: Ref,
                   ok: bool)
    requires Rest(key).Some? && o < |vals0| < |vals1| == |vals2| && v < |vals0|
    requires Reads(o1, vals0, vals0[o]) && Find(o1.rep.level, key) < 0
    requires SetSpec(vals0 + [List([])], vals1, |vals0|, Split(Rest(key).value), v, ok)
    requires ok ==> vals2[o] == FromEntries(Values(o1.rep.level.entries, vals0) + [Entry(Head(key), vals1[|vals0|])])
    ensures SetSpec(vals0, vals2, o, Split(key), v, ok)
  {
    var p := Split(key);
    KeyedDenotes(o1, vals0, |vals0|);
    ScanThroughValues(o1.rep.level, vals0, key);
    assert p[1..] == Split(Rest(key).value);
    DistinctEmpty(p[1..]);
  }

  lemma DistinctEmpty(p: seq<string>)
    ensures DistinctPath(List([]), p)
  {
    EmptyList();
  }

  lemma SetBelowSpec(o1: Obj, vals1: seq<Value>, vals2: seq<Value>, o: Ref, i: nat, key: string, v: Ref, c: Ref,
                     ok: bool)
    requires Rest(key).Some?
    requires o < |vals1| && Reads(o1, vals1, vals1[o])
    requires i == Find(o1.rep.level, key) && i < |o1.rep.level.entries| && o1.rep.level.entries[i].value == c
    requires SetSpec(vals1, vals2, c, Split(Rest(key).value), v, ok)
    requires ok ==> vals2[o] == FromEntries(Values(o1.rep.level.entries, vals1)[i := Entry(Head(key), vals2[c])])
    ensures SetSpec(vals1, vals2, o, Split(key), v, ok)
  {
    var p := Split(key);
    KeyedDenotes(o1, vals1, |vals1|);
    ScanThroughValues(o1.rep.level, vals1, key);
    assert p[1..] == Split(Rest(key).value);
  }

  ghost predicate DeleteSpec(vals0: seq<Value>, vals1: seq<Value>, o: Ref, p: seq<string>, st: Status<()>)
    requires |p| >= 1
  {
    o < |vals0| <= |vals1| &&
    (Determined(vals0[o], p) ==>
       Delete(vals0[o], p) == match st case Ok(_) => Ok(vals1[o]) case Break => Break case Error => Error)
  }

  lemma DeleteLeafSpec(o1: Obj, vals1: seq<Value>, vals2: seq<Value>, o: Ref, key: string, st: Status<()>)
    requires o < |vals1| <= |vals2| && Reads(o1, vals1, vals1[o])
    requires var l, i := o1.rep.level, Find(o1.rep.level, key);
             -1 <= i < |l.entries| && (i >= 0 ==> Rest(key).None?) && (st.Ok? <==> i >= 0) && !st.Error? &&
             (i >= 0 ==> vals2[o] == FromEntries(Remove(Values(l.entries, vals1), i)))
    ensures DeleteSpec(vals1, vals2, o, Split(key), st)
  {
    KeyedDenotes(o1, vals1, |vals1|);
    ScanThroughValues(o1.rep.level, vals1, key);
  }

  lemma DeleteStopSpec(o1: Obj, vals1: seq<Value>, vals2: seq<Value>, o: Ref, i: nat, key: string, c: Ref,
                       st: Status<()>)
    requires Rest(key).Some? && o < |vals1| && Reads(o1, vals1, vals1[o]) && !st.Ok?
    requires i == Find(o1.rep.level, key) && i < |o1.rep.level.entries| && o1.rep.level.entries[i].value == c
    requires DeleteSpec(vals1, vals2, c, Split(Rest(key).value), st)
    ensures DeleteSpec(vals1, vals2, o, Split(key), st)
  {
    var p := Split(key);
    KeyedDenotes(o1, vals1, |vals1|);
    ScanThroughValues(o1.rep.level, vals1, key);
    assert p[1..] == Split(Rest(key).value);
  }

  lemma DeleteBelowSpec(o1: Obj, vals1: seq<Value>, vals2: seq<Value>, vals3: seq<Value>, o: Ref, i: nat,
                        key: string, c: Ref)
    requires Rest(key).Some? && o < |vals1| && Reads(o1, vals1, vals1[o])
    requires i == Find(o1.rep.level, key) && i < |o1.rep.level.entries| && o1.rep.level.entries[i].value == c
    requires DeleteSpec(vals1, vals2, c, Split(Rest(key).value), Ok(())) && |vals3| == |vals2|
    requires vals2[o] ==
             FromEntries(Values(o1.rep.level.entries, vals1)[i := Entry(o1.rep.level.entries[i].key, vals2[c])])
    requires AsKeyed(vals2[o]).Some? && i < |AsKeyed(vals2[o]).value|
    requires vals3[o] == if vals2[c] == List([]) then FromEntries(Remove(AsKeyed(vals2[o]).value, i)) else vals2[o]
    ensures DeleteSpec(vals1, vals3, o, Split(key), Ok(()))
  {
    var p := Split(key);
    var es := Values(o1.rep.level.entries, vals1);
    KeyedDenotes(o1, vals1, |vals1|);
    ScanThroughValues(o1.rep.level, vals1, key);
    assert p[1..] == Split(Rest(key).value);
    var es2 := es[i := Entry(o1.rep.level.entries[i].key, vals2[c])];
    LevelRoundTrip(es2);
    assert Remove(es2, i) == Remove(es, i);
  }

  /** ValidateKey */
  predicate ValidKey(key: string) {
    key != "" && '\0' !in key
  }

  /** w starts at v0, ends at v1, and has a value for each of n steps exactly when all succeed. */
  ghost predicate Between(w: seq<Value>, v0: Value, v1: Value, n: nat, ok: bool) {
    0 < |w| <= n + 1 && w[0] == v0 && w[|w| - 1] == v1 && (ok <==> |w| == n + 1)
  }

  /** An assignment that succeeds. */
  ghost predicate Sets(v: Value, key: string, x: Value, v': Value) {
    && key != "" && '\0' !in key
    && (Determined(v, Split(key)) ==> Set(v, Split(key), x) == Some(v'))
  }

  /** An assignment that fails: the key is empty or holds a zero byte, or something on its path is
      not a keyed list. */
  ghost predicate CannotSet(v: Value, key: string) {
    key == "" || '\0' in key || (Determined(v, Split(key)) ==> Get(v, Split(key)) == Error)
  }

  /** Between any two values of w lies the assignment of args in its place. */
  ghost predicate AllSet(w: seq<Value>, args: seq<(string, Ref)>, vals: seq<Value>) {
    |w| <= |args| + 1 &&
    forall k :: 0 <= k < |w| - 1 ==> args[k].1 < |vals| && Sets(w[k], args[k].0, vals[args[k].1], w[k + 1])
  }

  lemma AllSetNext(w: seq<Value>, args: seq<(string, Ref)>, vals: seq<Value>, v: Value)
    requires 0 < |w| <= |args| && AllSet(w, args, vals) && args[|w| - 1].1 < |vals|
    requires Sets(w[|w| - 1], args[|w| - 1].0, vals[args[|w| - 1].1], v)
    ensures AllSet(w + [v], args, vals)
  {
  }

  /** The same in terms of the slots that hold the arguments. */
  lemma ArgsSet(args: seq<(string, nat)>, slots: seq<Option<Ref>>, s: nat, w: seq<Value>, vals: seq<Value>)
    requires ArgsOk(args, slots, s) && AllSet(w, ArgRefs(args, slots, s), vals)
    requires forall j :: 0 <= j < |slots| && slots[j].Some? ==> slots[j].value < |vals|
    ensures forall k :: 0 <= k < |args| ==> args[k].1 < |slots| && slots[args[k].1].Some?
    ensures |w| <= |args| + 1
    ensures forall k :: 0 <= k < |w| - 1 ==> Sets(w[k], args[k].0, vals[slots[args[k].1].value], w[k + 1])
  {
    assert forall k :: 0 <= k < |args| ==> args[k] in args;
  }

  lemma AllSetBefore(w: seq<Value>, args: seq<(string, Ref)>, vals0: seq<Value>, vals1: seq<Value>)
    requires vals0 <= vals1 && AllSet(w, args, vals1) && forall a <- args :: a.1 < |vals0|
    ensures AllSet(w, args, vals0)
  {
    forall k | 0 <= k < |w| - 1
      ensures args[k].1 < |vals0| && Sets(w[k], args[k].0, vals0[args[k].1], w[k + 1])
    {
      assert args[k] in args;
    }
  }

  /** A deletion that succeeds. */
  ghost predicate Deletes(v: Value, key: string, v': Value) {
    && key != "" && '\0' !in key
    && (Determined(v, Split(key)) ==> Delete(v, Split(key)) == Ok(v'))
  }

  /** Between any two values of w lies the deletion of the key in its place. */
  ghost predicate AllDeleted(w: seq<Value>, keys: seq<string>) {
    |w| <= |keys| + 1 && forall k :: 0 <= k < |w| - 1 ==> Deletes(w[k], keys[k], w[k + 1])
  }

  lemma AllDeletedNext(w: seq<Value>, keys: seq<string>, v: Value)
    requires 0 < |w| <= |keys| && AllDeleted(w, keys) && Deletes(w[|w| - 1], keys[|w| - 1], v)
    ensures AllDeleted(w + [v], keys)
  {
  }

  /** A deletion that fails: the key is empty, holds a zero byte, or cannot be read. */
  ghost predicate CannotDelete(v: Value, key: string) {
    key == "" || '\0' in key || (Determined(v, Split(key)) ==> !Get(v, Split(key)).Ok?)
  }

  lemma SetSlotFrame(objs0: seq<Obj>, vals0: seq<Value>, objs1: seq<Obj>, vals1: seq<Value>,
                     slots: seq<Option<Ref>>, o: Ref, v: int, D: set<Ref>, ok: bool)
    requires Private(objs0, vals0, o, {}) && v != o && |vals1| == |objs1|
    requires if ok then Updated(objs0, vals0, objs1, vals1, slots, o, {}, v, D)
             else vals0 <= vals1 && OldEdgesOnly(objs0, objs1, v)
    ensures Private(objs1, vals1, o, {})
    ensures forall x :: 0 <= x < |vals0| && x != o && Some(x) in slots ==> vals1[x] == vals0[x]
    ensures !ok ==> vals1[o] == vals0[o]
  {
    assert {} + {o} == {o};
    UpClosedStays(objs0, objs1, v, {o});
  }

  /** Copy-on-write, as every holder but slot s sees it. */
  ghost predicate OthersKept(slots0: seq<Option<Ref>>, vals0: seq<Value>, slots1: seq<Option<Ref>>,
                             vals1: seq<Value>, s: nat) {
    && |slots1| == |slots0|
    && forall j :: 0 <= j < |slots0| && j != s ==>
         slots1[j] == slots0[j] &&
         (slots0[j].Some? ==> slots0[j].value < |vals0| && slots0[j].value < |vals1| &&
                              vals1[slots0[j].value] == vals0[slots0[j].value])
  }

  ghost predicate ArgsOk(args: seq<(string, nat)>, slots: seq<Option<Ref>>, s: nat) {
    forall a <- args :: a.1 < |slots| && a.1 != s && slots[a.1].Some?
  }

  function ArgRefs(args: seq<(string, nat)>, slots: seq<Option<Ref>>, ghost s: nat): (r: seq<(string, Ref)>)
    requires ArgsOk(args, slots, s)
    ensures |r| == |args|
    ensures forall i :: 0 <= i < |args| ==>
              r[i].0 == args[i].0 && args[i].1 < |slots| && slots[args[i].1] == Some(r[i].1)
  {
    seq(|args|, i requires 0 <= i < |args| => assert args[i] in args; (args[i].0, slots[args[i].1].value))
  }

  lemma ArgRefsOk(args: seq<(string, nat)>, slots: seq<Option<Ref>>, s: nat, n: nat)
    requires ArgsOk(args, slots, s) && forall j :: 0 <= j < |slots| && slots[j].Some? ==> slots[j].value < n
    ensures forall r <- ArgRefs(args, slots, s) ::
              r.1 < n && Some(r.1) in slots &&
              exists j :: 0 <= j < |slots| && j != s && slots[j] == Some(r.1)
  {
    var refs := ArgRefs(args, slots, s);
    forall r | r in refs ensures
        r.1 < n && Some(r.1) in slots &&
        exists j :: 0 <= j < |slots| && j != s && slots[j] == Some(r.1) {
      var i :| 0 <= i < |refs| && refs[i] == r;
      assert args[i] in args;
    }
  }

  /** Arguments stay good when a new object is held by a local pointer. */
  lemma LocalArgs(refs: seq<(string, Ref)>, objs0: seq<Obj>, slots0: seq<Option<Ref>>, vals0: seq<Value>,
                  vals1: seq<Value>, o: Ref)
    requires |objs0| == |vals0| && vals0 <= vals1 && |objs0| <= o
    requires forall r <- refs :: r.1 < |objs0| && Some(r.1) in slots0
    ensures forall r <- refs :: r.1 != o && r.1 < |vals1| && Some(r.1) in slots0 + [Some(o)]
  {
  }

  lemma LocalKept(slots0: seq<Option<Ref>>, vals0: seq<Value>, vals1: seq<Value>, vals2: seq<Value>, o: Ref)
    requires vals0 <= vals1 && |vals0| <= o < |vals1| <= |vals2|
    requires forall j :: 0 <= j < |slots0| && slots0[j].Some? ==> slots0[j].value < |vals0|
    requires forall x :: 0 <= x < |vals1| && x != o && Some(x) in slots0 + [Some(o)] ==> vals2[x] == vals1[x]
    ensures forall j :: 0 <= j < |slots0| && slots0[j].Some? ==> vals2[slots0[j].value] == vals0[slots0[j].value]
  {
    forall j | 0 <= j < |slots0| && slots0[j].Some? ensures vals2[slots0[j].value] == vals0[slots0[j].value] {
      assert (slots0 + [Some(o)])[j] == Some(slots0[j].value);
    }
  }

  /** What keylset does to slot s, in terms of the objects that are to be assigned. */
  ghost predicate KeylsetResult(objs0: seq<Obj>, slots0: seq<Option<Ref>>, vals0: seq<Value>,
                                slots1: seq<Option<Ref>>, vals1: seq<Value>, s: nat, refs: seq<(string, Ref)>,
                                ok: bool, w: seq<Value>)
  {
    && s < |slots0| == |slots1| && |vals0| == |objs0|
    && (forall j :: 0 <= j < |slots0| && slots0[j].Some? ==> slots0[j].value < |vals0|)
    && (slots1[s].Some? ==> slots1[s].value < |vals1|)
    && (ok ==> slots1[s].Some?) && (!ok ==> slots1[s] == slots0[s])
    && 0 < |w| <= |refs| + 1 && (ok <==> |w| == |refs| + 1)
    && w[0] == (if slots0[s].None? then List([]) else vals0[slots0[s].value])
    && AllSet(w, refs, vals0) && (!ok ==> CannotSet(w[|w| - 1], refs[|w| - 1].0))
    && (slots1[s].Some? ==>
          vals1[slots1[s].value] ==
          if ok || objs0[slots0[s].value].refCount <= 1 then w[|w| - 1] else vals0[slots0[s].value])
  }

  lemma KeylsetDone(objs0: seq<Obj>, slots0: seq<Option<Ref>>, vals0: seq<Value>, slots1: seq<Option<Ref>>,
                    vals1: seq<Value>, s: nat, args: seq<(string, nat)>, ok: bool, w: seq<Value>)
    requires ArgsOk(args, slots0, s)
    requires KeylsetResult(objs0, slots0, vals0, slots1, vals1, s, ArgRefs(args, slots0, s), ok, w)
    ensures KeylsetSpec(objs0, slots0, vals0, slots1, vals1, s, args, ok, w)
  {
    ArgsSet(args, slots0, s, w, vals0);
  }

  /** What keylset does to slot s. */
  ghost predicate KeylsetSpec(objs0: seq<Obj>, slots0: seq<Option<Ref>>, vals0: seq<Value>, slots1: seq<Option<Ref>>,
                              vals1: seq<Value>, s: nat, args: seq<(string, nat)>, ok: bool, w: seq<Value>)
  {
    && s < |slots0| == |slots1| && ArgsOk(args, slots0, s) && |vals0| == |objs0|
    && (forall j :: 0 <= j < |slots0| && slots0[j].Some? ==> slots0[j].value < |vals0|)
    && (slots1[s].Some? ==> slots1[s].value < |vals1|)
    && (forall k :: 0 <= k < |args| ==> args[k].1 < |slots0| && slots0[args[k].1].Some?)
    && (ok ==> slots1[s].Some?) && (!ok ==> slots1[s] == slots0[s])
    && 0 < |w| <= |args| + 1 && (ok <==> |w| == |args| + 1)
    && w[0] == (if slots0[s].None? then List([]) else vals0[slots0[s].value])
    && (forall k :: 0 <= k < |w| - 1 ==> Sets(w[k], args[k].0, vals0[slots0[args[k].1].value], w[k + 1]))
    && (!ok ==> CannotSet(w[|w| - 1], args[|w| - 1].0))
    && (slots1[s].Some? ==>
          vals1[slots1[s].value] ==
          if ok || objs0[slots0[s].value].refCount <= 1 then w[|w| - 1] else vals0[slots0[s].value])
  }

  /** What keyldel does to slot s. */
  ghost predicate KeyldelSpec(slots0: seq<Option<Ref>>, vals0: seq<Value>, slots1: seq<Option<Ref>>, vals1: seq<Value>,
                              s: nat, keys: seq<string>, ok: bool, w: seq<Value>)
  {
    && s < |slots0| == |slots1| && (slots0[s].Some? <==> slots1[s].Some?) && (slots0[s].None? ==> !ok)
    && (slots0[s].Some? ==>
          && slots0[s].value < |vals0| && slots1[s].value < |vals1|
          && Between(w, vals0[slots0[s].value], vals1[slots1[s].value], |keys|, ok)
          && AllDeleted(w, keys)
          && (!ok ==> CannotDelete(w[|w| - 1], keys[|w| - 1])))
  }
}
