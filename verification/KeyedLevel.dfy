/**
  One level of a stored keyed list: a growable entry array with a hash index that may cover any
  subset of the entries, updated in place by keylIntObj_t's routines.
*/
module KeyedLevel {
  import opened Common
  import opened KeyedValue

  /** entries[0..numEntries] and hashTbl (None is a NULL table). */
  datatype Level<+T> = Level(entries: seq<Entry<T>>, index: Option<map<string, nat>>)

  /** Every indexed pair (k, i) points at an entry whose key is k. */
  ghost predicate IndexOk<T>(l: Level<T>) {
    l.index.Some? ==>
      forall k <- l.index.value :: l.index.value[k] < |l.entries| && l.entries[l.index.value[k]].key == k
  }

  /** STRNEQU: the first characters, which may lie beyond the n compared, and then strncmp. C
      strings end in a zero byte. */
  predicate StrNEqu(entry: string, key: string, n: nat)
    requires n == |entry| <= |key|
  {
    (if entry == "" then '\0' else entry[0]) == (if key == "" then '\0' else key[0]) && entry == key[..n]
  }

  /** Whether the scan compares an entry's key with the first component of key as equal: an empty
      component with more behind it never does, because its first character is the '.'. */
  predicate Scannable(key: string) {
    key == "" || key[0] != '.'
  }

  /** FindKeyedListEntry: the index when it knows the first component of key, else the scan. */
  function Find<T>(l: Level<T>, key: string): int {
    var k := Head(key);
    if l.index.Some? && k in l.index.value then
      if l.index.value[k] < |l.entries| then l.index.value[k] else -1
    else if Scannable(key) then Scan(l.entries, k)
    else -1
  }

  /** DeleteKeyedListEntry on the index: drop the deleted key, shift the later positions. */
  function ShiftIndex(index: map<string, nat>, key: string, i: nat): map<string, nat> {
    map k | k in index && k != key :: if index[k] > i then index[k] - 1 else index[k]
  }

  function DeleteAt<T>(l: Level<T>, i: nat): Level<T>
    requires i < |l.entries|
  {
    Level(Remove(l.entries, i),
          if l.index.None? then None else Some(ShiftIndex(l.index.value, l.entries[i].key, i)))
  }

  /** The entry update at the end of TclX_KeyedListSet: write at i or append, then index the key,
      creating the table if there was none. */
  function PutAt<T>(l: Level<T>, i: int, k: string, x: T): Level<T>
    requires i < |l.entries|
  {
    var at: nat := if i < 0 then |l.entries| else i;
    Level(Put(l.entries, i, k, x), Some((if l.index.None? then map[] else l.index.value)[k := at]))
  }

  /** The index that SetKeyedListFromAny builds: every key, the last occurrence winning. */
  function IndexAll<T>(es: seq<Entry<T>>): (m: map<string, nat>)
    ensures IndexOk(Level(es, Some(m)))
    ensures forall e <- es :: e.key in m
  {
    if es == [] then map[]
    else
      var n := |es| - 1;
      assert es == es[..n] + [es[n]];
      IndexAll(es[..n])[es[n].key := n]
  }

  /** The same keys with other values. */
  function WithValues<S, T>(es: seq<Entry<S>>, vs: seq<T>): seq<Entry<T>>
    requires |vs| == |es|
  {
    seq(|es|, i requires 0 <= i < |es| => Entry(es[i].key, vs[i]))
  }

  // ---------------------------------------------------------------- index versus scan

  lemma IndexSurvivesDelete<T>(l: Level<T>, i: nat)
    requires IndexOk(l) && i < |l.entries|
    ensures IndexOk(DeleteAt(l, i))
  {
    if l.index.Some? {
      var m, m' := l.index.value, DeleteAt(l, i).index.value;
      forall k | k in m' ensures m'[k] < |l.entries| - 1 && Remove(l.entries, i)[m'[k]].key == k {
        assert l.entries[m[k]].key == k;
      }
    }
  }

  lemma FindIsEntry<T>(l: Level<T>, key: string)
    requires IndexOk(l)
    ensures -1 <= Find(l, key) < |l.entries| && (Find(l, key) >= 0 ==> l.entries[Find(l, key)].key == Head(key))
  {
  }

  lemma IndexSurvivesPut<T>(l: Level<T>, i: int, k: string, x: T)
    requires IndexOk(l) && i < |l.entries| && (i >= 0 ==> l.entries[i].key == k)
    ensures IndexOk(PutAt(l, i, k, x))
  {
  }

  /** The first component of a key is found as the scan for it finds it, whatever subset of the
      keys is indexed, exactly when it is not repeated on the level and either the scan can see it
      or it is not there. */
  lemma FoundIffScanned<T>(es: seq<Entry<T>>, key: string)
    ensures (forall index :: IndexOk(Level(es, index)) ==> Find(Level(es, index), key) == Scan(es, Head(key)))
            <==> (forall j :: 0 <= j < |es| && es[j].key == Head(key) ==> j == Scan(es, Head(key)) && Scannable(key))
  {
    var k := Head(key);
    if j :| 0 <= j < |es| && es[j].key == k && (j != Scan(es, k) || !Scannable(key)) {
      var index: Option<map<string, nat>> := if Scannable(key) then Some(map[k := j]) else None;
      assert IndexOk(Level(es, index)) && Find(Level(es, index), key) != Scan(es, k);
    } else {
      forall index | IndexOk(Level(es, index)) ensures Find(Level(es, index), key) == Scan(es, k) {
        if index.Some? && k in index.value { assert es[index.value[k]].key == k; }
      }
    }
  }

  /** So an empty component inside a path is found only as long as it is indexed: a duplicate has
      the entry and loses it. */
  lemma EmptyComponentLost<T>(x: T)
    ensures var l := PutAt(Level([], Some(map[])), -1, "", x);
            Find(l, ".b") == 0 && Step(l, Duplicate).entries == l.entries && Find(Step(l, Duplicate), ".b") == -1
  {
    assert DotAt(".b") == 0;
  }

  lemma DotFreeHead(k: string)
    requires '.' !in k
    ensures Head(k) == k && Scannable(k)
  {
    assert DotAt(k) == |k|;
  }

  /** Hence the index never disagrees with the scan exactly when the level has no repeated key. */
  lemma IndexTransparentIffDistinct<T>(es: seq<Entry<T>>)
    requires forall e <- es :: '.' !in e.key
    ensures (forall index, key :: IndexOk(Level(es, index)) && Scannable(key) ==>
               Find(Level(es, index), key) == Scan(es, Head(key)))
            <==> Distinct(es)
  {
    if Distinct(es) {
      forall index, key | IndexOk(Level(es, index)) && Scannable(key)
        ensures Find(Level(es, index), key) == Scan(es, Head(key))
      {
        FoundIffScanned(es, key);
      }
    } else {
      var i, j :| 0 <= i < j < |es| && es[i].key == es[j].key;
      DotFreeHead(es[j].key);
      var index: Option<map<string, nat>> := Some(map[es[j].key := j]);
      assert IndexOk(Level(es, index)) && Find(Level(es, index), es[j].key) == j;
      assert Scan(es, es[j].key) != j;
    }
  }

  /** The operations that reach one level between two conversions, by the path they follow. */
  datatype Op<T> = SetKey(key: string, x: T) | DeleteKey(key: string) | Duplicate

  function Step<T>(l: Level<T>, op: Op<T>): Level<T> {
    match op
    case SetKey(key, x) => if Find(l, key) < |l.entries| then PutAt(l, Find(l, key), Head(key), x) else l
    case DeleteKey(key) => if 0 <= Find(l, key) < |l.entries| then DeleteAt(l, Find(l, key)) else l
    case Duplicate => Level(l.entries, None)
  }

  function Run<T>(l: Level<T>, ops: seq<Op<T>>): Level<T>
    decreases |ops|
  {
    if ops == [] then l else Run(Step(l, ops[0]), ops[1..])
  }

  function ScanStep<T>(es: seq<Entry<T>>, op: Op<T>): seq<Entry<T>> {
    match op
    case SetKey(key, x) => Put(es, Scan(es, Head(key)), Head(key), x)
    case DeleteKey(key) => if Scan(es, Head(key)) >= 0 then Remove(es, Scan(es, Head(key))) else es
    case Duplicate => es
  }

  /** The same history on a plain entry list that is only ever scanned. */
  function RunScan<T>(es: seq<Entry<T>>, ops: seq<Op<T>>): seq<Entry<T>>
    decreases |ops|
  {
    if ops == [] then es else RunScan(ScanStep(es, ops[0]), ops[1..])
  }

  predicate OpScannable<T>(op: Op<T>) {
    op.Duplicate? || Scannable(op.key)
  }

  lemma StepKeepsIndex<T>(l: Level<T>, op: Op<T>)
    requires IndexOk(l)
    ensures IndexOk(Step(l, op))
  {
    match op
    case SetKey(key, x) => FindIsEntry(l, key); IndexSurvivesPut(l, Find(l, key), Head(key), x);
    case DeleteKey(key) => if Find(l, key) >= 0 { FindIsEntry(l, key); IndexSurvivesDelete(l, Find(l, key)); }
    case Duplicate =>
  }

  lemma ScanStepDistinct<T>(es: seq<Entry<T>>, op: Op<T>)
    requires Distinct(es)
    ensures Distinct(ScanStep(es, op))
  {
  }

  lemma StepAgrees<T>(l: Level<T>, op: Op<T>)
    requires IndexOk(l) && Distinct(l.entries) && OpScannable(op)
    ensures Step(l, op).entries == ScanStep(l.entries, op)
  {
    if !op.Duplicate? {
      FoundIffScanned(l.entries, op.key);
      assert l == Level(l.entries, l.index);
    }
  }

  /** After any history of set, delete and dup the index is still sound; with distinct keys, and
      without empty components inside paths, the entries are those of the scanned list and lookup
      finds what the scan finds. */
  lemma {:induction false} RunAgrees<T>(l: Level<T>, ops: seq<Op<T>>)
    requires IndexOk(l)
    ensures IndexOk(Run(l, ops))
    ensures Distinct(l.entries) && (forall op <- ops :: OpScannable(op)) ==>
              Distinct(Run(l, ops).entries) && Run(l, ops).entries == RunScan(l.entries, ops) &&
              forall key :: Scannable(key) ==> Find(Run(l, ops), key) == Scan(RunScan(l.entries, ops), Head(key))
    decreases |ops|
  {
    if ops == [] {
      if Distinct(l.entries) {
        forall key | Scannable(key) ensures Find(l, key) == Scan(l.entries, Head(key)) {
          FoundIffScanned(l.entries, key);
          assert l == Level(l.entries, l.index);
        }
      }
    } else {
      StepKeepsIndex(l, ops[0]);
      RunAgrees(Step(l, ops[0]), ops[1..]);
      if Distinct(l.entries) && forall op <- ops :: OpScannable(op) {
        StepAgrees(l, ops[0]);
        ScanStepDistinct(l.entries, ops[0]);
      }
    }
  }

  // ---------------------------------------------------------------- the stored level

  const ARRAY_INCR_SIZE := 16

  class KeyedListRep<T(0)> {
    var entries: array<Entry<T>>
    var numEntries: nat
    var hashTbl: Option<map<string, nat>>

    ghost predicate Valid()
      reads this, entries
    {
      numEntries <= entries.Length && IndexOk(Contents())
    }

    ghost function Contents(): Level<T>
      reads this, entries
      requires numEntries <= entries.Length
    {
      Level(entries[..numEntries], hashTbl)
    }

    /** AllocKeyedListIntRep */
    constructor ()
      ensures Valid() && fresh(entries) && Contents() == Level([], Some(map[]))
    {
      entries, numEntries, hashTbl := new Entry<T>[0], 0, Some(map[]);
    }

    /** DupKeyedListInternalRep, given the duplicates of the source's values: same capacity and
        keys, no hash table. */
    constructor Dup(src: KeyedListRep<T>, copies: seq<T>)
      requires src.Valid() && |copies| == src.numEntries
      ensures Valid() && fresh(entries) && entries.Length == src.entries.Length
      ensures Contents() == Level(WithValues(src.Contents().entries, copies), None)
    {
      numEntries, hashTbl := src.numEntries, None;
      entries := new Entry<T>[src.entries.Length];
      new;
      for i := 0 to numEntries
        invariant unchanged(src) && src.numEntries == numEntries && hashTbl == None
        invariant entries.Length == src.entries.Length && fresh(entries)
        invariant forall j :: 0 <= j < i ==> entries[j] == Entry(src.entries[j].key, copies[j])
      {
        entries[i] := Entry(src.entries[i].key, copies[i]);
      }
      assert Contents().entries == WithValues(src.Contents().entries, copies);
    }

    /** EnsureKeyedListSpace */
    method EnsureSpace(newNumEntries: nat)
      requires Valid()
      modifies this`entries
      ensures Valid() && Contents() == old(Contents())
      ensures entries.Length - numEntries >= newNumEntries
      ensures entries == old(entries) || (fresh(entries) &&
              entries.Length == old(entries.Length) + newNumEntries + 16)
    {
      if entries.Length - numEntries < newNumEntries {
        var bigger := new Entry<T>[entries.Length + newNumEntries + ARRAY_INCR_SIZE];
        for i := 0 to numEntries
          invariant unchanged(this) && unchanged(entries) && fresh(bigger)
          invariant bigger.Length == entries.Length + newNumEntries + ARRAY_INCR_SIZE
          invariant forall j :: 0 <= j < i ==> bigger[j] == entries[j]
        {
          bigger[i] := entries[i];
        }
        assert bigger[..numEntries] == entries[..numEntries];
        entries := bigger;
      }
    }

    /** DeleteKeyedListEntry: fix the index, then close the gap in place. */
    method DeleteEntry(entryIdx: nat)
      requires Valid() && entryIdx < numEntries
      modifies this, entries
      ensures Valid() && entries == old(entries)
      ensures Contents() == DeleteAt(old(Contents()), entryIdx)
    {
      ghost var was := Contents();
      IndexSurvivesDelete(was, entryIdx);
      if hashTbl.Some? {
        hashTbl := Some(ShiftIndex(hashTbl.value, entries[entryIdx].key, entryIdx));
      }
      CloseGap(entryIdx);
      numEntries := numEntries - 1;
      assert Contents().entries == Remove(was.entries, entryIdx);
    }

    /** The loop of DeleteKeyedListEntry: every later entry moves down by one. */
    method CloseGap(entryIdx: nat)
      requires entryIdx < numEntries <= entries.Length
      modifies entries
      ensures entries[..numEntries - 1] == Remove(old(entries[..numEntries]), entryIdx)
    {
      ghost var was := entries[..];
      var idx := entryIdx;
      while idx < numEntries - 1
        invariant entryIdx <= idx < numEntries
        invariant forall j :: 0 <= j < entryIdx ==> entries[j] == was[j]
        invariant forall j :: entryIdx <= j < idx ==> entries[j] == was[j + 1]
        invariant forall j :: idx < j < numEntries ==> entries[j] == was[j]
      {
        entries[idx] := entries[idx + 1];
        idx := idx + 1;
      }
    }

    /** FindKeyedListEntry: the position of the key's first component, and the remaining path. */
    method FindEntry(key: string) returns (findIdx: int, nextSubKey: Option<string>)
      requires Valid()
      ensures findIdx == Find(Contents(), key) && nextSubKey == Rest(key)
      ensures -1 <= findIdx < numEntries && (findIdx >= 0 ==> entries[findIdx].key == Head(key))
    {
      var keyLen := DotAt(key);
      var head := key[..keyLen];
      nextSubKey := Rest(key);
      FindIsEntry(Contents(), key);
      if hashTbl.Some? && head in hashTbl.value {
        findIdx := hashTbl.value[head];
      } else {
        findIdx := ScanEntries(key, keyLen);
      }
      if findIdx >= numEntries {
        findIdx := -1;
      }
    }

    /** The linear scan; numEntries when nothing compares equal. */
    method ScanEntries(key: string, keyLen: nat) returns (findIdx: nat)
      requires Valid() && keyLen == DotAt(key)
      ensures findIdx <= numEntries
      ensures var i := if Scannable(key) then Scan(Contents().entries, Head(key)) else -1;
              if i < 0 then findIdx == numEntries else findIdx == i
    {
      findIdx := 0;
      while findIdx < numEntries &&
            !(|entries[findIdx].key| == keyLen && StrNEqu(entries[findIdx].key, key, keyLen))
        invariant 0 <= findIdx <= numEntries
        invariant forall j :: 0 <= j < findIdx ==> !Scannable(key) || entries[j].key != Head(key)
      {
        findIdx := findIdx + 1;
      }
      assert findIdx < numEntries ==> Contents().entries[findIdx].key == Head(key);
      assert forall j :: 0 <= j < findIdx ==> Contents().entries[j] == entries[j];
    }

    /** The update or append at the end of TclX_KeyedListSet. */
    method StoreEntry(findIdx: int, key: string, value: T)
      requires Valid() && findIdx < numEntries && (findIdx >= 0 ==> entries[findIdx].key == key)
      modifies this, entries
      ensures Valid() && Contents() == PutAt(old(Contents()), findIdx, key, value)
      ensures entries == old(entries) || fresh(entries)
    {
      ghost var was := Contents();
      var at := findIdx;
      if findIdx < 0 {
        EnsureSpace(1);
        at := numEntries;
        numEntries := numEntries + 1;
      }
      entries[at] := Entry(key, value);
      hashTbl := Some((if hashTbl.None? then map[] else hashTbl.value)[key := at]);
      assert Contents().entries == Put(was.entries, findIdx, key, value);
      IndexSurvivesPut(was, findIdx, key, value);
    }
  }
}
