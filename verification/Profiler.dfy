/**
  The profiler: a stack of running procedures and commands, a second chain through it for variable
  scopes, and the time each entry spent on top. What is recorded goes into a table under the names
  along one of the two chains, and over a session the times recorded add up to its length.
*/
module Profiler {
  const UNKNOWN_LEVEL := -1
  const NULL := -1

  /** What the profiler adds up: entries, real time and CPU time. */
  datatype Measure = Count | Real | Cpu

  /** Real and CPU time, always handled alike. */
  datatype Time = Time(wall: int, cpu: int) {
    function Plus(t: Time): Time { Time(wall + t.wall, cpu + t.cpu) }
    function Minus(t: Time): Time { Time(wall - t.wall, cpu - t.cpu) }
    function In(m: Measure): int {
      match m case Count => 0 case Real => wall case Cpu => cpu
    }
  }

  const ZERO := Time(0, 0)

  /** profEntry_t. The stack is a sequence with <global> at the bottom; prevScope is the index of
      the next entry of the scope chain, or NULL. */
  datatype Entry = Entry(name: string, isProc: bool, procLevel: int, scopeLevel: int, evalLevel: int,
                         evalTime: Time, scopeTime: Time, prevScope: int)

  /** profDataEntry_t */
  datatype Data = Data(count: nat, time: Time) {
    function Plus(d: Data): Data { Data(count + d.count, time.Plus(d.time)) }
    function In(m: Measure): int {
      if m.Count? then count else time.In(m)
    }
  }

  type Table = map<seq<string>, Data>

  // ---------------------------------------------------------------- sums

  /** One measure summed over the whole data table. */
  ghost function Total(t: Table, m: Measure): int
    decreases |t|
  {
    if t == map[] then 0
    else
      var k :| k in t;
      t[k].In(m) + Total(t - {k}, m)
  }

  lemma {:induction false} TotalSplit(t: Table, k: seq<string>, m: Measure)
    requires k in t
    ensures Total(t, m) == t[k].In(m) + Total(t - {k}, m)
    decreases |t|
  {
    var j :| j in t && Total(t, m) == t[j].In(m) + Total(t - {j}, m);
    if j != k {
      TotalSplit(t - {j}, k, m);
      TotalSplit(t - {k}, j, m);
      assert t - {j} - {k} == t - {k} - {j};
    }
  }

  /** The accounts under which an entry is recorded. */
  function Recorded(t: Table, key: seq<string>, time: Time): Table {
    t[key := if key in t then t[key].Plus(Data(1, time)) else Data(1, time)]
  }

  /** Recording adds to the totals, whether or not the key was there. */
  lemma TotalRecorded(t: Table, key: seq<string>, time: Time, m: Measure)
    ensures Total(Recorded(t, key, time), m) == Total(t, m) + Data(1, time).In(m)
  {
    var t' := Recorded(t, key, time);
    TotalSplit(t', key, m);
    if key in t {
      TotalSplit(t, key, m);
      assert t' - {key} == t - {key};
    } else {
      assert t' - {key} == t;
    }
  }

  function Account(e: Entry, evalMode: bool): Time {
    if evalMode then e.evalTime else e.scopeTime
  }

  /** What the lowest n entries of the stack would record, in the mode's own accounts. */
  ghost function Held(stack: seq<Entry>, n: nat, evalMode: bool, m: Measure): int
    requires n <= |stack|
  {
    if n == 0 then 0
    else Held(stack, n - 1, evalMode, m) + Data(1, Account(stack[n - 1], evalMode)).In(m)
  }

  ghost function OnStack(stack: seq<Entry>, evalMode: bool, m: Measure): int {
    Held(stack, |stack|, evalMode, m)
  }

  lemma {:induction false} HeldPrefix(stack0: seq<Entry>, stack1: seq<Entry>, n: nat, evalMode: bool, m: Measure)
    requires n <= |stack0| && n <= |stack1| && forall i :: 0 <= i < n ==> stack0[i] == stack1[i]
    ensures Held(stack0, n, evalMode, m) == Held(stack1, n, evalMode, m)
  {
    if n > 0 {
      HeldPrefix(stack0, stack1, n - 1, evalMode, m);
    }
  }

  lemma {:induction false} HeldUpdate(stack: seq<Entry>, i: nat, e: Entry, n: nat, evalMode: bool, m: Measure)
    requires i < n <= |stack|
    ensures Held(stack[i := e], n, evalMode, m) ==
            Held(stack, n, evalMode, m) - Account(stack[i], evalMode).In(m) + Account(e, evalMode).In(m)
  {
    if i == n - 1 {
      HeldPrefix(stack, stack[i := e], i, evalMode, m);
    } else {
      HeldUpdate(stack, i, e, n - 1, evalMode, m);
    }
  }

  lemma OnStackPush(stack: seq<Entry>, e: Entry, evalMode: bool, m: Measure)
    ensures (stack + [e])[..|stack|] == stack
    ensures OnStack(stack + [e], evalMode, m) == OnStack(stack, evalMode, m) + Data(1, Account(e, evalMode)).In(m)
  {
    HeldPrefix(stack, stack + [e], |stack|, evalMode, m);
  }

  lemma OnStackPop(stack: seq<Entry>, evalMode: bool, m: Measure)
    requires stack != []
    ensures OnStack(stack, evalMode, m) ==
            OnStack(stack[..|stack| - 1], evalMode, m) + Data(1, Account(stack[|stack| - 1], evalMode)).In(m)
  {
    HeldPrefix(stack, stack[..|stack| - 1], |stack| - 1, evalMode, m);
  }

  /** Add to the eval or scope account of one entry. */
  function Charge(stack: seq<Entry>, i: int, delta: Time, eval: bool): seq<Entry>
    requires 0 <= i < |stack|
  {
    stack[i := if eval then stack[i].(evalTime := stack[i].evalTime.Plus(delta))
               else stack[i].(scopeTime := stack[i].scopeTime.Plus(delta))]
  }

  /** Only the mode's own account is ever recorded. */
  lemma ChargeHeld(stack: seq<Entry>, i: int, delta: Time, eval: bool, evalMode: bool, m: Measure)
    requires 0 <= i < |stack|
    ensures OnStack(Charge(stack, i, delta, eval), evalMode, m) ==
            OnStack(stack, evalMode, m) + if eval == evalMode then delta.In(m) else 0
  {
    HeldUpdate(stack, i, Charge(stack, i, delta, eval)[i], |stack|, evalMode, m);
  }

  // ---------------------------------------------------------------- the scope chain

  /** Whether the variables of the entry enclose those at scopeLevel. */
  predicate Encloses(e: Entry, isProc: bool, scopeLevel: int) {
    e.procLevel <= 0 || (if isProc then e.scopeLevel < scopeLevel else e.scopeLevel <= scopeLevel)
  }

  /** <global> ends the chain; every other link leads strictly deeper into the stack, and lowers the
      scope level, strictly for procedures and weakly for commands, or lands on an entry of
      procedure level 0. */
  ghost predicate ChainOk(stack: seq<Entry>) {
    && (stack != [] ==> stack[0].procLevel == 0 && stack[0].prevScope == NULL)
    && forall i :: 0 < i < |stack| ==> Linked(stack, i)
  }

  ghost predicate Linked(stack: seq<Entry>, i: int)
    requires 0 < i < |stack|
  {
    0 <= stack[i].prevScope < i && Encloses(stack[stack[i].prevScope], stack[i].isProc, stack[i].scopeLevel)
  }

  /** The first entry that encloses scopeLevel on the scope chain from i. */
  ghost function ScopeAt(stack: seq<Entry>, i: int, isProc: bool, scopeLevel: int): (scan: int)
    requires ChainOk(stack) && -1 <= i < |stack|
    ensures -1 <= scan <= i && (i >= 0 ==> scan >= 0 && Encloses(stack[scan], isProc, scopeLevel))
    decreases i
  {
    if i <= 0 || Encloses(stack[i], isProc, scopeLevel) then i
    else
      assert Linked(stack, i);
      ScopeAt(stack, stack[i].prevScope, isProc, scopeLevel)
  }

  // ---------------------------------------------------------------- what is found along the chains

  /** Positions that follow the scope chain from i. */
  ghost predicate Follows(stack: seq<Entry>, i: int, c: seq<int>) {
    && c != [] && c[0] == i && 0 <= c[|c| - 1] < |stack|
    && forall k :: 0 <= k < |c| ==> OnChain(stack, c, k)
  }

  ghost predicate OnChain(stack: seq<Entry>, c: seq<int>, k: nat) {
    k < |c| && 0 <= c[k] < |stack| && (k + 1 < |c| ==> c[k + 1] == stack[c[k]].prevScope)
  }

  lemma FollowsNext(stack: seq<Entry>, i: int, c: seq<int>, next: int)
    requires Follows(stack, i, c) && 0 <= next < |stack| && next == stack[c[|c| - 1]].prevScope
    ensures Follows(stack, i, c + [next])
  {
    var d := c + [next];
    forall k | 0 <= k < |d| ensures OnChain(stack, d, k) {
      assert k < |c| ==> OnChain(stack, c, k);
    }
  }

  /** The names an entry is recorded under: in eval mode those of all the entries from it down, and
      otherwise those along its scope chain, to the entry that has no next one. */
  ghost predicate Named(stack: seq<Entry>, i: nat, evalMode: bool, names: seq<string>) {
    && i < |stack|
    && if evalMode then |names| == i + 1 && forall j :: 0 <= j <= i ==> names[j] == stack[i - j].name
       else exists c :: Follows(stack, i, c) && stack[c[|c| - 1]].prevScope == -1 && NamesOf(stack, c, names)
  }

  ghost predicate NamesOf(stack: seq<Entry>, c: seq<int>, names: seq<string>) {
    |names| == |c| && forall k :: 0 <= k < |c| ==> 0 <= c[k] < |stack| && names[k] == stack[c[k]].name
  }

  lemma NamedInPrefix(stack: seq<Entry>, n: nat, i: nat, evalMode: bool, names: seq<string>)
    requires n <= |stack| && Named(stack[..n], i, evalMode, names)
    ensures Named(stack, i, evalMode, names)
  {
    if !evalMode {
      var s := stack[..n];
      var c :| Follows(s, i, c) && s[c[|c| - 1]].prevScope == -1 && NamesOf(s, c, names);
      forall k | 0 <= k < |c| ensures OnChain(stack, c, k) { assert OnChain(s, c, k); }
      assert NamesOf(stack, c, names);
    }
  }

  /** One call more, and the time, at one key of the data table. */
  ghost predicate Counted(t: Table, t': Table, key: seq<string>, time: Time) {
    && t'.Keys == t.Keys + {key} && (forall k <- t :: k != key ==> t'[k] == t[k])
    && t'[key].count == (if key in t then t[key].count else 0) + 1
    && t'[key].time.wall == (if key in t then t[key].time.wall else 0) + time.wall
    && t'[key].time.cpu == (if key in t then t[key].time.cpu else 0) + time.cpu
  }

  /** Entry i is recorded, under its names and with the time of the mode. */
  ghost predicate Records(t: Table, t': Table, stack: seq<Entry>, i: nat, evalMode: bool) {
    && i < |stack|
    && exists names :: Named(stack, i, evalMode, names) &&
                       Counted(t, t', names, if evalMode then stack[i].evalTime else stack[i].scopeTime)
  }

  /** The entries above the lowest n are recorded, from the top down. */
  ghost predicate AllRecorded(t: Table, t': Table, stack: seq<Entry>, n: nat, evalMode: bool) {
    n <= |stack| && exists ts :: TablesDown(ts, t, t', stack, n, evalMode)
  }

  ghost predicate TablesDown(ts: seq<Table>, t: Table, t': Table, stack: seq<Entry>, n: nat, evalMode: bool)
    requires n <= |stack|
  {
    && |ts| == |stack| + 1 && ts[|stack|] == t && ts[n] == t'
    && forall i :: n <= i < |stack| ==> Records(ts[i + 1], ts[i], stack, i, evalMode)
  }

  /** The interval is charged, and then the entries above the lowest n are recorded. */
  ghost predicate LeftBehind(t: Table, t': Table, stack: seq<Entry>, scope: int, delta: Time, n: nat, evalMode: bool) {
    exists charged ::
      Charged(stack, charged, scope, delta.wall, delta.cpu) && AllRecorded(t, t', charged, n, evalMode)
  }

  /** The interval is charged, and then the top entry leaves the stack for the table. */
  ghost predicate TopRecorded(t: Table, t': Table, stack: seq<Entry>, stack': seq<Entry>, scope: int, delta: Time,
                              evalMode: bool) {
    stack != [] && exists charged ::
      && Charged(stack, charged, scope, delta.wall, delta.cpu) && stack' == charged[..|stack| - 1]
      && Records(t, t', charged, |stack| - 1, evalMode)
  }

  lemma TopRecordedBy(t: Table, t': Table, stack: seq<Entry>, charged: seq<Entry>, scope: int, delta: Time,
                      evalMode: bool)
    requires stack != [] && Charged(stack, charged, scope, delta.wall, delta.cpu)
    requires Records(t, t', charged, |stack| - 1, evalMode)
    ensures TopRecorded(t, t', stack, charged[..|stack| - 1], scope, delta, evalMode)
  {
  }

  lemma LeftBehindBy(t: Table, t': Table, stack: seq<Entry>, charged: seq<Entry>, scope: int, delta: Time, n: nat,
                     evalMode: bool)
    requires Charged(stack, charged, scope, delta.wall, delta.cpu) && AllRecorded(t, t', charged, n, evalMode)
    ensures LeftBehind(t, t', stack, scope, delta, n, evalMode)
  {
  }

  lemma NoneRecorded(t: Table, stack: seq<Entry>, evalMode: bool)
    ensures AllRecorded(t, t, stack, |stack|, evalMode)
  {
    assert TablesDown(seq(|stack| + 1, _ => t), t, t, stack, |stack|, evalMode);
  }

  lemma OneMoreRecorded(t: Table, t': Table, t'': Table, stack: seq<Entry>, n: nat, evalMode: bool)
    requires AllRecorded(t, t', stack, n, evalMode) && 0 < n && Records(t', t'', stack[..n], n - 1, evalMode)
    ensures AllRecorded(t, t'', stack, n - 1, evalMode)
  {
    var ts :| TablesDown(ts, t, t', stack, n, evalMode);
    RecordsInPrefix(t', t'', stack, n, n - 1, evalMode);
    var us := ts[n - 1 := t''];
    forall i | n - 1 <= i < |stack| ensures Records(us[i + 1], us[i], stack, i, evalMode) {
      assert i >= n ==> Records(ts[i + 1], ts[i], stack, i, evalMode);
    }
    assert TablesDown(us, t, t'', stack, n - 1, evalMode);
  }

  lemma RecordsInPrefix(t: Table, t': Table, stack: seq<Entry>, n: nat, i: nat, evalMode: bool)
    requires n <= |stack| && Records(t, t', stack[..n], i, evalMode)
    ensures Records(t, t', stack, i, evalMode)
  {
    var time := if evalMode then stack[i].evalTime else stack[i].scopeTime;
    var names :| Named(stack[..n], i, evalMode, names) && Counted(t, t', names, time);
    NamedInPrefix(stack, n, i, evalMode, names);
  }

  lemma RecordedCounts(t: Table, key: seq<string>, time: Time)
    ensures Counted(t, Recorded(t, key, time), key, time)
  {
  }

  /** The scope an entry is chained to: the first one on the chain from there that is at procedure
      level 0, or whose scope level is less than the entry's if that is a procedure, and not greater
      if it is a command. */
  ghost predicate ScopeFound(stack: seq<Entry>, from: int, isProc: bool, scopeLevel: int, scan: int) {
    if stack == [] then scan == -1
    else exists c :: Follows(stack, from, c) && scan == c[|c| - 1] && FirstEnclosing(stack, c, isProc, scopeLevel)
  }

  ghost predicate FirstEnclosing(stack: seq<Entry>, c: seq<int>, isProc: bool, scopeLevel: int) {
    PassedBefore(stack, c, isProc, scopeLevel) && !PassedBy(stack[c[|c| - 1]], isProc, scopeLevel)
  }

  ghost predicate PassedBefore(stack: seq<Entry>, c: seq<int>, isProc: bool, scopeLevel: int) {
    && c != [] && (forall k :: 0 <= k < |c| ==> 0 <= c[k] < |stack|)
    && forall k :: 0 <= k < |c| - 1 ==> PassedBy(stack[c[k]], isProc, scopeLevel)
  }

  ghost predicate PassedBy(e: Entry, isProc: bool, scopeLevel: int) {
    e.procLevel > 0 && (if isProc then e.scopeLevel >= scopeLevel else e.scopeLevel > scopeLevel)
  }

  /** The interval is added to the eval time of the top entry and to the scope time of one entry. */
  ghost predicate Charged(was: seq<Entry>, now: seq<Entry>, scope: int, wall: int, cpu: int) {
    |now| == |was| && forall i :: 0 <= i < |was| ==> ChargedAt(was, now, scope, wall, cpu, i)
  }

  ghost predicate ChargedAt(was: seq<Entry>, now: seq<Entry>, scope: int, wall: int, cpu: int, i: nat)
    requires |now| == |was| && i < |was|
  {
    var e := was[i];
    now[i] == e.(
      evalTime := if i == |was| - 1 then Time(e.evalTime.wall + wall, e.evalTime.cpu + cpu) else e.evalTime,
      scopeTime := if i == scope then Time(e.scopeTime.wall + wall, e.scopeTime.cpu + cpu) else e.scopeTime)
  }

  lemma ChargeChain(stack: seq<Entry>, i: int, delta: Time, eval: bool)
    requires ChainOk(stack) && 0 <= i < |stack|
    ensures ChainOk(Charge(stack, i, delta, eval))
  {
    var r := Charge(stack, i, delta, eval);
    forall j | 0 < j < |r| ensures Linked(r, j) {
      assert Linked(stack, j);
    }
  }

  lemma PopChain(stack: seq<Entry>)
    requires ChainOk(stack) && stack != []
    ensures ChainOk(stack[..|stack| - 1])
  {
    var r := stack[..|stack| - 1];
    forall j | 0 < j < |r| ensures Linked(r, j) {
      assert Linked(stack, j);
    }
  }

  lemma PushChain(stack: seq<Entry>, e: Entry)
    requires ChainOk(stack)
    requires stack == [] ==> e.prevScope == NULL && e.procLevel == 0
    requires stack != [] ==> 0 <= e.prevScope < |stack| && Encloses(stack[e.prevScope], e.isProc, e.scopeLevel)
    ensures ChainOk(stack + [e])
  {
    forall j | 0 < j < |stack + [e]| ensures Linked(stack + [e], j) {
      assert j < |stack| ==> Linked(stack, j);
    }
  }

  /** The stack is <global>, then the procedures that were running when profiling began, then the
      open commands traced since. */
  ghost predicate LayersOk(stack: seq<Entry>, open: nat) {
    && open < |stack|
    && (forall i :: 0 < i < |stack| - open ==> stack[i].evalLevel == UNKNOWN_LEVEL)
    && (forall i :: |stack| - open <= i < |stack| ==> stack[i].evalLevel != UNKNOWN_LEVEL)
  }

  ghost predicate SameButTimes(e: Entry, f: Entry) {
    e == f.(evalTime := e.evalTime, scopeTime := e.scopeTime)
  }

  ghost predicate SameStack(stack0: seq<Entry>, stack1: seq<Entry>) {
    |stack1| == |stack0| && forall i :: 0 <= i < |stack0| ==> SameButTimes(stack1[i], stack0[i])
  }

  /** Above the lowest n entries stand the call frames, the innermost on top. */
  ghost predicate InitialEntries(stack: seq<Entry>, n: nat, frames: seq<(string, int)>) {
    && 0 < n && |stack| == n + |frames|
    && forall j :: n <= j < |stack| ==>
         InitialEntry(stack[j], frames[|stack| - 1 - j], stack[n - 1].procLevel + j - n + 1)
  }

  ghost predicate InitialEntry(e: Entry, frame: (string, int), procLevel: int) {
    e.isProc && e.name == frame.0 && e.scopeLevel == frame.1 && e.procLevel == procLevel && e.evalLevel == UNKNOWN_LEVEL
  }

  lemma InitialPush(stack: seq<Entry>, n: nat, frames: seq<(string, int)>, e: Entry)
    requires frames != [] && InitialEntries(stack, n, frames[1..])
    requires InitialEntry(e, frames[0], stack[|stack| - 1].procLevel + 1)
    ensures InitialEntries(stack + [e], n, frames)
  {
    forall j | n <= j < |stack|
      ensures InitialEntry(stack[j], frames[|stack| - j], stack[n - 1].procLevel + j - n + 1)
    {
      assert frames[1..][|stack| - 1 - j] == frames[|stack| - j];
    }
    if |stack| > n {
      assert InitialEntry(stack[|stack| - 1], frames[1], stack[n - 1].procLevel + |stack| - n);
    }
  }

  function Levels(stack: seq<Entry>): seq<int> {
    seq(|stack|, i requires 0 <= i < |stack| => stack[i].procLevel)
  }

  /** How many of the lowest n entries stay when a command runs at procLevel: those above the
      topmost one at that level or below have been left. */
  function Kept(levels: seq<int>, n: nat, procLevel: int): (k: nat)
    requires n <= |levels|
    ensures k <= n && (k > 1 ==> levels[k - 1] <= procLevel) && (n > 0 ==> k > 0)
    ensures forall i :: k <= i < n ==> levels[i] > procLevel
  {
    if n <= 1 || levels[n - 1] <= procLevel then n else Kept(levels, n - 1, procLevel)
  }

  lemma {:induction false} KeptBelow(stack: seq<Entry>, n: nat, procLevel: int)
    requires 1 < n <= |stack| && stack[n - 1].procLevel > procLevel
    ensures Kept(Levels(stack), n, procLevel) == Kept(Levels(stack), n - 1, procLevel)
  {
  }

  lemma LevelsPush(stack0: seq<Entry>, stack1: seq<Entry>, n: nat)
    requires n <= |stack0| && n <= |stack1| <= n + 1 && SameStack(stack0[..n], stack1[..n])
    ensures Levels(stack1) == Levels(stack0)[..n] + if |stack1| > n then [stack1[n].procLevel] else []
  {
    forall i | 0 <= i < n ensures stack1[i].procLevel == stack0[i].procLevel {
      assert SameButTimes(stack1[..n][i], stack0[..n][i]);
    }
  }

  lemma LevelsSame(stack0: seq<Entry>, stack1: seq<Entry>)
    requires SameStack(stack0, stack1)
    ensures Levels(stack0) == Levels(stack1)
  {
  }

  /** The entry of a traced command: a procedure's commands run one level further in. */
  ghost predicate CommandEntry(e: Entry, name: string, isProc: bool, procLevel: int, scopeLevel: int) {
    && e.name == name && e.isProc == isProc && e.evalLevel == procLevel && e.evalTime == e.scopeTime == ZERO
    && e.procLevel == procLevel + (if isProc then 1 else 0) && e.scopeLevel == scopeLevel + (if isProc then 1 else 0)
  }

  lemma SamePrefix(stack0: seq<Entry>, stack1: seq<Entry>, n: nat)
    requires SameStack(stack0, stack1) && n <= |stack0|
    ensures SameStack(stack0[..n], stack1[..n])
  {
  }

  lemma LayersSame(stack0: seq<Entry>, stack1: seq<Entry>, open: nat)
    requires LayersOk(stack0, open) && SameStack(stack0, stack1)
    ensures LayersOk(stack1, open) && stack1[|stack1| - 1].procLevel == stack0[|stack0| - 1].procLevel
  {
  }

  lemma LayersPop(stack: seq<Entry>, open: nat)
    requires LayersOk(stack, open) && |stack| > 1
    ensures LayersOk(stack[..|stack| - 1], if open > 0 then open - 1 else 0)
  {
  }

  lemma LayersPush(stack0: seq<Entry>, stack1: seq<Entry>, open: nat)
    requires LayersOk(stack0, open) && |stack1| == |stack0| + 1 && stack1[..|stack0|] == stack0
    ensures stack1[|stack0|].evalLevel != UNKNOWN_LEVEL ==> LayersOk(stack1, open + 1)
    ensures stack1[|stack0|].evalLevel == UNKNOWN_LEVEL && open == 0 ==> LayersOk(stack1, 0)
  {
    assert forall i :: 0 <= i < |stack0| ==> stack1[i] == stack0[i];
  }

  // ---------------------------------------------------------------- whole sessions

  /** The visits to the profiler: a traced command starts, or returns. */
  datatype Call =
    | Setup(name: string, isProc: bool, procLevel: int, scopeLevel: int, now: Time)
    | Finish(isProc: bool, now: Time)

  /** The procedure levels on the stack, how many of its entries belong to commands still running,
      and the clock when time was last charged. */
  datatype Outline = Outline(levels: seq<int>, open: nat, time: Time)

  /** A command is at no lower level than the commands running around it, and only a command that
      has been started returns. */
  ghost predicate CallOk(o: Outline, call: Call, commandMode: bool) {
    && o.open < |o.levels|
    && match call
       case Setup(_, _, procLevel, _, _) =>
         procLevel >= 0 && forall i :: 0 <= i < |o.levels| && |o.levels| - o.open <= i ==> o.levels[i] <= procLevel
       case Finish(isProc, _) => commandMode || isProc ==> o.open > 0
  }

  predicate Leaves(o: Outline, procLevel: int) {
    o.levels != [] && o.levels[|o.levels| - 1] > procLevel
  }

  function Visited(o: Outline, call: Call, commandMode: bool): Outline {
    var kept := commandMode || call.isProc;
    if call.Setup? then
      var n := Kept(o.levels, |o.levels|, call.procLevel);
      Outline(o.levels[..n] + (if kept then [call.procLevel + (if call.isProc then 1 else 0)] else []),
              o.open + (if kept then 1 else 0),
              if kept || Leaves(o, call.procLevel) then call.now else o.time)
    else if kept && o.open > 0 && o.levels != [] then Outline(o.levels[..|o.levels| - 1], o.open - 1, call.now)
    else o
  }

  lemma VisitedSetup(o: Outline, call: Call, commandMode: bool, o': Outline)
    requires call.Setup?
    requires o'.levels == o.levels[..Kept(o.levels, |o.levels|, call.procLevel)] +
             if commandMode || call.isProc then [call.procLevel + (if call.isProc then 1 else 0)] else []
    requires o'.open == o.open + (if commandMode || call.isProc then 1 else 0)
    requires o'.time == if commandMode || call.isProc || Leaves(o, call.procLevel) then call.now else o.time
    ensures o' == Visited(o, call, commandMode)
  {
  }

  ghost predicate CallsOk(o: Outline, calls: seq<Call>, commandMode: bool)
    decreases |calls|
  {
    calls != [] ==>
      CallOk(o, calls[0], commandMode) && CallsOk(Visited(o, calls[0], commandMode), calls[1..], commandMode)
  }

  /** The interval that a visit charges twice: it ends when a command both leaves initial entries
      and is itself entered on the stack. */
  function Twice(o: Outline, call: Call, commandMode: bool, m: Measure): int {
    if call.Setup? && (commandMode || call.isProc) && Leaves(o, call.procLevel) then call.now.Minus(o.time).In(m) else 0
  }

  function ChargedTwice(o: Outline, calls: seq<Call>, commandMode: bool, m: Measure): int
    decreases |calls|
  {
    if calls == [] then 0
    else
      Twice(o, calls[0], commandMode, m) +
      ChargedTwice(Visited(o, calls[0], commandMode), calls[1..], commandMode, m)
  }

  /** The commands entered on the stack. */
  function Entered(calls: seq<Call>, commandMode: bool): nat {
    if calls == [] then 0
    else (if calls[0].Setup? && (commandMode || calls[0].isProc) then 1 else 0) + Entered(calls[1..], commandMode)
  }

  /** <global>, and the given number of procedures that are running when profiling is turned on. */
  function Initial(frames: nat, time: Time): Outline {
    Outline(seq(1 + frames, i => i), 0, time)
  }

  /** Above <global> are only commands started since. */
  ghost predicate AtTop(o: Outline) {
    |o.levels| == 1 + o.open && o.levels[0] == 0
  }

  lemma VisitAtTop(o: Outline, call: Call, commandMode: bool)
    requires AtTop(o) && CallOk(o, call, commandMode)
    ensures AtTop(Visited(o, call, commandMode)) && forall m :: Twice(o, call, commandMode, m) == 0
  {
    if call.Setup? {
      assert o.levels[|o.levels| - 1] <= call.procLevel;
    }
  }

  /** A session turned on outside any procedure charges no time twice. */
  lemma {:induction false} NothingTwice(o: Outline, calls: seq<Call>, commandMode: bool, m: Measure)
    requires AtTop(o) && CallsOk(o, calls, commandMode)
    ensures ChargedTwice(o, calls, commandMode, m) == 0
    decreases |calls|
  {
    if calls != [] {
      VisitAtTop(o, calls[0], commandMode);
      NothingTwice(Visited(o, calls[0], commandMode), calls[1..], commandMode, m);
    }
  }

  /** A session turned on inside a procedure does, when the next procedure called is one level up. */
  lemma ChargesTwice(begin: Time, now: Time, m: Measure)
    ensures var calls := [Setup("p", true, 0, 0, now)];
            CallsOk(Initial(1, begin), calls, false) &&
            ChargedTwice(Initial(1, begin), calls, false, m) == now.Minus(begin).In(m)
  {
    var o, call := Initial(1, begin), Setup("p", true, 0, 0, now);
    assert o.levels == [0, 1];
    assert [call][1..] == [];
    assert ChargedTwice(Visited(o, call, false), [], false, m) == 0;
  }

  // ---------------------------------------------------------------- the profiler

  class ProfInfo {
    var tracing: bool              // traceHandle != NULL
    var commandMode: bool
    var evalMode: bool
    var time: Time                 // realTime, cpuTime
    var prevTime: Time
    var updatedTimes: bool
    var stack: seq<Entry>          // stackPtr is the last one
    var scopeChain: int            // scopeChainPtr
    var table: Table

    ghost var start: Time          // the clock when profiling was turned on
    ghost var extra: Time          // time charged twice
    ghost var pushes: nat
    ghost var open: nat            // entries on top of the stack whose command is still running

    /** All that is recorded or still with an entry on the stack. */
    ghost function Balance(m: Measure): int
      reads this
    {
      Total(table, m) + OnStack(stack, evalMode, m)
    }

    /** While profiling, time is conserved and pushes are accounted for. */
    ghost predicate Conserved()
      reads this
    {
      forall m :: Balance(m) == if m.Count? then pushes else time.In(m) - start.In(m) + extra.In(m)
    }

    ghost predicate Shape()
      reads this
    {
      && ChainOk(stack) && (if stack == [] then scopeChain == NULL else 0 <= scopeChain < |stack|)
    }

    ghost predicate Layers()
      reads this
    {
      LayersOk(stack, open)
    }

    ghost predicate Valid()
      reads this
    {
      Shape() && (if tracing then Conserved() && Layers() && !updatedTimes else stack == [])
    }

    constructor ()
      ensures Valid() && !tracing
    {
      tracing, commandMode, evalMode, updatedTimes := false, false, false, false;
      time, prevTime, start, extra := ZERO, ZERO, ZERO, ZERO;
      stack, scopeChain, table, pushes, open := [], NULL, map[], 0, 0;
    }

    /** PushEntry */
    method PushEntry(name: string, isProc: bool, procLevel: int, scopeLevel: int, evalLevel: int)
      requires Shape() && (stack == [] ==> procLevel == 0)
      modifies this`stack, this`scopeChain, this`pushes
      ensures Shape() && pushes == old(pushes) + 1 && scopeChain == |old(stack)|
      ensures stack == old(stack) + [Entry(name, isProc, procLevel, scopeLevel, evalLevel, ZERO, ZERO,
                                           ScopeAt(old(stack), old(scopeChain), isProc, scopeLevel))]
      ensures ScopeFound(old(stack), old(scopeChain), isProc, scopeLevel, stack[|old(stack)|].prevScope)
      ensures forall m :: Balance(m) == old(Balance(m)) + Data(1, ZERO).In(m)
    {
      var scan := ScanScope(isProc, scopeLevel);
      var e := Entry(name, isProc, procLevel, scopeLevel, evalLevel, ZERO, ZERO, scan);
      PushChain(stack, e);
      ghost var was := stack;
      stack := stack + [e];
      forall m { OnStackPush(was, e, evalMode, m); }
      scopeChain := |stack| - 1;
      pushes := pushes + 1;
    }

    /** The scan along the scope chain in PushEntry and TurnOnProfiling. It stops at <global> at the
        latest, so the panics on running off the chain cannot happen. */
    method ScanScope(isProc: bool, scopeLevel: int) returns (scan: int)
      requires Shape()
      ensures scan == ScopeAt(stack, scopeChain, isProc, scopeLevel)
      ensures ScopeFound(stack, scopeChain, isProc, scopeLevel, scan)
    {
      scan := scopeChain;
      ghost var c := [scan];
      while scan != NULL && stack[scan].procLevel > 0 &&
            ((isProc && stack[scan].scopeLevel >= scopeLevel) || (!isProc && stack[scan].scopeLevel > scopeLevel))
        invariant if stack == [] then scan == NULL else c != [] && 0 <= scan == c[|c| - 1] < |stack|
        invariant stack != [] ==> Follows(stack, scopeChain, c) && PassedBefore(stack, c, isProc, scopeLevel)
        invariant ScopeAt(stack, scan, isProc, scopeLevel) == ScopeAt(stack, scopeChain, isProc, scopeLevel)
        decreases scan
      {
        assert Linked(stack, scan);
        FollowsNext(stack, scopeChain, c, stack[scan].prevScope);
        scan := stack[scan].prevScope;
        c := c + [scan];
        assert scan != NULL;   // panics 1 and 6
      }
    }

    /** The names along the eval or scope chain, in the stackSize slots allocated for them. */
    method ChainNames(i: nat) returns (names: seq<string>)
      requires ChainOk(stack) && i < |stack|
      ensures Named(stack, i, evalMode, names)
    {
      var stackArgv := new string[|stack|];
      var idx := 0;
      var scan: int := i;
      if evalMode {
        while scan != NULL
          invariant NULL <= scan <= i && idx == i - scan
          invariant forall j :: 0 <= j < idx ==> stackArgv[j] == stack[i - j].name
        {
          stackArgv[idx] := stack[scan].name;
          idx := idx + 1;
          scan := scan - 1;
        }
      } else {
        ghost var c: seq<int> := [];
        while scan != NULL
          invariant NULL <= scan <= i && idx == |c| && idx + scan + 1 <= |stack|
          invariant idx == 0 ==> scan == i
          invariant idx > 0 ==> Follows(stack, i, c) && scan == stack[c[idx - 1]].prevScope
          invariant NamesOf(stack, c, stackArgv[..idx])
          decreases scan
        {
          ghost var taken := stackArgv[..idx];
          stackArgv[idx] := stack[scan].name;
          if idx > 0 { FollowsNext(stack, i, c, scan); }
          c := c + [scan];
          idx := idx + 1;
          assert stackArgv[..idx] == taken + [stack[scan].name];
          assert idx == 1 ==> OnChain(stack, c, 0);
          assert scan > 0 ==> Linked(stack, scan);
          scan := stack[scan].prevScope;
        }
      }
      names := stackArgv[..idx];
    }

    /** RecordData */
    method RecordData(i: nat)
      requires ChainOk(stack) && i < |stack|
      modifies this`table
      ensures Records(old(table), table, stack, i, evalMode)
      ensures forall m :: Total(table, m) == Total(old(table), m) + Data(1, Account(stack[i], evalMode)).In(m)
    {
      var key := ChainNames(i);
      forall m { TotalRecorded(table, key, Account(stack[i], evalMode), m); }
      RecordedCounts(table, key, Account(stack[i], evalMode));
      table := Recorded(table, key, Account(stack[i], evalMode));
    }

    /** PopEntry: record the top entry and remove it. */
    method PopEntry()
      requires Shape() && stack != []
      modifies this`stack, this`scopeChain, this`table
      ensures Shape() && stack == old(stack)[..|old(stack)| - 1] && scopeChain == |stack| - 1
      ensures Records(old(table), table, old(stack), |old(stack)| - 1, evalMode)
      ensures forall m :: Balance(m) == old(Balance(m))
    {
      RecordData(|stack| - 1);
      forall m { OnStackPop(stack, evalMode, m); }
      PopChain(stack);
      stack := stack[..|stack| - 1];
      scopeChain := |stack| - 1;
    }

    /** UpdateTOSTimes: charge the time since the last reading to the top of the stack and to the
        active scope; the clock is read once per visit to the profiler. */
    method UpdateTOSTimes(now: Time)
      requires Shape() && stack != []
      modifies this`time, this`prevTime, this`updatedTimes, this`stack
      ensures Shape() && updatedTimes
      ensures if old(updatedTimes) then time == old(time) && prevTime == old(prevTime)
              else time == now && prevTime == old(time)
      ensures stack == Charge(Charge(old(stack), |old(stack)| - 1, time.Minus(prevTime), true),
                              scopeChain, time.Minus(prevTime), false)
      ensures SameStack(old(stack), stack)
      ensures Charged(old(stack), stack, scopeChain, time.wall - prevTime.wall, time.cpu - prevTime.cpu)
      ensures forall m :: Balance(m) == old(Balance(m)) + time.Minus(prevTime).In(m)
    {
      if !updatedTimes {
        prevTime, time, updatedTimes := time, now, true;
      }
      var delta := time.Minus(prevTime);
      var i := |stack| - 1;
      ChargeChain(stack, i, delta, true);
      forall m { ChargeHeld(stack, i, delta, true, evalMode, m); }
      stack := Charge(stack, i, delta, true);
      ChargeChain(stack, scopeChain, delta, false);
      forall m { ChargeHeld(stack, scopeChain, delta, false, evalMode, m); }
      stack := Charge(stack, scopeChain, delta, false);
    }

    /** PopEntry, as one of several. */
    method PopNext(ghost table0: Table, ghost was: seq<Entry>)
      requires Shape() && stack != [] && |stack| <= |was| && stack == was[..|stack|]
      requires AllRecorded(table0, table, was, |stack|, evalMode)
      modifies this`stack, this`scopeChain, this`table
      ensures Shape() && stack == was[..|old(stack)| - 1] && scopeChain == |stack| - 1
      ensures AllRecorded(table0, table, was, |stack|, evalMode)
      ensures forall m :: Balance(m) == old(Balance(m))
    {
      ghost var table1, n := table, |stack|;
      PopEntry();
      OneMoreRecorded(table0, table1, table, was, n, evalMode);
    }

    /** Pop the initial entries that the program has returned out of. */
    method Unwind(procLevel: int)
      requires Shape() && Layers() && open == 0 && procLevel >= 0
      modifies this`stack, this`scopeChain, this`table
      ensures Shape() && Layers() && stack == old(stack)[..Kept(Levels(old(stack)), |old(stack)|, procLevel)]
      ensures AllRecorded(old(table), table, old(stack), |stack|, evalMode)
      ensures forall m :: Balance(m) == old(Balance(m))
    {
      ghost var was, table0 := stack, table;
      NoneRecorded(table0, was, evalMode);
      while stack[|stack| - 1].procLevel > procLevel
        invariant Shape() && Layers() && |stack| <= |was| && stack == was[..|stack|]
        invariant Kept(Levels(was), |stack|, procLevel) == Kept(Levels(was), |was|, procLevel)
        invariant AllRecorded(table0, table, was, |stack|, evalMode)
        invariant forall m :: Balance(m) == old(Balance(m))
        decreases |stack|
      {
        assert |stack| > 1;
        KeptBelow(was, |stack|, procLevel);
        assert stack[|stack| - 1].evalLevel == UNKNOWN_LEVEL;   // panic 2
        LayersPop(stack, 0);
        PopNext(table0, was);
      }
    }

    /** A traced command starts: its level is that of the innermost evaluation, so it is no lower
        than that of any traced command still running. */
    ghost predicate Nested(procLevel: int)
      reads this
    {
      procLevel >= 0 && forall i :: 0 <= i < |stack| && |stack| - open <= i ==> stack[i].procLevel <= procLevel
    }

    /** UpdateTOSTimes during a session. */
    method UpdateStack(now: Time)
      requires Shape() && Layers()
      modifies this`time, this`prevTime, this`updatedTimes, this`stack
      ensures Shape() && Layers() && updatedTimes
      ensures if old(updatedTimes) then time == old(time) && prevTime == old(prevTime)
              else time == now && prevTime == old(time)
      ensures Charged(old(stack), stack, scopeChain, time.wall - prevTime.wall, time.cpu - prevTime.cpu)
      ensures SameStack(old(stack), stack) && Levels(stack) == Levels(old(stack))
      ensures forall m :: Balance(m) == old(Balance(m)) + time.Minus(prevTime).In(m)
    {
      ghost var was := stack;
      UpdateTOSTimes(now);
      LayersSame(was, stack, open);
      LevelsSame(was, stack);
    }

    /** The half of ProfCommandEvalSetup that leaves initial entries. */
    method SetupUnwind(procLevel: int, now: Time)
      requires Shape() && Layers() && !updatedTimes && Nested(procLevel)
      requires stack[|stack| - 1].procLevel > procLevel
      modifies this`stack, this`scopeChain, this`table, this`time, this`prevTime, this`updatedTimes
      ensures Shape() && Layers() && updatedTimes && time == now && prevTime == old(time) && open == 0
      ensures |stack| == Kept(Levels(old(stack)), |old(stack)|, procLevel) && SameStack(old(stack)[..|stack|], stack)
      ensures LeftBehind(old(table), table, old(stack), old(scopeChain), now.Minus(old(time)), |stack|, evalMode)
      ensures forall m :: Balance(m) == old(Balance(m)) + time.Minus(prevTime).In(m)
    {
      assert open == 0;
      ghost var was, table0, scope, delta := stack, table, scopeChain, now.Minus(time);
      UpdateStack(now);
      ghost var charged := stack;
      Unwind(procLevel);
      SamePrefix(was, charged, |stack|);
      LeftBehindBy(table0, table, was, charged, scope, delta, |stack|, evalMode);
    }

    method SetupLeave(procLevel: int, now: Time)
      requires Shape() && Layers() && !updatedTimes && Nested(procLevel)
      modifies this`stack, this`scopeChain, this`table, this`time, this`prevTime, this`updatedTimes
      ensures Shape() && Layers() && updatedTimes == (old(stack[|stack| - 1].procLevel) > procLevel)
      ensures if updatedTimes then time == now && prevTime == old(time) else time == old(time)
      ensures |stack| == Kept(Levels(old(stack)), |old(stack)|, procLevel) && SameStack(old(stack)[..|stack|], stack)
      ensures if updatedTimes
              then LeftBehind(old(table), table, old(stack), old(scopeChain), now.Minus(old(time)), |stack|, evalMode)
              else stack == old(stack) && table == old(table)
      ensures forall m :: Balance(m) == old(Balance(m)) + time.Minus(old(time)).In(m)
    {
      if stack[|stack| - 1].procLevel > procLevel {
        SetupUnwind(procLevel, now);
      } else {
        assert Levels(stack)[|stack| - 1] == stack[|stack| - 1].procLevel;
      }
    }

    /** The half of ProfCommandEvalSetup that pushes the command. */
    method SetupPush(name: string, isProc: bool, procLevel: int, scopeLevel: int, now: Time)
      requires Shape() && Layers() && procLevel >= 0
      modifies this`stack, this`scopeChain, this`pushes, this`time, this`prevTime, this`updatedTimes, this`open
      ensures Shape() && Layers() && updatedTimes
      ensures if old(updatedTimes) then time == old(time) && prevTime == old(prevTime)
              else time == now && prevTime == old(time)
      ensures open == old(open) + 1 && pushes == old(pushes) + 1
      ensures |stack| == |old(stack)| + 1 && SameStack(old(stack), stack[..|old(stack)|])
      ensures CommandEntry(stack[|old(stack)|], name, isProc, procLevel, scopeLevel)
      ensures Charged(old(stack), stack[..|old(stack)|], old(scopeChain), time.wall - prevTime.wall,
                      time.cpu - prevTime.cpu)
      ensures ScopeFound(stack[..|old(stack)|], old(scopeChain), isProc, scopeLevel + (if isProc then 1 else 0),
                         stack[|old(stack)|].prevScope)
      ensures scopeChain == |stack| - 1
      ensures forall m :: Balance(m) == old(Balance(m)) + Data(1, time.Minus(prevTime)).In(m)
    {
      UpdateStack(now);
      ghost var was := stack;
      PushCommand(name, isProc, procLevel, scopeLevel);
      assert stack[..|was|] == was;
    }

    method PushCommand(name: string, isProc: bool, procLevel: int, scopeLevel: int)
      requires Shape() && Layers() && procLevel >= 0
      modifies this`stack, this`scopeChain, this`pushes, this`open
      ensures Shape() && Layers() && open == old(open) + 1 && pushes == old(pushes) + 1 && scopeChain == |stack| - 1
      ensures |stack| == |old(stack)| + 1 && stack[..|old(stack)|] == old(stack)
      ensures CommandEntry(stack[|old(stack)|], name, isProc, procLevel, scopeLevel)
      ensures ScopeFound(old(stack), old(scopeChain), isProc, scopeLevel + (if isProc then 1 else 0),
                         stack[|old(stack)|].prevScope)
      ensures forall m :: Balance(m) == old(Balance(m)) + Data(1, ZERO).In(m)
    {
      ghost var was := stack;
      if isProc {
        PushEntry(name, true, procLevel + 1, scopeLevel + 1, procLevel);
      } else {
        PushEntry(name, false, procLevel, scopeLevel, procLevel);
      }
      assert stack[..|was|] == was;
      LayersPush(was, stack, open);
      open := open + 1;
    }

    /** Both halves, of which either may have nothing to do. */
    method SetupHalves(name: string, isProc: bool, procLevel: int, scopeLevel: int, now: Time)
      requires Shape() && Layers() && !updatedTimes && Nested(procLevel)
      modifies this`stack, this`scopeChain, this`table, this`pushes, this`time, this`prevTime
      modifies this`updatedTimes, this`open
      ensures Shape() && Layers()
      ensures var unwinds, pushed := old(stack[|stack| - 1].procLevel) > procLevel, commandMode || isProc;
              && time == (if unwinds || pushed then now else old(time))
              && pushes == old(pushes) + (if pushed then 1 else 0) && open == old(open) + (if pushed then 1 else 0)
              && forall m :: Balance(m) == old(Balance(m)) + (if pushed && m.Count? then 1 else 0) +
                                           time.Minus(old(time)).In(m) +
                                           (if unwinds && pushed then now.Minus(old(time)).In(m) else 0)
      ensures var n := Kept(Levels(old(stack)), |old(stack)|, procLevel);
              && |stack| == n + (if commandMode || isProc then 1 else 0) && SameStack(old(stack)[..n], stack[..n])
              && (commandMode || isProc ==> CommandEntry(stack[n], name, isProc, procLevel, scopeLevel))
              && if old(stack[|stack| - 1].procLevel) > procLevel
                 then LeftBehind(old(table), table, old(stack), old(scopeChain), now.Minus(old(time)), n, evalMode)
                 else table == old(table)
    {
      SetupLeave(procLevel, now);
      if commandMode || isProc {
        SetupPush(name, isProc, procLevel, scopeLevel, now);
      }
    }

    /** ProfCommandEvalSetup. The interval since the last visit is charged twice exactly when the
        same visit both unwinds initial entries and pushes. */
    method CommandEvalSetup(name: string, isProc: bool, procLevel: int, scopeLevel: int, now: Time)
      requires Valid() && tracing && Nested(procLevel)
      modifies this`stack, this`scopeChain, this`table, this`pushes, this`time, this`prevTime
      modifies this`updatedTimes, this`extra, this`open
      ensures Valid()
      ensures var unwinds, pushed := old(stack[|stack| - 1].procLevel) > procLevel, commandMode || isProc;
              && extra == old(extra).Plus(if unwinds && pushed then now.Minus(old(time)) else ZERO)
              && time == (if unwinds || pushed then now else old(time))
              && pushes == old(pushes) + (if pushed then 1 else 0) && open == old(open) + (if pushed then 1 else 0)
      ensures var n := Kept(Levels(old(stack)), |old(stack)|, procLevel);
              && |stack| == n + (if commandMode || isProc then 1 else 0) && SameStack(old(stack)[..n], stack[..n])
              && (commandMode || isProc ==> CommandEntry(stack[n], name, isProc, procLevel, scopeLevel))
              && if old(stack[|stack| - 1].procLevel) > procLevel
                 then LeftBehind(old(table), table, old(stack), old(scopeChain), now.Minus(old(time)), n, evalMode)
                 else table == old(table)
    {
      ghost var again, was := stack[|stack| - 1].procLevel > procLevel && (commandMode || isProc), time;
      SetupHalves(name, isProc, procLevel, scopeLevel, now);
      if again { extra := extra.Plus(now.Minus(was)); }
      updatedTimes := false;
    }

    /** The half of ProfCommandEvalFinishup that records the command and pops it. */
    method FinishPop(now: Time)
      requires Shape() && Layers() && Conserved() && open > 0 && !updatedTimes
      modifies this`stack, this`scopeChain, this`table, this`time, this`prevTime, this`updatedTimes, this`open
      ensures Shape() && Layers() && Conserved() && open == old(open) - 1 && time == now
      ensures TopRecorded(old(table), table, old(stack), stack, old(scopeChain), now.Minus(old(time)), evalMode)
      ensures |stack| == |old(stack)| - 1 && SameStack(old(stack)[..|stack|], stack)
    {
      UpdateAndPop(now);
      open := open - 1;
    }

    method UpdateAndPop(now: Time)
      requires Shape() && Layers() && open > 0 && !updatedTimes
      modifies this`stack, this`scopeChain, this`table, this`time, this`prevTime, this`updatedTimes
      ensures Shape() && LayersOk(stack, open - 1) && time == now
      ensures TopRecorded(old(table), table, old(stack), stack, old(scopeChain), now.Minus(old(time)), evalMode)
      ensures |stack| == |old(stack)| - 1 && SameStack(old(stack)[..|stack|], stack)
      ensures forall m :: Balance(m) == old(Balance(m)) + now.Minus(old(time)).In(m)
    {
      ghost var was, table0, scope, delta := stack, table, scopeChain, now.Minus(time);
      UpdateStack(now);
      LayersPop(stack, open);
      ghost var charged := stack;
      PopEntry();
      SamePrefix(was, charged, |stack|);
      TopRecordedBy(table0, table, was, charged, scope, delta, evalMode);
    }

    /** ProfCommandEvalFinishup of a command that is still on the stack; profiling may have been
        turned off meanwhile. */
    method CommandEvalFinishup(isProc: bool, now: Time)
      requires Valid() && (tracing && (commandMode || isProc) ==> open > 0)
      modifies this`stack, this`scopeChain, this`table, this`time, this`prevTime, this`updatedTimes, this`open
      ensures Valid()
      ensures tracing && (commandMode || isProc) ==>
                && open == old(open) - 1 && time == now
                && |stack| == |old(stack)| - 1 && SameStack(old(stack)[..|stack|], stack)
                && TopRecorded(old(table), table, old(stack), stack, old(scopeChain), now.Minus(old(time)), evalMode)
      ensures !(tracing && (commandMode || isProc)) ==>
                stack == old(stack) && table == old(table) && open == old(open) && time == old(time)
    {
      if tracing {
        if commandMode || isProc {
          FinishPop(now);
        }
      }
      updatedTimes := false;
    }

    /** InitializeProcStack: the call frames, innermost first, pushed from the outermost on. */
    method InitializeProcStack(frames: seq<(string, int)>)
      requires Shape() && Layers() && open == 0 && scopeChain == |stack| - 1
      modifies this`stack, this`scopeChain, this`pushes
      ensures Shape() && Layers() && scopeChain == |stack| - 1
      ensures |stack| == |old(stack)| + |frames| && stack[..|old(stack)|] == old(stack)
      ensures InitialEntries(stack, |old(stack)|, frames) && pushes == old(pushes) + |frames|
      ensures forall m :: Balance(m) == old(Balance(m)) + if m.Count? then |frames| else 0
    {
      if frames != [] {
        InitializeProcStack(frames[1..]);
        ghost var n, was := |old(stack)|, stack;
        PushEntry(frames[0].0, true, stack[|stack| - 1].procLevel + 1, frames[0].1, UNKNOWN_LEVEL);
        LayersPush(was, stack, 0);
        assert stack[..n] == was[..n];
        InitialPush(was, n, frames, stack[|stack| - 1]);
      }
    }

    /** The start of the session in TurnOnProfiling. */
    method StartStack(frames: seq<(string, int)>, scopeLevel: int)
      requires Shape() && stack == [] && table == map[] && open == 0 && pushes == 0
      modifies this`stack, this`scopeChain, this`pushes
      ensures Shape() && Layers() && |stack| == 1 + |frames| == pushes
      ensures stack[0].name == "<global>" && stack[0].isProc && stack[0].scopeLevel == 0 && stack[0].evalLevel == 0
      ensures InitialEntries(stack, 1, frames)
      ensures ScopeFound(stack, |frames|, true, scopeLevel, scopeChain)
      ensures forall m :: Balance(m) == if m.Count? then pushes else 0
    {
      assert forall m :: Balance(m) == 0;
      PushEntry("<global>", true, 0, 0, 0);
      ghost var was := stack;
      InitializeProcStack(frames);
      assert stack[0] == was[0];
      scopeChain := ScanScope(true, scopeLevel);
    }

    /** An empty data table and the modes asked for. */
    method Reset(commandMode: bool, evalMode: bool)
      modifies this`table, this`tracing, this`commandMode, this`evalMode, this`time, this`prevTime
      modifies this`updatedTimes, this`pushes, this`open, this`extra
      ensures table == map[] && tracing && this.commandMode == commandMode && this.evalMode == evalMode
      ensures !updatedTimes && pushes == open == 0 && extra == ZERO
    {
      table := map[];
      tracing, this.commandMode, this.evalMode := true, commandMode, evalMode;
      time, prevTime, updatedTimes := ZERO, ZERO, false;
      pushes, open, extra := 0, 0, ZERO;
    }

    /** TurnOnProfiling, when the procedures in frames, innermost first, are running and the current
        variable scope is at scopeLevel. */
    method TurnOnProfiling(commandMode: bool, evalMode: bool, frames: seq<(string, int)>, scopeLevel: int, now: Time)
      requires Valid() && !tracing
      modifies this
      ensures Valid() && tracing && this.commandMode == commandMode && this.evalMode == evalMode
      ensures start == now == time && extra == ZERO && pushes == 1 + |frames| == |stack| && open == 0 && table == map[]
      ensures stack[0].name == "<global>" && InitialEntries(stack, 1, frames)
      ensures ScopeFound(stack, |frames|, true, scopeLevel, scopeChain)
    {
      Reset(commandMode, evalMode);
      StartStack(frames, scopeLevel);
      time := now;
      start := now;
    }

    /** DeleteProfTrace: everything still on the stack is recorded as if it had returned. The times
        recorded over the whole session add up to its length and the intervals charged twice, and
        the counts to the entries pushed. */
    method DeleteProfTrace(now: Time)
      requires Valid() && tracing
      modifies this`tracing, this`stack, this`scopeChain, this`table, this`time, this`prevTime
      modifies this`updatedTimes, this`open
      ensures Valid() && !tracing && stack == []
      ensures LeftBehind(old(table), table, old(stack), old(scopeChain), now.Minus(old(time)), 0, evalMode)
      ensures Total(table, Count) == pushes
      ensures Total(table, Real) == now.wall - start.wall + extra.wall
      ensures Total(table, Cpu) == now.cpu - start.cpu + extra.cpu
    {
      tracing := false;
      PopRest(now);
      open := 0;
    }

    method PopRest(now: Time)
      requires Shape() && stack != [] && !updatedTimes
      modifies this`stack, this`scopeChain, this`table, this`time, this`prevTime, this`updatedTimes
      ensures Shape() && stack == []
      ensures LeftBehind(old(table), table, old(stack), old(scopeChain), now.Minus(old(time)), 0, evalMode)
      ensures forall m :: Total(table, m) == old(Balance(m)) + now.Minus(old(time)).In(m)
    {
      ghost var was, table0, scope, delta := stack, table, scopeChain, now.Minus(time);
      UpdateTOSTimes(now);
      ghost var charged := stack;
      PopAll();
      LeftBehindBy(table0, table, was, charged, scope, delta, 0, evalMode);
      assert forall m :: Balance(m) == Total(table, m);
    }

    method PopAll()
      requires Shape()
      modifies this`stack, this`scopeChain, this`table
      ensures Shape() && stack == [] && forall m :: Balance(m) == old(Balance(m))
      ensures AllRecorded(old(table), table, old(stack), 0, evalMode)
    {
      ghost var was, table0 := stack, table;
      NoneRecorded(table0, was, evalMode);
      while stack != []
        invariant Shape() && forall m :: Balance(m) == old(Balance(m))
        invariant |stack| <= |was| && stack == was[..|stack|] && AllRecorded(table0, table, was, |stack|, evalMode)
        decreases |stack|
      {
        PopNext(table0, was);
      }
    }

    ghost function View(): Outline
      reads this
    {
      Outline(Levels(stack), open, time)
    }

    /** One visit. */
    method Visit(call: Call)
      requires Valid() && tracing && CallOk(View(), call, commandMode)
      modifies this`stack, this`scopeChain, this`table, this`pushes, this`time, this`prevTime
      modifies this`updatedTimes, this`extra, this`open
      ensures Valid() && View() == Visited(old(View()), call, commandMode)
      ensures pushes == old(pushes) + Entered([call], commandMode)
      ensures forall m :: extra.In(m) == old(extra).In(m) + Twice(old(View()), call, commandMode, m)
    {
      if call.Setup? {
        VisitSetup(call);
      } else {
        VisitFinish(call);
      }
    }

    method VisitSetup(call: Call)
      requires Valid() && tracing && CallOk(View(), call, commandMode) && call.Setup?
      modifies this`stack, this`scopeChain, this`table, this`pushes, this`time, this`prevTime
      modifies this`updatedTimes, this`extra, this`open
      ensures Valid() && View() == Visited(old(View()), call, commandMode)
      ensures pushes == old(pushes) + Entered([call], commandMode)
      ensures forall m :: extra.In(m) == old(extra).In(m) + Twice(old(View()), call, commandMode, m)
    {
      ghost var o := View();
      NestedIff(call.procLevel);
      assert Entered([call], commandMode) == if commandMode || call.isProc then 1 else 0;
      SetupLevels(call);
      VisitedSetup(o, call, commandMode, View());
    }

    lemma NestedIff(procLevel: int)
      requires open < |stack| && procLevel >= 0
      ensures Nested(procLevel) <==>
              forall i :: 0 <= i < |stack| && |stack| - open <= i ==> Levels(stack)[i] <= procLevel
      ensures Leaves(View(), procLevel) <==> stack[|stack| - 1].procLevel > procLevel
    {
      assert forall i :: 0 <= i < |stack| ==> Levels(stack)[i] == stack[i].procLevel;
    }

    method SetupLevels(call: Call)
      requires Valid() && tracing && call.Setup? && Nested(call.procLevel)
      modifies this`stack, this`scopeChain, this`table, this`pushes, this`time, this`prevTime
      modifies this`updatedTimes, this`extra, this`open
      ensures Valid()
      ensures Levels(stack) == Levels(old(stack))[..Kept(Levels(old(stack)), |old(stack)|, call.procLevel)] +
              if commandMode || call.isProc then [call.procLevel + (if call.isProc then 1 else 0)] else []
      ensures var unwinds, pushed := old(stack[|stack| - 1].procLevel) > call.procLevel, commandMode || call.isProc;
              && extra == old(extra).Plus(if unwinds && pushed then call.now.Minus(old(time)) else ZERO)
              && time == (if unwinds || pushed then call.now else old(time))
              && pushes == old(pushes) + (if pushed then 1 else 0) && open == old(open) + (if pushed then 1 else 0)
    {
      ghost var was, n := stack, Kept(Levels(stack), |stack|, call.procLevel);
      CommandEvalSetup(call.name, call.isProc, call.procLevel, call.scopeLevel, call.now);
      LevelsPush(was, stack, n);
    }

    method VisitFinish(call: Call)
      requires Valid() && tracing && CallOk(View(), call, commandMode) && call.Finish?
      modifies this`stack, this`scopeChain, this`table, this`time, this`prevTime, this`updatedTimes, this`open
      ensures Valid() && View() == Visited(old(View()), call, commandMode) && Entered([call], commandMode) == 0
    {
      ghost var was := stack;
      CommandEvalFinishup(call.isProc, call.now);
      if commandMode || call.isProc {
        assert stack[..|stack|] == stack;
        LevelsPush(was, stack, |stack|);
      }
    }

    method Visits(calls: seq<Call>)
      requires Valid() && tracing && CallsOk(View(), calls, commandMode)
      modifies this`stack, this`scopeChain, this`table, this`pushes, this`time, this`prevTime
      modifies this`updatedTimes, this`extra, this`open
      ensures Valid() && pushes == old(pushes) + Entered(calls, commandMode)
      ensures forall m :: extra.In(m) == old(extra).In(m) + ChargedTwice(old(View()), calls, commandMode, m)
    {
      for i := 0 to |calls|
        invariant Valid() && CallsOk(View(), calls[i..], commandMode)
        invariant pushes + Entered(calls[i..], commandMode) == old(pushes) + Entered(calls, commandMode)
        invariant forall m :: extra.In(m) + ChargedTwice(View(), calls[i..], commandMode, m) ==
                              old(extra).In(m) + ChargedTwice(old(View()), calls, commandMode, m)
      {
        assert calls[i..][0] == calls[i] && calls[i..][1..] == calls[i + 1..];
        Visit(calls[i]);
      }
    }

    method Begin(commandMode: bool, evalMode: bool, frames: seq<(string, int)>, scopeLevel: int, begin: Time)
      requires Valid() && !tracing
      modifies this
      ensures Valid() && tracing && this.commandMode == commandMode && this.evalMode == evalMode
      ensures start == begin && extra == ZERO && pushes == 1 + |frames| && View() == Initial(|frames|, begin)
    {
      TurnOnProfiling(commandMode, evalMode, frames, scopeLevel, begin);
      assert View() == Initial(|frames|, begin);
    }

    /** A whole session. Whatever commands run, the counts recorded add up to the entries pushed,
        and the times to the length of the session and the intervals charged twice. */
    method Session(commandMode: bool, evalMode: bool, frames: seq<(string, int)>, scopeLevel: int,
                   begin: Time, calls: seq<Call>, end: Time)
      requires Valid() && !tracing && CallsOk(Initial(|frames|, begin), calls, commandMode)
      modifies this
      ensures Valid() && !tracing && stack == []
      ensures Total(table, Count) == 1 + |frames| + Entered(calls, commandMode)
      ensures Total(table, Real) ==
              end.wall - begin.wall + ChargedTwice(Initial(|frames|, begin), calls, commandMode, Real)
      ensures Total(table, Cpu) ==
              end.cpu - begin.cpu + ChargedTwice(Initial(|frames|, begin), calls, commandMode, Cpu)
    {
      Begin(commandMode, evalMode, frames, scopeLevel, begin);
      Visits(calls);
      DeleteProfTrace(end);
    }
  }
}
