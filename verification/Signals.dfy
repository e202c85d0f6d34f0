/**
  Signal delivery: SignalTrap counts signals and marks the async handler at any moment, while
  ProcessSignals, once it is invoked, works the counts off. Every statement that touches the shared
  variables is a step of its own.
*/
module Signals {
  /** Where ProcessSignals is. Marking is just before its Tcl_AsyncMark; the others name the signal
      they are about. */
  datatype Phase =
    | Idle
    | Scan(n: nat)       // the first for loop
    | Process(n: nat)    // the test for trap code in ProcessASignal
    | Reset(n: nat)      // no trap code: about to clear the count
    | Check(n: nat)      // the while condition
    | Take(n: nat)       // about to decrement
    | Eval(n: nat)       // in EvalTrapCode
    | Recheck(n: nat)    // the second for loop
    | Marking

  /** received, evals and dropped say what has become of the signals in arrived; unmarked is the
      number of SignalTrap activations that have counted their signal and not yet marked. The
      handler exists while interps, the number of registered interpreters, is positive; created
      says that asyncHandler is not NULL, epoch how often the handler was created, and stale that it
      has been marked after it was deleted. */
  datatype State = State(received: seq<nat>, mark: bool, trapped: set<nat>, unmarked: nat, phase: Phase,
                         arrived: seq<nat>, evals: seq<nat>, dropped: seq<nat>,
                         interps: nat, created: bool, epoch: nat, stale: bool)

  datatype Step =
    | Count(n: nat)              // SignalTrap: signalsReceived[n]++
    | SetMark                    // SignalTrap: Tcl_AsyncMark
    | SetTrap(n: nat, on: bool)  // a script sets or removes trap code
    | Register                   // TclX_SignalInit, for one more interpreter
    | Unregister                 // SignalCmdCleanUp, when an interpreter is deleted
    | Invoke(current: bool)      // the handler is called, its mark cleared; interp may be NULL
    | Go(error: bool)            // the next statement of ProcessSignals, and how an evaluation ended

  ghost predicate Real(s: State, n: nat) {
    1 <= n < |s.received|
  }

  // ---------------------------------------------------------------- the steps

  function Add(s: seq<nat>, n: nat, d: nat): seq<nat>
    requires n < |s|
  {
    s[n := s[n] + d]
  }

  function Zeros(n: nat): (z: seq<nat>)
    ensures |z| == n && forall k :: 0 <= k < n ==> z[k] == 0
  {
    seq(n, _ => 0)
  }

  function Sum(s: seq<nat>, t: seq<nat>): (r: seq<nat>)
    requires |s| == |t|
    ensures |r| == |s| && forall k :: 0 <= k < |r| ==> r[k] == s[k] + t[k]
  {
    seq(|s|, k requires 0 <= k < |s| => s[k] + t[k])
  }

  ghost predicate Shaped(s: State) {
    && |s.received| == |s.arrived| == |s.evals| == |s.dropped| >= 1
    && match s.phase
       case Idle => true
       case Marking => true
       case Scan(n) => 1 <= n <= |s.received|
       case Recheck(n) => 1 <= n <= |s.received|
       case Process(n) => Real(s, n)
       case Reset(n) => Real(s, n) && n !in s.trapped
       case Check(n) => Real(s, n)
       case Take(n) => Real(s, n) && s.received[n] > 0
       case Eval(n) => Real(s, n)
  }

  /** Whether the step can be taken. Before the handler was first created SignalTrap returns at
      once. Scripts run when ProcessSignals does not, or as trap code. */
  ghost predicate Enabled(s: State, step: Step) {
    match step
    case Count(n) => Real(s, n) && s.created
    case SetMark => s.unmarked > 0
    case SetTrap(n, on) => Scripts(s) && s.interps > 0
    case Register => Scripts(s)
    case Unregister => Scripts(s) && s.interps > 0
    case Invoke(_) => s.phase.Idle? && s.mark
    case Go(_) => !s.phase.Idle?
  }

  ghost predicate Scripts(s: State) {
    s.phase.Idle? || s.phase.Eval?
  }

  /** Tcl_AsyncMark. The last interpreter to go deletes the handler but leaves asyncHandler set, so
      the mark may reach a handler that is gone; what that does is not modelled. */
  function Marked(s: State): State {
    s.(mark := s.interps > 0, stale := s.stale || s.interps == 0)
  }

  /** The next statement of ProcessASignal. */
  ghost function Processing(s: State, error: bool): State
    requires Shaped(s) && (s.phase.Process? || s.phase.Reset? || s.phase.Check? || s.phase.Take? || s.phase.Eval?)
  {
    match s.phase
    case Process(n) => s.(phase := if n in s.trapped then Check(n) else Reset(n))
    case Reset(n) =>
      s.(received := s.received[n := 0], dropped := Add(s.dropped, n, s.received[n]),
         phase := if error then Recheck(1) else Scan(n + 1))
    case Check(n) => s.(phase := if s.received[n] > 0 then Take(n) else Scan(n + 1))
    case Take(n) => s.(received := s.received[n := s.received[n] - 1], evals := Add(s.evals, n, 1), phase := Eval(n))
    case Eval(n) => s.(phase := if error then Recheck(1) else Check(n))
  }

  /** The next statement of ProcessSignals or ProcessASignal. */
  ghost function Going(s: State, error: bool): (t: State)
    requires Shaped(s) && !s.phase.Idle?
    ensures Shaped(t)
  {
    if s.phase.Scan? then
      var n := s.phase.n;
      s.(phase := if n == |s.received| then Recheck(1) else if s.received[n] == 0 then Scan(n + 1) else Process(n))
    else if s.phase.Recheck? then
      var n := s.phase.n;
      s.(phase := if n == |s.received| then Idle else if s.received[n] != 0 then Marking else Recheck(n + 1))
    else if s.phase.Marking? then Marked(s).(phase := Idle)
    else Processing(s, error)
  }

  /** The first interpreter finds the counts and traps cleared and a new handler; the last one takes
      the handler with it. */
  ghost function Next(s: State, step: Step): (t: State)
    requires Shaped(s) && Enabled(s, step)
    ensures Shaped(t)
  {
    match step
    case Count(n) =>
      s.(received := Add(s.received, n, 1), arrived := Add(s.arrived, n, 1), unmarked := s.unmarked + 1)
    case SetMark => Marked(s).(unmarked := s.unmarked - 1)
    case SetTrap(n, on) => s.(trapped := if on then s.trapped + {n} else s.trapped - {n})
    case Register =>
      if s.interps > 0 then s.(interps := s.interps + 1)
      else s.(received := Zeros(|s.received|), dropped := Sum(s.dropped, s.received), trapped := {},
              mark := false, interps := 1, created := true, epoch := s.epoch + 1)
    case Unregister =>
      if s.interps > 1 then s.(interps := s.interps - 1) else s.(interps := 0, mark := false, trapped := {})
    case Invoke(current) =>
      if !current && s.interps == 0 then s.(mark := false) else s.(mark := false, phase := Scan(1))
    case Go(error) => Going(s, error)
  }

  // ---------------------------------------------------------------- what every step keeps

  /** The handler is marked, or is about to be by a SignalTrap that is under way. */
  ghost predicate Alerted(s: State) {
    s.mark || s.unmarked > 0
  }

  ghost predicate Pending(s: State, n: nat) {
    Real(s, n) && s.received[n] > 0
  }

  /** Every signal has been evaluated, or is pending, or was dropped for want of trap code or by
      creating the handler anew. */
  ghost predicate Conserved(s: State)
    requires Shaped(s)
  {
    forall k :: 0 <= k < |s.received| ==> s.arrived[k] == s.evals[k] + s.received[k] + s.dropped[k]
  }

  /** No wakeup is lost as long as there is a handler: outside it anything pending alerts it, and
      inside, anything pending that the recheck has already passed. */
  ghost predicate Woken(s: State) {
    match s.phase
    case Idle => forall k: nat :: Pending(s, k) && s.interps > 0 ==> Alerted(s)
    case Recheck(n) => forall k: nat :: k < n && Pending(s, k) && s.interps > 0 ==> Alerted(s)
    case _ => true
  }

  ghost predicate Inv(s: State) {
    && Shaped(s) && Conserved(s) && Woken(s) && (s.mark ==> s.interps > 0)
    && (s.interps > 0 || s.unmarked > 0 || !s.phase.Idle? ==> s.created)
  }

  lemma {:induction false} GoingKeeps(s: State, error: bool)
    requires Inv(s) && !s.phase.Idle?
    ensures Inv(Going(s, error))
  {
    GoingConserves(s, error);
    GoingWakes(s, error);
  }

  lemma {:induction false} GoingConserves(s: State, error: bool)
    requires Shaped(s) && Conserved(s) && !s.phase.Idle?
    ensures Conserved(Going(s, error))
  {
    var t := Going(s, error);
    if s.phase.Take? || s.phase.Reset? {
      forall k | 0 <= k < |t.received| ensures t.arrived[k] == t.evals[k] + t.received[k] + t.dropped[k] {
        assert s.arrived[k] == s.evals[k] + s.received[k] + s.dropped[k];
      }
    }
  }

  lemma {:induction false} GoingWakes(s: State, error: bool)
    requires Shaped(s) && Woken(s) && !s.phase.Idle?
    ensures Woken(Going(s, error))
  {
    var t := Going(s, error);
    if s.phase.Recheck? && !t.phase.Marking? {
      forall k: nat | k < s.phase.n + 1 && Pending(t, k) && t.interps > 0 ensures Alerted(t) {
        assert Pending(s, k);
      }
    }
  }

  lemma {:induction false} StepKeeps(s: State, step: Step)
    requires Inv(s) && Enabled(s, step)
    ensures Inv(Next(s, step))
  {
    var t := Next(s, step);
    if step.Go? {
      GoingKeeps(s, step.error);
    } else if t.phase.Idle? && !step.Count? && !step.SetMark? {
      forall k: nat | Pending(t, k) && t.interps > 0 ensures Alerted(t) {
        assert Pending(s, k);
      }
    }
  }

  // ---------------------------------------------------------------- runs

  ghost predicate CanRun(s: State, steps: seq<Step>)
    requires Shaped(s)
    decreases |steps|
  {
    steps == [] || (Enabled(s, steps[0]) && CanRun(Next(s, steps[0]), steps[1..]))
  }

  ghost function Run(s: State, steps: seq<Step>): (t: State)
    requires Shaped(s) && CanRun(s, steps)
    ensures Shaped(t)
    decreases |steps|
  {
    if steps == [] then s else Run(Next(s, steps[0]), steps[1..])
  }

  /** The program starts: no interpreter and no handler. */
  ghost predicate Initial(s: State) {
    && |s.received| == |s.arrived| == |s.evals| == |s.dropped| >= 1
    && s.phase.Idle? && !s.mark && s.unmarked == 0 && s.trapped == {} && s.interps == 0 && !s.created && !s.stale
    && forall k :: 0 <= k < |s.received| ==> s.received[k] == s.arrived[k] == s.evals[k] == s.dropped[k] == 0
  }

  lemma {:induction false} RunKeeps(s: State, steps: seq<Step>)
    requires Inv(s) && CanRun(s, steps)
    ensures Inv(Run(s, steps))
    decreases |steps|
  {
    if steps != [] {
      StepKeeps(s, steps[0]);
      RunKeeps(Next(s, steps[0]), steps[1..]);
    }
  }

  /** However SignalTrap, ProcessSignals, scripts and interpreters come and go, and also when trap
      code fails and stops the scan: as long as there is a handler, a signal that is still counted
      when it is not running has it marked, once the SignalTrap that counted it is over. */
  lemma {:induction false} NoLostWakeup(s: State, steps: seq<Step>, k: nat)
    requires Initial(s) && CanRun(s, steps)
    ensures var t := Run(s, steps);
            && (t.phase.Idle? && t.unmarked == 0 && t.interps > 0 && Pending(t, k) ==> t.mark)
            && |t.received| == |t.arrived| == |t.evals| == |t.dropped|
            && (k < |t.received| ==> t.arrived[k] == t.evals[k] + t.received[k] + t.dropped[k])
  {
    RunKeeps(s, steps);
  }

  /** ProcessSignals is only ever invoked while an interpreter is registered, so its return for want
      of one is never taken. */
  lemma {:induction false} InvokedWithInterp(s: State, steps: seq<Step>, current: bool)
    requires Initial(s) && CanRun(s, steps) && Enabled(Run(s, steps), Invoke(current))
    ensures var t := Run(s, steps);
            t.interps > 0 && Shaped(t) && Next(t, Invoke(current)).phase == Scan(1)
  {
    RunKeeps(s, steps);
  }

  ghost predicate AlwaysTrapped(s: State, steps: seq<Step>, k: nat)
    requires Shaped(s) && CanRun(s, steps)
    decreases |steps|
  {
    k in s.trapped && (steps == [] || AlwaysTrapped(Next(s, steps[0]), steps[1..], k))
  }

  /** A signal whose trap code stays in place is never dropped: each arrival is evaluated or still
      pending. */
  lemma {:induction false} TrappedAllEvaluated(s: State, steps: seq<Step>, k: nat)
    requires Inv(s) && CanRun(s, steps) && AlwaysTrapped(s, steps, k) && k < |s.received|
    ensures var t := Run(s, steps);
            && |t.received| == |s.received| == |t.arrived| == |t.evals| == |t.dropped|
            && t.dropped[k] == s.dropped[k]
            && t.arrived[k] + s.evals[k] + s.received[k] == s.arrived[k] + t.evals[k] + t.received[k]
    decreases |steps|
  {
    if steps != [] {
      StepKeeps(s, steps[0]);
      var t := Next(s, steps[0]);
      assert k in t.trapped && t.dropped[k] == s.dropped[k];
      TrappedAllEvaluated(t, steps[1..], k);
    }
  }

  // ---------------------------------------------------------------- trap code that removes itself

  /** The loop of ProcessASignal has trap code to evaluate. */
  ghost predicate HasCode(s: State) {
    s.phase.Check? || s.phase.Take? || s.phase.Eval? ==> s.phase.n in s.trapped
  }

  /** The step does not take away the trap of the code that runs, be it by itself or with the last
      interpreter. */
  ghost predicate Spares(s: State, step: Step) {
    s.phase.Eval? ==>
      step != SetTrap(s.phase.n, false) && !(step.Unregister? && s.interps == 1) && !(step.Register? && s.interps == 0)
  }

  lemma {:induction false} CarefulStep(s: State, step: Step)
    requires Inv(s) && HasCode(s) && Enabled(s, step) && Spares(s, step)
    ensures HasCode(Next(s, step))
  {
  }

  /** No trap code takes its own trap away. */
  ghost predicate Careful(s: State, steps: seq<Step>)
    requires Shaped(s) && CanRun(s, steps)
    decreases |steps|
  {
    steps == [] || (Spares(s, steps[0]) && Careful(Next(s, steps[0]), steps[1..]))
  }

  /** Then EvalTrapCode always has code to evaluate. */
  lemma {:induction false} CarefulHasCode(s: State, steps: seq<Step>)
    requires Inv(s) && HasCode(s) && CanRun(s, steps) && Careful(s, steps)
    ensures HasCode(Run(s, steps))
    decreases |steps|
  {
    if steps != [] {
      StepKeeps(s, steps[0]);
      CarefulStep(s, steps[0]);
      CarefulHasCode(Next(s, steps[0]), steps[1..]);
    }
  }

  ghost predicate FromTraps(steps: seq<Step>) {
    forall step <- steps :: step.Count? || step.SetMark?
  }

  /** Only SignalTraps run. */
  lemma {:induction false} TrapsRun(s: State, steps: seq<Step>, n: nat)
    requires Inv(s) && CanRun(s, steps) && FromTraps(steps) && Real(s, n)
    ensures var t := Run(s, steps);
            && Real(t, n) && t.phase == s.phase && t.trapped == s.trapped
            && (t.received[n] > 0 <==> s.received[n] > 0 || Count(n) in steps)
    decreases |steps|
  {
    if steps != [] {
      StepKeeps(s, steps[0]);
      TrapsRun(Next(s, steps[0]), steps[1..], n);
      assert steps == [steps[0]] + steps[1..];
    }
  }

  lemma {:induction false} FirstStep(s: State, step: Step, rest: seq<Step>)
    requires Inv(s)
    ensures CanRun(s, [step] + rest) <==> Enabled(s, step) && CanRun(Next(s, step), rest)
    ensures CanRun(s, [step] + rest) ==> Run(s, [step] + rest) == Run(Next(s, step), rest)
  {
    assert ([step] + rest)[1..] == rest;
    if Enabled(s, step) { StepKeeps(s, step); }
  }

  lemma {:induction false} RunSplit(s: State, a: seq<Step>, b: seq<Step>)
    requires Inv(s)
    ensures CanRun(s, a + b) <==> CanRun(s, a) && CanRun(Run(s, a), b)
    ensures CanRun(s, a + b) ==> Run(s, a + b) == Run(Run(s, a), b)
    decreases |a|
  {
    if a == [] {
      assert a + b == b;
    } else {
      assert (a + b)[1..] == a[1..] + b;
      if Enabled(s, a[0]) {
        StepKeeps(s, a[0]);
        RunSplit(Next(s, a[0]), a[1..], b);
      }
    }
  }

  /** When trap code ends, ProcessASignal goes on to evaluate code that is not there exactly when the
      trap has been removed and the signal is still counted, or counted again, at the next test. */
  lemma {:induction false} EntersWithoutCodeIff(s: State, n: nat, before: seq<Step>, after: seq<Step>, error: bool)
    requires Inv(s) && s.phase == Eval(n) && FromTraps(before) && FromTraps(after)
    requires CanRun(s, [Go(false)] + (before + ([Go(error)] + after)))
    ensures var t := Run(s, [Go(false)] + (before + ([Go(error)] + after)));
            t.phase == Take(n) && !HasCode(t) <==> n !in s.trapped && (s.received[n] > 0 || Count(n) in before)
  {
    var s1 := Next(s, Go(false));
    StepKeeps(s, Go(false));
    FirstStep(s, Go(false), before + ([Go(error)] + after));
    RunSplit(s1, before, [Go(error)] + after);
    TrapsRun(s1, before, n);
    RunKeeps(s1, before);
    var s2 := Run(s1, before);
    FirstStep(s2, Go(error), after);
    StepKeeps(s2, Go(error));
    TrapsRun(Next(s2, Go(error)), after, n);
  }

  /** From s some run leads to t. */
  ghost predicate Leads(s: State, t: State)
    requires Shaped(s)
  {
    exists steps :: CanRun(s, steps) && Run(s, steps) == t
  }

  lemma {:induction false} LeadsOn(s: State, t: State, step: Step)
    requires Inv(s) && Leads(s, t) && Enabled(t, step)
    ensures Shaped(t) && Leads(s, Next(t, step))
  {
    var steps :| CanRun(s, steps) && Run(s, steps) == t;
    RunKeeps(s, steps);
    RunSplit(s, steps, [step]);
    assert CanRun(t, [step]) && Run(t, [step]) == Next(t, step) by { FirstStep(t, step, []); }
  }

  lemma {:induction false} LeadsSelf(s: State)
    requires Shaped(s)
    ensures Leads(s, s)
  {
    assert CanRun(s, []) && Run(s, []) == s;
  }

  lemma {:induction false} LeadsTwo(s: State, t: State, a: Step, b: Step)
    requires Inv(s) && Leads(s, t) && Shaped(t) && Enabled(t, a) && Enabled(Next(t, a), b)
    ensures Leads(s, Next(Next(t, a), b))
  {
    LeadsOn(s, t, a);
    LeadsOn(s, Next(t, a), b);
  }

  /** The first interpreter sets a trap, the signal arrives twice, and the handler is invoked. */
  lemma {:induction false} TwoArrivals(s: State) returns (t: State)
    requires Initial(s) && |s.received| == 2
    ensures Leads(s, t) && t.phase == Scan(1) && t.received == [0, 2] && 1 in t.trapped && t.interps > 0
  {
    LeadsSelf(s);
    LeadsTwo(s, s, Register, SetTrap(1, true));
    t := Next(Next(s, Register), SetTrap(1, true));
    LeadsTwo(s, t, Count(1), Count(1));
    t := Next(Next(t, Count(1)), Count(1));
    LeadsTwo(s, t, SetMark, Invoke(true));
    t := Next(Next(t, SetMark), Invoke(true));
  }

  /** The trap code runs for the first arrival. */
  lemma {:induction false} FirstEval(s: State) returns (t: State)
    requires Initial(s) && |s.received| == 2
    ensures Leads(s, t) && t.phase == Eval(1) && t.received == [0, 1] && t.interps > 0
  {
    t := TwoArrivals(s);
    LeadsOn(s, t, Go(false));
    t := Going(t, false);
    GoOn(s, t, Check(1));
    t := Going(t, false);
    GoOn(s, t, Take(1));
    t := Going(t, false);
    GoOn(s, t, Eval(1));
    t := Going(t, false);
  }

  lemma {:induction false} GoOn(s: State, t: State, phase: Phase)
    requires Inv(s) && Leads(s, t) && Shaped(t) && !t.phase.Idle? && Going(t, false).phase == phase
    ensures Leads(s, Going(t, false))
  {
    LeadsOn(s, t, Go(false));
    assert Next(t, Go(false)) == Going(t, false);
  }

  /** A run that does enter missing code: the trap code that runs for the first of two arrivals
      removes its own trap. */
  lemma {:induction false} RemovesOwnTrap(s: State)
    requires Initial(s) && |s.received| == 2
    ensures exists t :: Leads(s, t) && t.phase == Take(1) && !HasCode(t)
  {
    var t := FirstEval(s);
    LeadsOn(s, t, SetTrap(1, false));
    t := Next(t, SetTrap(1, false));
    LeadsOn(s, t, Go(false));
    t := Next(t, Go(false));
    LeadsOn(s, t, Go(false));
    t := Next(t, Go(false));
  }

  // ---------------------------------------------------------------- marks on a handler that is gone

  ghost predicate Marks(s: State, step: Step) {
    step.SetMark? || (step.Go? && s.phase.Marking?)
  }

  /** A mark reaches a handler that is gone exactly when asyncHandler is set and no interpreter is
      registered. */
  lemma {:induction false} MarksGoneIff(s: State, step: Step)
    requires Inv(s) && Enabled(s, step)
    ensures Next(s, step).stale <==> s.stale || (Marks(s, step) && s.created && s.interps == 0)
  {
  }

  /** While SignalTraps run, at whatever point: one of them does so exactly when one marks and no
      interpreter is registered. */
  lemma {:induction false} TrapMarksGoneIff(s: State, steps: seq<Step>)
    requires Inv(s) && CanRun(s, steps) && FromTraps(steps)
    ensures Run(s, steps).stale <==> s.stale || (s.created && s.interps == 0 && SetMark in steps)
    decreases |steps|
  {
    if steps != [] {
      MarksGoneIff(s, steps[0]);
      StepKeeps(s, steps[0]);
      TrapMarksGoneIff(Next(s, steps[0]), steps[1..]);
      assert steps == [steps[0]] + steps[1..];
    }
  }

  /** The last interpreter is never deleted. */
  ghost predicate KeepsInterp(s: State, steps: seq<Step>)
    requires Shaped(s) && CanRun(s, steps)
    decreases |steps|
  {
    steps == [] || (!(steps[0].Unregister? && s.interps == 1) && KeepsInterp(Next(s, steps[0]), steps[1..]))
  }

  /** Then, over every run, only a handler that exists is marked. */
  lemma {:induction false} MarksHandler(s: State, steps: seq<Step>)
    requires Inv(s) && CanRun(s, steps) && KeepsInterp(s, steps) && (s.created ==> s.interps > 0)
    ensures Run(s, steps).stale == s.stale
    decreases |steps|
  {
    if steps != [] {
      MarksGoneIff(s, steps[0]);
      StepKeeps(s, steps[0]);
      MarksHandler(Next(s, steps[0]), steps[1..]);
    }
  }

  /** A run in which it is not so: a signal that arrives after the only interpreter was deleted. */
  lemma {:induction false} MarksGone(s: State)
    requires Initial(s) && |s.received| == 2
    ensures exists t :: Leads(s, t) && t.stale
  {
    LeadsSelf(s);
    LeadsTwo(s, s, Register, Unregister);
    var t := Next(Next(s, Register), Unregister);
    LeadsTwo(s, t, Count(1), SetMark);
    t := Next(Next(t, Count(1)), SetMark);
  }

  // ---------------------------------------------------------------- the code

  /** In ran each signal occurs as often as evals says. */
  ghost predicate AllRun(ran: seq<nat>, evals: seq<nat>) {
    forall k :: 0 <= k < |evals| ==> multiset(ran)[k] == evals[k]
  }

  lemma {:induction false} RunOnce(ran: seq<nat>, evals: seq<nat>, n: nat)
    requires AllRun(ran, evals) && n < |evals|
    ensures AllRun(ran + [n], Add(evals, n, 1))
  {
  }

  /** What an interruption by SignalTrap leaves alone: it only adds signals. */
  ghost predicate Interrupted(s: State, t: State) {
    && t.phase == s.phase && t.trapped == s.trapped && t.evals == s.evals && t.dropped == s.dropped
    && t.interps == s.interps && t.created == s.created && t.epoch == s.epoch
    && t.unmarked == s.unmarked && (s.mark ==> t.mark) && |t.received| == |s.received|
    && (s.stale ==> t.stale) && (t.stale && !s.stale ==> s.created && s.interps == 0)
    && forall k :: 0 <= k < |s.received| ==> t.received[k] >= s.received[k]
  }

  /** What running trap code leaves alone. */
  ghost predicate Evaluated(s: State, t: State) {
    && t.phase == s.phase && t.evals == s.evals && t.unmarked == s.unmarked && |t.received| == |s.received|
    && s.epoch <= t.epoch && (t.epoch == s.epoch ==> t.dropped == s.dropped)
  }

  /** From s to t no signal was counted: the counts are the same unless the handler was created
      anew. */
  ghost predicate Quiet(s: State, t: State) {
    && |t.received| == |s.received| && s.epoch <= t.epoch && (t.epoch == s.epoch ==> t.received == s.received)
    && forall k :: 0 <= k < |s.received| ==> t.received[k] <= s.received[k]
  }

  /** What one evaluation for n amounts to. */
  ghost predicate Turned(n: nat, s: State, t: State) {
    && n < |s.evals| && t.evals == Add(s.evals, n, 1) && t.unmarked == s.unmarked && |t.received| == |s.received|
    && s.epoch <= t.epoch && (t.epoch == s.epoch ==> t.dropped == s.dropped)
  }

  lemma {:induction false} TurnedBy(n: nat, s: State, taken: State, more: State, done: State, error: bool)
    requires Shaped(s) && s.phase == Take(n) && taken == Going(s, false)
    requires Interrupted(taken, more) && Shaped(done) && Evaluated(more, done)
    ensures done.phase == Eval(n) && Turned(n, s, Going(done, error))
    ensures more == taken && Quiet(more, done) ==> NotMore(Less(s.received, n), Going(done, error).received)
  {
  }

  ghost predicate NotMore(s: seq<nat>, t: seq<nat>) {
    |t| == |s| && forall k :: 0 <= k < |s| ==> t[k] <= s[k]
  }

  /** The shared variables as the code changes them, with the signals still to come, in their order
      but at any moment; the ghost state takes the machine's steps beside them. */
  class Delivery {
    var received: seq<nat>         // signalsReceived
    var mark: bool                 // asyncHandler is marked
    var trapped: set<nat>          // signals with signalTrapCmds
    var numInterps: nat
    var created: bool              // asyncHandler != NULL
    var future: seq<nat>
    var ran: seq<nat>              // the trap code evaluated so far, by signal

    ghost var s: State
    ghost var missing: bool        // EvalTrapCode was entered without trap code

    ghost predicate Valid()
      reads this
    {
      && Inv(s) && s.received == received && s.mark == mark && s.trapped == trapped
      && s.interps == numInterps && s.created == created
      && forall k :: 0 <= k < |future| ==> 1 <= future[k] < |received|
    }

    /** Every signal that was taken off the counts has had its trap code evaluated, once. */
    ghost predicate Evaluations()
      reads this
    {
      AllRun(ran, s.evals)
    }

    /** The static variables at the start of the program. */
    constructor (maxSig: nat, future: seq<nat>)
      requires maxSig >= 1 && forall k :: 0 <= k < |future| ==> 1 <= future[k] < maxSig
      ensures Valid() && Initial(s) && Evaluations() && |received| == maxSig && this.future == future && !missing
    {
      var zeros := Zeros(maxSig);
      received, mark, trapped, this.future, ran := zeros, false, {}, future, [];
      numInterps, created, missing := 0, false, false;
      s := State(zeros, false, {}, 0, Idle, zeros, zeros, zeros, 0, false, 0, false);
    }

    /** TclX_SignalInit */
    method SignalInit()
      requires Valid() && Scripts(s)
      modifies this`received, this`mark, this`trapped, this`numInterps, this`created, this`s
      ensures Valid() && s == Next(old(s), Register) && numInterps == old(numInterps) + 1
      ensures old(numInterps) == 0 ==> forall k :: 0 <= k < |received| ==> received[k] == 0
    {
      StepKeeps(s, Register);
      if numInterps == 0 {
        received, trapped := Zeros(|received|), {};
        created, mark := true, false;
      }
      numInterps := numInterps + 1;
      s := Next(s, Register);
    }

    /** SignalCmdCleanUp: the last interpreter takes the handler with it. */
    method SignalCmdCleanUp()
      requires Valid() && Scripts(s) && numInterps > 0
      modifies this`mark, this`trapped, this`numInterps, this`s
      ensures Valid() && s == Next(old(s), Unregister) && numInterps == old(numInterps) - 1
      ensures numInterps == 0 ==> !mark && trapped == {}
    {
      StepKeeps(s, Unregister);
      numInterps := numInterps - 1;
      if numInterps == 0 {
        mark := false;             // Tcl_AsyncDelete
        trapped := {};
      }
      s := Next(s, Unregister);
    }

    /** SignalTrap, which other signals may interrupt in turn. */
    method SignalTrap(n: nat)
      requires Valid() && 1 <= n < |received|
      modifies this`received, this`mark, this`future, this`s
      ensures Valid() && Interrupted(old(s), s) && |future| <= |old(future)|
      ensures created ==> received[n] > old(received)[n] && (numInterps > 0 ==> mark)
      ensures s.stale <==> old(s).stale || (created && numInterps == 0)
      decreases |future|, 1
    {
      if !created { return; }
      StepKeeps(s, Count(n));
      received := received[n := received[n] + 1];
      s := Next(s, Count(n));
      Interrupt();
      StepKeeps(s, SetMark);
      mark := numInterps > 0;
      s := Next(s, SetMark);
    }

    /** Between two statements some of the signals to come may arrive. */
    method Interrupt()
      requires Valid()
      modifies this`received, this`mark, this`future, this`s
      ensures Valid() && Interrupted(old(s), s) && |future| <= |old(future)|
      ensures |future| == |old(future)| ==> future == old(future) && s == old(s)
      decreases |future|, 0
    {
      var more: bool := *;
      if more && future != [] {
        var n := future[0];
        future := future[1..];
        SignalTrap(n);
        Interrupt();
      }
    }

    /** One thing that a script may do to the signals. */
    method ScriptAction()
      requires Valid() && s.phase.Eval?
      modifies this`received, this`mark, this`trapped, this`numInterps, this`created, this`s
      ensures Valid() && Evaluated(old(s), s) && Quiet(old(s), s)
    {
      var register, unregister, on: bool := *, *, *;
      var k: nat :| k >= 0;
      if register {
        SignalInit();
      } else if numInterps > 0 && unregister {
        SignalCmdCleanUp();
      } else if numInterps > 0 {
        StepKeeps(s, SetTrap(k, on));
        trapped := if on then trapped + {k} else trapped - {k};
        s := Next(s, SetTrap(k, on));
      }
    }

    /** EvalTrapCode: a script runs, and may set and remove traps, its own included. Entering it
        without trap code is noted; what the code then evaluates may be anything. */
    method EvalTrapCode(n: nat) returns (error: bool)
      requires Valid() && s.phase == Eval(n)
      modifies this
      ensures Valid() && Evaluated(old(s), s) && |future| <= |old(future)|
      ensures |future| == |old(future)| ==> future == old(future) && Quiet(old(s), s)
      ensures ran == old(ran) + [n] && missing == (old(missing) || n !in old(trapped))
    {
      missing := missing || n !in trapped;
      ran := ran + [n];
      RunScript();
      error := *;
    }

    method RunScript()
      requires Valid() && s.phase.Eval?
      modifies this`received, this`mark, this`trapped, this`numInterps, this`created, this`future, this`s
      ensures Valid() && Evaluated(old(s), s) && |future| <= |old(future)|
      ensures |future| == |old(future)| ==> future == old(future) && Quiet(old(s), s)
    {
      var changes: nat :| changes >= 0;
      for i := 0 to changes
        invariant Valid() && Evaluated(old(s), s) && |future| <= |old(future)|
        invariant |future| == |old(future)| ==> future == old(future) && Quiet(old(s), s)
      {
        ScriptAction();
        Interrupt();
      }
    }

    /** A statement that only tests something. */
    ghost method Go(error: bool)
      requires Valid() && !s.phase.Idle?
      requires Going(s, error).received == s.received && Going(s, error).mark == s.mark
      modifies this`s
      ensures Valid() && s == Going(old(s), error)
    {
      GoingKeeps(s, error);
      s := Going(s, error);
    }

    /** ProcessASignal. Without interruption nothing of the signal is left pending, unless its trap
        code fails; and with trap code nothing is dropped, unless the handler is created anew. */
    method ProcessASignal(n: nat) returns (error: bool)
      requires Valid() && s.phase == Process(n) && Evaluations()
      modifies this
      ensures Evaluations() && old(ran) <= ran
      ensures Valid() && s.phase == (if error then Recheck(1) else Scan(n + 1)) && s.unmarked == old(s).unmarked
      ensures |received| == |old(received)| && |future| <= |old(future)|
      ensures old(future) == [] && !error ==> received[n] == 0
      ensures old(future) == [] ==> NotMore(old(received), received)
      ensures n in old(trapped) && s.epoch == old(s).epoch ==> s.dropped == old(s).dropped
    {
      error := false;
      var hasTrap := n in trapped;
      Go(false);
      Interrupt();
      if hasTrap {
        error := EvalAll(n);
      } else {
        error := DropAll(n);
      }
    }

    /** No trap code: the count is cleared, and the outcome is the error result or what the
        application's handler returns. */
    method DropAll(n: nat) returns (error: bool)
      requires Valid() && s.phase == Reset(n)
      modifies this`received, this`s
      ensures Valid() && s == Going(old(s), error) && received == old(received)[n := 0]
    {
      error := *;
      GoingKeeps(s, error);
      received := received[n := 0];
      s := Going(s, error);
    }

    /** The while loop of ProcessASignal. */
    method EvalAll(n: nat) returns (error: bool)
      requires Valid() && s.phase == Check(n) && Evaluations()
      modifies this
      ensures Valid() && Evaluations() && old(ran) <= ran
      ensures s.phase == (if error then Recheck(1) else Scan(n + 1)) && s.unmarked == old(s).unmarked
      ensures |received| == |old(received)| && |future| <= |old(future)|
      ensures old(future) == [] ==> NotMore(old(received), received) && (!error ==> received[n] == 0)
      ensures old(s).epoch <= s.epoch && (s.epoch == old(s).epoch ==> s.dropped == old(s).dropped)
    {
      error := false;
      var more := true;
      while more && !error
        invariant Valid() && Evaluations() && old(ran) <= ran
        invariant s.phase == if error then Recheck(1) else if more then Check(n) else Scan(n + 1)
        invariant s.unmarked == old(s).unmarked && |received| == |old(received)| && |future| <= |old(future)|
        invariant old(s).epoch <= s.epoch && (s.epoch == old(s).epoch ==> s.dropped == old(s).dropped)
        invariant old(future) == [] ==> NotMore(old(received), received) && (!more ==> received[n] == 0)
        decreases |future|, received[n], more
      {
        more, error := EvalOnce(n);
      }
    }

    /** One turn of that loop: the trap code runs once for each arrival, and is missing exactly when
        its trap has been removed while the signal is still counted. */
    method EvalOnce(n: nat) returns (some: bool, error: bool)
      requires Valid() && s.phase == Check(n) && Evaluations()
      modifies this
      ensures Valid() && Evaluations() && ran == if some then old(ran) + [n] else old(ran)
      ensures missing == (old(missing) || (old(received)[n] > 0 && n !in old(trapped)))
      ensures some == (old(received)[n] > 0) && (error ==> some)
      ensures s.phase == if error then Recheck(1) else if some then Check(n) else Scan(n + 1)
      ensures s.unmarked == old(s).unmarked && |received| == |old(received)| && |future| <= |old(future)|
      ensures old(s).epoch <= s.epoch && (s.epoch == old(s).epoch ==> s.dropped == old(s).dropped)
      ensures |future| == |old(future)| ==>
                future == old(future) && NotMore(if some then Less(old(received), n) else old(received), received)
    {
      error := false;
      some := received[n] > 0;
      Go(false);
      if some {
        Interrupt();
        error := TakeOne(n);
      }
    }

    /** The body of that loop. */
    method TakeOne(n: nat) returns (error: bool)
      requires Valid() && s.phase == Take(n) && Evaluations()
      modifies this
      ensures Valid() && Evaluations() && ran == old(ran) + [n] && missing == (old(missing) || n !in old(trapped))
      ensures s.phase == (if error then Recheck(1) else Check(n)) && Turned(n, old(s), s) && |future| <= |old(future)|
      ensures |future| == |old(future)| ==> future == old(future) && NotMore(Less(old(received), n), received)
    {
      ghost var s0 := s;
      RunOnce(ran, s.evals, n);
      TakeOff(n);
      error := EvalTaken(n, s0);
    }

    /** The evaluation of an arrival that has been taken off. */
    method EvalTaken(n: nat, ghost s0: State) returns (error: bool)
      requires Valid() && Shaped(s0) && s0.phase == Take(n) && s == Going(s0, false)
      modifies this
      ensures Valid() && ran == old(ran) + [n] && missing == (old(missing) || n !in old(trapped))
      ensures s.phase == (if error then Recheck(1) else Check(n)) && Turned(n, s0, s) && |future| <= |old(future)|
      ensures |future| == |old(future)| ==> future == old(future) && NotMore(old(received), received)
    {
      ghost var taken := s;
      Interrupt();
      ghost var more := s;
      error := EvalTrapCode(n);
      TurnedBy(n, s0, taken, more, s, error);
      Go(error);
    }

    /** One arrival is taken off the count. */
    method TakeOff(n: nat)
      requires Valid() && s.phase == Take(n)
      modifies this`received, this`s
      ensures Valid() && s == Going(old(s), false)
    {
      GoingKeeps(s, false);
      received := Less(received, n);
      s := Going(s, false);
    }

    /** The first loop of ProcessSignals. */
    method ScanSignals() returns (error: bool)
      requires Valid() && s.phase == Scan(1) && Evaluations()
      modifies this
      ensures Evaluations() && old(ran) <= ran
      ensures Valid() && s.phase == Recheck(1) && s.unmarked == old(s).unmarked
      ensures |received| == |old(received)| && |future| <= |old(future)|
      ensures old(future) == [] && !error ==> forall k :: 1 <= k < |received| ==> received[k] == 0
    {
      error := false;
      var signalNum := 1;
      while signalNum < |received|
        invariant Valid() && 1 <= signalNum <= |received| && s.phase == Scan(signalNum)
        invariant Evaluations() && old(ran) <= ran
        invariant s.unmarked == old(s).unmarked && |received| == |old(received)| && |future| <= |old(future)|
        invariant old(future) == [] ==> forall k :: 1 <= k < signalNum ==> received[k] == 0
        decreases |received| - signalNum
      {
        error := ScanOne(signalNum);
        if error { return; }
        signalNum := signalNum + 1;
      }
      Go(false);
    }

    /** Its body. */
    method ScanOne(n: nat) returns (error: bool)
      requires Valid() && n < |received| && s.phase == Scan(n) && Evaluations()
      modifies this
      ensures Valid() && Evaluations() && old(ran) <= ran
      ensures s.phase == (if error then Recheck(1) else Scan(n + 1)) && s.unmarked == old(s).unmarked
      ensures |received| == |old(received)| && |future| <= |old(future)|
      ensures old(future) == [] ==> NotMore(old(received), received) && (!error ==> received[n] == 0)
    {
      error := false;
      var none := received[n] == 0;
      Go(false);
      Interrupt();
      if !none {
        error := ProcessASignal(n);
      }
    }

    /** The second loop: whether any signal is still counted when it is looked at. */
    method AnyReceived() returns (found: bool)
      requires Valid() && s.phase == Recheck(1)
      modifies this`received, this`mark, this`future, this`s
      ensures Valid() && s.phase == (if found then Marking else Idle) && s.unmarked == old(s).unmarked
      ensures s.evals == old(s).evals && s.interps == old(s).interps
      ensures |received| == |old(received)| && (old(future) == [] ==> received == old(received))
      ensures s.stale && !old(s).stale ==> numInterps == 0
      ensures old(future) == [] ==>
                s.stale == old(s).stale && (found <==> exists k :: 1 <= k < |received| && received[k] > 0)
    {
      var signalNum := 1;
      while signalNum < |received|
        invariant Valid() && 1 <= signalNum <= |received| && s.phase == Recheck(signalNum)
        invariant s.evals == old(s).evals && s.interps == old(s).interps
        invariant s.unmarked == old(s).unmarked && |received| == |old(received)| && |future| <= |old(future)|
        invariant old(future) == [] ==> received == old(received) && s.stale == old(s).stale
        invariant old(future) == [] ==> forall k :: 1 <= k < signalNum ==> received[k] == 0
        invariant s.stale && !old(s).stale ==> numInterps == 0
      {
        found := LookAt(signalNum);
        if found { return; }
        signalNum := signalNum + 1;
      }
      found := false;
      Go(false);
    }

    /** Its body. */
    method LookAt(n: nat) returns (found: bool)
      requires Valid() && n < |received| && s.phase == Recheck(n)
      modifies this`received, this`mark, this`future, this`s
      ensures Valid() && found == (old(received)[n] != 0) && |received| == |old(received)|
      ensures s.phase == (if found then Marking else Recheck(n + 1)) && s.unmarked == old(s).unmarked
      ensures s.evals == old(s).evals && s.interps == old(s).interps && |future| <= |old(future)|
      ensures s.stale && !old(s).stale ==> numInterps == 0
      ensures old(future) == [] ==> received == old(received) && s.stale == old(s).stale
    {
      found := received[n] != 0;
      Go(false);
      Interrupt();
    }

    /** ProcessSignals, called when the handler is marked. Whenever it returns, a signal that is
        still counted has the handler, if there is one, marked again; and with no more signals to
        come and no error, none is. */
    method ProcessSignals(current: bool) returns (error: bool)
      requires Valid() && s.phase.Idle? && mark && s.unmarked == 0 && Evaluations()
      modifies this
      ensures Evaluations() && old(ran) <= ran
      ensures Valid() && s.phase.Idle? && s.unmarked == 0 && |received| == |old(received)|
      ensures numInterps > 0 ==> forall k :: 1 <= k < |received| && received[k] > 0 ==> mark
      ensures old(future) == [] && !error ==> forall k :: 1 <= k < |received| ==> received[k] == 0
    {
      StepKeeps(s, Invoke(current));
      mark := false;                       // Tcl clears the mark before the call
      assert numInterps > 0;               // so it does not return for want of an interpreter
      s := Next(s, Invoke(current));
      error := ScanSignals();
      Rearm();
    }

    /** Its end: mark the handler again when a signal is still counted. */
    method Rearm()
      requires Valid() && s.phase == Recheck(1) && s.unmarked == 0
      modifies this`received, this`mark, this`future, this`s
      ensures Valid() && s.phase.Idle? && s.unmarked == 0 && s.evals == old(s).evals
      ensures |received| == |old(received)| && (old(future) == [] ==> received == old(received))
      ensures numInterps > 0 ==> forall k :: 1 <= k < |received| && received[k] > 0 ==> mark
      ensures s.stale && !old(s).stale ==> numInterps == 0
      ensures old(future) == [] ==>
                (s.stale <==> old(s).stale || (numInterps == 0 && exists k :: 1 <= k < |received| && received[k] > 0))
    {
      var found := AnyReceived();
      if found {
        GoingKeeps(s, false);
        mark := numInterps > 0;
        s := Going(s, false);
      }
      assert forall k: nat :: Pending(s, k) <==> 1 <= k < |received| && received[k] > 0;
    }
  }

  /** One signal off the counts. */
  function Less(s: seq<nat>, n: nat): seq<nat>
    requires n < |s| && s[n] > 0
  {
    s[n := s[n] - 1]
  }
}
