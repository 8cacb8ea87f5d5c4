/** The event of a thread: a counter, one waiter and any number of wakers, one
    atomic step at a time. */
module Event {
  /** Where the waiter is: outside, between its decrement and FUTEX_WAIT, asleep, or
      between a timeout and the compare-and-swap that follows. */
  datatype Waiter = Idle | Entering(timed: bool) | Sleeping(timed: bool) | TimedOut

  /** `pending` wakers are between their increment and FUTEX_WAKE. The other numbers
      are a history: calls made, counter resets, waits that returned 0 and -1. */
  datatype State = State(counter: int, waiter: Waiter, pending: nat,
                         sets: nat, waits: nat, resets: nat, taken: nat, lapsed: nat)

  const INIT := State(0, Idle, 0, 0, 0, 0, 0, 0)

  datatype Step = Wait(timed: bool) | FutexWait | Interrupt | Timeout | Reset | Set | FutexWake

  predicate Enabled(s: State, step: Step) {
    match step
    case Wait(_) => s.waiter.Idle?
    case FutexWait => s.waiter.Entering?
    case Interrupt => s.waiter.Sleeping?
    case Timeout => s.waiter.Sleeping? && s.waiter.timed
    case Reset => s.waiter.TimedOut?
    case Set => true
    case FutexWake => s.pending > 0
  }

  /** The waiter returns 0. */
  function Return(s: State): State { s.(waiter := Idle, taken := s.taken + 1) }

  function Next(s: State, step: Step): State
    requires Enabled(s, step)
  {
    match step
    case Wait(timed) =>
      var d := s.(counter := s.counter - 1, waits := s.waits + 1);
      if s.counter == 0 then d.(waiter := Entering(timed)) else Return(d)
    case FutexWait => if s.counter == -1 then s.(waiter := Sleeping(s.waiter.timed)) else Return(s)
    case Interrupt => Return(s)
    case Timeout => s.(waiter := TimedOut)
    case Reset =>
      var d := s.(waiter := Idle, lapsed := s.lapsed + 1);
      if s.counter == -1 then d.(counter := 0, resets := s.resets + 1) else d
    case Set =>
      s.(counter := s.counter + 1, sets := s.sets + 1, pending := if s.counter != 0 then s.pending + 1 else s.pending)
    case FutexWake =>
      var d := s.(pending := s.pending - 1);
      if s.waiter.Sleeping? then Return(d) else d
  }

  // ----- runs

  predicate Legal(s: State, steps: seq<Step>)
    decreases |steps|
  {
    steps == [] || (Enabled(s, steps[0]) && Legal(Next(s, steps[0]), steps[1..]))
  }

  function Run(s: State, steps: seq<Step>): State
    requires Legal(s, steps)
    decreases |steps|
  {
    if steps == [] then s else Run(Next(s, steps[0]), steps[1..])
  }

  // ----- what every run keeps

  /** One for a wait that has not returned. */
  function Waiting(s: State): nat { if s.waiter.Idle? then 0 else 1 }

  /** A sleeping waiter has nothing to take, or a wake on its way. */
  predicate NoLostWakeup(s: State) {
    s.waiter.Sleeping? ==> s.counter == -1 || s.pending > 0
  }

  predicate Counted(s: State) {
    && s.counter == s.sets - s.waits + s.resets
    && s.waits == s.taken + s.lapsed + Waiting(s)
    && s.resets <= s.lapsed
  }

  lemma StepKeeps(s: State, step: Step)
    requires NoLostWakeup(s) && Counted(s) && Enabled(s, step)
    ensures NoLostWakeup(Next(s, step)) && Counted(Next(s, step))
  {}

  lemma {:induction false} RunKeeps(s: State, steps: seq<Step>)
    requires NoLostWakeup(s) && Counted(s) && Legal(s, steps)
    ensures NoLostWakeup(Run(s, steps)) && Counted(Run(s, steps))
    decreases |steps|
  {
    if steps != [] {
      StepKeeps(s, steps[0]);
      RunKeeps(Next(s, steps[0]), steps[1..]);
    }
  }

  /** In every run from the start: no wakeup is lost, the counter is sets minus waits
      plus resets, and a waiter that sleeps with no wake on its way leaves no set
      untaken. */
  lemma EveryRun(steps: seq<Step>)
    requires Legal(INIT, steps)
    ensures var s := Run(INIT, steps);
      && NoLostWakeup(s) && s.counter == s.sets - s.waits + s.resets
      && (s.waiter.Sleeping? && s.pending == 0 ==> s.sets == s.taken + (s.lapsed - s.resets))
      && (s.waiter.Sleeping? && s.sets > s.taken + (s.lapsed - s.resets) ==>
            Enabled(s, FutexWake) && Next(s, FutexWake).waiter.Idle?)
  {
    hide Legal, Run;
    RunKeeps(INIT, steps);
  }

  // ----- timeouts

  /** Not in a wait with a timeout. */
  predicate Untimed(w: Waiter) { w.Idle? || ((w.Entering? || w.Sleeping?) && !w.timed) }

  lemma {:induction false} UntimedRun(s: State, steps: seq<Step>)
    requires Untimed(s.waiter) && Legal(s, steps) && forall i :: 0 <= i < |steps| ==> !steps[i].Wait?
    ensures Untimed(Run(s, steps).waiter) && Run(s, steps).lapsed == s.lapsed
    decreases |steps|
  {
    if steps != [] {
      UntimedStep(s, steps[0]);
      UntimedRun(Next(s, steps[0]), steps[1..]);
    }
  }

  lemma UntimedStep(s: State, step: Step)
    requires Untimed(s.waiter) && Enabled(s, step) && !step.Wait?
    ensures Untimed(Next(s, step).waiter) && Next(s, step).lapsed == s.lapsed
  {}

  /** A wait without a timeout does not return -1, whatever happens up to the next wait. */
  lemma UntimedNeverLapses(s: State, steps: seq<Step>)
    requires Enabled(s, Wait(false)) && Legal(Next(s, Wait(false)), steps)
    requires forall i :: 0 <= i < |steps| ==> !steps[i].Wait?
    ensures Run(Next(s, Wait(false)), steps).lapsed == s.lapsed
  {
    hide Legal, Run;
    UntimedRun(Next(s, Wait(false)), steps);
  }

  /** The waits with a timeout that a run starts. */
  function TimedWaits(steps: seq<Step>): nat
    decreases |steps|
  {
    if steps == [] then 0 else (if steps[0] == Wait(true) then 1 else 0) + TimedWaits(steps[1..])
  }

  lemma {:induction false} LapsesFrom(s: State, steps: seq<Step>)
    requires Legal(s, steps)
    ensures var r := Run(s, steps);
      r.lapsed + (if Untimed(r.waiter) then 0 else 1) <=
        s.lapsed + (if Untimed(s.waiter) then 0 else 1) + TimedWaits(steps)
    decreases |steps|
  {
    if steps != [] {
      LapseStep(s, steps[0]);
      LapsesFrom(Next(s, steps[0]), steps[1..]);
    }
  }

  lemma LapseStep(s: State, step: Step)
    requires Enabled(s, step)
    ensures var r := Next(s, step);
      r.lapsed + (if Untimed(r.waiter) then 0 else 1) <=
        s.lapsed + (if Untimed(s.waiter) then 0 else 1) + (if step == Wait(true) then 1 else 0)
  {}

  /** In every run at most the waits with a timeout return -1. */
  lemma LapsesWereTimed(steps: seq<Step>)
    requires Legal(INIT, steps)
    ensures Run(INIT, steps).lapsed <= TimedWaits(steps)
  {
    hide Legal, Run;
    LapsesFrom(INIT, steps);
  }

  // ----- wakes

  /** Every set of the run finds the counter at zero: nobody waits, and nothing is left over. */
  predicate Alone(s: State, steps: seq<Step>)
    requires Legal(s, steps)
    decreases |steps|
  {
    steps == [] || ((steps[0].Set? ==> s.counter == 0) && Alone(Next(s, steps[0]), steps[1..]))
  }

  /** Then no wake is sent. */
  lemma {:induction false} AloneNoWake(s: State, steps: seq<Step>)
    requires Legal(s, steps) && Alone(s, steps) && s.pending == 0
    ensures Run(s, steps).pending == 0
    decreases |steps|
  {
    if steps != [] { AloneNoWake(Next(s, steps[0]), steps[1..]); }
  }

  // ----- returns without a set

  /** The waiter is woken although nothing has been set since it went to sleep. */
  predicate Hollow(s: State, step: Step) {
    (step.FutexWake? || step.Interrupt?) && s.waiter.Sleeping? && s.counter == -1
  }

  /** Every return so far was paid for by a set. */
  predicate Settled(s: State) { s.counter >= if s.waiter.Idle? then 0 else -1 }

  /** A step upsets that exactly when it is a hollow wake. */
  lemma SettledExact(s: State, step: Step)
    requires Settled(s) && Enabled(s, step)
    ensures Settled(Next(s, step)) <==> !Hollow(s, step)
  {}

  /** No step of the run is a hollow wake. */
  predicate Sound(s: State, steps: seq<Step>)
    requires Legal(s, steps)
    decreases |steps|
  {
    steps == [] || (!Hollow(s, steps[0]) && Sound(Next(s, steps[0]), steps[1..]))
  }

  lemma RunNone(s: State)
    ensures Legal(s, []) && Run(s, []) == s
  {}

  /** After every prefix of the run all returns were paid for. */
  ghost predicate AlwaysSettled(s: State, steps: seq<Step>) {
    forall k :: 0 <= k <= |steps| ==> Legal(s, steps[..k]) && Settled(Run(s, steps[..k]))
  }

  lemma {:induction false} PrefixStep(s: State, steps: seq<Step>, k: nat)
    requires steps != [] && Enabled(s, steps[0]) && 0 < k <= |steps|
    ensures var s', rest := Next(s, steps[0]), steps[1..];
      && (Legal(s, steps[..k]) <==> Legal(s', rest[..k - 1]))
      && (Legal(s, steps[..k]) ==> Run(s, steps[..k]) == Run(s', rest[..k - 1]))
  {
    hide Enabled, Next;
    assert steps[..k][0] == steps[0] && steps[..k][1..] == steps[1..][..k - 1];
  }

  lemma {:induction false} AlwaysStep(s: State, steps: seq<Step>)
    requires steps != [] && Enabled(s, steps[0]) && Settled(s)
    ensures AlwaysSettled(s, steps) <==> AlwaysSettled(Next(s, steps[0]), steps[1..])
  {
    hide Legal, Run, Settled, Enabled, Next;
    RunNone(s);
    assert steps[..0] == [];
    forall k | 0 < k <= |steps|
      ensures (Legal(s, steps[..k]) && Settled(Run(s, steps[..k]))) ==
              (Legal(Next(s, steps[0]), steps[1..][..k - 1]) && Settled(Run(Next(s, steps[0]), steps[1..][..k - 1])))
    {
      PrefixStep(s, steps, k);
    }
    if AlwaysSettled(s, steps) {
      forall k | 0 <= k <= |steps| - 1
        ensures Legal(Next(s, steps[0]), steps[1..][..k]) && Settled(Run(Next(s, steps[0]), steps[1..][..k]))
      {
        assert Legal(s, steps[..k + 1]) && Settled(Run(s, steps[..k + 1]));
      }
    }
  }

  lemma AlwaysNow(s: State, steps: seq<Step>)
    requires AlwaysSettled(s, steps)
    ensures Settled(s) && Legal(s, steps) && Settled(Run(s, steps))
  {
    hide Legal, Run, Settled;
    RunNone(s);
    assert steps[..0] == [] && steps[..|steps|] == steps;
  }

  /** Every return of a run is paid for at every moment exactly when no step is a hollow
      wake. */
  lemma {:induction false} SettledRunExact(s: State, steps: seq<Step>)
    requires Settled(s) && Legal(s, steps)
    ensures AlwaysSettled(s, steps) <==> Sound(s, steps)
    decreases |steps|
  {
    hide AlwaysSettled, Settled, Hollow, Enabled, Next;
    if steps == [] {
      NoneSettled(s);
    } else {
      var s' := Next(s, steps[0]);
      SettledExact(s, steps[0]);
      AlwaysStep(s, steps);
      if Settled(s') {
        SettledRunExact(s', steps[1..]);
      } else if AlwaysSettled(s', steps[1..]) {
        AlwaysNow(s', steps[1..]);
      }
    }
  }

  lemma NoneSettled(s: State)
    requires Settled(s)
    ensures AlwaysSettled(s, [])
  {
    hide Settled;
    RunNone(s);
    var none: seq<Step> := [];
    assert none[..0] == none;
  }

  /** Without hollow wakes, waits never return more often than sets are made. */
  lemma TakenWereSet(steps: seq<Step>)
    requires Legal(INIT, steps) && Sound(INIT, steps)
    ensures var s := Run(INIT, steps);
      s.taken + (s.lapsed - s.resets) <= s.sets && s.counter >= -1
  {
    hide Legal, Run, Sound, AlwaysSettled;
    RunKeeps(INIT, steps);
    SettledRunExact(INIT, steps);
    AlwaysNow(INIT, steps);
  }

  lemma {:induction false} RunAppend(s: State, a: seq<Step>, step: Step)
    requires Legal(s, a) && Enabled(Run(s, a), step)
    ensures Legal(s, a + [step]) && Run(s, a + [step]) == Next(Run(s, a), step)
    decreases |a|
  {
    if a == [] {
      assert [step][1..] == [];
      assert a + [step] == [step];
    } else {
      assert (a + [step])[0] == a[0] && (a + [step])[1..] == a[1..] + [step];
      RunAppend(Next(s, a[0]), a[1..], step);
    }
  }

  /** A hollow wake does happen: a timeout overtakes a wake, which then finds the
      next wait. That wait returns although the only set was spent on the first. */
  lemma StaleWake() returns (steps: seq<Step>)
    ensures Legal(INIT, steps) && !Sound(INIT, steps)
    ensures var s := Run(INIT, steps);
      s.sets == 1 && s.lapsed == 1 && s.resets == 0 && s.taken == 1 && s.counter == -1 && s.waiter.Idle?
  {
    hide Legal, Run, Sound, Next, Enabled;
    StaleEnds();
    steps := [];
    RunNone(INIT);
    for i := 0 to 8
      invariant Legal(INIT, steps) && Run(INIT, steps) == Stale(i)
    {
      hide Stale, StaleStep;
      StaleNext(i);
      RunAppend(INIT, steps, StaleStep(i));
      steps := steps + [StaleStep(i)];
    }
    if Sound(INIT, steps) { TakenWereSet(steps); }
  }

  lemma StaleNext(i: nat)
    requires i < 8
    ensures Enabled(Stale(i), StaleStep(i)) && Next(Stale(i), StaleStep(i)) == Stale(i + 1)
  {}

  lemma StaleEnds()
    ensures Stale(0) == INIT && Stale(8) == State(-1, Idle, 0, 1, 2, 0, 1, 1)
  {}

  function StaleStep(i: nat): Step {
    if i == 0 then Wait(true)
    else if i == 1 || i == 6 then FutexWait
    else if i == 2 then Set
    else if i == 3 then Timeout
    else if i == 4 then Reset
    else if i == 5 then Wait(false)
    else FutexWake
  }

  function Stale(i: nat): State {
    if i == 0 then INIT
    else if i == 1 then State(-1, Entering(true), 0, 0, 1, 0, 0, 0)
    else if i == 2 then State(-1, Sleeping(true), 0, 0, 1, 0, 0, 0)
    else if i == 3 then State(0, Sleeping(true), 1, 1, 1, 0, 0, 0)
    else if i == 4 then State(0, TimedOut, 1, 1, 1, 0, 0, 0)
    else if i == 5 then State(0, Idle, 1, 1, 1, 0, 0, 1)
    else if i == 6 then State(-1, Entering(false), 1, 1, 2, 0, 0, 1)
    else if i == 7 then State(-1, Sleeping(false), 1, 1, 2, 0, 0, 1)
    else State(-1, Idle, 0, 1, 2, 0, 1, 1)
  }
}
