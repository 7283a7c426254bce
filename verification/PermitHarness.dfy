/**
 The permit-bounded producer/consumer harness of the admission benchmark. Threads interleave step by step;
 32 permits bound the admitted records that are not complete. Any worker may fail and so cancel the run: it
 sets every event, aborts the barrier and releases permits it does not hold, to wake whoever waits.
 */
module PermitHarness {
  import opened Bytes
  import opened Partition

  const PERMITS := 32

  /** The records the scheduler under test holds before it drops one. */
  const CAPACITY := 64

  datatype Setup = Setup(producers: nat, calls: nat, warmups: nat)

  /** Warming up, at the barrier, waiting for the start event, in the timed window, done or failed. */
  datatype Phase = Warming | AtBarrier | Waiting | Timing | Finished | Failed

  /** `attempts` counts the admissions attempted, the warmup ones included. */
  datatype Producer = Producer(phase: Phase, attempts: nat, holding: bool)

  /** `Raised`: the barrier broke before the timed window. */
  datatype Main = BeforeBarrier | BeforeStart | Joining | ProducersDone | Raised

  /** Between items, holding a dequeued item, with the item complete and its permit not yet released, returned, failed. */
  datatype Consumer = Polling | Taken | Completing | Stopped | Broken

  /**
   `failures` counts the calls of the failing routine; `lost` are the permits of workers that failed with one
   in hand, and `stuck` the records that a failed consumer had dequeued.
   */
  datatype State = State(producers: seq<Producer>, main: Main, consumer: Consumer,
                         free: nat, queued: nat, admitted: nat, dropped: nat, completed: nat,
                         failures: nat, lost: nat, stuck: nat)

  datatype Step = Acquire(i: nat) | Admit(i: nat) | ReachBarrier(i: nat) | OpenBarrier | Start | SeeStart(i: nat)
                | Finish(i: nat) | Join | Dequeue | Complete | Release | Stop
                | AdmitRaises(i: nat) | SeeCancelled(i: nat) | BarrierRaises(i: nat) | ConsumerRaises | MainRaises

  function Quota(u: Setup, i: nat): nat
    requires u.producers > 0
  {
    Width(u.warmups, u.producers, i) + Width(u.calls, u.producers, i)
  }

  function Initial(u: Setup): State {
    State(seq(u.producers, _ => Producer(Warming, 0, false)), BeforeBarrier, Polling, PERMITS, 0, 0, 0, 0, 0, 0, 0)
  }

  predicate Cancelled(s: State) {
    s.failures > 0
  }

  predicate AllIn(s: State, phases: set<Phase>) {
    forall i :: 0 <= i < |s.producers| ==> s.producers[i].phase in phases
  }

  /** Whether producer `i` has an admission left in its present loop. */
  predicate Wants(u: Setup, s: State, i: nat)
    requires u.producers > 0 && i < |s.producers|
  {
    var p := s.producers[i];
    (p.phase == Warming && p.attempts < Width(u.warmups, u.producers, i)) || (p.phase == Timing && p.attempts < Quota(u, i))
  }

  predicate Enabled(u: Setup, s: State, step: Step)
    requires u.producers > 0
  {
    match step
    case Acquire(i) => i < |s.producers| && Wants(u, s, i) && !s.producers[i].holding && s.free > 0 && !Cancelled(s)
    case Admit(i) => i < |s.producers| && s.producers[i].holding
    case ReachBarrier(i) => i < |s.producers| && s.producers[i].phase == Warming && !Wants(u, s, i) && !s.producers[i].holding
    case OpenBarrier => s.main == BeforeBarrier && AllIn(s, {AtBarrier}) && !Cancelled(s)
    case Start => s.main == BeforeStart
    case SeeStart(i) => i < |s.producers| && s.producers[i].phase == Waiting && (s.main in {Joining, ProducersDone} || Cancelled(s))
    case Finish(i) => i < |s.producers| && s.producers[i].phase == Timing && !Wants(u, s, i) && !s.producers[i].holding
    case Join => s.main == Joining && AllIn(s, {Finished, Failed})
    case Dequeue => s.consumer == Polling && s.queued > 0
    case Complete => s.consumer == Taken
    case Release => s.consumer == Completing
    case Stop => s.consumer == Polling && (Cancelled(s) || (s.main == ProducersDone && s.completed >= u.calls + u.warmups))
    // failures: an admission that raises, a wait that sees the cancellation, the barrier, the consumer, the deadline
    case AdmitRaises(i) => i < |s.producers| && s.producers[i].holding
    case SeeCancelled(i) => i < |s.producers| && Wants(u, s, i) && !s.producers[i].holding && Cancelled(s)
    case BarrierRaises(i) => i < |s.producers| && s.producers[i].phase == AtBarrier && Cancelled(s)
    case ConsumerRaises => s.consumer == Polling || s.consumer == Taken
    case MainRaises => (s.main == BeforeBarrier && Cancelled(s)) || s.main == Joining
  }

  function With(s: State, i: nat, p: Producer): State
    requires i < |s.producers|
  {
    s.(producers := s.producers[i := p])
  }

  /** The admitted records that are not complete. */
  function Incomplete(s: State): nat {
    s.queued + s.stuck + if s.consumer == Taken then 1 else 0
  }

  /** `fail_worker`, taken as one step: the run is cancelled and everybody woken. */
  function Fail(u: Setup, s: State): State {
    s.(failures := s.failures + 1, free := s.free + PERMITS * u.producers)
  }

  /** A producer that failed; only outside the timed window does it keep the permit it holds. */
  function FailProducer(u: Setup, s: State, i: nat): State
    requires i < |s.producers|
  {
    var p := s.producers[i];
    var t := Fail(u, With(s, i, p.(phase := Failed, holding := false)));
    if !p.holding then t else if p.phase == Warming then t.(lost := s.lost + 1) else t.(free := t.free + 1)
  }

  function Apply(u: Setup, s: State, step: Step): State
    requires u.producers > 0 && Enabled(u, s, step)
  {
    match step
    case Acquire(i) => With(s, i, s.producers[i].(holding := true)).(free := s.free - 1)
    case Admit(i) =>
      var t := With(s, i, s.producers[i].(holding := false, attempts := s.producers[i].attempts + 1));
      // the permit travels with an admitted record, and comes back at once with a dropped one
      if Incomplete(s) < CAPACITY then t.(queued := s.queued + 1, admitted := s.admitted + 1)
      else t.(free := s.free + 1, dropped := s.dropped + 1)
    case ReachBarrier(i) => With(s, i, s.producers[i].(phase := AtBarrier))
    case OpenBarrier => s.(main := BeforeStart, producers := seq(|s.producers|, i requires 0 <= i < |s.producers| =>
                                                                  s.producers[i].(phase := Waiting)))
    case Start => s.(main := Joining)
    case SeeStart(i) => With(s, i, s.producers[i].(phase := Timing))
    case Finish(i) => With(s, i, s.producers[i].(phase := Finished))
    case Join => s.(main := ProducersDone)
    case Dequeue => s.(queued := s.queued - 1, consumer := Taken)
    case Complete => s.(completed := s.completed + 1, consumer := Completing)
    case Release => s.(free := s.free + 1, consumer := Polling)
    case Stop => s.(consumer := Stopped)
    case AdmitRaises(i) => FailProducer(u, s, i)
    case SeeCancelled(i) => FailProducer(u, s, i)
    case BarrierRaises(i) => FailProducer(u, s, i)
    case ConsumerRaises =>
      var t := Fail(u, s.(consumer := Broken));
      if s.consumer == Taken then t.(stuck := s.stuck + 1) else t
    case MainRaises => Fail(u, s.(main := if s.main == Joining then ProducersDone else Raised))
  }

  function After(u: Setup, steps: seq<Step>): (s: Option<State>)
    requires u.producers > 0
  {
    if steps == [] then Some(Initial(u))
    else
      var before := After(u, steps[..|steps| - 1]);
      var last := steps[|steps| - 1];
      if before.Some? && Enabled(u, before.value, last) then Some(Apply(u, before.value, last)) else None
  }

  // ---------- sums over the producers ----------

  function Held(ps: seq<Producer>): nat {
    if ps == [] then 0 else Held(ps[..|ps| - 1]) + if ps[|ps| - 1].holding then 1 else 0
  }

  function Attempts(ps: seq<Producer>): nat {
    if ps == [] then 0 else Attempts(ps[..|ps| - 1]) + ps[|ps| - 1].attempts
  }

  lemma {:induction false} SumsUpdate(ps: seq<Producer>, i: nat, p: Producer)
    requires i < |ps|
    ensures Held(ps[i := p]) == Held(ps) - (if ps[i].holding then 1 else 0) + (if p.holding then 1 else 0)
    ensures Attempts(ps[i := p]) == Attempts(ps) - ps[i].attempts + p.attempts
  {
    var n := |ps| - 1;
    if i == n {
      assert ps[i := p][..n] == ps[..n];
    } else {
      SumsUpdate(ps[..n], i, p);
      assert ps[i := p][..n] == ps[..n][i := p];
    }
  }

  lemma {:induction false} SumsSame(ps: seq<Producer>, qs: seq<Producer>)
    requires |ps| == |qs|
    requires forall i :: 0 <= i < |ps| ==> ps[i].holding == qs[i].holding && ps[i].attempts == qs[i].attempts
    ensures Held(ps) == Held(qs) && Attempts(ps) == Attempts(qs)
  {
    if ps != [] {
      SumsSame(ps[..|ps| - 1], qs[..|qs| - 1]);
    }
  }

  lemma {:induction false} NothingYet(n: nat)
    ensures var ps := seq(n, _ => Producer(Warming, 0, false)); Held(ps) == 0 && Attempts(ps) == 0
  {
    if n > 0 {
      NothingYet(n - 1);
      assert seq(n, _ => Producer(Warming, 0, false))[..n - 1] == seq(n - 1, _ => Producer(Warming, 0, false));
    }
  }

  /** Finished producers attempted all calls and warmups, no more. */
  lemma {:induction false} AttemptsOfFinished(u: Setup, ps: seq<Producer>)
    requires u.producers > 0
    ensures (forall i :: 0 <= i < |ps| ==> ps[i].attempts <= Quota(u, i)) ==>
              Attempts(ps) <= Before(u.warmups, u.producers, |ps|) + Before(u.calls, u.producers, |ps|)
    ensures (forall i :: 0 <= i < |ps| ==> ps[i].attempts == Quota(u, i)) ==>
              Attempts(ps) == Before(u.warmups, u.producers, |ps|) + Before(u.calls, u.producers, |ps|)
  {
    if ps != [] {
      AttemptsOfFinished(u, ps[..|ps| - 1]);
    }
  }

  // ---------- the invariant ----------

  /** A producer's count fits its phase. */
  predicate ProducerOk(u: Setup, p: Producer, i: nat)
    requires u.producers > 0
  {
    var warm, all := Width(u.warmups, u.producers, i), Quota(u, i);
    match p.phase
    case Warming => p.attempts <= warm && (p.holding ==> p.attempts < warm)
    case AtBarrier => p.attempts == warm && !p.holding
    case Waiting => p.attempts == warm && !p.holding
    case Timing => warm <= p.attempts <= all && (p.holding ==> p.attempts < all)
    case Finished => p.attempts == all && !p.holding
    case Failed => p.attempts <= all && !p.holding
  }

  /** Main and producers meet at the barrier, the start event and the join; only a cancelled run may pass a wait early. */
  predicate MainOk(s: State) {
    && (!Cancelled(s) ==> AllIn(s, {Warming, AtBarrier, Waiting, Timing, Finished}))
    && match s.main
       case BeforeBarrier => AllIn(s, {Warming, AtBarrier, Failed})
       case BeforeStart => AllIn(s, if Cancelled(s) then {Waiting, Timing, Finished, Failed} else {Waiting})
       case Joining => AllIn(s, {Waiting, Timing, Finished, Failed})
       case ProducersDone => AllIn(s, if Cancelled(s) then {Waiting, Timing, Finished, Failed} else {Finished})
       case Raised => Cancelled(s) && AllIn(s, {Warming, AtBarrier, Failed})
  }

  /** The permits with a dequeued item. */
  function InHand(s: State): nat {
    if s.consumer == Taken || s.consumer == Completing then 1 else 0
  }

  /** The permits that are with a record or a worker, or lost with one. */
  function Used(s: State): nat {
    Held(s.producers) + s.queued + InHand(s) + s.lost + s.stuck
  }

  /** Failures add permits, but nobody takes one any more: those in use stay within 32. */
  predicate Conserved(u: Setup, s: State) {
    && s.free + Used(s) == PERMITS + PERMITS * u.producers * s.failures
    && Used(s) <= PERMITS
    && s.admitted == s.completed + Incomplete(s)
    && s.admitted == Attempts(s.producers) && s.dropped == 0
  }

  predicate ConsumerOk(u: Setup, s: State) {
    && (s.consumer == Stopped && !Cancelled(s) ==> s.main == ProducersDone && s.completed >= u.calls + u.warmups)
    && (s.consumer == Broken ==> Cancelled(s)) && (s.stuck > 0 || s.lost > 0 ==> Cancelled(s))
  }

  predicate Inv(u: Setup, s: State)
    requires u.producers > 0
  {
    && |s.producers| == u.producers
    && (forall i :: 0 <= i < u.producers ==> ProducerOk(u, s.producers[i], i))
    && MainOk(s) && Conserved(u, s) && ConsumerOk(u, s)
  }

  lemma StartHolds(u: Setup)
    requires u.producers > 0
    ensures Inv(u, Initial(u))
  {
    NothingYet(u.producers);
  }

  /** One producer's change that keeps its own account keeps everyone's. */
  lemma ProducerStepKeeps(u: Setup, s: State, i: nat, p: Producer, t: State)
    requires u.producers > 0 && Inv(u, s) && i < |s.producers| && ProducerOk(u, p, i)
    requires t.producers == s.producers[i := p] && t.main == s.main && t.consumer == s.consumer && t.completed == s.completed
    requires t.failures == s.failures && t.lost == s.lost && t.stuck == s.stuck
    requires MainOk(t) && t.dropped == 0
    requires t.free + t.queued + (if p.holding then 1 else 0) == s.free + s.queued + (if s.producers[i].holding then 1 else 0)
    requires t.free >= 0 && (t.free < s.free ==> !Cancelled(s))
    requires t.queued - s.queued == t.admitted - s.admitted == p.attempts - s.producers[i].attempts
    ensures Inv(u, t)
  {
    SumsUpdate(s.producers, i, p);
    hide Held, Attempts, ProducerOk, MainOk;
  }

  lemma AdmitKeeps(u: Setup, s: State, i: nat)
    requires u.producers > 0 && Inv(u, s) && Enabled(u, s, Admit(i))
    ensures Inv(u, Apply(u, s, Admit(i)))
  {
    hide Held, Attempts;
    assert Incomplete(s) <= PERMITS;
    var p := s.producers[i].(holding := false, attempts := s.producers[i].attempts + 1);
    ProducerStepKeeps(u, s, i, p, Apply(u, s, Admit(i)));
  }

  /** One more failure's permits. */
  lemma OneMore(u: Setup, failures: nat)
    ensures PERMITS * u.producers * (failures + 1) == PERMITS * u.producers * failures + PERMITS * u.producers
  {
  }

  lemma FailProducerKeeps(u: Setup, s: State, i: nat)
    requires u.producers > 0 && Inv(u, s) && i < |s.producers|
    requires s.producers[i].holding || (s.producers[i].phase in {Warming, AtBarrier, Timing} && Cancelled(s))
    ensures Inv(u, FailProducer(u, s, i))
  {
    var p := s.producers[i].(phase := Failed, holding := false);
    SumsUpdate(s.producers, i, p);
    OneMore(u, s.failures);
    hide Held, Attempts, Width;
    assert ProducerOk(u, s.producers[i], i);
    var t := FailProducer(u, s, i);
    assert Conserved(u, t) by { hide ProducerOk, MainOk; }
    assert MainOk(t) by { hide ProducerOk, Conserved; }
    hide Conserved, MainOk;
  }

  lemma ConsumerRaisesKeeps(u: Setup, s: State)
    requires u.producers > 0 && Inv(u, s) && Enabled(u, s, ConsumerRaises)
    ensures Inv(u, Apply(u, s, ConsumerRaises))
  {
    OneMore(u, s.failures);
    hide Held, Attempts, ProducerOk;
  }

  lemma MainRaisesKeeps(u: Setup, s: State)
    requires u.producers > 0 && Inv(u, s) && Enabled(u, s, MainRaises)
    ensures Inv(u, Apply(u, s, MainRaises))
  {
    OneMore(u, s.failures);
    hide Held, Attempts, ProducerOk;
  }

  /** The steps of a run that nobody cancels, taken in any run. */
  lemma PlainStepKeeps(u: Setup, s: State, step: Step)
    requires u.producers > 0 && Inv(u, s) && Enabled(u, s, step)
    requires step.OpenBarrier? || step.Start? || step.Join? || step.Dequeue? || step.Complete? || step.Release? || step.Stop?
    ensures Inv(u, Apply(u, s, step))
  {
    hide Held, Attempts, Width;
    var t := Apply(u, s, step);
    if step.OpenBarrier? {
      SumsSame(s.producers, t.producers);
    } else {
      hide ProducerOk;
    }
  }

  lemma StepKeeps(u: Setup, s: State, step: Step)
    requires u.producers > 0 && Inv(u, s) && Enabled(u, s, step)
    ensures Inv(u, Apply(u, s, step))
  {
    hide Held, Attempts, Width, FailProducer;
    var t := Apply(u, s, step);
    match step
    case Acquire(i) => ProducerStepKeeps(u, s, i, s.producers[i].(holding := true), t);
    case Admit(i) => AdmitKeeps(u, s, i);
    case ReachBarrier(i) => ProducerStepKeeps(u, s, i, s.producers[i].(phase := AtBarrier), t);
    case SeeStart(i) => ProducerStepKeeps(u, s, i, s.producers[i].(phase := Timing), t);
    case Finish(i) => ProducerStepKeeps(u, s, i, s.producers[i].(phase := Finished), t);
    case AdmitRaises(i) => FailProducerKeeps(u, s, i);
    case SeeCancelled(i) => FailProducerKeeps(u, s, i);
    case BarrierRaises(i) => FailProducerKeeps(u, s, i);
    case ConsumerRaises => ConsumerRaisesKeeps(u, s);
    case MainRaises => MainRaisesKeeps(u, s);
    case _ => PlainStepKeeps(u, s, step);
  }

  lemma {:induction false} Reachable(u: Setup, steps: seq<Step>)
    requires u.producers > 0 && After(u, steps).Some?
    ensures Inv(u, After(u, steps).value)
  {
    hide Inv, Enabled, Apply;
    if steps == [] {
      StartHolds(u);
    } else {
      Reachable(u, steps[..|steps| - 1]);
      StepKeeps(u, After(u, steps[..|steps| - 1]).value, steps[|steps| - 1]);
    }
  }

  // ---------- what every schedule guarantees ----------

  /**
   Whatever the interleaving and whoever fails: the permits free, held, queued, in the consumer's hand and lost
   are 32 together and 32 per producer more for each failure; and since nobody takes a permit once the run is
   cancelled, at most 32 admitted records are incomplete, so the scheduler never drops one.
   */
  lemma PermitsAreConserved(u: Setup, steps: seq<Step>)
    requires u.producers > 0 && After(u, steps).Some?
    ensures var s := After(u, steps).value;
            && s.free + Held(s.producers) + s.queued + InHand(s) + s.lost + s.stuck == 32 + 32 * u.producers * s.failures
            && (!Cancelled(s) ==> s.lost == s.stuck == 0)
            && s.admitted - s.completed == Incomplete(s) <= 32
            && s.dropped == 0
  {
    hide After, Held, Attempts, ProducerOk, MainOk;
    Reachable(u, steps);
  }

  /** Unless the run was cancelled, a consumer that stopped has completed exactly the calls and warmups, and every permit is free again. */
  lemma StoppedIsExact(u: Setup, steps: seq<Step>)
    requires u.producers > 0 && After(u, steps).Some?
    requires After(u, steps).value.consumer == Stopped && !Cancelled(After(u, steps).value)
    ensures var s := After(u, steps).value;
            s.completed == s.admitted == u.calls + u.warmups && s.queued == 0 && s.free == 32
  {
    hide After, Width;
    Reachable(u, steps);
    var s := After(u, steps).value;
    AttemptsOfFinished(u, s.producers);
    WidthsSum(u.calls, u.producers);
    WidthsSum(u.warmups, u.producers);
    NoneHeld(s.producers);
  }

  /** No run completes more than the calls and warmups. */
  lemma NeverTooMany(u: Setup, steps: seq<Step>)
    requires u.producers > 0 && After(u, steps).Some?
    ensures After(u, steps).value.completed <= After(u, steps).value.admitted <= u.calls + u.warmups
  {
    hide After, Width, Held, Attempts, MainOk;
    Reachable(u, steps);
    var s := After(u, steps).value;
    forall i | 0 <= i < |s.producers| ensures s.producers[i].attempts <= Quota(u, i) {
      assert ProducerOk(u, s.producers[i], i);
    }
    AttemptsOfFinished(u, s.producers);
    WidthsSum(u.calls, u.producers);
    WidthsSum(u.warmups, u.producers);
  }

  /** Producers with their warmups behind them, or still in them. */
  lemma {:induction false} AttemptsOfWarm(u: Setup, ps: seq<Producer>)
    requires u.producers > 0
    ensures (forall i :: 0 <= i < |ps| ==> ps[i].attempts <= Width(u.warmups, u.producers, i)) ==>
              Attempts(ps) <= Before(u.warmups, u.producers, |ps|)
    ensures (forall i :: 0 <= i < |ps| ==> ps[i].attempts >= Width(u.warmups, u.producers, i)) ==>
              Attempts(ps) >= Before(u.warmups, u.producers, |ps|)
  {
    if ps != [] {
      AttemptsOfWarm(u, ps[..|ps| - 1]);
    }
  }

  /**
   Unless the run was cancelled, the warmups are admitted before the start event and nothing else is: at the
   barrier at most those, before the start exactly those, and after the join exactly those and the calls.
   */
  lemma WarmupsComeFirst(u: Setup, steps: seq<Step>)
    requires u.producers > 0 && After(u, steps).Some? && !Cancelled(After(u, steps).value)
    ensures var s := After(u, steps).value;
            && (s.main == BeforeBarrier ==> s.admitted <= u.warmups)
            && (s.main == BeforeStart ==> s.admitted == u.warmups)
            && (s.main == Joining ==> s.admitted >= u.warmups)
            && (s.main == ProducersDone ==> s.admitted == u.calls + u.warmups)
  {
    hide After, Width, Held, Attempts;
    Reachable(u, steps);
    var s := After(u, steps).value;
    assert forall i :: 0 <= i < |s.producers| ==> ProducerOk(u, s.producers[i], i);
    AttemptsOfWarm(u, s.producers);
    AttemptsOfFinished(u, s.producers);
    WidthsSum(u.calls, u.producers);
    WidthsSum(u.warmups, u.producers);
  }

  /** A producer that fails with a permit in hand loses it while warming up, and gives it back in the timed window. */
  lemma WhoLosesAPermit(u: Setup, steps: seq<Step>, i: nat)
    requires u.producers > 0 && After(u, steps).Some? && Enabled(u, After(u, steps).value, AdmitRaises(i))
    ensures var s := After(u, steps).value;
            var t := Apply(u, s, AdmitRaises(i));
            && s.producers[i].phase in {Warming, Timing}
            && (s.producers[i].phase == Warming ==> t.lost == s.lost + 1 && t.free == s.free + 32 * u.producers)
            && (s.producers[i].phase == Timing ==> t.lost == s.lost && t.free == s.free + 32 * u.producers + 1)
  {
    hide After;
    Reachable(u, steps);
    HoldersAreActive(u, After(u, steps).value, i);
  }

  lemma {:induction false} NoneHeld(ps: seq<Producer>)
    requires forall i :: 0 <= i < |ps| ==> !ps[i].holding
    ensures Held(ps) == 0
  {
    if ps != [] {
      NoneHeld(ps[..|ps| - 1]);
    }
  }

  lemma {:induction false} SomeoneHolds(ps: seq<Producer>) returns (i: nat)
    requires Held(ps) > 0
    ensures i < |ps| && ps[i].holding
  {
    if ps[|ps| - 1].holding {
      i := |ps| - 1;
    } else {
      i := SomeoneHolds(ps[..|ps| - 1]);
    }
  }

  /** Every thread has returned. */
  predicate Over(s: State) {
    s.consumer in {Stopped, Broken} && s.main in {ProducersDone, Raised} && AllIn(s, {Finished, Failed})
  }

  /** Until every thread has returned some thread can move, cancelled or not: nobody waits for ever. */
  lemma NeverStuck(u: Setup, steps: seq<Step>) returns (next: Step)
    requires u.producers > 0 && After(u, steps).Some? && !Over(After(u, steps).value)
    ensures Enabled(u, After(u, steps).value, next)
  {
    hide After, Width;
    Reachable(u, steps);
    var s := After(u, steps).value;
    if s.consumer == Taken {
      next := Complete;
    } else if s.consumer == Completing {
      next := Release;
    } else if s.consumer == Polling && s.queued > 0 {
      next := Dequeue;
    } else if Held(s.producers) > 0 {
      var i := SomeoneHolds(s.producers);
      next := Admit(i);
    } else if Cancelled(s) {
      next := CancelledMoves(u, s);
    } else {
      StoppedIsOver(u, s);
      next := ProducerOrMainMoves(u, s);
    }
  }

  lemma StoppedIsOver(u: Setup, s: State)
    requires u.producers > 0 && Inv(u, s) && !Cancelled(s) && !Over(s)
    ensures s.consumer != Stopped && s.consumer != Broken
  {
    hide Held, Attempts, ProducerOk, Width;
  }

  /** In a cancelled run whoever waits for a permit, at the barrier, for the start or for records is woken. */
  lemma CancelledMoves(u: Setup, s: State) returns (next: Step)
    requires u.producers > 0 && Inv(u, s) && Cancelled(s) && !Over(s) && Held(s.producers) == 0
    requires s.consumer != Taken && s.consumer != Completing
    ensures Enabled(u, s, next)
  {
    hide Width, Conserved, Attempts;
    if s.consumer == Polling {
      return Stop;
    }
    if AllIn(s, {Finished, Failed}) {
      return if s.main == BeforeStart then Start else if s.main == Joining then Join else MainRaises;
    }
    var i: nat :| i < |s.producers| && s.producers[i].phase !in {Finished, Failed};
    HolderCounts(s.producers, i);
    if Wants(u, s, i) {
      next := SeeCancelled(i);
    } else if s.producers[i].phase == Warming {
      next := ReachBarrier(i);
    } else if s.producers[i].phase == AtBarrier {
      next := BarrierRaises(i);
    } else if s.producers[i].phase == Waiting {
      next := SeeStart(i);
    } else {
      next := Finish(i);
    }
  }

  lemma ProducerOrMainMoves(u: Setup, s: State) returns (next: Step)
    requires u.producers > 0 && Inv(u, s) && !Cancelled(s) && s.consumer == Polling && s.queued == 0 && Held(s.producers) == 0
    ensures Enabled(u, s, next)
  {
    hide Width, Held, Attempts;
    if s.main == BeforeStart {
      return Start;
    }
    if s.main == ProducersDone {
      AllAreCompleted(u, s);
      return Stop;
    }
    hide Conserved;
    if s.main == BeforeBarrier && AllIn(s, {AtBarrier}) {
      return OpenBarrier;
    }
    if s.main == Joining && AllIn(s, {Finished}) {
      return Join;
    }
    var settled := if s.main == BeforeBarrier then AtBarrier else Finished;
    var i: nat :| i < |s.producers| && s.producers[i].phase != settled;
    HolderCounts(s.producers, i);
    if Wants(u, s, i) {
      next := Acquire(i);
    } else if s.producers[i].phase == Warming {
      next := ReachBarrier(i);
    } else if s.producers[i].phase == Waiting {
      next := SeeStart(i);
    } else {
      next := Finish(i);
    }
  }

  lemma AllAreCompleted(u: Setup, s: State)
    requires u.producers > 0 && Inv(u, s) && !Cancelled(s) && s.main == ProducersDone
    requires s.consumer == Polling && s.queued == 0
    ensures s.completed >= u.calls + u.warmups
  {
    hide Width, Held;
    AttemptsOfFinished(u, s.producers);
    WidthsSum(u.calls, u.producers);
    WidthsSum(u.warmups, u.producers);
  }

  lemma {:induction false} HolderCounts(ps: seq<Producer>, i: nat)
    requires i < |ps| && Held(ps) == 0
    ensures !ps[i].holding
  {
    if i < |ps| - 1 {
      HolderCounts(ps[..|ps| - 1], i);
    }
  }

  // ---------- every schedule is finite ----------

  function PhaseRank(p: Phase): nat {
    match p
    case Warming => 4
    case AtBarrier => 3
    case Waiting => 2
    case Timing => 1
    case Finished => 0
    case Failed => 0
  }

  /** What producer `i` still has to do. */
  function ProducerWork(u: Setup, p: Producer, i: nat): int
    requires u.producers > 0
  {
    if p.phase == Failed then 0 else 5 * (Quota(u, i) - p.attempts) - (if p.holding then 1 else 0) + PhaseRank(p.phase)
  }

  function Work(u: Setup, ps: seq<Producer>): int
    requires u.producers > 0
  {
    if ps == [] then 0 else Work(u, ps[..|ps| - 1]) + ProducerWork(u, ps[|ps| - 1], |ps| - 1)
  }

  function Measure(u: Setup, s: State): int
    requires u.producers > 0
  {
    Work(u, s.producers) + 3 * s.queued
    + (match s.consumer case Taken => 3 case Completing => 2 case Polling => 1 case Stopped => 0 case Broken => 0)
    + (match s.main case BeforeBarrier => 3 case BeforeStart => 2 case Joining => 1 case ProducersDone => 0 case Raised => 0)
  }

  lemma {:induction false} WorkUpdate(u: Setup, ps: seq<Producer>, i: nat, p: Producer)
    requires u.producers > 0 && i < |ps|
    ensures Work(u, ps[i := p]) == Work(u, ps) - ProducerWork(u, ps[i], i) + ProducerWork(u, p, i)
  {
    hide ProducerWork;
    var n := |ps| - 1;
    if i == n {
      assert ps[i := p][..n] == ps[..n];
    } else {
      WorkUpdate(u, ps[..n], i, p);
      assert ps[i := p][..n] == ps[..n][i := p];
    }
  }

  lemma {:induction false} WorkBelow(u: Setup, ps: seq<Producer>, qs: seq<Producer>)
    requires u.producers > 0 && |ps| == |qs|
    requires forall i :: 0 <= i < |ps| ==> ProducerWork(u, ps[i], i) <= ProducerWork(u, qs[i], i)
    ensures Work(u, ps) <= Work(u, qs)
  {
    hide ProducerWork;
    if ps != [] {
      WorkBelow(u, ps[..|ps| - 1], qs[..|qs| - 1]);
    }
  }

  lemma {:induction false} WorkIsBounded(u: Setup, ps: seq<Producer>)
    requires u.producers > 0 && forall i :: 0 <= i < |ps| ==> ProducerOk(u, ps[i], i)
    ensures Work(u, ps) >= 0
  {
    if ps != [] {
      assert ProducerOk(u, ps[|ps| - 1], |ps| - 1);
      WorkIsBounded(u, ps[..|ps| - 1]);
    }
  }

  lemma MeasureIsBounded(u: Setup, s: State)
    requires u.producers > 0 && Inv(u, s)
    ensures Measure(u, s) >= 0
  {
    hide Conserved, MainOk, ProducerOk, Work;
    WorkIsBounded(u, s.producers);
  }

  /** A producer's own step lowers its work. */
  lemma ProducerLowers(u: Setup, s: State, step: Step, i: nat)
    requires u.producers > 0 && Inv(u, s) && Enabled(u, s, step)
    requires step in {Acquire(i), Admit(i), ReachBarrier(i), SeeStart(i), Finish(i)}
    ensures Measure(u, Apply(u, s, step)) < Measure(u, s)
  {
    hide Held, Attempts, Width, Work, MainOk, ProducerOk, FailProducer;
    if step.Admit? {
      HoldersAreActive(u, s, i);
      assert Incomplete(s) <= PERMITS;
    }
    WorkUpdate(u, s.producers, i, Apply(u, s, step).producers[i]);
  }

  lemma OtherLowers(u: Setup, s: State, step: Step)
    requires u.producers > 0 && Inv(u, s) && Enabled(u, s, step)
    requires step in {OpenBarrier, Start, Join, Dequeue, Complete, Release, Stop, ConsumerRaises, MainRaises}
    ensures Measure(u, Apply(u, s, step)) < Measure(u, s)
  {
    hide Held, Attempts, Width, Work, ProducerOk, Conserved, FailProducer;
    if step.OpenBarrier? {
      WorkBelow(u, Apply(u, s, step).producers, s.producers);
    }
  }

  /** Every step lowers a measure that stays at or above zero: every schedule ends, whoever fails. */
  lemma EveryStepLowers(u: Setup, s: State, step: Step)
    requires u.producers > 0 && Inv(u, s) && Enabled(u, s, step)
    ensures 0 <= Measure(u, Apply(u, s, step)) < Measure(u, s)
  {
    StepKeeps(u, s, step);
    MeasureIsBounded(u, Apply(u, s, step));
    hide Conserved, MainOk, ProducerOk, Measure, FailProducer;
    match step
    case Acquire(i) => ProducerLowers(u, s, step, i);
    case Admit(i) => ProducerLowers(u, s, step, i);
    case ReachBarrier(i) => ProducerLowers(u, s, step, i);
    case SeeStart(i) => ProducerLowers(u, s, step, i);
    case Finish(i) => ProducerLowers(u, s, step, i);
    case AdmitRaises(i) =>
      HoldersAreActive(u, s, i);
      FailureLowers(u, s, i);
    case SeeCancelled(i) => FailureLowers(u, s, i);
    case BarrierRaises(i) => FailureLowers(u, s, i);
    case _ => OtherLowers(u, s, step);
  }

  lemma HoldersAreActive(u: Setup, s: State, i: nat)
    requires u.producers > 0 && Inv(u, s) && i < |s.producers| && s.producers[i].holding
    ensures s.producers[i].phase in {Warming, Timing}
  {
    assert ProducerOk(u, s.producers[i], i);
  }

  lemma FailureLowers(u: Setup, s: State, i: nat)
    requires u.producers > 0 && Inv(u, s) && i < |s.producers|
    requires s.producers[i].phase in {Warming, AtBarrier, Waiting, Timing}
    ensures Measure(u, FailProducer(u, s, i)) < Measure(u, s)
  {
    hide Held, Attempts, Width, Work;
    var t := FailProducer(u, s, i);
    WorkUpdate(u, s.producers, i, t.producers[i]);
    assert ProducerOk(u, s.producers[i], i);
  }
}
