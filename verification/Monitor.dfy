/**
 The bounded queue under concurrency: one mutex and one condition variable shared
 by all callers, with `notify_all` issued after the mutex is released. Threads
 interleave in the steps below; wake-ups may also be spurious.
*/
module Monitor {
  import opened RingBuffers
  import opened Wrappers

  datatype Phase<T> =
    | Idle
    | Entering(op: Operation<T>)   // wants the mutex, to start or after a wake-up
    | Holding(op: Operation<T>)    // holds it and is about to test its guard
    | Sleeping(op: Operation<T>)   // waits on the condition variable
    | Acted                        // has changed the queue and still holds the mutex
    | Notifying                    // has released the mutex, `notify_all` still to come

  /** An element that left at the front: popped, or overwritten by an enqueue. */
  datatype Departure<T> = Departure(value: T, popped: bool)

  datatype Holder = Free | By(thread: nat)

  /** `pushed` and `left` are histories, in the order the mutex was held. */
  datatype State<T> = State(
    queue: seq<T>,
    holder: Holder,
    threads: seq<Phase<T>>,
    pushed: seq<T>,
    left: seq<Departure<T>>)

  datatype Step<T> =
    | Call(thread: nat, op: Operation<T>)
    | Acquire(thread: nat)
    | Wait(thread: nat)
    | Act(thread: nat)
    | Unlock(thread: nat)
    | NotifyAll(thread: nat)
    | WakeSpuriously(thread: nat)

  function Init<T>(threads: nat): State<T>
  {
    State([], Free, seq(threads, _ => Idle), [], [])
  }

  predicate Enabled<T>(s: State<T>, step: Step<T>)
  {
    && step.thread < |s.threads|
    && var phase := s.threads[step.thread];
       match step
       case Call(_, _) => phase.Idle?
       case Acquire(_) => phase.Entering? && s.holder.Free?
       case Wait(_) => phase.Holding? && !Guard(phase.op, |s.queue|)
       case Act(_) => phase.Holding? && Guard(phase.op, |s.queue|)
       case Unlock(_) => phase.Acted?
       case NotifyAll(_) => phase.Notifying?
       case WakeSpuriously(_) => phase.Sleeping?
  }

  function Woken<T>(phase: Phase<T>): Phase<T>
  {
    if phase.Sleeping? then Entering(phase.op) else phase
  }

  function Departures<T>(op: Operation<T>, queue: seq<T>): seq<Departure<T>>
    requires Guard(op, |queue|)
  {
    match op
    case WaitAndPopValue => [Departure(queue[0], true)]
    case _ => if |queue| >= CAPACITY then [Departure(queue[0], false)] else []
  }

  function Arrivals<T>(op: Operation<T>): seq<T>
  {
    if op.WaitAndPopValue? then [] else [op.value]
  }

  function Apply<T>(s: State<T>, step: Step<T>): State<T>
    requires Enabled(s, step)
  {
    var t := step.thread;
    var phase := s.threads[t];
    match step
    case Call(_, op) => s.(threads := s.threads[t := Entering(op)])
    case Acquire(_) => s.(threads := s.threads[t := Holding(phase.op)], holder := By(t))
    case Wait(_) => s.(threads := s.threads[t := Sleeping(phase.op)], holder := Free)
    case Act(_) =>
      s.(threads := s.threads[t := Acted],
         queue := After(phase.op, s.queue),
         pushed := s.pushed + Arrivals(phase.op),
         left := s.left + Departures(phase.op, s.queue))
    case Unlock(_) => s.(threads := s.threads[t := Notifying], holder := Free)
    case NotifyAll(_) =>
      s.(threads := seq(|s.threads|, i requires 0 <= i < |s.threads| =>
                          if i == t then Idle else Woken(s.threads[i])))
    case WakeSpuriously(_) => s.(threads := s.threads[t := Woken(phase)])
  }

  /** All steps can be taken, one after the other. */
  predicate Runs<T>(s: State<T>, steps: seq<Step<T>>)
    decreases |steps|
  {
    steps == [] || (Enabled(s, steps[0]) && Runs(Apply(s, steps[0]), steps[1..]))
  }

  function Final<T>(s: State<T>, steps: seq<Step<T>>): State<T>
    requires Runs(s, steps)
    decreases |steps|
  {
    if steps == [] then s else Final(Apply(s, steps[0]), steps[1..])
  }

  // --- Invariants of every run ---

  function Values<T>(departures: seq<Departure<T>>): seq<T>
  {
    seq(|departures|, i requires 0 <= i < |departures| => departures[i].value)
  }

  ghost predicate MutualExclusion<T>(s: State<T>)
  {
    forall t :: 0 <= t < |s.threads| ==>
      (s.holder == By(t) <==> s.threads[t].Holding? || s.threads[t].Acted?)
  }

  /** A thread sleeps although it could go on. */
  predicate Overdue<T>(s: State<T>, t: nat)
  {
    t < |s.threads| && s.threads[t].Sleeping? && Guard(s.threads[t].op, |s.queue|)
  }

  /** The thread owes the others a `notify_all`. */
  predicate OwesNotification<T>(s: State<T>, t: nat)
  {
    t < |s.threads| && (s.threads[t].Acted? || s.threads[t].Notifying?)
  }

  ghost predicate NoLostWakeUp<T>(s: State<T>)
  {
    (exists t: nat :: Overdue(s, t)) ==> exists u: nat :: OwesNotification(s, u)
  }

  ghost predicate Invariant<T>(s: State<T>)
  {
    && MutualExclusion(s)
    && (s.holder.By? ==> s.holder.thread < |s.threads|)
    && |s.queue| <= CAPACITY
    && NoLostWakeUp(s)
    && s.pushed == Values(s.left) + s.queue
  }

  lemma HistoryStep<T>(s: State<T>, op: Operation<T>)
    requires s.pushed == Values(s.left) + s.queue && Guard(op, |s.queue|) && |s.queue| <= CAPACITY
    ensures s.pushed + Arrivals(op) == Values(s.left + Departures(op, s.queue)) + After(op, s.queue)
    ensures |After(op, s.queue)| <= CAPACITY
  {
    var out, next := Departures(op, s.queue), After(op, s.queue);
    assert Values(s.left + out) == Values(s.left) + Values(out);
    assert s.queue + Arrivals(op) == Values(out) + next by {
      if out == [] {
        assert Values(out) == [];
      } else {
        assert Values(out) == [s.queue[0]];
        assert s.queue == [s.queue[0]] + s.queue[1..];
      }
    }
    Regroup(Values(s.left), s.queue, Arrivals(op), Values(out), next);
  }

  lemma Regroup<T>(a: seq<T>, b: seq<T>, c: seq<T>, d: seq<T>, e: seq<T>)
    requires b + c == d + e
    ensures (a + b) + c == (a + d) + e
  {
    assert (a + b) + c == a + (b + c);
    assert (a + d) + e == a + (d + e);
  }

  lemma NoLostWakeUpStep<T>(s: State<T>, step: Step<T>)
    requires Invariant(s) && Enabled(s, step)
    ensures NoLostWakeUp(Apply(s, step))
  {
    var s' := Apply(s, step);
    if step.Act? || step.Unlock? {
      assert OwesNotification(s', step.thread);
    } else if !step.NotifyAll? && exists t: nat :: Overdue(s', t) {
      var t: nat :| Overdue(s', t);
      assert Overdue(s, t);
      var u: nat :| OwesNotification(s, u);
      assert OwesNotification(s', u);
    }
  }

  lemma InvariantStep<T>(s: State<T>, step: Step<T>)
    requires Invariant(s) && Enabled(s, step)
    ensures Invariant(Apply(s, step))
  {
    NoLostWakeUpStep(s, step);
    if step.Act? {
      HistoryStep(s, s.threads[step.thread].op);
    }
  }

  lemma {:induction false} InvariantHolds<T>(s: State<T>, steps: seq<Step<T>>)
    requires Invariant(s) && Runs(s, steps)
    ensures Invariant(Final(s, steps))
    decreases |steps|
  {
    if steps != [] {
      InvariantStep(s, steps[0]);
      InvariantHolds(Apply(s, steps[0]), steps[1..]);
    }
  }

  // --- Wake-ups and deadlock ---

  /**
   No wake-up is lost, in any interleaving of any number of threads: while some
   thread sleeps with a true guard, a `notify_all` is still to come; and if the
   mutex is free it is from a thread that has unlocked but not yet notified.
  */
  lemma WakeUpsAreNeverLost<T>(threads: nat, steps: seq<Step<T>>, t: nat)
    requires Runs(Init(threads), steps)
    requires Overdue(Final(Init(threads), steps), t)
    ensures var s := Final(Init(threads), steps);
      exists u: nat :: OwesNotification(s, u) && (s.holder == By(u) || s.threads[u].Notifying?)
  {
    InvariantHolds(Init(threads), steps);
    var s := Final(Init(threads), steps);
    var u: nat :| OwesNotification(s, u);
    assert s.holder == By(u) || s.threads[u].Notifying?;
  }

  /** No thread can move except by a new call or a spurious wake-up. */
  ghost predicate Blocked<T(!new)>(s: State<T>)
  {
    forall step :: Enabled(s, step) ==> step.Call? || step.WakeSpuriously?
  }

  lemma HolderCanMove<T(!new)>(s: State<T>)
    requires Invariant(s) && s.holder.By?
    ensures !Blocked(s)
  {
    var h := s.holder.thread;
    assert s.threads[h].Holding? || s.threads[h].Acted?;
    assert Enabled(s, Wait(h)) || Enabled(s, Act(h)) || Enabled(s, Unlock(h));
  }

  lemma BlockedMeansAsleep<T(!new)>(s: State<T>, t: nat)
    requires Invariant(s) && Blocked(s) && t < |s.threads|
    ensures s.holder.Free?
    ensures s.threads[t].Idle? || s.threads[t].Sleeping?
  {
    if s.holder.By? {
      HolderCanMove(s);
    }
    assert !Enabled(s, Acquire(t)) && !Enabled(s, NotifyAll(t));
  }

  lemma BlockedMeansNoneOverdue<T(!new)>(s: State<T>, t: nat)
    requires Invariant(s) && Blocked(s)
    ensures !Overdue(s, t)
  {
    if Overdue(s, t) {
      var u: nat :| OwesNotification(s, u);
      BlockedMeansAsleep(s, u);
    }
  }

  /**
   Blocked states are justified: with every thread idle or asleep, the queue is
   empty if a consumer waits and at or above the threshold of each waiting
   producer. So a consumer and a producer with a non-zero threshold never wait
   for each other, and `push` never waits.
  */
  lemma BlockedStatesAreJustified<T(!new)>(threads: nat, steps: seq<Step<T>>)
    requires Runs(Init(threads), steps) && Blocked(Final(Init(threads), steps))
    ensures var s := Final(Init(threads), steps);
      forall t :: 0 <= t < |s.threads| && s.threads[t].Sleeping? ==>
        match s.threads[t].op
        case Push(_) => false
        case PushData(_, threshold) => 0 <= threshold <= |s.queue|
        case WaitAndPopValue => s.queue == []
    ensures var s := Final(Init(threads), steps);
      forall t, u :: 0 <= t < |s.threads| && 0 <= u < |s.threads|
        && s.threads[t] == Sleeping(WaitAndPopValue)
        && s.threads[u].Sleeping? && s.threads[u].op.PushData?
        ==> s.threads[u].op.threshold == 0
  {
    InvariantHolds(Init(threads), steps);
    var s := Final(Init(threads), steps);
    forall t | 0 <= t < |s.threads| && s.threads[t].Sleeping?
      ensures !Guard(s.threads[t].op, |s.queue|)
    {
      BlockedMeansNoneOverdue(s, t);
    }
  }

  // --- Coming to rest ---

  /** Neither a new call nor a spurious wake-up: the threads go on by themselves. */
  predicate Internal<T>(step: Step<T>)
  {
    !step.Call? && !step.WakeSpuriously?
  }

  /** How far a phase is from rest; a call under way weighs `unit` more. */
  function Weight<T>(phase: Phase<T>, unit: nat): nat
  {
    match phase
    case Idle => 0
    case Entering(_) => unit + 4
    case Holding(_) => unit + 3
    case Sleeping(_) => unit
    case Acted => unit + 2
    case Notifying => unit + 1
  }

  /** The weight of the first k threads. */
  function Total<T>(threads: seq<Phase<T>>, unit: nat, k: nat): nat
    requires k <= |threads|
  {
    if k == 0 then 0 else Total(threads, unit, k - 1) + Weight(threads[k - 1], unit)
  }

  /** A bound on the steps that are left without new calls and spurious wake-ups. */
  function Distance<T>(s: State<T>): nat
  {
    Total(s.threads, 4 * |s.threads| + 1, |s.threads|)
  }

  lemma {:induction false} UpdateTotal<T>(threads: seq<Phase<T>>, t: nat, phase: Phase<T>, unit: nat, k: nat)
    requires t < |threads| && k <= |threads|
    ensures Total(threads[t := phase], unit, k)
         == Total(threads, unit, k) + if t < k then Weight(phase, unit) - Weight(threads[t], unit) else 0
  {
    if k > 0 {
      UpdateTotal(threads, t, phase, unit, k - 1);
    }
  }

  lemma {:induction false} WakeTotal<T>(before: seq<Phase<T>>, after: seq<Phase<T>>, t: nat, unit: nat, k: nat)
    requires |before| == |after| && t < |before| && k <= |before| && before[t].Notifying?
    requires forall i :: 0 <= i < |before| ==> after[i] == if i == t then Idle else Woken(before[i])
    ensures Total(after, unit, k) <= Total(before, unit, k) + 4 * k - if t < k then unit else 0
  {
    if k > 0 {
      WakeTotal(before, after, t, unit, k - 1);
    }
  }

  /** Every internal step, a notification that wakes all sleepers included, comes closer to rest. */
  lemma InternalStepCloser<T>(s: State<T>, step: Step<T>)
    requires Enabled(s, step) && Internal(step)
    ensures Distance(Apply(s, step)) < Distance(s)
  {
    var s', n, t := Apply(s, step), |s.threads|, step.thread;
    if step.NotifyAll? {
      WakeTotal(s.threads, s'.threads, t, 4 * n + 1, n);
    } else {
      UpdateTotal(s.threads, t, s'.threads[t], 4 * n + 1, n);
    }
  }

  /**
   No livelock: from any state, a run without new calls and spurious wake-ups is
   finite, whatever the scheduler does; waking each other up does not go on for ever.
  */
  lemma {:induction false} InternalRunsAreFinite<T>(s: State<T>, steps: seq<Step<T>>)
    requires Runs(s, steps) && forall step <- steps :: Internal(step)
    ensures |steps| + Distance(Final(s, steps)) <= Distance(s)
    decreases |steps|
  {
    if steps != [] {
      InternalStepCloser(s, steps[0]);
      InternalRunsAreFinite(Apply(s, steps[0]), steps[1..]);
    }
  }

  /** Any such run can go on until nothing but new calls and spurious wake-ups is left. */
  lemma {:induction false} RestIsReached<T(!new)>(s: State<T>) returns (steps: seq<Step<T>>)
    ensures Runs(s, steps) && Blocked(Final(s, steps)) && forall step <- steps :: Internal(step)
    decreases Distance(s)
  {
    if Blocked(s) {
      steps := [];
    } else {
      var step :| Enabled(s, step) && Internal(step);
      InternalStepCloser(s, step);
      var rest := RestIsReached(Apply(s, step));
      steps := [step] + rest;
      assert steps[1..] == rest;
    }
  }

  lemma {:induction false} RunOn<T>(s: State<T>, a: seq<Step<T>>, b: seq<Step<T>>)
    requires Runs(s, a) && Runs(Final(s, a), b)
    ensures Runs(s, a + b) && Final(s, a + b) == Final(Final(s, a), b)
    decreases |a|
  {
    if a == [] {
      assert a + b == b;
    } else {
      assert (a + b)[1..] == a[1..] + b;
      RunOn(Apply(s, a[0]), a[1..], b);
    }
  }

  /**
   After any run, with no further calls the threads come to rest within `Distance`
   steps, and then everybody still waiting has a reason to.
  */
  lemma EveryRunComesToRest<T(!new)>(threads: nat, steps: seq<Step<T>>) returns (rest: seq<Step<T>>)
    requires Runs(Init(threads), steps)
    ensures Runs(Init(threads), steps + rest) && |rest| <= Distance(Final(Init(threads), steps))
    ensures forall step <- rest :: Internal(step)
    ensures var s := Final(Init(threads), steps + rest);
      Blocked(s) && forall t :: 0 <= t < |s.threads| && s.threads[t].Sleeping? ==> !Guard(s.threads[t].op, |s.queue|)
  {
    rest := RestIsReached(Final(Init(threads), steps));
    InternalRunsAreFinite(Final(Init(threads), steps), rest);
    RunOn(Init(threads), steps, rest);
    BlockedStatesAreJustified(threads, steps + rest);
  }

  // --- One call from beginning to end ---

  /**
   A call on its own: with the mutex free, it either takes effect at once and wakes
   everybody who sleeps, or its thread falls asleep with the queue untouched.
  */
  lemma CallRuns<T>(s: State<T>, t: nat, op: Operation<T>)
    requires t < |s.threads| && s.threads[t].Idle? && s.holder.Free?
    ensures Guard(op, |s.queue|) ==>
      var steps := [Call(t, op), Acquire(t), Act(t), Unlock(t), NotifyAll(t)];
      Runs(s, steps) && Final(s, steps) == s.(queue := After(op, s.queue), pushed := s.pushed + Arrivals(op),
        left := s.left + Departures(op, s.queue),
        threads := seq(|s.threads|, i requires 0 <= i < |s.threads| =>
          if s.threads[i].Sleeping? then Entering(s.threads[i].op) else s.threads[i]))
    ensures !Guard(op, |s.queue|) ==>
      var steps := [Call(t, op), Acquire(t), Wait(t)];
      Runs(s, steps) && Final(s, steps) == s.(threads := s.threads[t := Sleeping(op)])
  {
    if Guard(op, |s.queue|) {
      FiveSteps(s, t, op);
    } else {
      var s1 := Apply(s, Call(t, op));
      var s2 := Apply(s1, Acquire(t));
      var s3 := Apply(s2, Wait(t));
      RunsOfThree(s, s1, s2, s3, Call(t, op), Acquire(t), Wait(t));
      assert s3.threads == s.threads[t := Sleeping(op)];
    }
  }

  lemma FiveSteps<T>(s: State<T>, t: nat, op: Operation<T>)
    requires t < |s.threads| && s.threads[t].Idle? && s.holder.Free? && Guard(op, |s.queue|)
    ensures var steps := [Call(t, op), Acquire(t), Act(t), Unlock(t), NotifyAll(t)];
      Runs(s, steps) && Final(s, steps) == s.(queue := After(op, s.queue), pushed := s.pushed + Arrivals(op),
        left := s.left + Departures(op, s.queue),
        threads := seq(|s.threads|, i requires 0 <= i < |s.threads| =>
          if s.threads[i].Sleeping? then Entering(s.threads[i].op) else s.threads[i]))
  {
    var s1 := Apply(s, Call(t, op));
    var s2 := Apply(s1, Acquire(t));
    var s3 := Apply(s2, Act(t));
    var s4 := Apply(s3, Unlock(t));
    var s5 := Apply(s4, NotifyAll(t));
    RunsOfTwo(s3, s4, s5, Unlock(t), NotifyAll(t));
    RunsOfThree(s, s1, s2, s3, Call(t, op), Acquire(t), Act(t));
    RunOn(s, [Call(t, op), Acquire(t), Act(t)], [Unlock(t), NotifyAll(t)]);
    assert [Call(t, op), Acquire(t), Act(t), Unlock(t), NotifyAll(t)] == [Call(t, op), Acquire(t), Act(t)] + [Unlock(t), NotifyAll(t)];
  }

  lemma RunsOfTwo<T>(s: State<T>, s1: State<T>, s2: State<T>, a: Step<T>, b: Step<T>)
    requires Enabled(s, a) && s1 == Apply(s, a) && Enabled(s1, b) && s2 == Apply(s1, b)
    ensures Runs(s, [a, b]) && Final(s, [a, b]) == s2
  {
    assert [a, b][1..] == [b] && [b][1..] == [];
    assert Runs(s1, [b]) && Final(s1, [b]) == s2;
  }

  lemma RunsOfThree<T>(s: State<T>, s1: State<T>, s2: State<T>, s3: State<T>, a: Step<T>, b: Step<T>, c: Step<T>)
    requires Enabled(s, a) && s1 == Apply(s, a) && Enabled(s1, b) && s2 == Apply(s1, b) && Enabled(s2, c) && s3 == Apply(s2, c)
    ensures Runs(s, [a, b, c]) && Final(s, [a, b, c]) == s3
  {
    assert [a, b, c][1..] == [b, c];
    RunsOfTwo(s1, s2, s3, b, c);
  }

  /** A thread that wakes up for nothing tests again and goes back to sleep; nothing has changed. */
  lemma WakingForNothing<T>(s: State<T>, t: nat)
    requires t < |s.threads| && s.threads[t].Sleeping? && !Overdue(s, t) && s.holder.Free?
    ensures Runs(s, [WakeSpuriously(t), Acquire(t), Wait(t)]) && Final(s, [WakeSpuriously(t), Acquire(t), Wait(t)]) == s
  {
    var s1 := Apply(s, WakeSpuriously(t));
    var s2 := Apply(s1, Acquire(t));
    var s3 := Apply(s2, Wait(t));
    RunsOfThree(s, s1, s2, s3, WakeSpuriously(t), Acquire(t), Wait(t));
    assert s3.threads == s.threads;
  }

  // --- Order, loss and size ---

  predicate IsBoundedCall<T>(step: Step<T>, limit: nat)
  {
    step.Call? ==> step.op.WaitAndPopValue? || (step.op.PushData? && 0 <= step.op.threshold <= limit)
  }

  predicate OperationOf<T>(phase: Phase<T>, limit: nat)
  {
    phase.Entering? || phase.Holding? || phase.Sleeping? ==>
      phase.op.WaitAndPopValue? || (phase.op.PushData? && 0 <= phase.op.threshold <= limit)
  }

  ghost predicate WithoutLoss<T>(s: State<T>, limit: nat)
  {
    && |s.queue| <= limit
    && (forall t :: 0 <= t < |s.threads| ==> OperationOf(s.threads[t], limit))
    && (forall d <- s.left :: d.popped)
  }

  lemma {:induction false} WithoutLossHolds<T>(s: State<T>, steps: seq<Step<T>>, limit: nat)
    requires limit <= 10000 && WithoutLoss(s, limit) && Runs(s, steps)
    requires forall step <- steps :: IsBoundedCall(step, limit)
    ensures WithoutLoss(Final(s, steps), limit)
    decreases |steps|
  {
    if steps != [] {
      assert IsBoundedCall(steps[0], limit);
      WithoutLossHolds(Apply(s, steps[0]), steps[1..], limit);
    }
  }

  /**
   First in, first out, without loss: if every producer uses `pushData` with
   thresholds up to some limit within the capacity, then in every run what was
   popped, followed by the queue, is what was pushed, in the order the mutex was
   held; the queue never exceeds the limit.
  */
  lemma FifoWithoutLoss<T>(threads: nat, steps: seq<Step<T>>, limit: nat)
    requires limit <= 10000 && Runs(Init(threads), steps)
    requires forall step <- steps :: step.Call? ==>
      step.op.WaitAndPopValue? || (step.op.PushData? && 0 <= step.op.threshold <= limit)
    ensures var s := Final(Init(threads), steps);
      && |s.queue| <= limit
      && (forall d <- s.left :: d.popped)
      && Values(s.left) + s.queue == s.pushed
  {
    InvariantHolds(Init(threads), steps);
    assert forall step <- steps :: IsBoundedCall(step, limit);
    WithoutLossHolds(Init(threads), steps, limit);
  }

  /**
   With `push` in use too, or thresholds beyond the capacity: elements still
   leave in the order they came, so what remains is the end of the history; and
   an enqueue overwrites something exactly when the buffer is full, namely the
   oldest element.
  */
  lemma LossIsOfTheOldest<T>(threads: nat, steps: seq<Step<T>>, t: nat)
    requires Runs(Init(threads), steps)
    requires Enabled(Final(Init(threads), steps), Act(t))
    ensures var s := Final(Init(threads), steps);
      s.pushed == Values(s.left) + s.queue
    ensures var s := Final(Init(threads), steps);
      var left := Apply(s, Act(t)).left;
      (|left| > |s.left| && !left[|s.left|].popped)
      <==> !s.threads[t].op.WaitAndPopValue? && |s.queue| == 10000
    ensures var s := Final(Init(threads), steps);
      var s' := Apply(s, Act(t));
      !s.threads[t].op.WaitAndPopValue? && |s.queue| == 10000 ==>
        s'.left == s.left + [Departure(s.queue[0], false)] && s'.queue == s.queue[1..] + [s.threads[t].op.value]
  {
    InvariantHolds(Init(threads), steps);
  }

  // --- Calls are not lost ---

  /** The operation pushes this value. */
  predicate PushesValue<T(==)>(op: Operation<T>, value: T)
  {
    !op.WaitAndPopValue? && op.value == value
  }

  /** The thread is still in its call: it has not acted yet. */
  predicate StillIn<T>(phase: Phase<T>)
  {
    phase.Entering? || phase.Holding? || phase.Sleeping?
  }

  /** How many of the first k threads are still in a push of the value, or, without a value, in a pop. */
  function InCall<T(==)>(threads: seq<Phase<T>>, value: Option<T>, k: nat): nat
    requires k <= |threads|
  {
    if k == 0 then 0 else InCall(threads, value, k - 1) + if IsIn(threads[k - 1], value) then 1 else 0
  }

  predicate IsIn<T(==)>(phase: Phase<T>, value: Option<T>)
  {
    StillIn(phase) && Matches(phase.op, value)
  }

  predicate Matches<T(==)>(op: Operation<T>, value: Option<T>)
  {
    if value.Some? then PushesValue(op, value.value) else op.WaitAndPopValue?
  }

  /** How many calls of this kind were made. */
  function Calls<T(==)>(steps: seq<Step<T>>, value: Option<T>): nat
    decreases |steps|
  {
    if steps == [] then 0
    else (if steps[0].Call? && Matches(steps[0].op, value) then 1 else 0) + Calls(steps[1..], value)
  }

  /** How many elements were popped. */
  function Popped<T>(left: seq<Departure<T>>): nat
  {
    if left == [] then 0
    else Popped(left[..|left| - 1]) + if left[|left| - 1].popped then 1 else 0
  }

  /** What the calls of this kind that are no longer under way have done. */
  function Done<T(==)>(s: State<T>, value: Option<T>): nat
  {
    if value.Some? then multiset(s.pushed)[value.value] else Popped(s.left)
  }

  lemma {:induction false} UpdateInCall<T>(threads: seq<Phase<T>>, t: nat, phase: Phase<T>, value: Option<T>, k: nat)
    requires t < |threads| && k <= |threads|
    ensures InCall(threads[t := phase], value, k) + (if t < k && IsIn(threads[t], value) then 1 else 0)
         == InCall(threads, value, k) + if t < k && IsIn(phase, value) then 1 else 0
  {
    if k > 0 {
      UpdateInCall(threads, t, phase, value, k - 1);
    }
  }

  /** Waking a thread leaves it in its call. */
  lemma {:induction false} WakeInCall<T>(before: seq<Phase<T>>, after: seq<Phase<T>>, t: nat, value: Option<T>, k: nat)
    requires |before| == |after| && t < |before| && k <= |before| && before[t].Notifying?
    requires forall i :: 0 <= i < |before| ==> after[i] == if i == t then Idle else Woken(before[i])
    ensures InCall(after, value, k) == InCall(before, value, k)
  {
    if k > 0 {
      WakeInCall(before, after, t, value, k - 1);
    }
  }

  lemma ActDoes<T>(s: State<T>, op: Operation<T>, value: Option<T>)
    requires Guard(op, |s.queue|)
    ensures var s' := s.(pushed := s.pushed + Arrivals(op), left := s.left + Departures(op, s.queue));
      Done(s', value) == Done(s, value) + if Matches(op, value) then 1 else 0
  {
    var out := Departures(op, s.queue);
    if value.None? && out != [] {
      assert (s.left + out)[..|s.left|] == s.left;
    } else if value.None? {
      assert s.left + out == s.left;
    }
  }

  lemma CallsStep<T>(s: State<T>, step: Step<T>, value: Option<T>)
    requires Enabled(s, step)
    ensures var s' := Apply(s, step);
      Done(s', value) + InCall(s'.threads, value, |s'.threads|)
      == Done(s, value) + InCall(s.threads, value, |s.threads|) + if step.Call? && Matches(step.op, value) then 1 else 0
  {
    var s', n, t := Apply(s, step), |s.threads|, step.thread;
    if step.NotifyAll? {
      WakeInCall(s.threads, s'.threads, t, value, n);
    } else {
      UpdateInCall(s.threads, t, s'.threads[t], value, n);
      if step.Act? {
        ActDoes(s, s.threads[t].op, value);
      }
    }
  }

  lemma {:induction false} CallsHold<T>(s: State<T>, steps: seq<Step<T>>, value: Option<T>)
    requires Runs(s, steps)
    ensures var s' := Final(s, steps);
      Done(s', value) + InCall(s'.threads, value, |s'.threads|)
      == Done(s, value) + InCall(s.threads, value, |s.threads|) + Calls(steps, value)
    decreases |steps|
  {
    if steps != [] {
      CallsStep(s, steps[0], value);
      CallsHold(Apply(s, steps[0]), steps[1..], value);
    }
  }

  lemma {:induction false} NobodyInCall<T>(threads: nat, value: Option<T>, k: nat)
    requires k <= threads
    ensures InCall(Init<T>(threads).threads, value, k) == 0
  {
    if k > 0 {
      NobodyInCall(threads, value, k - 1);
    }
  }

  /**
   No call is lost, whatever it waited for: each value was pushed as often as calls
   with it were made, but for the threads still in such a call.
  */
  lemma EveryPushArrives<T>(threads: nat, steps: seq<Step<T>>, value: T)
    requires Runs(Init(threads), steps)
    ensures var s := Final(Init(threads), steps);
      multiset(s.pushed)[value] + InCall(s.threads, Some(value), |s.threads|) == Calls(steps, Some(value))
  {
    CallsHold(Init(threads), steps, Some(value));
    NobodyInCall(threads, Some(value), threads);
  }

  /** And one element was popped for each call of a pop, but for the threads still in one. */
  lemma EveryPopIsServed<T>(threads: nat, steps: seq<Step<T>>)
    requires Runs(Init(threads), steps)
    ensures var s := Final(Init(threads), steps);
      Popped(s.left) + InCall(s.threads, None, |s.threads|) == Calls(steps, None)
  {
    CallsHold(Init<T>(threads), steps, None);
    NobodyInCall<T>(threads, None, threads);
  }
}
