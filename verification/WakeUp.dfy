/** The condition-variable protocol of the logic queue, step by step.

    Any number of I/O threads post, one worker waits and takes, and one thread stops the
    system. A step is one action on the mutex, the condition variable, the queue or the stop
    flag, so every interleaving of those actions is a run. The stop flag is set and its
    notification sent without the mutex. `underLock` tells whether a producer notifies before
    it releases the mutex (Server-version-3) or after it (Server-version-3-multi-thread). */
module WakeUp {
  import opened Messages

  datatype ProducerPc =
    | Outside                        // not posting
    | Locked(msg: Msg)               // holds the mutex, about to push
    | Pushed(notify: bool)           // holds the mutex, has pushed; `notify`: the queue was empty
    | Notifying                      // has released the mutex, about to notify

  datatype WorkerPc =
    | Top                            // about to lock the mutex
    | Testing                        // holds the mutex, about to test `empty && !stop`
    | WillWait                       // holds the mutex, has found it true
    | Asleep                         // in `wait`, mutex released
    | Woken                          // in `wait`, about to lock the mutex again
    | Tested                         // holds the mutex, has left the wait loop
    | Serving                        // holds the mutex, about to take one message
    | Draining                       // holds the mutex, emptying the queue after stop
    | Exited

  datatype StopperPc = Running | FlagSet | Done

  datatype Owner = Nobody | Worker | Producer(p: nat)

  datatype State = State(
    underLock: bool,
    owner: Owner,
    worker: WorkerPc,
    producers: seq<ProducerPc>,
    stopper: StopperPc,
    stop: bool,
    queue: seq<Msg>,
    posted: seq<Msg>,                // history: everything pushed
    disposed: seq<Msg>,              // history: everything taken
    missed: bool)                    // history: stop notified between the worker's test and its wait

  datatype Step =
    | Lock(p: nat, msg: Msg) | Push(p: nat) | Unlock(p: nat) | Notify(p: nat)
    | Acquire | Test | Wait | Spurious | Decide | Serve | Drain | Exit
    | SetStop | NotifyStop

  function Initial(n: nat, underLock: bool): State
  {
    State(underLock, Nobody, Top, seq(n, _ => Outside), Running, false, [], [], [], false)
  }

  predicate Enabled(s: State, t: Step)
  {
    match t
    case Lock(p, _) => p < |s.producers| && s.producers[p] == Outside && s.owner == Nobody
    case Push(p) => p < |s.producers| && s.producers[p].Locked?
    case Unlock(p) => p < |s.producers| && s.producers[p].Pushed? && !(s.underLock && s.producers[p].notify)
    case Notify(p) => p < |s.producers| &&
      if s.underLock then s.producers[p] == Pushed(true) else s.producers[p] == Notifying
    case Acquire => (s.worker == Top || s.worker == Woken) && s.owner == Nobody
    case Test => s.worker == Testing
    case Wait => s.worker == WillWait
    case Spurious => s.worker == Asleep
    case Decide => s.worker == Tested
    case Serve => s.worker == Serving
    case Drain => s.worker == Draining && s.queue != []
    case Exit => s.worker == Draining && s.queue == []
    case SetStop => s.stopper == Running
    case NotifyStop => s.stopper == FlagSet
  }

  /** `notify_one`: the worker is the only thread that ever waits. */
  function Wake(w: WorkerPc): WorkerPc
  {
    if w == Asleep then Woken else w
  }

  function Take(s: State): State
  {
    if s.queue == [] then s
    else s.(queue := s.queue[1..], disposed := s.disposed + [s.queue[0]])
  }

  function Next(s: State, t: Step): State
    requires Enabled(s, t)
  {
    match t
    case Lock(p, msg) =>
      s.(owner := Producer(p), producers := s.producers[p := Locked(msg)])
    case Push(p) =>
      var m := s.producers[p].msg;
      s.(queue := s.queue + [m], posted := s.posted + [m],
         producers := s.producers[p := Pushed(|s.queue + [m]| == 1)])
    case Unlock(p) =>
      s.(owner := Nobody, producers := s.producers[p := if s.producers[p].notify then Notifying else Outside])
    case Notify(p) =>
      s.(worker := Wake(s.worker), producers := s.producers[p := if s.underLock then Pushed(false) else Outside])
    case Acquire => s.(owner := Worker, worker := Testing)
    case Test => s.(worker := if s.queue == [] && !s.stop then WillWait else Tested)
    case Wait => s.(owner := Nobody, worker := Asleep)
    case Spurious => s.(worker := Woken)
    case Decide => s.(worker := if s.stop then Draining else Serving)
    case Serve => Take(s).(owner := Nobody, worker := Top)
    case Drain => Take(s)
    case Exit => s.(owner := Nobody, worker := Exited)
    case SetStop => s.(stop := true, stopper := FlagSet)
    case NotifyStop => s.(worker := Wake(s.worker), stopper := Done, missed := s.worker == WillWait)
  }

  /** A run: each step is enabled where it is taken. */
  ghost predicate IsRun(s: State, ts: seq<Step>, s': State)
    decreases |ts|
  {
    if ts == [] then s == s'
    else Enabled(s, ts[0]) && IsRun(Next(s, ts[0]), ts[1..], s')
  }

  // ------------------------------------------------------------------ invariant

  predicate HoldsLock(w: WorkerPc)
  {
    w.Testing? || w.WillWait? || w.Tested? || w.Serving? || w.Draining?
  }

  /** The owner of the mutex is the one thread inside a critical section. */
  predicate Mutex(s: State)
  {
    && (s.owner == Worker <==> HoldsLock(s.worker))
    && (forall p :: 0 <= p < |s.producers| ==>
          (s.owner == Producer(p) <==> s.producers[p].Locked? || s.producers[p].Pushed?))
    && (s.owner.Producer? ==> s.owner.p < |s.producers|)
  }

  /** Producer `p` has pushed and has still to notify. */
  predicate Owes(s: State, p: nat)
  {
    p < |s.producers| && (s.producers[p] == Pushed(true) || s.producers[p] == Notifying)
  }

  predicate WorkerKnows(s: State)
  {
    && (s.worker.WillWait? ==> s.queue == [])
    && (s.worker.Tested? ==> s.queue != [] || s.stop)
    && (s.worker.Serving? ==> s.queue != [])
    && (s.worker.Draining? || s.worker.Exited? ==> s.stop)
    && (s.stop <==> s.stopper != Running)
    && (s.underLock ==> forall p :: 0 <= p < |s.producers| ==> s.producers[p] != Notifying)
  }

  /** No lost wake-up: a sleeping worker with work queued has a notification coming. */
  ghost predicate NoLostWakeUp(s: State)
  {
    s.worker == Asleep && s.queue != [] ==> exists p :: Owes(s, p)
  }

  /** Everything pushed is taken once, in order. */
  predicate Fifo(s: State)
  {
    s.posted == s.disposed + s.queue
  }

  /** The stop notification is wasted only on a worker between its test and its wait. */
  predicate StopSeen(s: State)
  {
    && (s.stopper == Done && (s.worker == WillWait || s.worker == Asleep) ==> s.missed)
    && (s.missed ==> s.stopper == Done)
  }

  ghost predicate Inv(s: State)
  {
    Mutex(s) && WorkerKnows(s) && NoLostWakeUp(s) && Fifo(s) && StopSeen(s)
  }

  lemma NextKeepsMutex(s: State, t: Step)
    requires Mutex(s) && Enabled(s, t)
    ensures Mutex(Next(s, t))
  {
  }

  lemma NextKeepsKnowledge(s: State, t: Step)
    requires Mutex(s) && WorkerKnows(s) && Enabled(s, t)
    ensures WorkerKnows(Next(s, t))
  {
  }

  lemma NextKeepsLocal(s: State, t: Step)
    requires Inv(s) && Enabled(s, t)
    ensures Mutex(Next(s, t)) && WorkerKnows(Next(s, t)) && StopSeen(Next(s, t))
  {
    NextKeepsMutex(s, t);
    NextKeepsKnowledge(s, t);
  }

  lemma NextKeepsFifo(s: State, t: Step)
    requires Inv(s) && Enabled(s, t)
    ensures Fifo(Next(s, t))
  {
    if t.Push? {
      assert s.disposed + (s.queue + [s.producers[t.p].msg]) == s.disposed + s.queue + [s.producers[t.p].msg];
    } else if (t.Serve? || t.Drain?) && s.queue != [] {
      assert s.disposed + [s.queue[0]] + s.queue[1..] == s.disposed + s.queue;
    }
  }

  lemma NextKeepsWakeUp(s: State, t: Step)
    requires Inv(s) && Enabled(s, t)
    ensures NoLostWakeUp(Next(s, t))
  {
    var s' := Next(s, t);
    if s'.worker == Asleep && s'.queue != [] {
      if t.Push? && s.queue == [] {
        assert Owes(s', t.p);
      } else {
        var p :| Owes(s, p);
        assert Owes(s', p);
      }
    }
  }

  lemma NextKeeps(s: State, t: Step)
    requires Inv(s) && Enabled(s, t)
    ensures Inv(Next(s, t))
  {
    NextKeepsLocal(s, t);
    NextKeepsFifo(s, t);
    NextKeepsWakeUp(s, t);
  }

  lemma {:induction false} RunKeeps(s: State, ts: seq<Step>, s': State)
    requires Inv(s) && IsRun(s, ts, s')
    ensures Inv(s') && s'.underLock == s.underLock && |s'.producers| == |s.producers|
    decreases |ts|
  {
    if ts != [] {
      NextKeeps(s, ts[0]);
      RunKeeps(Next(s, ts[0]), ts[1..], s');
    }
  }

  // ------------------------------------------------------------------ what the steps say
  //
  // These functions look at the steps of a run only and know nothing of the state.

  /** The messages brought to the queue, in the order in which their producers locked it. */
  function Offered(ts: seq<Step>): seq<Msg>
  {
    if ts == [] then []
    else
      var t := ts[|ts| - 1];
      Offered(ts[..|ts| - 1]) + if t.Lock? then [t.msg] else []
  }

  function Pushes(ts: seq<Step>): nat
  {
    if ts == [] then 0 else Pushes(ts[..|ts| - 1]) + if ts[|ts| - 1].Push? then 1 else 0
  }

  /** How often the worker took a message. */
  function Takes(ts: seq<Step>): nat
  {
    if ts == [] then 0
    else Takes(ts[..|ts| - 1]) + if ts[|ts| - 1].Serve? || ts[|ts| - 1].Drain? then 1 else 0
  }

  /** Everything offered has been posted, in order, except the message of a producer that
      still has to push it; what was taken is the first part of it, one message for each
      step that takes. */
  predicate Told(ts: seq<Step>, s: State)
  {
    && (s.owner.Producer? && s.owner.p < |s.producers| && s.producers[s.owner.p].Locked? ==>
          Offered(ts) == s.posted + [s.producers[s.owner.p].msg])
    && (!(s.owner.Producer? && s.owner.p < |s.producers| && s.producers[s.owner.p].Locked?) ==>
          Offered(ts) == s.posted)
    && |s.posted| == Pushes(ts) && |s.disposed| == Takes(ts)
    && (s.stop <==> SetStop in ts) && (s.stopper == Done <==> NotifyStop in ts)
  }

  lemma StepTold(s: State, ts: seq<Step>, t: Step)
    requires Inv(s) && Enabled(s, t) && Told(ts, s)
    ensures Told(ts + [t], Next(s, t))
  {
    assert (ts + [t])[..|ts + [t]| - 1] == ts;
  }

  /** The last step of a run and the state before it. */
  lemma {:induction false} RunLast(a: State, ts: seq<Step>, c: State) returns (b: State)
    requires IsRun(a, ts, c) && ts != []
    ensures var past, t := ts[..|ts| - 1], ts[|ts| - 1];
      ts == past + [t] && IsRun(a, past, b) && Enabled(b, t) && Next(b, t) == c
    decreases |ts|
  {
    if |ts| == 1 {
      b := a;
    } else {
      b := RunLast(Next(a, ts[0]), ts[1..], c);
      assert ts[..|ts| - 1][1..] == ts[1..][..|ts| - 2];
    }
  }

  lemma {:induction false} RunTold(n: nat, underLock: bool, ts: seq<Step>, s: State)
    requires IsRun(Initial(n, underLock), ts, s)
    ensures Told(ts, s)
    decreases |ts|
  {
    if ts != [] {
      var before := RunLast(Initial(n, underLock), ts, s);
      RunTold(n, underLock, ts[..|ts| - 1], before);
      RunKeeps(Initial(n, underLock), ts[..|ts| - 1], before);
      StepTold(before, ts[..|ts| - 1], ts[|ts| - 1]);
    }
  }

  /** After every run: mutual exclusion and no lost wake-up; the messages offered, in the order
      of locking, are those posted and then the one, if any, that a producer has still to
      push; and each step that takes a message takes the next of them. */
  lemma Safety(n: nat, underLock: bool, ts: seq<Step>, s: State)
    requires IsRun(Initial(n, underLock), ts, s)
    ensures Inv(s)
    ensures forall p | 0 <= p < |s.producers| && s.producers[p].Locked? :: Offered(ts) == s.posted + [s.producers[p].msg]
    ensures (forall p | 0 <= p < |s.producers| :: !s.producers[p].Locked?) ==> Offered(ts) == s.posted
    ensures s.posted == s.disposed + s.queue && |s.posted| == Pushes(ts) && |s.disposed| == Takes(ts)
    ensures forall i :: Of(s.posted, i) == Of(s.disposed, i) + Of(s.queue, i)
  {
    RunKeeps(Initial(n, underLock), ts, s);
    RunTold(n, underLock, ts, s);
    forall i ensures Of(s.posted, i) == Of(s.disposed, i) + Of(s.queue, i) {
      OfAppend(s.disposed, s.queue, i);
    }
  }

  /** Notifying under the lock leaves no gap at all: with the mutex free, a sleeping worker
      means an empty queue. */
  lemma NoGapUnderLock(n: nat, ts: seq<Step>, s: State)
    requires IsRun(Initial(n, true), ts, s) && s.owner == Nobody && s.worker == Asleep
    ensures s.queue == []
  {
    RunKeeps(Initial(n, true), ts, s);
  }

  // ------------------------------------------------------------------ progress

  /** Steps that threads already under way take by themselves: no new message, no spurious
      wake-up, no help from the stopping thread. */
  predicate OwnStep(t: Step)
  {
    !t.Lock? && !t.Spurious? && !t.SetStop? && !t.NotifyStop?
  }

  predicate OwnSteps(ts: seq<Step>)
  {
    forall t | t in ts :: OwnStep(t)
  }

  lemma RunCons(s: State, t: Step, ts: seq<Step>, s': State)
    requires OwnStep(t) && Enabled(s, t) && IsRun(Next(s, t), ts, s') && OwnSteps(ts)
    ensures IsRun(s, [t] + ts, s') && OwnSteps([t] + ts)
  {
    assert ([t] + ts)[1..] == ts;
  }

  /** What the mutex owner among the producers has still to do under the mutex. */
  function LockRank(s: State): nat
  {
    if !s.owner.Producer? || s.owner.p >= |s.producers| then 0
    else match s.producers[s.owner.p]
      case Locked(_) => 3
      case Pushed(notify) => if notify then 2 else 1
      case _ => 0
  }

  /** How far the worker is from taking a message. */
  function ServeRank(w: WorkerPc): nat
  {
    match w
    case Serving => 1
    case Draining => 1
    case Tested => 2
    case Testing => 3
    case Top => 4
    case Woken => 4
    case _ => 5
  }

  /** With work queued some thread under way can take a step towards its delivery. */
  lemma HelpfulStep(s: State) returns (t: Step)
    requires Inv(s) && s.queue != [] && s.worker != Exited
    ensures OwnStep(t) && Enabled(s, t)
    ensures if t.Serve? || t.Drain? then Next(s, t).disposed == s.disposed + [s.queue[0]]
      else
        && Next(s, t).disposed == s.disposed && s.queue <= Next(s, t).queue && Next(s, t).worker != Exited
        && 4 * ServeRank(Next(s, t).worker) + LockRank(Next(s, t)) < 4 * ServeRank(s.worker) + LockRank(s)
  {
    match s.owner
    case Producer(p) =>
      t := match s.producers[p]
        case Locked(_) => Push(p)
        case Pushed(notify) => if s.underLock && notify then Notify(p) else Unlock(p)
        case _ => Unlock(p);
    case Worker =>
      t := match s.worker
        case Testing => Test
        case Tested => Decide
        case Serving => Serve
        case _ => Drain;
    case Nobody =>
      if s.worker == Asleep {
        var p :| Owes(s, p);
        t := Notify(p);
      } else {
        t := Acquire;
      }
  }

  /** From every reachable state with work queued and a worker that has not exited, the
      threads already under way can deliver the front message, in a bounded number of steps:
      the system never comes to rest with a message in the queue. */
  lemma {:induction false} CanDeliver(s: State) returns (ts: seq<Step>, s': State)
    requires Inv(s) && s.queue != [] && s.worker != Exited
    ensures IsRun(s, ts, s') && OwnSteps(ts) && |ts| <= 4 * ServeRank(s.worker) + LockRank(s)
    ensures s'.disposed == s.disposed + [s.queue[0]]
    decreases 4 * ServeRank(s.worker) + LockRank(s)
  {
    var t := HelpfulStep(s);
    if t.Serve? || t.Drain? {
      ts, s' := [], Next(s, t);
    } else {
      NextKeeps(s, t);
      ts, s' := CanDeliver(Next(s, t));
    }
    RunCons(s, t, ts, s');
    ts := [t] + ts;
  }

  /** What producers under way have still to do, at most. */
  function ResidualOf(p: ProducerPc): nat
  {
    match p
    case Outside => 0
    case Notifying => 1
    case Pushed(notify) => if notify then 2 else 1
    case Locked(_) => 4
  }

  function Residual(ps: seq<ProducerPc>): nat
  {
    if ps == [] then 0 else ResidualOf(ps[0]) + Residual(ps[1..])
  }

  lemma {:induction false} ResidualBound(ps: seq<ProducerPc>)
    ensures Residual(ps) <= 4 * |ps|
  {
    if ps != [] {
      ResidualBound(ps[1..]);
    }
  }

  lemma {:induction false} ResidualUpdate(ps: seq<ProducerPc>, p: nat, pc: ProducerPc)
    requires p < |ps|
    ensures Residual(ps[p := pc]) == Residual(ps) - ResidualOf(ps[p]) + ResidualOf(pc)
  {
    var qs := ps[p := pc];
    if p == 0 {
      assert qs[1..] == ps[1..];
    } else {
      assert qs[1..] == ps[1..][p - 1 := pc];
      ResidualUpdate(ps[1..], p - 1, pc);
    }
  }

  /** An own step moves one producer on, or none. */
  lemma OwnStepResidual(s: State, t: Step)
    requires OwnStep(t) && Enabled(s, t)
    ensures var r, r' := Residual(s.producers), Residual(Next(s, t).producers);
      if t.Push? then r' + 2 <= r else if t.Unlock? || t.Notify? then r' < r else r' == r
  {
    if t.Push? || t.Unlock? || t.Notify? {
      ResidualUpdate(s.producers, t.p, Next(s, t).producers[t.p]);
    }
  }

  function DeliveryBound(s: State): nat
  {
    Residual(s.producers) + ServeRank(s.worker)
  }

  /** With work queued, every own step takes the front message or brings it nearer. */
  lemma DeliveryStep(s: State, t: Step)
    requires Inv(s) && s.queue != [] && s.worker != Exited && OwnStep(t) && Enabled(s, t)
    ensures var s' := Next(s, t);
      if t.Serve? || t.Drain? then s'.disposed == s.disposed + [s.queue[0]]
      else s'.disposed == s.disposed && s.queue <= s'.queue && s'.worker != Exited && DeliveryBound(s') < DeliveryBound(s)
  {
    OwnStepResidual(s, t);
  }

  lemma {:induction false} DisposedGrows(s: State, ts: seq<Step>, s': State)
    requires IsRun(s, ts, s')
    ensures s.disposed <= s'.disposed
    decreases |ts|
  {
    if ts != [] {
      DisposedGrows(Next(s, ts[0]), ts[1..], s');
    }
  }

  /** No scheduler can put the delivery off: every run of own steps longer than the bound, which
      depends only on the number of producers, has taken the front message; and until then
      some own step is enabled (HelpfulStep). */
  lemma {:induction false} DeliveredWithin(s: State, ts: seq<Step>, s': State)
    requires Inv(s) && s.queue != [] && s.worker != Exited && IsRun(s, ts, s') && OwnSteps(ts)
    ensures DeliveryBound(s) <= 4 * |s.producers| + 5
    ensures |ts| > DeliveryBound(s) ==> s.disposed + [s.queue[0]] <= s'.disposed
    decreases |ts|
  {
    ResidualBound(s.producers);
    if ts != [] {
      var t, next := ts[0], Next(s, ts[0]);
      DeliveryStep(s, t);
      DisposedGrows(next, ts[1..], s');
      if !t.Serve? && !t.Drain? {
        NextKeeps(s, t);
        DeliveredWithin(next, ts[1..], s');
      }
    }
  }

  lemma RunStep(s: State, t: Step, ts: seq<Step>, s': State)
    requires Enabled(s, t) && IsRun(Next(s, t), ts, s')
    ensures IsRun(s, [t] + ts, s')
  {
    assert ([t] + ts)[1..] == ts;
  }

  lemma {:induction false} RunAppend(a: State, ts: seq<Step>, b: State, us: seq<Step>, c: State)
    requires IsRun(a, ts, b) && IsRun(b, us, c)
    ensures IsRun(a, ts + us, c)
    decreases |ts|
  {
    if ts == [] {
      assert ts + us == us;
    } else {
      RunAppend(Next(a, ts[0]), ts[1..], b, us, c);
      assert (ts + us)[1..] == ts[1..] + us;
    }
  }

  /** At rest: all of `ms` posted and taken, nobody in the middle of anything. */
  function AtRest(n: nat, underLock: bool, ms: seq<Msg>): State
  {
    Initial(n, underLock).(posted := ms, disposed := ms)
  }

  /** The worker's turn with one message queued. */
  lemma ServeOne(s: State) returns (ts: seq<Step>)
    requires s.owner == Nobody && s.worker == Top && !s.stop && |s.queue| == 1
    ensures IsRun(s, ts, s.(queue := [], disposed := s.disposed + s.queue))
  {
    var s1 := s.(owner := Worker, worker := Testing);
    var s2 := s1.(worker := Tested);
    var s3 := s2.(worker := Serving);
    var s4 := s.(queue := [], disposed := s.disposed + s.queue);
    RunStep(s3, Serve, [], s4);
    RunStep(s2, Decide, [Serve] + [], s4);
    RunStep(s1, Test, [Decide] + ([Serve] + []), s4);
    RunStep(s, Acquire, [Test] + ([Decide] + ([Serve] + [])), s4);
    ts := [Acquire] + ([Test] + ([Decide] + ([Serve] + [])));
  }

  /** Producer 0 posts one message, and notifies a worker that is not asleep. */
  lemma PostOne(n: nat, underLock: bool, ms: seq<Msg>, m: Msg) returns (ts: seq<Step>)
    requires n > 0
    ensures IsRun(AtRest(n, underLock, ms), ts, AtRest(n, underLock, ms).(queue := [m], posted := ms + [m]))
  {
    var s := AtRest(n, underLock, ms);
    var ps := s.producers;
    var s1 := s.(owner := Producer(0), producers := ps[0 := Locked(m)]);
    var s2 := s1.(queue := [m], posted := ms + [m], producers := ps[0 := Pushed(true)]);
    var s3 := s2.(producers := ps[0 := Pushed(false)]);
    var s4 := s2.(owner := Nobody, producers := ps[0 := Notifying]);
    var s5 := s.(queue := [m], posted := ms + [m]);
    assert ps[0 := Locked(m)][0 := Pushed(true)] == ps[0 := Pushed(true)];
    assert ps[0 := Pushed(true)][0 := Pushed(false)] == ps[0 := Pushed(false)];
    assert ps[0 := Pushed(true)][0 := Notifying] == ps[0 := Notifying];
    assert ps[0 := Pushed(false)][0 := Outside] == ps == ps[0 := Notifying][0 := Outside];
    if underLock {
      RunStep(s3, Unlock(0), [], s5);
      RunStep(s2, Notify(0), [Unlock(0)] + [], s5);
      ts := [Notify(0)] + ([Unlock(0)] + []);
    } else {
      RunStep(s4, Notify(0), [], s5);
      RunStep(s2, Unlock(0), [Notify(0)] + [], s5);
      ts := [Unlock(0)] + ([Notify(0)] + []);
    }
    RunStep(s1, Push(0), ts, s5);
    RunStep(s, Lock(0, m), [Push(0)] + ts, s5);
    ts := [Lock(0, m)] + ([Push(0)] + ts);
  }

  lemma PostAndServe(n: nat, underLock: bool, ms: seq<Msg>, m: Msg) returns (ts: seq<Step>)
    requires n > 0
    ensures IsRun(AtRest(n, underLock, ms), ts, AtRest(n, underLock, ms + [m]))
  {
    var mid := AtRest(n, underLock, ms).(queue := [m], posted := ms + [m]);
    var after := AtRest(n, underLock, ms + [m]);
    ts := PostOne(n, underLock, ms, m);
    var us := ServeOne(mid);
    assert mid.(queue := [], disposed := mid.disposed + mid.queue) == after;
    RunAppend(AtRest(n, underLock, ms), ts, mid, us, after);
    ts := ts + us;
  }

  lemma {:induction false} PostAll(n: nat, underLock: bool, ms: seq<Msg>, more: seq<Msg>) returns (ts: seq<Step>)
    requires n > 0
    ensures IsRun(AtRest(n, underLock, ms), ts, AtRest(n, underLock, ms + more))
    decreases |more|
  {
    if more == [] {
      ts := [];
      assert ms + more == ms;
    } else {
      ts := PostAndServe(n, underLock, ms, more[0]);
      var us := PostAll(n, underLock, ms + [more[0]], more[1..]);
      assert ms + [more[0]] + more[1..] == ms + more;
      RunAppend(AtRest(n, underLock, ms), ts, AtRest(n, underLock, ms + [more[0]]), us, AtRest(n, underLock, ms + more));
      ts := ts + us;
    }
  }

  /** The system can do its work: any messages can be offered, posted and taken, in order. */
  lemma AnythingCanBePosted(n: nat, underLock: bool, ms: seq<Msg>) returns (ts: seq<Step>, s: State)
    requires n > 0
    ensures IsRun(Initial(n, underLock), ts, s) && Offered(ts) == ms && s.disposed == ms && s.queue == []
  {
    ts := PostAll(n, underLock, [], ms);
    assert [] + ms == ms;
    s := AtRest(n, underLock, ms);
    Safety(n, underLock, ts, s);
  }

  // ------------------------------------------------------------------ stop

  function ExitRank(w: WorkerPc): nat
  {
    match w
    case Serving => 6
    case Top => 5
    case Woken => 5
    case Testing => 4
    case Tested => 3
    case Draining => 2
    case _ => 0
  }

  function ExitBound(s: State): nat
  {
    Residual(s.producers) + |s.queue| + ExitRank(s.worker)
  }

  /** Stopped and neither asleep nor about to sleep; nothing is left once the worker is gone. */
  ghost predicate Stopping(s: State)
  {
    && Inv(s) && s.stop && s.worker != WillWait && s.worker != Asleep
    && (s.worker == Exited ==> s.queue == [] && forall p | 0 <= p < |s.producers| :: !s.producers[p].Locked?)
  }

  lemma StoppingStep(s: State, t: Step)
    requires Stopping(s) && OwnStep(t) && Enabled(s, t)
    ensures Stopping(Next(s, t)) && ExitBound(Next(s, t)) < ExitBound(s) && s.posted <= Next(s, t).posted
  {
    NextKeeps(s, t);
    OwnStepResidual(s, t);
  }

  /** Until the worker has exited, the owner of the mutex can go on, or the worker can lock it. */
  lemma StoppingGoesOn(s: State) returns (t: Step)
    requires Stopping(s) && s.worker != Exited
    ensures OwnStep(t) && Enabled(s, t)
  {
    match s.owner
    case Producer(p) =>
      t := match s.producers[p]
        case Locked(_) => Push(p)
        case Pushed(notify) => if s.underLock && notify then Notify(p) else Unlock(p)
        case _ => Unlock(p);
    case Nobody => t := Acquire;
    case Worker =>
      t := match s.worker
        case Testing => Test
        case Tested => Decide
        case Serving => Serve
        case _ => if s.queue == [] then Exit else Drain;
  }

  /** From a stopped state whose worker is neither asleep nor about to sleep, every run of own
      steps is bounded, and where none is left the worker has exited; it leaves nothing
      behind: everything ever posted has been taken. */
  lemma {:induction false} ExitsWithin(s: State, ts: seq<Step>, s': State)
    requires Stopping(s) && IsRun(s, ts, s') && OwnSteps(ts)
    ensures |ts| + ExitBound(s') <= ExitBound(s) && s.posted <= s'.posted
    ensures (forall t | OwnStep(t) :: !Enabled(s', t)) ==> s'.worker == Exited
    ensures s'.worker == Exited ==> s'.queue == [] && s'.disposed == s'.posted
    decreases |ts|
  {
    if ts != [] {
      StoppingStep(s, ts[0]);
      ExitsWithin(Next(s, ts[0]), ts[1..], s');
    } else if s.worker != Exited {
      var t := StoppingGoesOn(s);
    }
  }

  /** So there is a run to the exit. */
  lemma {:induction false} StopReachesExit(s: State) returns (ts: seq<Step>, s': State)
    requires Inv(s) && s.stop && s.worker != WillWait && s.worker != Asleep && s.worker != Exited
    ensures IsRun(s, ts, s') && OwnSteps(ts)
    ensures s'.worker == Exited && s'.queue == [] && s'.disposed == s'.posted && s.posted <= s'.posted
    decreases ExitBound(s)
  {
    var t := StoppingGoesOn(s);
    StoppingStep(s, t);
    if Next(s, t).worker == Exited {
      ts, s' := [], Next(s, t);
    } else {
      ts, s' := StopReachesExit(Next(s, t));
    }
    RunCons(s, t, ts, s');
    ts := [t] + ts;
  }

  /** The threads under way can bring the worker to its exit. */
  ghost predicate CanExit(s: State)
  {
    exists ts, s' :: IsRun(s, ts, s') && OwnSteps(ts) && s'.worker == Exited
  }

  /** Some producer holds the mutex and is about to push, or has pushed and not notified yet. */
  ghost predicate NoticeComing(s: State)
  {
    exists p: nat :: p < |s.producers| && (s.producers[p].Locked? || Owes(s, p))
  }

  /** The worker sleeps or is about to, and nobody will notify it. */
  ghost predicate Lost(s: State)
  {
    (s.worker == WillWait || s.worker == Asleep) && !NoticeComing(s)
  }

  lemma LostStep(s: State, t: Step)
    requires Lost(s) && OwnStep(t) && Enabled(s, t)
    ensures Lost(Next(s, t))
  {
    var s' := Next(s, t);
    assert forall p: nat | p < |s'.producers| && (s'.producers[p].Locked? || Owes(s', p)) ::
      s.producers[p].Locked? || Owes(s, p);
  }

  lemma {:induction false} LostStays(s: State, ts: seq<Step>, s': State)
    requires Lost(s) && IsRun(s, ts, s') && OwnSteps(ts)
    ensures Lost(s')
    decreases |ts|
  {
    if ts != [] {
      LostStep(s, ts[0]);
      LostStays(Next(s, ts[0]), ts[1..], s');
    }
  }

  /** One own step before a state that can exit. */
  lemma ExitAfter(s: State, t: Step)
    requires OwnStep(t) && Enabled(s, t) && CanExit(Next(s, t))
    ensures CanExit(s)
  {
    var ts, s' :| IsRun(Next(s, t), ts, s') && OwnSteps(ts) && s'.worker == Exited;
    RunCons(s, t, ts, s');
  }

  lemma ExitFromAwake(s: State)
    requires Inv(s) && s.stop && s.worker != WillWait && s.worker != Asleep
    ensures CanExit(s)
  {
    if s.worker == Exited {
      assert IsRun(s, [], s) && OwnSteps([]);
    } else {
      var ts, s' := StopReachesExit(s);
    }
  }

  /** A producer that has still to notify wakes the worker. */
  lemma ExitByNotify(s: State, p: nat)
    requires Inv(s) && s.stop && s.worker == Asleep && Owes(s, p)
    ensures CanExit(s)
  {
    if Enabled(s, Notify(p)) {
      NextKeeps(s, Notify(p));
      ExitFromAwake(Next(s, Notify(p)));
      ExitAfter(s, Notify(p));
    } else {
      var next := Next(s, Unlock(p));
      NextKeeps(s, Unlock(p));
      NextKeeps(next, Notify(p));
      ExitFromAwake(Next(next, Notify(p)));
      ExitAfter(next, Notify(p));
      ExitAfter(s, Unlock(p));
    }
  }

  /** So does one that has still to push: either it finds the queue empty, or another notice
      was already coming. */
  lemma ExitByPush(s: State, p: nat)
    requires Inv(s) && s.stop && s.worker == Asleep && p < |s.producers| && s.producers[p].Locked?
    ensures CanExit(s)
  {
    var next := Next(s, Push(p));
    NextKeeps(s, Push(p));
    var q :| Owes(next, q);
    ExitByNotify(next, q);
    ExitAfter(s, Push(p));
  }

  lemma ExitFromAsleep(s: State)
    requires Inv(s) && s.stop && s.worker == Asleep && NoticeComing(s)
    ensures CanExit(s)
  {
    var p: nat :| p < |s.producers| && (s.producers[p].Locked? || Owes(s, p));
    if Owes(s, p) {
      ExitByNotify(s, p);
    } else {
      ExitByPush(s, p);
    }
  }

  lemma ExitFromWillWait(s: State)
    requires Inv(s) && s.stop && s.worker == WillWait && NoticeComing(s)
    ensures CanExit(s)
  {
    var next := Next(s, Wait);
    var p: nat :| p < |s.producers| && (s.producers[p].Locked? || Owes(s, p));
    NextKeeps(s, Wait);
    assert next.producers[p].Locked? || Owes(next, p);
    ExitFromAsleep(next);
    ExitAfter(s, Wait);
  }

  /** Exactly when a stop takes effect: in every stopped state the threads under way can bring
      the worker to its exit if and only if it neither sleeps nor is about to, or some
      producer that has the mutex or has pushed will still notify it. */
  lemma StopEffective(s: State)
    requires Inv(s) && s.stop
    ensures CanExit(s) <==> (s.worker != WillWait && s.worker != Asleep) || NoticeComing(s)
  {
    if s.worker != WillWait && s.worker != Asleep {
      ExitFromAwake(s);
    } else if !NoticeComing(s) {
      forall ts, s' | IsRun(s, ts, s') && OwnSteps(ts)
        ensures s'.worker != Exited
      {
        LostStays(s, ts, s');
      }
    } else if s.worker == Asleep {
      ExitFromAsleep(s);
    } else {
      ExitFromWillWait(s);
    }
  }

  /** At the notification itself: it is lost if and only if the worker stands between its test
      and its wait and no producer is about to notify. */
  lemma StopLostExactly(s: State)
    requires Inv(s) && s.stopper == FlagSet
    ensures CanExit(Next(s, NotifyStop)) <==>
      !(s.worker == WillWait && forall p | 0 <= p < |s.producers| :: s.producers[p] != Notifying)
  {
    var s' := Next(s, NotifyStop);
    NextKeeps(s, NotifyStop);
    StopEffective(s');
    if s.worker == WillWait && NoticeComing(s') {
      var p: nat :| p < |s'.producers| && (s'.producers[p].Locked? || Owes(s', p));
      assert s.producers[p] == Notifying;
    }
    if p: nat :| p < |s.producers| && s.producers[p] == Notifying {
      assert Owes(s', p);
    }
  }

  /** Stop set and notified while the worker, having found nothing to do, is about to wait. */
  lemma MissedAtWait(s: State) returns (ts: seq<Step>, s': State)
    requires s.worker == WillWait && s.stopper == Running
    ensures IsRun(s, ts, s')
    ensures s' == s.(stop := true, stopper := Done, missed := true, owner := Nobody, worker := Asleep)
  {
    var s1 := s.(stop := true, stopper := FlagSet);
    var s2 := s1.(stopper := Done, missed := true);
    s' := s2.(owner := Nobody, worker := Asleep);
    RunStep(s2, Wait, [], s');
    RunStep(s1, NotifyStop, [Wait] + [], s');
    RunStep(s, SetStop, [NotifyStop] + ([Wait] + []), s');
    ts := [SetStop] + ([NotifyStop] + ([Wait] + []));
  }

  /** The stop can be missed: set and notified between the worker's test and its wait, it
      leaves the worker asleep, and no thread under way will ever wake it: nothing is left but
      a spurious wake-up or a new message. */
  lemma StopCanBeMissed(n: nat, underLock: bool)
    ensures exists ts, s ::
      && IsRun(Initial(n, underLock), ts, s)
      && s.stopper == Done && s.worker == Asleep
      && forall t :: Enabled(s, t) <==> t == Spurious || (t.Lock? && t.p < n)
  {
    var s0 := Initial(n, underLock);
    var s1 := Next(s0, Acquire);
    var s2 := Next(s1, Test);
    var ts, s := MissedAtWait(s2);
    RunStep(s1, Test, ts, s);
    RunStep(s0, Acquire, [Test] + ts, s);
  }

  /** The notification that the flag remembers came when the worker had found nothing to do and
      was about to wait. */
  lemma {:induction false} MissedMeans(n: nat, underLock: bool, ts: seq<Step>, s: State)
    requires IsRun(Initial(n, underLock), ts, s) && s.missed
    ensures exists k, mid :: (0 <= k < |ts| && ts[k] == NotifyStop
      && IsRun(Initial(n, underLock), ts[..k], mid) && mid.worker == WillWait)
    decreases |ts|
  {
    if ts != [] {
      var last := |ts| - 1;
      var before := RunLast(Initial(n, underLock), ts, s);
      if ts[last] == NotifyStop {
        assert IsRun(Initial(n, underLock), ts[..last], before);
      } else {
        MissedMeans(n, underLock, ts[..last], before);
        var k, mid :| 0 <= k < last && ts[..last][k] == NotifyStop
          && IsRun(Initial(n, underLock), ts[..last][..k], mid) && mid.worker == WillWait;
        assert ts[..last][..k] == ts[..k];
      }
    }
  }

  /** After every run with the stop notification in it, the exit is out of reach exactly if the
      worker sleeps or is about to and nobody will notify it; and it sleeps or is about to
      only if that notification came between its test and its wait. */
  lemma StopMissedOnlyBeforeWait(n: nat, underLock: bool, ts: seq<Step>, s: State)
    requires IsRun(Initial(n, underLock), ts, s) && NotifyStop in ts
    ensures !CanExit(s) <==> Lost(s)
    ensures s.worker == Asleep || s.worker == WillWait ==>
      exists k, mid :: (0 <= k < |ts| && ts[k] == NotifyStop
        && IsRun(Initial(n, underLock), ts[..k], mid) && mid.worker == WillWait)
  {
    RunKeeps(Initial(n, underLock), ts, s);
    RunTold(n, underLock, ts, s);
    StopEffective(s);
    if s.worker == Asleep || s.worker == WillWait {
      MissedMeans(n, underLock, ts, s);
    }
  }
}
