/** The mutexes of the server and why waiting for them never forms a circle.

    Every piece of code that locks is written as the list of its lock operations. A thread
    runs any number of such pieces one after the other. */
module LockOrder {

  datatype Lock = LogicMutex | SendLock(session: nat) | ServerMutex

  datatype Op = Acquire(lock: Lock) | Release(lock: Lock)

  datatype Activity =
    | Post                           // PostMsgToQue
    | Deal(replies: seq<nat>)        // a turn or the drain of DealMsg, with the sessions replied to
    | FinishWrite(session: nat)      // HandleWrite without error
    | ClearEntry                     // ClearSession
    | InsertEntry                    // the insertion in HandleAccept

  function Around(l: Lock, inner: seq<Op>): seq<Op>
  {
    [Acquire(l)] + inner + [Release(l)]
  }

  /** The callbacks run inside the worker's critical section, and each calls Send. */
  function Sends(replies: seq<nat>): seq<Op>
  {
    if replies == [] then [] else Around(SendLock(replies[0]), []) + Sends(replies[1..])
  }

  function Program(a: Activity): seq<Op>
  {
    match a
    case Post => Around(LogicMutex, [])
    case Deal(replies) => Around(LogicMutex, Sends(replies))
    case FinishWrite(s) => Around(SendLock(s), [])
    case ClearEntry => Around(ServerMutex, [])
    case InsertEntry => Around(ServerMutex, [])
  }

  datatype Thread = Thread(held: set<Lock>, rest: seq<Op>)

  datatype Step = Begin(t: nat, a: Activity) | Do(t: nat)

  predicate Free(ts: seq<Thread>, l: Lock)
  {
    forall u :: 0 <= u < |ts| ==> l !in ts[u].held
  }

  predicate Enabled(ts: seq<Thread>, step: Step)
  {
    && step.t < |ts|
    && match step
       case Begin(t, _) => ts[t].rest == []
       case Do(t) => ts[t].rest != [] && (ts[t].rest[0].Acquire? ==> Free(ts, ts[t].rest[0].lock))
  }

  function Next(ts: seq<Thread>, step: Step): seq<Thread>
    requires Enabled(ts, step)
  {
    match step
    case Begin(t, a) => ts[t := ts[t].(rest := Program(a))]
    case Do(t) =>
      var held := match ts[t].rest[0]
        case Acquire(l) => ts[t].held + {l}
        case Release(l) => ts[t].held - {l};
      ts[t := Thread(held, ts[t].rest[1..])]
  }

  ghost predicate IsRun(ts: seq<Thread>, steps: seq<Step>, ts': seq<Thread>)
    decreases |steps|
  {
    if steps == [] then ts == ts'
    else Enabled(ts, steps[0]) && IsRun(Next(ts, steps[0]), steps[1..], ts')
  }

  function Idle(n: nat): seq<Thread>
  {
    seq(n, _ => Thread({}, []))
  }

  // ------------------------------------------------------------------ the order

  function Rank(l: Lock): nat
  {
    if l.SendLock? then 1 else 0
  }

  /** A send lock is taken with nothing held or under the logic mutex, every other lock with
      nothing held. */
  predicate MayAcquire(held: set<Lock>, l: Lock)
  {
    if l.SendLock? then held <= {LogicMutex} else held == {}
  }

  /** The rest of a program takes locks only where it may, releases only what it holds, and
      ends with nothing held. */
  predicate Ordered(held: set<Lock>, ops: seq<Op>)
    decreases |ops|
  {
    if ops == [] then held == {}
    else match ops[0]
      case Acquire(l) => MayAcquire(held, l) && Ordered(held + {l}, ops[1..])
      case Release(l) => l in held && Ordered(held - {l}, ops[1..])
  }

  lemma {:induction false} SendsOrdered(replies: seq<nat>)
    ensures Ordered({LogicMutex}, Sends(replies) + [Release(LogicMutex)])
  {
    var ops := Sends(replies) + [Release(LogicMutex)];
    if replies == [] {
      assert ops == [Release(LogicMutex)];
      assert {LogicMutex} - {LogicMutex} == {};
    } else {
      SendsOrdered(replies[1..]);
      var l := SendLock(replies[0]);
      assert ops[1..][1..] == Sends(replies[1..]) + [Release(LogicMutex)];
      assert {LogicMutex} + {l} - {l} == {LogicMutex};
    }
  }

  lemma OneLockOrdered(l: Lock)
    ensures Ordered({}, Around(l, []))
  {
    assert Around(l, []) == [Acquire(l), Release(l)];
    assert {} + {l} - {l} == {};
  }

  lemma DealOrdered(replies: seq<nat>)
    ensures Ordered({}, Program(Deal(replies)))
  {
    SendsOrdered(replies);
    assert Program(Deal(replies))[1..] == Sends(replies) + [Release(LogicMutex)];
    assert {} + {LogicMutex} == {LogicMutex};
  }

  /** How often a piece of code takes lock `l`. */
  function Count(ops: seq<Op>, l: Lock): nat
  {
    if ops == [] then 0 else (if ops[0] == Acquire(l) then 1 else 0) + Count(ops[1..], l)
  }

  /** The locks held after the first `k` operations. */
  function HeldAfter(ops: seq<Op>, k: nat): set<Lock>
    requires k <= |ops|
  {
    if k == 0 then {}
    else match ops[k - 1]
      case Acquire(l) => HeldAfter(ops, k - 1) + {l}
      case Release(l) => HeldAfter(ops, k - 1) - {l}
  }

  lemma {:induction false} CountAppend(a: seq<Op>, b: seq<Op>, l: Lock)
    ensures Count(a + b, l) == Count(a, l) + Count(b, l)
  {
    if a == [] {
      assert a + b == b;
    } else {
      assert (a + b)[1..] == a[1..] + b;
      CountAppend(a[1..], b, l);
    }
  }

  lemma AroundCount(l: Lock, inner: seq<Op>, x: Lock)
    ensures Count(Around(l, inner), x) == Count(inner, x) + if l == x then 1 else 0
  {
    CountAppend([Acquire(l)] + inner, [Release(l)], x);
    CountAppend([Acquire(l)], inner, x);
    assert [Acquire(l)][1..] == [] && [Release(l)][1..] == [];
  }

  lemma {:induction false} SendsCount(replies: seq<nat>, l: Lock)
    ensures Count(Sends(replies), l) == if l.SendLock? then multiset(replies)[l.session] else 0
  {
    if replies != [] {
      assert replies == [replies[0]] + replies[1..];
      SendsCount(replies[1..], l);
      AroundCount(SendLock(replies[0]), [], l);
      CountAppend(Around(SendLock(replies[0]), []), Sends(replies[1..]), l);
    }
  }

  /** Around is one lock and its release. */
  lemma AroundNothing(l: Lock)
    ensures Around(l, []) == [Acquire(l), Release(l)]
  {
  }

  /** The send locks are taken one after the other, in the order of the replies. */
  lemma {:induction false} SendsAt(replies: seq<nat>, k: nat)
    ensures |Sends(replies)| == 2 * |replies|
    ensures k < |replies| ==>
      Sends(replies)[2 * k] == Acquire(SendLock(replies[k])) && Sends(replies)[2 * k + 1] == Release(SendLock(replies[k]))
  {
    if replies != [] {
      AroundNothing(SendLock(replies[0]));
      SendsAt(replies[1..], if k > 0 then k - 1 else 0);
    }
  }

  lemma {:induction false} DealHeld(replies: seq<nat>, j: nat)
    requires j <= |replies|
    ensures |Program(Deal(replies))| == 2 * |replies| + 2
    ensures HeldAfter(Program(Deal(replies)), 2 * j + 1) == {LogicMutex}
  {
    var p := Program(Deal(replies));
    SendsAt(replies, j);
    if j == 0 {
      assert HeldAfter(p, 1) == HeldAfter(p, 0) + {LogicMutex};
    } else {
      DealHeld(replies, j - 1);
      SendsAt(replies, j - 1);
      assert p[2 * j - 1] == Acquire(SendLock(replies[j - 1])) && p[2 * j] == Release(SendLock(replies[j - 1]));
      assert HeldAfter(p, 2 * j) == {LogicMutex} + {SendLock(replies[j - 1])};
    }
  }

  /** In the worker's turn, the logic mutex is taken with nothing held, and every send lock
      with exactly the logic mutex held. */
  lemma DealNests(replies: seq<nat>, k: nat)
    requires k < |Program(Deal(replies))| && Program(Deal(replies))[k].Acquire?
    ensures HeldAfter(Program(Deal(replies)), k) == if k == 0 then {} else {LogicMutex}
    ensures if k == 0 then Program(Deal(replies))[k].lock == LogicMutex
      else (k - 1) / 2 < |replies| && Program(Deal(replies))[k].lock == SendLock(replies[(k - 1) / 2])
  {
    var p := Program(Deal(replies));
    DealHeld(replies, 0);
    if k > 0 {
      var j := (k - 1) / 2;
      SendsAt(replies, j);
      assert p[k] == if k - 1 < 2 * |replies| then Sends(replies)[k - 1] else Release(LogicMutex);
      assert k == 2 * j + 1 || k == 2 * j + 2;
      DealHeld(replies, j);
    }
  }

  /** How often each activity is to take each lock: the worker's turn the logic mutex once and,
      for each reply, the send lock of its session; every other activity its one lock once. */
  function Needs(a: Activity, l: Lock): nat
  {
    match a
    case Post => if l == LogicMutex then 1 else 0
    case Deal(replies) => if l == LogicMutex then 1 else if l.SendLock? then multiset(replies)[l.session] else 0
    case FinishWrite(s) => if l == SendLock(s) then 1 else 0
    case ClearEntry => if l == ServerMutex then 1 else 0
    case InsertEntry => if l == ServerMutex then 1 else 0
  }

  lemma ProgramsTake(a: Activity, l: Lock)
    ensures Count(Program(a), l) == Needs(a, l)
  {
    match a
    case Post => AroundCount(LogicMutex, [], l);
    case Deal(replies) =>
      AroundCount(LogicMutex, Sends(replies), l);
      SendsCount(replies, l);
    case FinishWrite(s) => AroundCount(SendLock(s), [], l);
    case ClearEntry => AroundCount(ServerMutex, [], l);
    case InsertEntry => AroundCount(ServerMutex, [], l);
  }

  /** What is held when a piece of code takes a lock: exactly the logic mutex if it is a send
      lock in the worker's turn, and nothing otherwise. */
  lemma ProgramsNest(a: Activity, k: nat)
    requires k < |Program(a)| && Program(a)[k].Acquire?
    ensures HeldAfter(Program(a), k) == if a.Deal? && Program(a)[k].lock.SendLock? then {LogicMutex} else {}
  {
    if a.Deal? {
      DealNests(a.replies, k);
    } else {
      assert |Program(a)| == 2 && k == 0;
    }
  }

  /** Every piece of code takes exactly its locks, where it may, and ends with none held. */
  lemma ProgramsOrdered(a: Activity)
    ensures Ordered({}, Program(a))
    ensures forall l :: Count(Program(a), l) == Needs(a, l)
    ensures forall k :: 0 <= k < |Program(a)| && Program(a)[k].Acquire? ==>
      HeldAfter(Program(a), k) == if a.Deal? && Program(a)[k].lock.SendLock? then {LogicMutex} else {}
  {
    forall l ensures Count(Program(a), l) == Needs(a, l) {
      ProgramsTake(a, l);
    }
    forall k | 0 <= k < |Program(a)| && Program(a)[k].Acquire?
      ensures HeldAfter(Program(a), k) == if a.Deal? && Program(a)[k].lock.SendLock? then {LogicMutex} else {}
    {
      ProgramsNest(a, k);
    }
    match a
    case Post => OneLockOrdered(LogicMutex);
    case Deal(replies) => DealOrdered(replies);
    case FinishWrite(s) => OneLockOrdered(SendLock(s));
    case ClearEntry => OneLockOrdered(ServerMutex);
    case InsertEntry => OneLockOrdered(ServerMutex);
  }

  predicate Inv(ts: seq<Thread>)
  {
    && (forall t :: 0 <= t < |ts| ==> Ordered(ts[t].held, ts[t].rest))
    && (forall t, u :: 0 <= t < u < |ts| ==> ts[t].held !! ts[u].held)
  }

  lemma NextKeeps(ts: seq<Thread>, step: Step)
    requires Inv(ts) && Enabled(ts, step)
    ensures Inv(Next(ts, step))
  {
    if step.Begin? {
      ProgramsOrdered(step.a);
    }
  }

  lemma {:induction false} RunKeeps(ts: seq<Thread>, steps: seq<Step>, ts': seq<Thread>)
    requires Inv(ts) && IsRun(ts, steps, ts')
    ensures Inv(ts')
    decreases |steps|
  {
    if steps != [] {
      NextKeeps(ts, steps[0]);
      RunKeeps(Next(ts, steps[0]), steps[1..], ts');
    }
  }

  // ------------------------------------------------------------------ no deadlock

  predicate Waits(ts: seq<Thread>, t: nat, u: nat)
  {
    t < |ts| && u < |ts| && ts[t].rest != [] && ts[t].rest[0].Acquire? && ts[t].rest[0].lock in ts[u].held
  }

  /** Waiting is what keeps a thread from going on: it cannot take its next step exactly if
      another thread holds the lock it asks for. */
  lemma BlockedMeansWaiting(n: nat, steps: seq<Step>, ts: seq<Thread>, t: nat)
    requires IsRun(Idle(n), steps, ts) && t < |ts| && ts[t].rest != []
    ensures !Enabled(ts, Do(t)) <==> exists u: nat :: u != t && Waits(ts, t, u)
  {
    RunKeeps(Idle(n), steps, ts);
    assert Ordered(ts[t].held, ts[t].rest);
    if !Enabled(ts, Do(t)) {
      var u :| 0 <= u < |ts| && ts[t].rest[0].lock in ts[u].held;
      assert Waits(ts, t, u);
    }
  }

  /** `cycle[k]` waits for a lock held by `cycle[k + 1]`, and the last for the first. */
  predicate Circle(ts: seq<Thread>, cycle: seq<nat>)
  {
    && cycle != []
    && (forall k :: 0 <= k < |cycle| - 1 ==> Waits(ts, cycle[k], cycle[k + 1]))
    && Waits(ts, cycle[|cycle| - 1], cycle[0])
  }

  /** The rank of the lock a thread asks for next. */
  function Wanted(ts: seq<Thread>, t: nat): nat
  {
    if t < |ts| && ts[t].rest != [] then Rank(ts[t].rest[0].lock) else 0
  }

  lemma WaitsClimb(ts: seq<Thread>, t: nat, u: nat, v: nat)
    requires Inv(ts) && Waits(ts, t, u) && Waits(ts, u, v)
    ensures Wanted(ts, t) < Wanted(ts, u)
  {
    assert Ordered(ts[u].held, ts[u].rest);
  }

  lemma {:induction false} RanksClimb(ts: seq<Thread>, cycle: seq<nat>, k: nat)
    requires Inv(ts) && Circle(ts, cycle) && k < |cycle|
    ensures Wanted(ts, cycle[k]) >= Wanted(ts, cycle[0]) + k
  {
    if k > 0 {
      RanksClimb(ts, cycle, k - 1);
      WaitsClimb(ts, cycle[k - 1], cycle[k], if k < |cycle| - 1 then cycle[k + 1] else cycle[0]);
    }
  }

  /** In no reachable state do lock waits form a circle, of any length. */
  lemma NoCircularWait(n: nat, steps: seq<Step>, ts: seq<Thread>, cycle: seq<nat>)
    requires IsRun(Idle(n), steps, ts)
    ensures !Circle(ts, cycle)
  {
    RunKeeps(Idle(n), steps, ts);
    if Circle(ts, cycle) {
      var last := |cycle| - 1;
      RanksClimb(ts, cycle, last);
      WaitsClimb(ts, cycle[last], cycle[0], if last > 0 then cycle[1] else cycle[0]);
    }
  }

  lemma {:induction false} SomeoneBelow(ts: seq<Thread>, t: nat) returns (u: nat)
    requires Inv(ts) && t < |ts| && ts[t].rest != []
    ensures Enabled(ts, Do(u))
    decreases if ts[t].rest[0].Acquire? then 2 - Rank(ts[t].rest[0].lock) else 0
  {
    if Enabled(ts, Do(t)) {
      u := t;
    } else {
      var l := ts[t].rest[0].lock;
      var v :| 0 <= v < |ts| && l in ts[v].held;
      assert Ordered(ts[v].held, ts[v].rest);
      u := SomeoneBelow(ts, v);
    }
  }

  /** In every reachable state, if any thread is in the middle of something, some thread in
      the middle of something can go on. */
  lemma NeverStuck(n: nat, steps: seq<Step>, ts: seq<Thread>, t: nat)
    requires IsRun(Idle(n), steps, ts) && t < |ts| && ts[t].rest != []
    ensures exists u: nat :: Enabled(ts, Do(u))
  {
    RunKeeps(Idle(n), steps, ts);
    var u := SomeoneBelow(ts, t);
  }

  /** A send lock is asked for with nothing held or under the logic mutex alone, the logic
      and the server mutex with nothing held. */
  lemma OrderRespected(n: nat, steps: seq<Step>, ts: seq<Thread>, t: nat)
    requires IsRun(Idle(n), steps, ts) && t < |ts| && ts[t].rest != [] && ts[t].rest[0].Acquire?
    ensures match ts[t].rest[0].lock
      case SendLock(_) => ts[t].held <= {LogicMutex}
      case _ => ts[t].held == {}
  {
    RunKeeps(Idle(n), steps, ts);
    assert Ordered(ts[t].held, ts[t].rest);
  }

  /** Locks are nested, and threads do wait: the worker asks for the send lock of a reply while
      it holds the logic mutex, and another thread that posts has to wait for it. */
  lemma NestingHappens(x: nat) returns (steps: seq<Step>, ts: seq<Thread>)
    ensures IsRun(Idle(2), steps, ts) && |ts| == 2
    ensures ts[0].held == {LogicMutex} && ts[0].rest != [] && ts[0].rest[0] == Acquire(SendLock(x))
    ensures Waits(ts, 1, 0)
  {
    var deal, post := Program(Deal([x])), Program(Post);
    var a, b, c := Thread({}, deal), Thread({LogicMutex}, deal[1..]), Thread({}, post);
    DealNests([x], 0);
    SendsAt([x], 0);
    var idle := Thread({}, []);
    assert {} + {LogicMutex} == {LogicMutex};
    ts := [b, c];
    assert Next([b, idle], Begin(1, Post)) == ts;
    assert IsRun([b, idle], [Begin(1, Post)], ts);
    assert Next([a, idle], Do(0)) == [b, idle];
    assert [Do(0), Begin(1, Post)][1..] == [Begin(1, Post)];
    assert IsRun([a, idle], [Do(0), Begin(1, Post)], ts);
    assert Idle(2) == [idle, idle];
    assert Next(Idle(2), Begin(0, Deal([x]))) == [a, idle];
    steps := [Begin(0, Deal([x])), Do(0), Begin(1, Post)];
    assert steps[1..] == [Do(0), Begin(1, Post)];
  }
}
