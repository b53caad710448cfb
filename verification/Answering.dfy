/** Which sessions can still have all their requests answered, and how.

    The runs built here are schedules of the program: a handler begins only when none runs on
    its thread, goes on to its end, and nothing goes out of a closed socket. */
module Answering {
  import opened Wire
  import opened Frames
  import opened Messages
  import opened Sessions
  import opened Servers
  import opened Traces
  import opened Guarantees
  import Q = SendQueue

  /** Steps that finish work already begun: no new connection, no new input, no error. */
  predicate Finishing(t: Step)
  {
    || t.InsertSession? || t.PostNext? || t.ReadEnd? || t.WriteEnd?
    || t.Dispatch? || t.Network? || t.WriteComplete?
  }

  predicate AllFinishing(ts: seq<Step>)
  {
    forall t | t in ts :: Finishing(t)
  }

  // ------------------------------------------------------------------ running handlers can end

  /** How many steps the running handlers of a session still take. */
  function JobWork(s: Session): nat
  {
    (if s.stage == Started then 1 else 0)
    + (if s.reader.Handling? then |s.reader.todo| + 1 else 0)
    + s.writeHandlers
  }

  function Work(ss: seq<Session>): nat
  {
    if ss == [] then 0 else JobWork(ss[0]) + Work(ss[1..])
  }

  lemma {:induction false} WorkUpdate(ss: seq<Session>, i: nat, s: Session)
    requires i < |ss|
    ensures Work(ss[i := s]) == Work(ss) - JobWork(ss[i]) + JobWork(s)
  {
    if i == 0 {
      assert ss[i := s][1..] == ss[1..];
    } else {
      assert ss[i := s][1..] == ss[1..][i - 1 := s];
      WorkUpdate(ss[1..], i - 1, s);
    }
  }

  lemma {:induction false} WorkOfMade(ss: seq<Session>)
    ensures Work(ss + [Made()]) == Work(ss)
  {
    if ss == [] {
      assert ss + [Made()] == [Made()] && [Made()][1..] == [];
    } else {
      assert (ss + [Made()])[1..] == ss[1..] + [Made()];
      WorkOfMade(ss[1..]);
    }
  }

  lemma {:induction false} WorkSomewhere(ss: seq<Session>) returns (i: nat)
    requires Work(ss) > 0
    ensures i < |ss| && JobWork(ss[i]) > 0
  {
    if JobWork(ss[0]) > 0 {
      i := 0;
    } else {
      i := WorkSomewhere(ss[1..]);
      i := i + 1;
    }
  }

  lemma {:induction false} WorkNowhere(ss: seq<Session>, i: nat)
    requires Work(ss) == 0 && i < |ss|
    ensures JobWork(ss[i]) == 0
  {
    if i > 0 {
      WorkNowhere(ss[1..], i - 1);
    }
  }

  /** Nothing happened to what the session received and sends. */
  predicate Untroubled(s: Session, s': Session)
  {
    s'.received == s.received && s'.send == s.send && s'.readFailed == s.readFailed
  }

  /** The next step of a running handler of session `j`. */
  function Continue(sys: Server, j: nat): Step
    requires j < |sys.sessions|
  {
    var s := sys.sessions[j];
    if s.stage == Started then InsertSession(j)
    else if Todo(s) != [] then PostNext(j)
    else if s.reader.Handling? then ReadEnd(j)
    else WriteEnd(j)
  }

  lemma ContinueOwn(sys: Server, j: nat)
    requires j < |sys.sessions| && JobWork(sys.sessions[j]) > 0
    ensures var t := Continue(sys, j);
      && Possible(sys, t) && !t.Dispatch? && !Begins(t) && Finishing(t)
      && JobWork(NextSession(sys, t)) == JobWork(sys.sessions[j]) - 1
      && Untroubled(sys.sessions[j], NextSession(sys, t))
  {
  }

  /** A step of a running handler is always enabled. */
  lemma ContinueStep(cfg: Config, sys: Server, j: nat, i: nat)
    requires i < |sys.sessions| && j < |sys.sessions| && JobWork(sys.sessions[j]) > 0
    ensures var t := Continue(sys, j);
      && Enabled(cfg, sys, t) && Finishing(t)
      && Work(Next(cfg, sys, t).sessions) == Work(sys.sessions) - 1
      && i < |Next(cfg, sys, t).sessions| && Untroubled(sys.sessions[i], Next(cfg, sys, t).sessions[i])
  {
    var t := Continue(sys, j);
    ContinueOwn(sys, j);
    NextShape(cfg, sys, t);
    var moved := sys.sessions[j := NextSession(sys, t)];
    WorkUpdate(sys.sessions, j, NextSession(sys, t));
    WorkOfMade(moved);
    assert Next(cfg, sys, t).sessions == if t.InsertSession? then moved + [Made()] else moved;
  }

  /** All handlers under way can run to their ends. */
  lemma {:induction false} FinishHandlers(cfg: Config, sys: Server, i: nat) returns (ts: seq<Step>, sys': Server)
    requires i < |sys.sessions|
    ensures IsRun(cfg, sys, ts, sys') && AllFinishing(ts) && |ts| == Work(sys.sessions)
    ensures Work(sys'.sessions) == 0
    ensures i < |sys'.sessions| && Untroubled(sys.sessions[i], sys'.sessions[i])
    decreases Work(sys.sessions)
  {
    if Work(sys.sessions) == 0 {
      ts, sys' := [], sys;
    } else {
      var j := WorkSomewhere(sys.sessions);
      var t := Continue(sys, j);
      ContinueStep(cfg, sys, j, i);
      ts, sys' := FinishHandlers(cfg, Next(cfg, sys, t), i);
      RunCons(cfg, sys, t, Next(cfg, sys, t), ts, sys');
      ts := [t] + ts;
    }
  }

  /** With no handler running every handler may begin. */
  lemma IdleEnabled(cfg: Config, sys: Server, t: Step)
    requires Work(sys.sessions) == 0 && Possible(sys, t)
    ensures Enabled(cfg, sys, t)
  {
    forall j: Job | j.session < |sys.sessions|
      ensures !Running(sys, j)
    {
      WorkNowhere(sys.sessions, j.session);
    }
  }

  // ------------------------------------------------------------------ replies can go out

  /** No read and no write of the session has failed. */
  predicate Sound(s: Session)
  {
    !s.readFailed && !s.send.failed
  }

  /** The same input, no error, and nothing refused in between. */
  predicate SameInput(s: Session, s': Session)
  {
    && s'.received == s.received && Sound(s')
    && Q.RefusedCount(s'.send.log) == Q.RefusedCount(s.send.log)
  }

  function SendLeft(q: Q.SendState): nat
  {
    3 * |q.queue| + if q.writing != [] && q.progress < |q.writing[0]| then 1 else 0
  }

  /** How much work is left before session `i` is quiet, with no handler running. */
  function Left(sys: Server, i: nat): nat
    requires i < |sys.sessions|
  {
    5 * |sys.queue| + SendLeft(sys.sessions[i].send)
  }

  /** Between two states without running handlers, nearer to quiet. */
  predicate Nearer(sys: Server, sys': Server, i: nat)
    requires i < |sys.sessions|
  {
    && Work(sys'.sessions) == 0 && |sys'.sessions| == |sys.sessions|
    && SameInput(sys.sessions[i], sys'.sessions[i]) && Left(sys', i) < Left(sys, i)
  }

  lemma RunOfOne(cfg: Config, sys: Server, t: Step)
    requires Enabled(cfg, sys, t)
    ensures IsRun(cfg, sys, [t], Next(cfg, sys, t))
  {
    RunCons(cfg, sys, t, Next(cfg, sys, t), [], Next(cfg, sys, t));
    assert [t] + [] == [t];
  }

  /** The rest of the write in flight goes out. */
  lemma NearerByNetwork(cfg: Config, sys: Server, i: nat) returns (t: Step)
    requires Work(sys.sessions) == 0 && i < |sys.sessions| && Sound(sys.sessions[i]) && !sys.sessions[i].closed
    requires var q := sys.sessions[i].send; q.writing != [] && q.progress < |q.writing[0]|
    ensures Finishing(t) && Enabled(cfg, sys, t) && Nearer(sys, Next(cfg, sys, t), i)
  {
    var s := sys.sessions[i];
    t := Network(i, |s.send.writing[0]| - s.send.progress);
    IdleEnabled(cfg, sys, t);
    WorkUpdate(sys.sessions, i, NextSession(sys, t));
  }

  /** The write that is out completes, and its handler returns. */
  lemma WriteTurn(s: Session)
    requires Q.Inv(s.send) && Q.CanComplete(s.send) && Sound(s)
    ensures var s' := WriteReturn(WriteDone(s));
      SameInput(s, s') && JobWork(s') == JobWork(s) && SendLeft(s'.send) < SendLeft(s.send)
  {
    Q.CompletedKeeps(s.send);
  }

  lemma NearerByCompletion(cfg: Config, sys: Server, i: nat) returns (ts: seq<Step>, sys': Server)
    requires Work(sys.sessions) == 0 && i < |sys.sessions| && Sound(sys.sessions[i])
    requires Q.Inv(sys.sessions[i].send) && Q.CanComplete(sys.sessions[i].send)
    ensures IsRun(cfg, sys, ts, sys') && AllFinishing(ts) && Nearer(sys, sys', i)
  {
    var s, mid := sys.sessions[i], Next(cfg, sys, WriteComplete(i));
    assert mid == sys.(sessions := sys.sessions[i := WriteDone(s)]);
    assert Possible(mid, WriteEnd(i)) && Enabled(cfg, mid, WriteEnd(i));
    sys' := Next(cfg, mid, WriteEnd(i));
    assert sys'.sessions == sys.sessions[i := WriteReturn(WriteDone(s))];
    WriteTurn(s);
    WorkUpdate(sys.sessions, i, WriteReturn(WriteDone(s)));
    IdleEnabled(cfg, sys, WriteComplete(i));
    RunOfOne(cfg, mid, WriteEnd(i));
    RunCons(cfg, sys, WriteComplete(i), mid, [WriteEnd(i)], sys');
    ts := [WriteComplete(i)] + [WriteEnd(i)];
  }

  /** A reply offered to an empty queue is not refused, and adds a write and nothing else. */
  lemma ReplyToIdle(c: Callbacks, s: Session, f: Frame)
    requires s.send.queue == [] && s.send.writing == [] && Sound(s)
    ensures var s' := Handle(c, s, f);
      && SameInput(s, s') && JobWork(s') == JobWork(s) && s'.reader == s.reader && s'.closed == s.closed
      && SendLeft(s'.send) <= 4 && |s'.send.writing| == |s'.send.queue|
  {
    if f.id in c {
      Q.LogSnoc(s.send.log, Q.Offer(c[f.id](f.id, f.payload), 0));
    }
  }

  lemma HandleWork(c: Callbacks, s: Session, f: Frame)
    ensures JobWork(Handle(c, s, f)) == JobWork(s)
  {
  }

  lemma NearerByDispatch(cfg: Config, sys: Server, i: nat)
    requires Work(sys.sessions) == 0 && i < |sys.sessions| && Sound(sys.sessions[i]) && sys.queue != []
    requires sys.sessions[i].send.queue == [] && sys.sessions[i].send.writing == []
    ensures Enabled(cfg, sys, Dispatch) && Nearer(sys, Next(cfg, sys, Dispatch), i)
  {
    var m, c := sys.queue[0], cfg.callbacks;
    DispatchSeenBy(cfg, sys, i);
    if m.session < |sys.sessions| {
      HandleWork(c, sys.sessions[m.session], m.frame);
      WorkUpdate(sys.sessions, m.session, Handle(c, sys.sessions[m.session], m.frame));
    }
    if m.session == i {
      ReplyToIdle(c, sys.sessions[i], m.frame);
    }
  }

  /** What the invariants say of a session without error when no handler runs. */
  lemma SoundAndIdle(cfg: Config, sys: Server, i: nat)
    requires Servers.Inv(cfg, sys) && Work(sys.sessions) == 0 && i < |sys.sessions| && Sound(sys.sessions[i])
    ensures var s := sys.sessions[i];
      !s.closed && Todo(s) == [] && Q.Inv(s.send) && (s.send.queue == [] <==> s.send.writing == [])
  {
    assert SessionInv(cfg, sys, i);
    WorkNowhere(sys.sessions, i);
  }

  lemma QueueOf(ms: seq<Msg>, i: nat)
    requires Of(ms, i) != []
    ensures ms != []
  {
  }

  lemma ComeNearer(cfg: Config, sys: Server, i: nat) returns (ts: seq<Step>, sys': Server)
    requires Servers.Inv(cfg, sys) && Work(sys.sessions) == 0 && i < |sys.sessions|
    requires Sound(sys.sessions[i]) && !Quiet(sys, i)
    ensures IsRun(cfg, sys, ts, sys') && AllFinishing(ts) && Nearer(sys, sys', i)
  {
    SoundAndIdle(cfg, sys, i);
    var q := sys.sessions[i].send;
    if q.writing == [] {
      QueueOf(sys.queue, i);
      NearerByDispatch(cfg, sys, i);
      RunOfOne(cfg, sys, Dispatch);
      ts, sys' := [Dispatch], Next(cfg, sys, Dispatch);
    } else if q.progress < |q.writing[0]| {
      var t := NearerByNetwork(cfg, sys, i);
      RunOfOne(cfg, sys, t);
      ts, sys' := [t], Next(cfg, sys, t);
    } else {
      ts, sys' := NearerByCompletion(cfg, sys, i);
    }
  }

  lemma {:induction false} CanFinish(cfg: Config, sys: Server, i: nat) returns (ts: seq<Step>, sys': Server)
    requires Servers.Inv(cfg, sys) && Work(sys.sessions) == 0 && i < |sys.sessions| && Sound(sys.sessions[i])
    ensures IsRun(cfg, sys, ts, sys') && AllFinishing(ts)
    ensures i < |sys'.sessions| && Quiet(sys', i) && SameInput(sys.sessions[i], sys'.sessions[i])
    ensures Work(sys'.sessions) == 0
    decreases Left(sys, i)
  {
    if Quiet(sys, i) {
      ts, sys' := [], sys;
    } else {
      var us, mid := ComeNearer(cfg, sys, i);
      Servers.RunKeeps(cfg, sys, us, mid);
      ts, sys' := CanFinish(cfg, mid, i);
      RunAppend(cfg, sys, us, mid, ts, sys');
      ts := us + ts;
    }
  }

  lemma ReachableAfter(cfg: Config, sys: Server, ts: seq<Step>, sys': Server)
    requires Reachable(cfg, sys) && IsRun(cfg, sys, ts, sys')
    ensures Reachable(cfg, sys')
  {
    var before :| IsRun(cfg, Begin(), before, sys);
    RunAppend(cfg, Begin(), before, sys, ts, sys');
  }

  /** From a reachable state all handlers can end and then session `i` can be brought to rest. */
  lemma CanRest(cfg: Config, sys: Server, i: nat) returns (us: seq<Step>, sys': Server)
    requires Reachable(cfg, sys) && i < |sys.sessions| && Sound(sys.sessions[i])
    ensures IsRun(cfg, sys, us, sys') && AllFinishing(us) && Work(sys'.sessions) == 0
    ensures i < |sys'.sessions| && Quiet(sys', i) && SameInput(sys.sessions[i], sys'.sessions[i])
  {
    ReachableInv(cfg, sys);
    var vs, mid := FinishHandlers(cfg, sys, i);
    Servers.RunKeeps(cfg, sys, vs, mid);
    us, sys' := CanFinish(cfg, mid, i);
    RunAppend(cfg, sys, vs, mid, us, sys');
    us := vs + us;
  }

  /** At rest with nothing refused everything is on the wire. */
  lemma RestIsAnswered(cfg: Config, sys: Server, us: seq<Step>, sys': Server, i: nat)
    requires Reachable(cfg, sys) && i < |sys.sessions| && IsRun(cfg, sys, us, sys') && i < |sys'.sessions|
    requires Quiet(sys', i) && SameInput(sys.sessions[i], sys'.sessions[i]) && Q.RefusedCount(sys.sessions[i].send.log) == 0
    ensures sys'.sessions[i].send.wire == EncodeAll(Replies(cfg.callbacks, Requests(sys.sessions[i])))
  {
    ReachableAfter(cfg, sys, us, sys');
    WireOfReceived(cfg, sys', i);
  }

  /** The handler of a failed read is running and has not closed the socket yet. */
  predicate Closing(s: Session)
  {
    s.readFailed && s.reader.Handling? && !s.send.failed
  }

  lemma AnswerFacts(cfg: Config, ts: seq<Step>, sys: Server, i: nat)
    requires IsRun(cfg, Begin(), ts, sys) && i < |sys.sessions|
    ensures var s := sys.sessions[i];
      && Requests(s) == Asked(ts, i)
      && (Sound(s) <==> ReadFail(i) !in ts && WriteError(i) !in ts)
      && (Closing(s) <==> WriteError(i) !in ts && ReadFail(i) in ts && ReadHandlerRuns(ts, i))
  {
    ReadFacts(cfg, ts, sys, i);
    RunTold(cfg, ts, sys, i);
  }

  /** After every run a session without a failed read or write can be brought to rest by
      finishing what was begun, without input, error or refusal; and if nothing was refused
      before, the wire then carries exactly the replies to everything delivered to it. The
      pipeline never blocks itself. */
  lemma CanAnswerEverything(cfg: Config, ts: seq<Step>, sys: Server, i: nat) returns (us: seq<Step>, sys': Server)
    requires IsRun(cfg, Begin(), ts, sys) && i < |sys.sessions| && ReadFail(i) !in ts && WriteError(i) !in ts
    ensures IsRun(cfg, sys, us, sys') && AllFinishing(us)
    ensures i < |sys'.sessions| && Quiet(sys', i) && SameInput(sys.sessions[i], sys'.sessions[i])
    ensures Q.RefusedCount(sys.sessions[i].send.log) == 0 ==>
      sys'.sessions[i].send.wire == EncodeAll(Replies(cfg.callbacks, Asked(ts, i)))
  {
    AnswerFacts(cfg, ts, sys, i);
    us, sys' := CanRest(cfg, sys, i);
    if Q.RefusedCount(sys.sessions[i].send.log) == 0 {
      RestIsAnswered(cfg, sys, us, sys', i);
    }
  }

  // ------------------------------------------------------------------ and exactly when

  /** The wire of session `i` can still become `bytes`. */
  ghost predicate CanSend(cfg: Config, sys: Server, i: nat, bytes: seq<Byte>)
  {
    exists ts, sys' :: IsRun(cfg, sys, ts, sys') && i < |sys'.sessions| && sys'.sessions[i].send.wire == bytes
  }

  /** The replies to everything session `i` has received so far can still get onto the wire. */
  ghost predicate CanAnswer(cfg: Config, sys: Server, i: nat)
    requires i < |sys.sessions|
  {
    CanSend(cfg, sys, i, EncodeAll(Replies(cfg.callbacks, Requests(sys.sessions[i]))))
  }

  /** The replies that are not completely written: those queued, and those to the requests the
      worker has still to take. */
  function Owed(c: Callbacks, q: Q.SendState, waiting: seq<Frame>): seq<Frame>
  {
    q.queue + Replies(c, waiting)
  }

  lemma RepliesCons(c: Callbacks, f: Frame, waiting: seq<Frame>)
    ensures Replies(c, [f] + waiting) == (if f.id in c then [c[f.id](f.id, f.payload)] else []) + Replies(c, waiting)
  {
    RepliesAppend(c, [f], waiting);
    RepliesOne(c, f);
  }

  /** All replies are those completed and those owed. */
  lemma CompletedAndOwed(c: Callbacks, s: Session, done: seq<Frame>, waiting: seq<Frame>)
    requires Flow(c, s, done, waiting) && Todo(s) == [] && Q.RefusedCount(s.send.log) == 0
    ensures Replies(c, Requests(s)) == s.send.completed + Owed(c, s.send, waiting)
  {
    assert done + waiting + [] == done + waiting;
    RepliesAppend(c, done, waiting);
    Q.NothingRefused(s.send.log);
    assert s.send.completed + s.send.queue + Replies(c, waiting) == s.send.completed + Owed(c, s.send, waiting);
  }

  /** The worker's turn moves a reply from the requests to the queue, if it is not refused. */
  lemma HandleOwed(c: Callbacks, s: Session, f: Frame, waiting: seq<Frame>)
    requires |s.send.queue| <= MAX_SENDQUE
    ensures var q := Handle(c, s, f).send;
      && Owed(c, q, waiting) == Owed(c, s.send, [f] + waiting) && q.completed == s.send.completed
      && Q.RefusedCount(q.log) == Q.RefusedCount(s.send.log)
  {
    RepliesCons(c, f, waiting);
    if f.id in c {
      var r := c[f.id](f.id, f.payload);
      Q.LogSnoc(s.send.log, Q.Offer(r, |s.send.queue|));
      assert s.send.queue + [r] + Replies(c, waiting) == s.send.queue + ([r] + Replies(c, waiting));
    }
  }

  // .................... one reply owed while the socket is about to be closed

  /** The one frame queued goes out whole. */
  lemma LastFrame(cfg: Config, sys: Server, i: nat) returns (t: Step)
    requires i < |sys.sessions| && !sys.sessions[i].closed
    requires var q := sys.sessions[i].send; Q.Inv(q) && !q.failed && q.queue != []
    ensures Enabled(cfg, sys, t) && i < |Next(cfg, sys, t).sessions|
    ensures var s := sys.sessions[i];
      Next(cfg, sys, t).sessions[i].send.wire == EncodeAll(s.send.completed + [s.send.queue[0]])
  {
    var q := sys.sessions[i].send;
    var b := Encode(q.queue[0]);
    var n := |b| - q.progress;
    t := Network(i, n);
    assert b[..q.progress] + b[q.progress..q.progress + n] == b;
    EncodeAllSnoc(q.completed, q.queue[0]);
    assert Next(cfg, sys, t).sessions[i].send == Q.Transmit(q, n);
  }

  /** What the invariants say of a session that is about to be closed. */
  lemma ClosingFlow(cfg: Config, sys: Server, i: nat)
    requires Servers.Inv(cfg, sys) && i < |sys.sessions| && Closing(sys.sessions[i])
    ensures var s := sys.sessions[i];
      !s.closed && Todo(s) == [] && Q.Inv(s.send) && Flow(cfg.callbacks, s, Of(sys.disposed, i), Of(sys.queue, i))
      && s.reader.ending == CloseAndClear
  {
    assert SessionInv(cfg, sys, i);
  }

  lemma OneFrame(fs: seq<Frame>, rest: seq<Frame>)
    requires fs != [] && |fs + rest| <= 1
    ensures fs + rest == [fs[0]]
  {
  }

  lemma LastReplyQueued(cfg: Config, sys: Server, i: nat)
    requires Servers.Inv(cfg, sys) && i < |sys.sessions| && Closing(sys.sessions[i])
    requires var s, c := sys.sessions[i], cfg.callbacks;
      s.send.queue != [] && Replies(c, Requests(s)) == s.send.completed + [s.send.queue[0]]
    ensures CanAnswer(cfg, sys, i)
  {
    ClosingFlow(cfg, sys, i);
    var t := LastFrame(cfg, sys, i);
    RunOfOne(cfg, sys, t);
  }

  lemma NothingOwed(cfg: Config, sys: Server, i: nat)
    requires Servers.Inv(cfg, sys) && i < |sys.sessions| && Closing(sys.sessions[i])
    requires var s, c := sys.sessions[i], cfg.callbacks;
      s.send.queue == [] && Replies(c, Requests(s)) == s.send.completed
    ensures CanAnswer(cfg, sys, i)
  {
    ClosingFlow(cfg, sys, i);
    assert IsRun(cfg, sys, [], sys);
  }

  /** The replies to come when at most one is owed. */
  lemma OwedShape(cfg: Config, sys: Server, i: nat)
    requires Servers.Inv(cfg, sys) && i < |sys.sessions| && Closing(sys.sessions[i])
    requires Q.RefusedCount(sys.sessions[i].send.log) == 0
    ensures var s, c, waiting := sys.sessions[i], cfg.callbacks, Of(sys.queue, i);
      && (s.send.queue != [] && |Owed(c, s.send, waiting)| <= 1 ==>
            Replies(c, Requests(s)) == s.send.completed + [s.send.queue[0]])
      && (s.send.queue == [] && Replies(c, waiting) == [] ==> Replies(c, Requests(s)) == s.send.completed)
  {
    var c, s, waiting := cfg.callbacks, sys.sessions[i], Of(sys.queue, i);
    ClosingFlow(cfg, sys, i);
    CompletedAndOwed(c, s, Of(sys.disposed, i), waiting);
    if s.send.queue != [] && |Owed(c, s.send, waiting)| <= 1 {
      OneFrame(s.send.queue, Replies(c, waiting));
    }
  }

  lemma LastReplyDispatch(cfg: Config, sys: Server, i: nat)
    requires i < |sys.sessions| && Closing(sys.sessions[i]) && sys.queue != [] && sys.sessions[i].send.queue == []
    ensures var sys' := Next(cfg, sys, Dispatch);
      && i < |sys'.sessions| && Closing(sys'.sessions[i]) && sys'.sessions[i].received == sys.sessions[i].received
      && Q.RefusedCount(sys'.sessions[i].send.log) == Q.RefusedCount(sys.sessions[i].send.log)
      && Owed(cfg.callbacks, sys'.sessions[i].send, Of(sys'.queue, i))
         == Owed(cfg.callbacks, sys.sessions[i].send, Of(sys.queue, i))
  {
    var m, rest := sys.queue[0], Of(Next(cfg, sys, Dispatch).queue, i);
    DispatchSeenBy(cfg, sys, i);
    if m.session == i {
      HandleApart(cfg.callbacks, sys.sessions[i], m.frame);
      HandleOwed(cfg.callbacks, sys.sessions[i], m.frame, rest);
    } else {
      assert Of(sys.queue, i) == [] + rest == rest;
    }
  }

  lemma AnswerAfter(cfg: Config, sys: Server, t: Step, i: nat)
    requires Enabled(cfg, sys, t) && i < |sys.sessions| && i < |Next(cfg, sys, t).sessions|
    requires Next(cfg, sys, t).sessions[i].received == sys.sessions[i].received && CanAnswer(cfg, Next(cfg, sys, t), i)
    ensures CanAnswer(cfg, sys, i)
  {
    var ts, sys' :| IsRun(cfg, Next(cfg, sys, t), ts, sys') && i < |sys'.sessions|
      && sys'.sessions[i].send.wire == EncodeAll(Replies(cfg.callbacks, Requests(Next(cfg, sys, t).sessions[i])));
    RunCons(cfg, sys, t, Next(cfg, sys, t), ts, sys');
    assert IsRun(cfg, sys, [t] + ts, sys');
  }

  /** If there is one more reply to come, or none, it can still go out. */
  lemma {:induction false} LastReply(cfg: Config, sys: Server, i: nat)
    requires Servers.Inv(cfg, sys) && i < |sys.sessions| && Closing(sys.sessions[i])
    requires Q.RefusedCount(sys.sessions[i].send.log) == 0
    requires |Owed(cfg.callbacks, sys.sessions[i].send, Of(sys.queue, i))| <= 1
    ensures CanAnswer(cfg, sys, i)
    decreases |sys.queue|
  {
    OwedShape(cfg, sys, i);
    if sys.sessions[i].send.queue != [] {
      LastReplyQueued(cfg, sys, i);
    } else if Replies(cfg.callbacks, Of(sys.queue, i)) == [] {
      NothingOwed(cfg, sys, i);
    } else {
      LastReplyDispatch(cfg, sys, i);
      StepKeeps(cfg, sys, Dispatch);
      LastReply(cfg, Next(cfg, sys, Dispatch), i);
      AnswerAfter(cfg, sys, Dispatch, i);
    }
  }

  // .................... two replies owed while the socket is about to be closed

  /** `first` is the next frame to be written, now or once the worker gets to it. */
  predicate Front(c: Callbacks, q: Q.SendState, waiting: seq<Frame>, first: Frame)
  {
    if q.queue != [] then q.queue[0] == first
    else Replies(c, waiting) != [] && Replies(c, waiting)[0] == first
  }

  /** No more than the completed frames `base` and then `first` gets onto the wire. */
  predicate Held(c: Callbacks, s: Session, waiting: seq<Frame>, base: seq<Frame>, first: Frame)
  {
    if s.closed then |s.send.wire| <= |EncodeAll(base)| + |Encode(first)|
    else Closing(s) && s.send.completed == base && Front(c, s.send, waiting, first)
  }

  lemma HeldWire(c: Callbacks, s: Session, waiting: seq<Frame>, base: seq<Frame>, first: Frame)
    requires Held(c, s, waiting, base, first) && Q.Inv(s.send)
    ensures |s.send.wire| <= |EncodeAll(base)| + |Encode(first)|
  {
  }

  lemma HandleHeld(c: Callbacks, s: Session, f: Frame, waiting: seq<Frame>, base: seq<Frame>, first: Frame)
    requires Held(c, s, [f] + waiting, base, first)
    ensures Held(c, Handle(c, s, f), waiting, base, first)
  {
    HandleApart(c, s, f);
    RepliesCons(c, f, waiting);
  }

  /** While the read handler runs, no other handler of the session begins. */
  lemma OnlyOwnHandler(cfg: Config, sys: Server, t: Step)
    requires Enabled(cfg, sys, t) && !t.Dispatch? && sys.sessions[t.i].reader.Handling? && Todo(sys.sessions[t.i]) == []
    requires Accepted(sys.sessions[t.i])
    ensures t.InsertSession? || t.ReadEnd? || t.Network? || t.WriteEnd?
  {
    assert Running(sys, ReadJob(t.i));
  }

  lemma ReadEndHeld(c: Callbacks, s: Session, waiting: seq<Frame>, base: seq<Frame>, first: Frame)
    requires Held(c, s, waiting, base, first) && !s.closed && Q.Inv(s.send) && s.reader.ending == CloseAndClear
    ensures Held(c, ReadReturn(s), waiting, base, first)
  {
    HeldWire(c, s, waiting, base, first);
  }

  lemma OwnStepHeld(cfg: Config, sys: Server, t: Step, base: seq<Frame>, first: Frame)
    requires Servers.Inv(cfg, sys) && Enabled(cfg, sys, t) && !t.Dispatch?
    requires Held(cfg.callbacks, sys.sessions[t.i], Of(sys.queue, t.i), base, first)
    ensures Held(cfg.callbacks, NextSession(sys, t), Of(Next(cfg, sys, t).queue, t.i), base, first)
  {
    var s := sys.sessions[t.i];
    if s.closed {
      ClosedOwnStep(sys, t);
    } else {
      ClosingFlow(cfg, sys, t.i);
      OnlyOwnHandler(cfg, sys, t);
      if t.ReadEnd? {
        ReadEndHeld(cfg.callbacks, s, Of(sys.queue, t.i), base, first);
      }
    }
  }

  lemma DispatchHeld(cfg: Config, sys: Server, i: nat, base: seq<Frame>, first: Frame)
    requires sys.queue != [] && i < |sys.sessions|
    requires Held(cfg.callbacks, sys.sessions[i], Of(sys.queue, i), base, first)
    ensures i < |Next(cfg, sys, Dispatch).sessions|
    ensures Held(cfg.callbacks, Next(cfg, sys, Dispatch).sessions[i], Of(Next(cfg, sys, Dispatch).queue, i), base, first)
  {
    var rest := Of(Next(cfg, sys, Dispatch).queue, i);
    DispatchSeenBy(cfg, sys, i);
    if sys.queue[0].session == i {
      HandleHeld(cfg.callbacks, sys.sessions[i], sys.queue[0].frame, rest, base, first);
    } else {
      assert Of(sys.queue, i) == [] + rest == rest;
    }
  }

  lemma OtherStepSeenBy(cfg: Config, sys: Server, t: Step, i: nat)
    requires Possible(sys, t) && !t.Dispatch? && i < |sys.sessions| && i != t.i
    ensures i < |Next(cfg, sys, t).sessions|
    ensures Next(cfg, sys, t).sessions[i] == sys.sessions[i] && Of(Next(cfg, sys, t).queue, i) == Of(sys.queue, i)
  {
    NextAt(cfg, sys, t, i);
    NextShape(cfg, sys, t);
    PostedByOther(sys, t, i);
  }

  lemma StepHeld(cfg: Config, sys: Server, t: Step, i: nat, base: seq<Frame>, first: Frame)
    requires Servers.Inv(cfg, sys) && Enabled(cfg, sys, t) && i < |sys.sessions|
    requires Held(cfg.callbacks, sys.sessions[i], Of(sys.queue, i), base, first)
    ensures i < |Next(cfg, sys, t).sessions|
    ensures Held(cfg.callbacks, Next(cfg, sys, t).sessions[i], Of(Next(cfg, sys, t).queue, i), base, first)
  {
    if t.Dispatch? {
      DispatchHeld(cfg, sys, i, base, first);
    } else if t.i != i {
      OtherStepSeenBy(cfg, sys, t, i);
    } else {
      NextAt(cfg, sys, t, i);
      OwnStepHeld(cfg, sys, t, base, first);
    }
  }

  lemma {:induction false} HeldStays(cfg: Config, sys: Server, ts: seq<Step>, sys': Server, i: nat,
                                     base: seq<Frame>, first: Frame)
    requires Servers.Inv(cfg, sys) && i < |sys.sessions| && IsRun(cfg, sys, ts, sys')
    requires Held(cfg.callbacks, sys.sessions[i], Of(sys.queue, i), base, first)
    ensures i < |sys'.sessions| && |sys'.sessions[i].send.wire| <= |EncodeAll(base)| + |Encode(first)|
    decreases |ts|
  {
    if ts == [] {
      SendInvOf(cfg, sys, i);
      HeldWire(cfg.callbacks, sys.sessions[i], Of(sys.queue, i), base, first);
    } else {
      StepHeld(cfg, sys, ts[0], i, base, first);
      StepKeeps(cfg, sys, ts[0]);
      HeldStays(cfg, Next(cfg, sys, ts[0]), ts[1..], sys', i, base, first);
    }
  }

  /** The frames after the first are at least one header long. */
  lemma TwoAreLonger(base: seq<Frame>, owed: seq<Frame>)
    requires |owed| >= 2
    ensures |EncodeAll(base + owed)| > |EncodeAll(base)| + |Encode(owed[0])|
  {
    EncodeAllAppend(base, owed);
    assert EncodeAll(owed) == Encode(owed[0]) + EncodeAll(owed[1..]);
    assert EncodeAll(owed[1..]) == Encode(owed[1]) + EncodeAll(owed[1..][1..]);
  }

  lemma TooLate(cfg: Config, sys: Server, i: nat)
    requires Servers.Inv(cfg, sys) && i < |sys.sessions| && Closing(sys.sessions[i])
    requires Q.RefusedCount(sys.sessions[i].send.log) == 0
    requires |Owed(cfg.callbacks, sys.sessions[i].send, Of(sys.queue, i))| >= 2
    ensures !CanAnswer(cfg, sys, i)
  {
    var c, s, waiting := cfg.callbacks, sys.sessions[i], Of(sys.queue, i);
    var owed := Owed(c, s.send, waiting);
    ClosingFlow(cfg, sys, i);
    CompletedAndOwed(c, s, Of(sys.disposed, i), waiting);
    TwoAreLonger(s.send.completed, owed);
    forall ts, sys' | IsRun(cfg, sys, ts, sys')
      ensures i < |sys'.sessions| && sys'.sessions[i].send.wire != EncodeAll(Replies(c, Requests(s)))
    {
      HeldStays(cfg, sys, ts, sys', i, s.send.completed, owed[0]);
    }
  }

  lemma AnswerableNow(cfg: Config, sys: Server, i: nat)
    requires Reachable(cfg, sys) && i < |sys.sessions| && Q.RefusedCount(sys.sessions[i].send.log) == 0
    ensures var s, c := sys.sessions[i], cfg.callbacks;
      CanAnswer(cfg, sys, i) <==>
        || s.send.wire == EncodeAll(Replies(c, Requests(s)))
        || Sound(s)
        || (Closing(s) && |Owed(c, s.send, Of(sys.queue, i))| <= 1)
  {
    var s, c := sys.sessions[i], cfg.callbacks;
    ReachableInv(cfg, sys);
    if s.send.wire == EncodeAll(Replies(c, Requests(s))) {
      assert IsRun(cfg, sys, [], sys);
    } else if Sound(s) {
      var ts, sys' := CanRest(cfg, sys, i);
      RestIsAnswered(cfg, sys, ts, sys', i);
    } else if !Closing(s) {
      ClosedByErrorOf(cfg, sys, i);
      forall ts, sys' | IsRun(cfg, sys, ts, sys')
        ensures i < |sys'.sessions| && sys'.sessions[i].send.wire == s.send.wire
      {
        ClosedStays(cfg, sys, ts, sys', i);
      }
    } else if |Owed(c, s.send, Of(sys.queue, i))| <= 1 {
      LastReply(cfg, sys, i);
    } else {
      TooLate(cfg, sys, i);
    }
  }

  /** After a run in which no reply to session `i` was refused, the replies to everything
      delivered to it can still get onto the wire if and only if they are on it already, or no
      read and no write of it has failed, or a read has failed, its handler has not closed the
      socket yet, and no more than one reply is outstanding. */
  lemma AnswerableExactly(cfg: Config, ts: seq<Step>, sys: Server, i: nat)
    requires IsRun(cfg, Begin(), ts, sys) && i < |sys.sessions| && Q.RefusedCount(sys.sessions[i].send.log) == 0
    ensures var s, answer := sys.sessions[i], EncodeAll(Replies(cfg.callbacks, Asked(ts, i)));
      CanSend(cfg, sys, i, answer) <==>
        || s.send.wire == answer
        || (ReadFail(i) !in ts && WriteError(i) !in ts)
        || (WriteError(i) !in ts && ReadFail(i) in ts && ReadHandlerRuns(ts, i)
            && |Owed(cfg.callbacks, s.send, Of(sys.queue, i))| <= 1)
  {
    AnswerFacts(cfg, ts, sys, i);
    AnswerableNow(cfg, sys, i);
  }
}
