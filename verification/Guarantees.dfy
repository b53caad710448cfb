/** What the server promises, over every run: order and content of the replies, the finality
    of errors, the single outstanding read, lifetime and registry of the sessions. */
module Guarantees {
  import opened Wire
  import opened Frames
  import opened Messages
  import opened Sessions
  import opened Servers
  import opened Traces
  import Acceptor
  import Q = SendQueue

  /** The requests a session has received. */
  function Requests(s: Session): seq<Frame>
  {
    Parse(s.received).frames
  }

  /** The requests that a run brought to session `i`: the frames of the bytes its reads delivered,
      however they were cut. */
  function Asked(ts: seq<Step>, i: nat): seq<Frame>
  {
    Parse(Delivered(ts, i)).frames
  }

  /** A step other than the worker's changes the one session that takes it. */
  lemma NextAt(cfg: Config, sys: Server, t: Step, i: nat)
    requires Possible(sys, t) && !t.Dispatch? && i < |sys.sessions|
    ensures i < |Next(cfg, sys, t).sessions|
    ensures Next(cfg, sys, t).sessions[i] == if t.i == i then NextSession(sys, t) else sys.sessions[i]
  {
    NextShape(cfg, sys, t);
  }

  lemma RunCons(cfg: Config, sys: Server, t: Step, next: Server, ts: seq<Step>, sys': Server)
    requires Enabled(cfg, sys, t) && Next(cfg, sys, t) == next && IsRun(cfg, next, ts, sys')
    ensures IsRun(cfg, sys, [t] + ts, sys')
  {
    assert ([t] + ts)[1..] == ts;
  }

  lemma {:induction false} RunAppend(cfg: Config, a: Server, ts: seq<Step>, b: Server, us: seq<Step>, c: Server)
    requires IsRun(cfg, a, ts, b) && IsRun(cfg, b, us, c)
    ensures IsRun(cfg, a, ts + us, c)
    decreases |ts|
  {
    if ts == [] {
      assert ts + us == us;
    } else {
      RunAppend(cfg, Next(cfg, a, ts[0]), ts[1..], b, us, c);
      assert (ts + us)[1..] == ts[1..] + us;
    }
  }

  lemma SessionInvOf(cfg: Config, sys: Server, i: nat)
    requires Reachable(cfg, sys) && i < |sys.sessions|
    ensures Sessions.Inv(cfg.callbacks, sys.sessions[i], Of(sys.disposed, i), Of(sys.queue, i))
    ensures NotEarly(cfg, sys.sessions[i])
  {
    ReachableInv(cfg, sys);
    assert SessionInv(cfg, sys, i);
  }

  // ------------------------------------------------------------------ end to end

  lemma PrefixOfThree<T>(a: seq<T>, b: seq<T>, c: seq<T>)
    ensures a <= a + b + c
  {
    assert a + b + c == a + (b + c);
  }

  lemma TakenInOrder(cfg: Config, sys: Server, i: nat)
    requires Reachable(cfg, sys) && i < |sys.sessions|
    ensures Of(sys.disposed, i) <= Requests(sys.sessions[i])
  {
    SessionInvOf(cfg, sys, i);
    PrefixOfThree(Of(sys.disposed, i), Of(sys.queue, i), Todo(sys.sessions[i]));
  }

  lemma RepliesInOrder(cfg: Config, sys: Server, i: nat)
    requires Reachable(cfg, sys) && i < |sys.sessions|
    ensures var s, taken := sys.sessions[i], Of(sys.disposed, i);
      && taken <= Requests(s)
      && Q.Offered(s.send.log) == Replies(cfg.callbacks, taken) <= Replies(cfg.callbacks, Requests(s))
      && s.send.wire <= EncodeAll(Q.Accepted(s.send.log))
      && (forall k :: 0 <= k < |s.send.log| ==> s.send.log[k].depth <= MAX_SENDQUE + 1)
  {
    SessionInvOf(cfg, sys, i);
    TakenInOrder(cfg, sys, i);
    RepliesPrefix(cfg.callbacks, Of(sys.disposed, i), Requests(sys.sessions[i]));
    Q.WireIsPrefix(sys.sessions[i].send);
  }

  /** What the worker has taken of a session and what waits are the first requests that the
      run brought to it, one for each posting; and the worker takes the messages of all
      sessions in the order in which they were posted, one in each turn. */
  lemma TakenAsPosted(cfg: Config, ts: seq<Step>, sys: Server, i: nat)
    requires IsRun(cfg, Begin(), ts, sys) && i < |sys.sessions|
    ensures var posted := Of(sys.disposed, i) + Of(sys.queue, i);
      posted <= Asked(ts, i) && |posted| == Times(ts, PostNext(i))
    ensures SessionsOf(sys.disposed + sys.queue) == Posters(ts) && |sys.disposed| == Times(ts, Dispatch)
  {
    RunTold(cfg, ts, sys, i);
    RunPosts(cfg, ts, sys, i);
    RunQueueTold(cfg, ts, sys);
    OfAppend(sys.disposed, sys.queue, i);
    SessionInvOf(cfg, sys, i);
  }

  /** The replies offered to a session are the callback results for a prefix of the requests
      that the run brought to it, those with a registered id, in request order; what is on the
      wire, every byte that the network took, is a prefix of the encoded replies that `Send`
      accepted; and it refused exactly those that found the queue at its full length. */
  lemma EndToEnd(cfg: Config, ts: seq<Step>, sys: Server, i: nat)
    requires IsRun(cfg, Begin(), ts, sys) && i < |sys.sessions|
    ensures var s, taken := sys.sessions[i], Of(sys.disposed, i);
      && taken <= Asked(ts, i)
      && Q.Offered(s.send.log) == Replies(cfg.callbacks, taken) <= Replies(cfg.callbacks, Asked(ts, i))
      && s.send.wire <= EncodeAll(Q.Accepted(s.send.log)) && |s.send.wire| == Transmitted(ts, i)
      && |s.send.completed| == Times(ts, WriteComplete(i))
      && (forall k :: 0 <= k < |s.send.log| ==> s.send.log[k].depth <= MAX_SENDQUE + 1)
  {
    RunTold(cfg, ts, sys, i);
    RepliesInOrder(cfg, sys, i);
  }

  /** All received frames are posted, dispatched, and the replies written. */
  predicate Quiet(sys: Server, i: nat)
    requires i < |sys.sessions|
  {
    Todo(sys.sessions[i]) == [] && Of(sys.queue, i) == [] && sys.sessions[i].send.queue == []
  }

  lemma EncodeAllPrefix(a: seq<Frame>, b: seq<Frame>)
    requires a <= b
    ensures EncodeAll(a) <= EncodeAll(b)
  {
    EncodeAllAppend(a, b[|a|..]);
    assert b == a + b[|a|..];
  }

  lemma WireOfOffers(q: Q.SendState)
    requires Q.Inv(q) && Q.RefusedCount(q.log) == 0
    ensures q.wire <= EncodeAll(Q.Offered(q.log))
    ensures q.queue == [] ==> q.wire == EncodeAll(Q.Offered(q.log))
  {
    Q.NothingRefused(q.log);
    Q.WireIsPrefix(q);
  }

  /** A quiet session has had all its requests taken by the worker. */
  lemma QuietIsTaken(cfg: Config, sys: Server, i: nat)
    requires Reachable(cfg, sys) && i < |sys.sessions| && Quiet(sys, i)
    ensures Of(sys.disposed, i) == Requests(sys.sessions[i])
  {
    SessionInvOf(cfg, sys, i);
    assert Of(sys.disposed, i) + [] + [] == Of(sys.disposed, i);
  }

  lemma WireOfReceived(cfg: Config, sys: Server, i: nat)
    requires Reachable(cfg, sys) && i < |sys.sessions| && Q.RefusedCount(sys.sessions[i].send.log) == 0
    ensures var s := sys.sessions[i];
      var ideal := EncodeAll(Replies(cfg.callbacks, Requests(s)));
      s.send.wire <= ideal && (Quiet(sys, i) ==> s.send.wire == ideal)
  {
    var s := sys.sessions[i];
    RepliesInOrder(cfg, sys, i);
    assert Q.Inv(s.send) by {
      SessionInvOf(cfg, sys, i);
    }
    WireOfOffers(s.send);
    EncodeAllPrefix(Q.Offered(s.send.log), Replies(cfg.callbacks, Requests(s)));
    if Quiet(sys, i) {
      QuietIsTaken(cfg, sys, i);
    }
  }

  /** As long as no reply was refused, the bytes sent are a prefix of one function of the
      bytes that the reads delivered, and all of it when the session is quiet. No
      interleaving, fragmentation or other session enters into it. */
  lemma WireIsFunctionOfInput(cfg: Config, ts: seq<Step>, sys: Server, i: nat)
    requires IsRun(cfg, Begin(), ts, sys) && i < |sys.sessions| && Q.RefusedCount(sys.sessions[i].send.log) == 0
    ensures var s, ideal := sys.sessions[i], EncodeAll(Replies(cfg.callbacks, Asked(ts, i)));
      s.send.wire <= ideal && (Quiet(sys, i) ==> s.send.wire == ideal)
  {
    RunTold(cfg, ts, sys, i);
    WireOfReceived(cfg, sys, i);
  }

  /** Seen from a peer that frames messages the same way: it sends legal requests in any
      pieces, and what it decodes are the replies to them in order, all of them when the
      session is quiet. */
  lemma PeerSeesReplies(cfg: Config, ts: seq<Step>, sys: Server, i: nat, requests: seq<Frame>)
    requires IsRun(cfg, Begin(), ts, sys) && i < |sys.sessions| && Q.RefusedCount(sys.sessions[i].send.log) == 0
    requires Delivered(ts, i) == EncodeAll(requests) && AllLegal(requests)
    requires AllLegal(Replies(cfg.callbacks, requests))
    ensures var s, replies := sys.sessions[i], Replies(cfg.callbacks, requests);
      && Parse(s.send.wire).frames <= replies
      && (Quiet(sys, i) ==> Parse(s.send.wire) == Parsed(replies, [], Open))
  {
    var replies := Replies(cfg.callbacks, requests);
    RoundTrip(requests);
    RoundTrip(replies);
    WireIsFunctionOfInput(cfg, ts, sys, i);
    PrefixDecodes(sys.sessions[i].send.wire, replies);
  }

  /** At most one write is in flight; its buffer is the whole frame at the front of the
      queue; the queue is non-empty exactly while one is in flight or after one failed. */
  lemma WritesSerialised(cfg: Config, sys: Server, i: nat)
    requires Reachable(cfg, sys) && i < |sys.sessions|
    ensures var q := sys.sessions[i].send;
      && (q.writing == [] || (q.queue != [] && q.writing == [Encode(q.queue[0])]))
      && (q.queue != [] <==> q.writing != [] || q.failed)
      && |q.log| == |q.completed| + |q.queue| + Q.RefusedCount(q.log)
      && |q.queue| <= MAX_SENDQUE + 1
  {
    SessionInvOf(cfg, sys, i);
  }

  lemma OneReadOf(cfg: Config, sys: Server, i: nat)
    requires Reachable(cfg, sys) && i < |sys.sessions|
    ensures OneRead(sys.sessions[i])
  {
    SessionInvOf(cfg, sys, i);
  }

  // ------------------------------------------------------------------ errors are final

  lemma FailedOwnStep(sys: Server, t: Step)
    requires Possible(sys, t) && !t.Dispatch? && sys.sessions[t.i].send.failed && sys.sessions[t.i].send.writing == []
    ensures NextSession(sys, t).send == sys.sessions[t.i].send
  {
  }

  lemma FailedHandle(c: Callbacks, s: Session, f: Frame)
    requires Q.Inv(s.send) && s.send.failed
    ensures var q := Handle(c, s, f).send;
      q.failed && q.writing == [] && q.wire == s.send.wire && q.completed == s.send.completed
  {
    if f.id in c {
      Q.FailureIsFinal(s.send, c[f.id](f.id, f.payload));
    }
  }

  /** The steps by which bytes of session `i` go out or a write of it completes. */
  predicate Writes(t: Step, i: nat)
  {
    (t.Network? || t.WriteComplete? || t.WriteError?) && t.i == i
  }

  lemma FailedStep(cfg: Config, sys: Server, t: Step, i: nat)
    requires Possible(sys, t) && i < |sys.sessions| && Q.Inv(sys.sessions[i].send) && sys.sessions[i].send.failed
    ensures i < |Next(cfg, sys, t).sessions| && !Writes(t, i)
    ensures var q, q' := sys.sessions[i].send, Next(cfg, sys, t).sessions[i].send;
      q'.failed && q'.writing == [] && q'.wire == q.wire && q'.completed == q.completed
  {
    if t.Dispatch? {
      FailedHandle(cfg.callbacks, sys.sessions[i], sys.queue[0].frame);
    } else {
      NextAt(cfg, sys, t, i);
      if t.i == i {
        FailedOwnStep(sys, t);
      }
    }
  }

  lemma SendInvOf(cfg: Config, sys: Server, i: nat)
    requires Servers.Inv(cfg, sys) && i < |sys.sessions|
    ensures Q.Inv(sys.sessions[i].send)
  {
    assert SessionInv(cfg, sys, i);
  }

  lemma {:induction false} FailedStays(cfg: Config, sys: Server, us: seq<Step>, sys': Server, i: nat)
    requires Servers.Inv(cfg, sys) && i < |sys.sessions| && sys.sessions[i].send.failed && IsRun(cfg, sys, us, sys')
    ensures i < |sys'.sessions| && forall u | u in us :: !Writes(u, i)
    ensures var q, q' := sys.sessions[i].send, sys'.sessions[i].send;
      q'.failed && q'.writing == [] && q'.wire == q.wire && q'.completed == q.completed
    decreases |us|
  {
    SendInvOf(cfg, sys, i);
    if us != [] {
      FailedStep(cfg, sys, us[0], i);
      StepKeeps(cfg, sys, us[0]);
      FailedStays(cfg, Next(cfg, sys, us[0]), us[1..], sys', i);
    }
  }

  /** A session that a step of a run concerned has been made. */
  lemma ConcernedIsMade(cfg: Config, ts: seq<Step>, sys: Server, t: Step)
    requires IsRun(cfg, Begin(), ts, sys) && t in ts && !t.Dispatch?
    ensures t.i < |sys.sessions|
  {
    RunInRange(cfg, ts, sys);
  }

  /** Once a write of a session has failed, in every later state no write is in flight, not a
      byte more has gone out and not a frame more has been completed, whatever the callbacks
      go on to send: the network, and completions of writes, have nothing more to do. */
  lemma FailedForGood(cfg: Config, ts: seq<Step>, sys: Server, us: seq<Step>, sys': Server, i: nat)
    requires IsRun(cfg, Begin(), ts, sys) && WriteError(i) in ts && IsRun(cfg, sys, us, sys')
    ensures i < |sys.sessions| && i < |sys'.sessions| && forall u | u in us :: !Writes(u, i)
    ensures var q, q' := sys.sessions[i].send, sys'.sessions[i].send;
      q'.failed && q'.writing == [] && q'.wire == q.wire && q'.completed == q.completed
  {
    ConcernedIsMade(cfg, ts, sys, WriteError(i));
    RunTold(cfg, ts, sys, i);
    ReachableInv(cfg, sys);
    FailedStays(cfg, sys, us, sys', i);
  }

  /** What the handler of a failed write leaves at once: the socket closed, the session not
      registered, and nothing in flight. */
  lemma WriteErrorLeaves(cfg: Config, ts: seq<Step>, sys: Server, i: nat)
    requires IsRun(cfg, Begin(), ts, sys) && Enabled(cfg, sys, WriteError(i))
    ensures var s, s' := sys.sessions[i], Next(cfg, sys, WriteError(i)).sessions[i];
      && s'.closed && !s'.registered && s'.send.failed && s'.send.writing == [] && s'.writeHandlers == 1
      && s'.send.queue == s.send.queue && s'.send.wire == s.send.wire && s'.send.completed == s.send.completed
  {
    ReachableInv(cfg, sys);
    StepKeeps(cfg, sys, WriteError(i));
    SendInvOf(cfg, sys, i);
    assert !Running(sys, WriteJob(i));
  }

  lemma ReadReturnLeaves(s: Session)
    requires OneRead(s) && s.reader.Handling?
    ensures var s' := ReadReturn(s);
      && s'.reader == NoHandler && s'.send == s.send
      && (s.readFailed ==> s'.closed)
      && (ReadEnds(s) ==> !s'.registered && s'.pendingReads == 0)
      && (!s.readFailed && Parse(s.received).status == Open ==> s'.pendingReads == 1)
  {
  }

  /** What the handler of a read leaves: after an error the socket closed and the session not
      registered, after a refused header the session not registered, otherwise, in an open
      stream, the next read armed. */
  lemma ReadEndLeaves(cfg: Config, ts: seq<Step>, sys: Server, i: nat)
    requires IsRun(cfg, Begin(), ts, sys) && Enabled(cfg, sys, ReadEnd(i))
    ensures var s' := Next(cfg, sys, ReadEnd(i)).sessions[i];
      && s'.reader == NoHandler
      && (ReadFail(i) in ts ==> s'.closed)
      && (ReadingFailed(ts, i) ==> !s'.registered && s'.pendingReads == 0)
      && (ReadFail(i) !in ts && Parse(Delivered(ts, i)).status == Open ==> s'.pendingReads == 1)
      && s'.send == sys.sessions[i].send
  {
    ReadFacts(cfg, ts, sys, i);
    OneReadOf(cfg, sys, i);
    ReadReturnLeaves(sys.sessions[i]);
  }

  lemma ClosedOwnStep(sys: Server, t: Step)
    requires Possible(sys, t) && !t.Dispatch? && sys.sessions[t.i].closed
    ensures NextSession(sys, t).closed && NextSession(sys, t).send.wire == sys.sessions[t.i].send.wire
  {
  }

  lemma ClosedStep(cfg: Config, sys: Server, t: Step, i: nat)
    requires Possible(sys, t) && i < |sys.sessions| && sys.sessions[i].closed
    ensures i < |Next(cfg, sys, t).sessions| && !(t.Network? && t.i == i)
    ensures Next(cfg, sys, t).sessions[i].closed
    ensures Next(cfg, sys, t).sessions[i].send.wire == sys.sessions[i].send.wire
  {
    if !t.Dispatch? {
      NextAt(cfg, sys, t, i);
      if t.i == i {
        ClosedOwnStep(sys, t);
      }
    }
  }

  lemma {:induction false} ClosedStays(cfg: Config, sys: Server, us: seq<Step>, sys': Server, i: nat)
    requires i < |sys.sessions| && sys.sessions[i].closed && IsRun(cfg, sys, us, sys')
    ensures i < |sys'.sessions| && sys'.sessions[i].closed && sys'.sessions[i].send.wire == sys.sessions[i].send.wire
    ensures forall u | u in us :: !(u.Network? && u.i == i)
    decreases |us|
  {
    if us != [] {
      ClosedStep(cfg, sys, us[0], i);
      ClosedStays(cfg, Next(cfg, sys, us[0]), us[1..], sys', i);
    }
  }

  lemma ClosedByErrorOf(cfg: Config, sys: Server, i: nat)
    requires Reachable(cfg, sys) && i < |sys.sessions|
    ensures ClosedByError(sys.sessions[i])
  {
    SessionInvOf(cfg, sys, i);
  }

  /** A session is closed exactly if in the run so far a write of it has failed, or a read of
      it has failed and the handler of that read has returned. It is closed for good: in every
      later state not a byte more has gone out, and the network takes none. */
  lemma ClosedForGood(cfg: Config, ts: seq<Step>, sys: Server, us: seq<Step>, sys': Server, i: nat)
    requires IsRun(cfg, Begin(), ts, sys) && i < |sys.sessions| && IsRun(cfg, sys, us, sys')
    ensures sys.sessions[i].closed <==> WriteError(i) in ts || (ReadFail(i) in ts && !ReadHandlerRuns(ts, i))
    ensures sys.sessions[i].closed ==>
      && i < |sys'.sessions| && sys'.sessions[i].closed && sys'.sessions[i].send.wire == sys.sessions[i].send.wire
      && forall u | u in us :: !(u.Network? && u.i == i)
  {
    RunTold(cfg, ts, sys, i);
    ClosedByErrorOf(cfg, sys, i);
    if sys.sessions[i].closed {
      ClosedStays(cfg, sys, us, sys', i);
    }
  }

  // ------------------------------------------------------------------ reading

  /** A session that was accepted and has no read pending and no read handler running. */
  predicate ReadingOver(s: Session)
  {
    Accepted(s) && s.pendingReads == 0 && s.reader == NoHandler
  }

  lemma PendingExactly(s: Session)
    requires OneRead(s)
    ensures s.pendingReads == if && Accepted(s) && !s.reader.Handling? && !s.readFailed
                                 && Parse(s.received).status == Open then 1 else 0
    ensures ReadingOver(s) <==> ReaderCleared(s) || (Parse(s.received).status == Aborted && s.reader == NoHandler)
  {
  }

  /** There is never more than one read: one is pending exactly if the session was accepted,
      no read handler is running, no read has failed, and the bytes delivered leave the stream
      open. Reading ends only by a read error or a refused header, which clear the session, or
      by an aborted header. */
  lemma SingleRead(cfg: Config, ts: seq<Step>, sys: Server, i: nat)
    requires IsRun(cfg, Begin(), ts, sys) && i < |sys.sessions|
    ensures var s := sys.sessions[i];
      && s.pendingReads == (if && AcceptDone(i) in ts && !ReadHandlerRuns(ts, i) && ReadFail(i) !in ts
                               && Parse(Delivered(ts, i)).status == Open then 1 else 0)
      && (s.reader.Handling? <==> ReadHandlerRuns(ts, i))
      && s.pendingReads + (if s.reader.Handling? then 1 else 0) <= 1
      && (ReadingOver(s) <==> ReaderCleared(s) || (Parse(s.received).status == Aborted && s.reader == NoHandler))
  {
    ReadFacts(cfg, ts, sys, i);
    OneReadOf(cfg, sys, i);
    PendingExactly(sys.sessions[i]);
  }

  /** The steps by which session `i` reads. */
  predicate ReadsOn(t: Step, i: nat)
  {
    (t.ReadDone? || t.ReadFail? || t.PostNext? || t.ReadEnd?) && t.i == i
  }

  lemma OverOwnStep(sys: Server, t: Step)
    requires Possible(sys, t) && !t.Dispatch? && ReadingOver(sys.sessions[t.i])
    ensures ReadingOver(NextSession(sys, t)) && NextSession(sys, t).received == sys.sessions[t.i].received
  {
  }

  lemma OverStep(cfg: Config, sys: Server, t: Step, i: nat)
    requires Possible(sys, t) && i < |sys.sessions| && ReadingOver(sys.sessions[i])
    ensures i < |Next(cfg, sys, t).sessions| && !ReadsOn(t, i)
    ensures var s, s' := sys.sessions[i], Next(cfg, sys, t).sessions[i];
      ReadingOver(s') && s'.received == s.received
  {
    if !t.Dispatch? {
      NextAt(cfg, sys, t, i);
      if t.i == i {
        OverOwnStep(sys, t);
      }
    }
  }

  /** All frames of a session whose reading is over have been posted. */
  lemma OverIsPosted(cfg: Config, sys: Server, i: nat)
    requires Servers.Inv(cfg, sys) && i < |sys.sessions| && ReadingOver(sys.sessions[i])
    ensures Of(sys.disposed, i) + Of(sys.queue, i) == Requests(sys.sessions[i])
  {
    assert SessionInv(cfg, sys, i);
    assert Of(sys.disposed, i) + Of(sys.queue, i) + [] == Of(sys.disposed, i) + Of(sys.queue, i);
  }

  lemma {:induction false} OverStays(cfg: Config, sys: Server, us: seq<Step>, sys': Server, i: nat)
    requires Servers.Inv(cfg, sys) && i < |sys.sessions| && ReadingOver(sys.sessions[i]) && IsRun(cfg, sys, us, sys')
    ensures Servers.Inv(cfg, sys') && i < |sys'.sessions| && forall u | u in us :: !ReadsOn(u, i)
    ensures ReadingOver(sys'.sessions[i]) && sys'.sessions[i].received == sys.sessions[i].received
    decreases |us|
  {
    if us != [] {
      OverStep(cfg, sys, us[0], i);
      StepKeeps(cfg, sys, us[0]);
      OverStays(cfg, Next(cfg, sys, us[0]), us[1..], sys', i);
    }
  }

  /** Once reading is over it is over for good: no later step completes or fails a read of the
      session or posts a frame of it, so in every later state not a byte more is received. */
  lemma OverForGood(cfg: Config, sys: Server, us: seq<Step>, sys': Server, i: nat)
    requires Reachable(cfg, sys) && i < |sys.sessions| && ReadingOver(sys.sessions[i]) && IsRun(cfg, sys, us, sys')
    ensures forall u | u in us :: !ReadsOn(u, i)
    ensures i < |sys'.sessions| && ReadingOver(sys'.sessions[i]) && sys'.sessions[i].received == sys.sessions[i].received
    ensures Of(sys'.disposed, i) + Of(sys'.queue, i) == Of(sys.disposed, i) + Of(sys.queue, i)
  {
    ReachableInv(cfg, sys);
    OverStays(cfg, sys, us, sys', i);
    OverIsPosted(cfg, sys, i);
    OverIsPosted(cfg, sys', i);
  }

  // ------------------------------------------------------------------ handlers and threads

  lemma ApartHandlers(cfg: Config, sys: Server, j: Job, k: Job)
    requires Exclusive(cfg, sys) && Running(sys, j) && Running(sys, k) && j != k
    ensures ThreadOf(cfg, j) != ThreadOf(cfg, k)
  {
  }

  lemma ExclusiveOf(cfg: Config, sys: Server)
    requires Reachable(cfg, sys)
    ensures Exclusive(cfg, sys)
  {
    ReachableInv(cfg, sys);
  }

  /** Never do two handlers run on one thread: not two of the accept handler, not two of one
      session or of sessions of one context, and with one thread no two at all. */
  lemma OneHandlerPerThread(cfg: Config, ts: seq<Step>, sys: Server, j: Job, k: Job)
    requires IsRun(cfg, Begin(), ts, sys) && Running(sys, j) && Running(sys, k) && j != k
    ensures !cfg.oneThread && (j.AcceptJob? ==> !k.AcceptJob?)
    ensures !j.AcceptJob? && !k.AcceptJob? ==>
      Acceptor.Context(j.session, cfg.pool) != Acceptor.Context(k.session, cfg.pool)
  {
    ExclusiveOf(cfg, sys);
    ApartHandlers(cfg, sys, j, k);
  }

  // ------------------------------------------------------------------ lifetime

  /** A session is destroyed at most once, and exactly when nothing holds it: no pending
      accept, read or write, no running handler, no queued message, no registry entry. */
  lemma DestroyedOnce(cfg: Config, sys: Server, i: nat)
    requires Reachable(cfg, sys) && i < |sys.sessions|
    ensures var s := sys.sessions[i];
      && s.refs == Holders(s, Of(sys.queue, i))
      && s.destroyed <= 1
      && (s.destroyed == 1 <==>
            && s.stage != Accepting && s.stage != Started && !s.registered
            && s.pendingReads == 0 && s.reader == NoHandler
            && s.send.writing == [] && s.writeHandlers == 0 && Of(sys.queue, i) == [])
  {
    SessionInvOf(cfg, sys, i);
  }

  lemma UnheldIsInert(sys: Server, t: Step)
    requires Possible(sys, t) && !t.Dispatch?
    ensures Holders(sys.sessions[t.i], []) > 0
  {
  }

  /** Nothing ever happens to a destroyed session. */
  lemma DestroyedIsInert(cfg: Config, sys: Server, i: nat, t: Step)
    requires Reachable(cfg, sys) && i < |sys.sessions| && sys.sessions[i].destroyed > 0 && Enabled(cfg, sys, t)
    ensures if t.Dispatch? then sys.queue[0].session != i else t.i != i
    ensures i < |Next(cfg, sys, t).sessions| && Next(cfg, sys, t).sessions[i] == sys.sessions[i]
  {
    DestroyedOnce(cfg, sys, i);
    if t.Dispatch? {
      OfTail(sys.queue, i);
      OfOne(sys.queue[0], i);
    } else {
      UnheldIsInert(sys, t);
      NextAt(cfg, sys, t, i);
    }
  }

  // ------------------------------------------------------------------ registry

  lemma LifeOf(cfg: Config, sys: Server, i: nat)
    requires Reachable(cfg, sys) && i < |sys.sessions|
    ensures Life(sys.sessions[i], Of(sys.queue, i)) && NotEarly(cfg, sys.sessions[i])
  {
    SessionInvOf(cfg, sys, i);
  }

  lemma OneMoment(log: seq<Moment>)
    requires |log| <= 1
    ensures log == [] || log == [Early] || log == [Late]
  {
    if log != [] {
      assert log == [log[0]];
      assert log[0] == Early || log[0] == Late;
    }
  }

  /** Each log of clears is empty or has its one call. */
  lemma ClearedOnce(s: Session)
    requires OneRead(s) && Listed(s)
    ensures if s.send.failed then s.writeClears == [Early] || s.writeClears == [Late] else s.writeClears == []
    ensures if s.reader == NoHandler && ReadEnds(s) then s.readClears == [Early] || s.readClears == [Late]
      else s.readClears == []
  {
    OneMoment(s.readClears);
    OneMoment(s.writeClears);
  }

  lemma RegisteredByCause(cfg: Config, sys: Server, i: nat)
    requires Reachable(cfg, sys) && i < |sys.sessions|
    ensures var s := sys.sessions[i];
      && (s.registered <==>
            && s.stage == Inserted
            && (s.send.failed ==> s.writeClears == [Early])
            && (s.reader == NoHandler && ReadEnds(s) ==> s.readClears == [Early]))
      && |s.writeClears| == (if s.send.failed then 1 else 0)
      && |s.readClears| == (if s.reader == NoHandler && ReadEnds(s) then 1 else 0)
      && (s.registered && ReadingOver(s) <==>
            && s.stage == Inserted && s.reader == NoHandler && s.writeClears != [Late]
            && (Parse(s.received).status == Aborted || s.readClears == [Early]))
  {
    LifeOf(cfg, sys, i);
    ClearedOnce(sys.sessions[i]);
  }

  /** A session is in the registry exactly if it was inserted and, after that, no write of it
      failed and no read handler of it returned with its reading failed. In other words, if it
      was inserted and whatever has struck it cleared it too early, before the insertion; each
      of the two clears it once. One that stays there with its reading over was aborted, or
      its reader cleared it too early. */
  lemma RegistryExact(cfg: Config, ts: seq<Step>, sys: Server, i: nat)
    requires IsRun(cfg, Begin(), ts, sys) && i < |sys.sessions|
    ensures var s := sys.sessions[i];
      && (s.registered <==> InRegistry(ts, i))
      && (s.registered <==>
            && InsertSession(i) in ts
            && (WriteError(i) in ts ==> s.writeClears == [Early])
            && (ReadingFailed(ts, i) && !ReadHandlerRuns(ts, i) ==> s.readClears == [Early]))
      && |s.writeClears| == Times(ts, WriteError(i))
      && |s.readClears| == (if ReadingFailed(ts, i) && !ReadHandlerRuns(ts, i) then 1 else 0)
      && (s.registered && ReadingOver(s) <==>
            && InsertSession(i) in ts && !ReadHandlerRuns(ts, i) && s.writeClears != [Late]
            && (Parse(Delivered(ts, i)).status == Aborted || s.readClears == [Early]))
  {
    RunTold(cfg, ts, sys, i);
    RegisteredByCause(cfg, sys, i);
  }

  lemma RegisteredOnOneThread(cfg: Config, sys: Server, i: nat)
    requires cfg.oneThread && Reachable(cfg, sys) && i < |sys.sessions|
    ensures var s := sys.sessions[i];
      && (s.registered <==> s.stage == Inserted && !s.send.failed && (s.reader.Handling? || !ReadEnds(s)))
      && (s.registered <==>
            && s.stage == Inserted && !s.send.failed
            && (s.pendingReads == 1 || s.reader.Handling? || Parse(s.received).status == Aborted))
  {
    LifeOf(cfg, sys, i);
    ClearedOnce(sys.sessions[i]);
  }

  /** On one thread the registry is exact: the registered sessions are the inserted ones of
      which no write has failed, and no read either and no refused header has come, unless
      the handler of that is still running. In other words, those without failed write that
      have their read pending or its handler running, or whose stream was aborted. */
  lemma RegistryOnOneThread(cfg: Config, ts: seq<Step>, sys: Server, i: nat)
    requires cfg.oneThread && IsRun(cfg, Begin(), ts, sys) && i < |sys.sessions|
    ensures var s := sys.sessions[i];
      && (s.registered <==>
            InsertSession(i) in ts && WriteError(i) !in ts && (ReadingFailed(ts, i) ==> ReadHandlerRuns(ts, i)))
      && (s.registered <==>
            && InsertSession(i) in ts && WriteError(i) !in ts
            && (s.pendingReads == 1 || ReadHandlerRuns(ts, i) || Parse(Delivered(ts, i)).status == Aborted))
  {
    RunTold(cfg, ts, sys, i);
    RegisteredOnOneThread(cfg, sys, i);
  }

  function Alone(s: Session): Server
  {
    Server([s], [], [])
  }

  /** The handlers of session 0 and the accept handler do not exclude each other. */
  lemma AloneScheduled(cfg: Config, s: Session, t: Step)
    requires !cfg.oneThread && (t == AcceptDone(0) || t == ReadFail(0) || t == ReadEnd(0))
    requires s.reader == NoHandler || t == ReadEnd(0)
    requires s.writeHandlers == 0 && (t == AcceptDone(0) ==> s.stage == Accepting)
    ensures Scheduled(cfg, Alone(s), t)
  {
    if Begins(t) {
      forall j | Running(Alone(s), j)
        ensures ThreadOf(cfg, j) != ThreadOf(cfg, JobOf(t))
      {
        assert j == AcceptJob(0);
      }
    }
  }

  lemma AloneStep(cfg: Config, s: Session, t: Step, q: Session, ts: seq<Step>, sys: Server)
    requires Possible(Alone(s), t) && Scheduled(cfg, Alone(s), t) && (t.AcceptDone? || t.ReadFail? || t.ReadEnd?)
    requires NextSession(Alone(s), t) == q && IsRun(cfg, Alone(q), ts, sys)
    ensures IsRun(cfg, Alone(s), [t] + ts, sys)
  {
    assert Next(cfg, Alone(s), t) == Alone(q);
    RunCons(cfg, Alone(s), t, Alone(q), ts, sys);
  }

  lemma InsertAlone(cfg: Config, s: Session)
    requires s.stage == Started
    ensures IsRun(cfg, Alone(s), [InsertSession(0)], Server([Insert(s), Made()], [], []))
  {
    var sys := Server([Insert(s), Made()], [], []);
    assert [s][0 := Insert(s)] + [Made()] == [Insert(s), Made()];
    RunCons(cfg, Alone(s), InsertSession(0), sys, [], sys);
    assert [InsertSession(0)] + [] == [InsertSession(0)];
  }

  /** A session of a run in which nothing is received or sent. */
  function Bare(stage: Stage, pending: nat, reader: Reader, failed: bool, closed: bool,
                registered: bool, clears: seq<Moment>, refs: int): Session
  {
    Session(stage, pending, reader, [], Q.Fresh, 0, failed, closed, registered, clears, [], refs, 0)
  }

  lemma EarlyClearRest(cfg: Config) returns (ts: seq<Step>, sys: Server)
    requires !cfg.oneThread
    ensures IsRun(cfg, Alone(Bare(Started, 1, NoHandler, false, false, false, [], 2)), ts, sys)
    ensures sys.sessions == [Bare(Inserted, 0, NoHandler, true, true, true, [Early], 1), Made()]
  {
    var p1 := Bare(Started, 1, NoHandler, false, false, false, [], 2);
    var p2 := Bare(Started, 0, Handling([], CloseAndClear), true, false, false, [], 2);
    var p3 := Bare(Started, 0, NoHandler, true, true, false, [Early], 1);
    assert [] + [Early] == [Early];
    ts, sys := [InsertSession(0)], Server([Insert(p3), Made()], [], []);
    InsertAlone(cfg, p3);
    AloneScheduled(cfg, p2, ReadEnd(0));
    AloneStep(cfg, p2, ReadEnd(0), p3, ts, sys);
    ts := [ReadEnd(0)] + ts;
    AloneScheduled(cfg, p1, ReadFail(0));
    AloneStep(cfg, p1, ReadFail(0), p2, ts, sys);
    ts := [ReadFail(0)] + ts;
  }

  /** Start, read error, its handler, and only then the insertion. */
  lemma EarlyClearRun(cfg: Config) returns (ts: seq<Step>, sys: Server)
    requires !cfg.oneThread
    ensures IsRun(cfg, Begin(), ts, sys)
    ensures sys.sessions == [Bare(Inserted, 0, NoHandler, true, true, true, [Early], 1), Made()]
  {
    var p1 := Bare(Started, 1, NoHandler, false, false, false, [], 2);
    ts, sys := EarlyClearRest(cfg);
    assert Made() == Bare(Accepting, 0, NoHandler, false, false, false, [], 1);
    AloneScheduled(cfg, Made(), AcceptDone(0));
    AloneStep(cfg, Made(), AcceptDone(0), p1, ts, sys);
    ts := [AcceptDone(0)] + ts;
  }

  /** With several threads it is not: a read error may come between Start and the insertion,
      and then a closed session stays registered. */
  lemma StaleRegistration(c: Callbacks, pool: PoolSize)
    ensures exists sys ::
      && Reachable(Config(c, false, pool), sys) && |sys.sessions| > 0
      && sys.sessions[0].registered && sys.sessions[0].closed
      && ReadingOver(sys.sessions[0]) && ReaderCleared(sys.sessions[0])
  {
    var ts, sys := EarlyClearRun(Config(c, false, pool));
  }
}
