/** What the server can do and what it has to reckon with: runs that exist.

    For any legal requests there is a run that answers them; reads and writes may fail;
    handlers of different contexts overlap. */
module Scenarios {
  import opened Wire
  import opened Frames
  import opened Messages
  import opened Sessions
  import opened Servers
  import opened Traces
  import opened Guarantees
  import opened Answering
  import Acceptor
  import Q = SendQueue

  // ------------------------------------------------------------------ every input can be answered

  lemma {:induction false} DeliveredAppend(ts: seq<Step>, us: seq<Step>, i: nat)
    requires AllFinishing(us)
    ensures Delivered(ts + us, i) == Delivered(ts, i)
  {
    if us == [] {
      assert ts + us == ts;
    } else {
      assert us[|us| - 1] in us;
      var past, u := us[..|us| - 1], us[|us| - 1];
      assert us == past + [u] && ts + us == ts + past + [u];
      DeliveredAppend(ts, past, i);
      DeliveredSnoc(ts + past, u, i);
    }
  }

  /** Session `i` has been sent `bytes` and has answered all of them; no handler is running. */
  ghost predicate Ready(cfg: Config, ts: seq<Step>, sys: Server, i: nat, bytes: seq<Byte>)
  {
    && IsRun(cfg, Begin(), ts, sys) && i < |sys.sessions| && Delivered(ts, i) == bytes
    && InsertSession(i) in ts && ReadFail(i) !in ts && WriteError(i) !in ts
    && Work(sys.sessions) == 0 && Quiet(sys, i) && Q.RefusedCount(sys.sessions[i].send.log) == 0
  }

  /** `k` accepts have failed, and the next is pending. */
  function AcceptsFailed(k: nat): Server
  {
    Server(seq(k, _ => Drop(Made())) + [Made()], [], [])
  }

  lemma {:induction false} DroppedWork(k: nat, last: seq<Session>)
    ensures Work(seq(k, _ => Drop(Made())) + last) == Work(last)
  {
    var ss := seq(k, _ => Drop(Made())) + last;
    if k == 0 {
      assert ss == last;
    } else {
      assert ss[1..] == seq(k - 1, _ => Drop(Made())) + last;
      DroppedWork(k - 1, last);
    }
  }

  lemma WorkOfOne(s: Session)
    ensures Work([s]) == JobWork(s) && Work([s, Made()]) == JobWork(s)
  {
    assert [s][1..] == [] && [s, Made()][1..] == [Made()] && [Made()][1..] == [];
  }

  lemma AcceptFails(cfg: Config, k: nat)
    ensures Enabled(cfg, AcceptsFailed(k), AcceptFail(k))
    ensures Next(cfg, AcceptsFailed(k), AcceptFail(k)) == AcceptsFailed(k + 1)
  {
    var ss, t := AcceptsFailed(k).sessions, AcceptFail(k);
    assert ss[k] == Made();
    DroppedWork(k, [Made()]);
    WorkOfOne(Made());
    IdleEnabled(cfg, AcceptsFailed(k), t);
    assert ss[k := Drop(Made())] + [Made()] == seq(k + 1, _ => Drop(Made())) + [Made()];
  }

  lemma {:induction false} FailAccepts(cfg: Config, k: nat) returns (ts: seq<Step>)
    ensures IsRun(cfg, Begin(), ts, AcceptsFailed(k)) && forall t | t in ts :: t.AcceptFail?
    ensures forall j: nat | j < k :: AcceptFail(j) in ts
  {
    if k == 0 {
      ts := [];
      assert AcceptsFailed(0).sessions == [Made()];
    } else {
      ts := FailAccepts(cfg, k - 1);
      AcceptFails(cfg, k - 1);
      RunOfOne(cfg, AcceptsFailed(k - 1), AcceptFail(k - 1));
      RunAppend(cfg, Begin(), ts, AcceptsFailed(k - 1), [AcceptFail(k - 1)], AcceptsFailed(k));
      ts := ts + [AcceptFail(k - 1)];
    }
  }

  /** The state after session `k` is accepted and, if `inserted`, inserted. */
  function AcceptedAfter(k: nat, inserted: bool): Server
  {
    var dropped := seq(k, _ => Drop(Made()));
    Server(if inserted then dropped + [Insert(Start(Made())), Made()] else dropped + [Start(Made())], [], [])
  }

  lemma AcceptAndInsert(cfg: Config, k: nat)
    ensures IsRun(cfg, AcceptsFailed(k), [AcceptDone(k), InsertSession(k)], AcceptedAfter(k, true))
    ensures Work(AcceptedAfter(k, true).sessions) == 0
  {
    var dropped, s := seq(k, _ => Drop(Made())), Start(Made());
    var a, b, c := AcceptsFailed(k), AcceptedAfter(k, false), AcceptedAfter(k, true);
    DroppedWork(k, [Made()]);
    DroppedWork(k, [Insert(s), Made()]);
    WorkOfOne(Made());
    WorkOfOne(Insert(s));
    assert a.sessions[k] == Made() && b.sessions[k] == s;
    IdleEnabled(cfg, a, AcceptDone(k));
    assert a.sessions[k := s] == b.sessions;
    assert b.sessions[k := Insert(s)] + [Made()] == c.sessions;
    RunOfOne(cfg, b, InsertSession(k));
    RunCons(cfg, a, AcceptDone(k), b, [InsertSession(k)], c);
    assert [AcceptDone(k)] + [InsertSession(k)] == [AcceptDone(k), InsertSession(k)];
  }

  lemma InsertedIsQuiet(k: nat)
    ensures var sys := AcceptedAfter(k, true);
      k < |sys.sessions| && Quiet(sys, k) && Q.RefusedCount(sys.sessions[k].send.log) == 0
  {
    assert AcceptedAfter(k, true).sessions[k] == Insert(Start(Made()));
  }

  lemma {:induction false} NothingDelivered(ts: seq<Step>, i: nat)
    requires forall t | t in ts :: !t.ReadDone?
    ensures Delivered(ts, i) == []
  {
    if ts != [] {
      assert ts[|ts| - 1] in ts;
      NothingDelivered(ts[..|ts| - 1], i);
    }
  }

  lemma FirstTold(us: seq<Step>, i: nat)
    requires forall t | t in us :: t.AcceptFail?
    ensures var ts := us + [AcceptDone(i), InsertSession(i)];
      && Delivered(ts, i) == [] && InsertSession(i) in ts && ReadFail(i) !in ts && WriteError(i) !in ts
      && forall t | t in us :: t in ts
  {
    var accept := [AcceptDone(i), InsertSession(i)];
    assert InsertSession(i) in accept;
    NothingDelivered(us + accept, i);
  }

  /** After any number of failed accepts session `i` is accepted and inserted. */
  lemma FirstReady(cfg: Config, i: nat) returns (ts: seq<Step>, sys: Server)
    ensures Ready(cfg, ts, sys, i, []) && forall k: nat | k < i :: AcceptFail(k) in ts
  {
    var us := FailAccepts(cfg, i);
    var accept := [AcceptDone(i), InsertSession(i)];
    sys := AcceptedAfter(i, true);
    AcceptAndInsert(cfg, i);
    RunAppend(cfg, Begin(), us, AcceptsFailed(i), accept, sys);
    ts := us + accept;
    FirstTold(us, i);
    InsertedIsQuiet(i);
  }

  lemma InsertedIsAccepted(cfg: Config, ts: seq<Step>, sys: Server, i: nat)
    requires IsRun(cfg, Begin(), ts, sys) && i < |sys.sessions| && InsertSession(i) in ts
    ensures AcceptDone(i) in ts
  {
    RunTold(cfg, ts, sys, i);
  }

  lemma ReadyPending(cfg: Config, ts: seq<Step>, sys: Server, i: nat)
    requires Ready(cfg, ts, sys, i, Delivered(ts, i)) && Parse(Delivered(ts, i)).status == Open
    ensures CanRead(sys.sessions[i])
  {
    ReadFacts(cfg, ts, sys, i);
    InsertedIsAccepted(cfg, ts, sys, i);
    WorkNowhere(sys.sessions, i);
    OneReadOf(cfg, sys, i);
    PendingExactly(sys.sessions[i]);
  }

  lemma ReadSound(s: Session, chunk: seq<Byte>)
    requires CanRead(s) && Sound(s)
    ensures Sound(Read(s, chunk)) && Read(s, chunk).send == s.send
  {
  }

  /** A session that is ready for input may be given any chunk. */
  lemma MayRead(cfg: Config, ts: seq<Step>, sys: Server, i: nat, chunk: seq<Byte>)
    requires Ready(cfg, ts, sys, i, Delivered(ts, i)) && Parse(Delivered(ts, i)).status == Open
    requires 0 < |chunk| <= MAX_LENGTH
    ensures Enabled(cfg, sys, ReadDone(i, chunk))
    ensures var s' := Read(sys.sessions[i], chunk);
      Sound(s') && s'.send == sys.sessions[i].send && Next(cfg, sys, ReadDone(i, chunk)).sessions[i] == s'
  {
    AnswerFacts(cfg, ts, sys, i);
    ReadyPending(cfg, ts, sys, i);
    ReadSound(sys.sessions[i], chunk);
    IdleEnabled(cfg, sys, ReadDone(i, chunk));
  }

  lemma ChunkTold(ts: seq<Step>, t: Step, us: seq<Step>, i: nat)
    requires t.ReadDone? && t.i == i && AllFinishing(us)
    requires InsertSession(i) in ts && ReadFail(i) !in ts && WriteError(i) !in ts
    ensures var ts' := ts + [t] + us;
      && InsertSession(i) in ts' && ReadFail(i) !in ts' && WriteError(i) !in ts'
      && Delivered(ts', i) == Delivered(ts, i) + t.chunk
  {
    DeliveredSnoc(ts, t, i);
    DeliveredAppend(ts + [t], us, i);
  }

  /** ... and can then get ready again. */
  lemma ChunkReady(cfg: Config, ts: seq<Step>, sys: Server, i: nat, chunk: seq<Byte>) returns (ts': seq<Step>, sys': Server)
    requires Ready(cfg, ts, sys, i, Delivered(ts, i)) && Parse(Delivered(ts, i)).status == Open
    requires 0 < |chunk| <= MAX_LENGTH
    ensures Ready(cfg, ts', sys', i, Delivered(ts, i) + chunk) && forall t | t in ts :: t in ts'
  {
    var t := ReadDone(i, chunk);
    MayRead(cfg, ts, sys, i, chunk);
    var mid := Next(cfg, sys, t);
    RunOfOne(cfg, sys, t);
    RunAppend(cfg, Begin(), ts, sys, [t], mid);
    assert Reachable(cfg, mid);
    var us;
    us, sys' := CanRest(cfg, mid, i);
    RunAppend(cfg, Begin(), ts + [t], mid, us, sys');
    ts' := ts + [t] + us;
    ChunkTold(ts, t, us, i);
  }

  lemma OpenPrefix(a: seq<Byte>, b: seq<Byte>)
    requires Parse(a + b).status == Open
    ensures Parse(a).status == Open
  {
    ParseGrows(a, b);
  }

  /** A stream that is open was open before its last chunk. */
  lemma {:induction false} OpenBefore(chunks: seq<seq<Byte>>)
    requires Parse(Flatten(chunks)).status == Open
    ensures chunks != [] ==> Parse(Flatten(chunks[..|chunks| - 1])).status == Open
  {
    if chunks != [] {
      var n := |chunks| - 1;
      assert Flatten(chunks) == Flatten(chunks[..n]) + chunks[n] by {
        FlattenTake(chunks, n);
        assert chunks[..n + 1] == chunks;
      }
      OpenPrefix(Flatten(chunks[..n]), chunks[n]);
    }
  }

  /** Every stream can be brought to a session in any chunks, as long as it is open
      before the last of them, and answered. */
  lemma {:induction false} ChunksReady(cfg: Config, i: nat, chunks: seq<seq<Byte>>) returns (ts: seq<Step>, sys: Server)
    requires forall c | c in chunks :: 0 < |c| <= MAX_LENGTH
    requires chunks != [] ==> Parse(Flatten(chunks[..|chunks| - 1])).status == Open
    ensures Ready(cfg, ts, sys, i, Flatten(chunks)) && forall k: nat | k < i :: AcceptFail(k) in ts
    decreases |chunks|
  {
    if chunks == [] {
      ts, sys := FirstReady(cfg, i);
    } else {
      var n := |chunks| - 1;
      var before := chunks[..n];
      FlattenTake(chunks, n);
      assert chunks[..n + 1] == chunks;
      OpenBefore(before);
      ts, sys := ChunksReady(cfg, i, before);
      assert Delivered(ts, i) == Flatten(before);
      ts, sys := ChunkReady(cfg, ts, sys, i, chunks[n]);
    }
  }

  /** The server can do its work: for any number of failed accepts and then any legal requests,
      sent in any pieces, there is a run in which exactly their bytes are delivered and exactly
      the replies to them are on the wire. */
  lemma EveryInputAnswered(cfg: Config, i: nat, requests: seq<Frame>, chunks: seq<seq<Byte>>)
    returns (ts: seq<Step>, sys: Server)
    requires AllLegal(requests) && Flatten(chunks) == EncodeAll(requests)
    requires forall c | c in chunks :: 0 < |c| <= MAX_LENGTH
    ensures IsRun(cfg, Begin(), ts, sys) && Delivered(ts, i) == EncodeAll(requests)
    ensures forall k: nat | k < i :: AcceptFail(k) in ts
    ensures i < |sys.sessions| && sys.sessions[i].send.wire == EncodeAll(Replies(cfg.callbacks, requests))
  {
    RoundTrip(requests);
    OpenBefore(chunks);
    ts, sys := ChunksReady(cfg, i, chunks);
    WireIsFunctionOfInput(cfg, ts, sys, i);
  }

  lemma StageGrows(cfg: Config, sys: Server, t: Step, i: nat)
    requires Possible(sys, t) && i < |sys.sessions| && Accepted(sys.sessions[i])
    ensures i < |Next(cfg, sys, t).sessions| && Accepted(Next(cfg, sys, t).sessions[i])
  {
    if !t.Dispatch? {
      NextAt(cfg, sys, t, i);
    }
  }

  lemma {:induction false} StagesGrow(cfg: Config, sys: Server, us: seq<Step>, sys': Server, i: nat)
    requires IsRun(cfg, sys, us, sys') && i < |sys.sessions| && Accepted(sys.sessions[i])
    ensures i < |sys'.sessions| && Accepted(sys'.sessions[i])
    decreases |us|
  {
    if us != [] {
      StageGrows(cfg, sys, us[0], i);
      StagesGrow(cfg, Next(cfg, sys, us[0]), us[1..], sys', i);
    }
  }

  lemma StillPending(cfg: Config, ts: seq<Step>, sys: Server, us: seq<Step>, mid: Server, i: nat)
    requires IsRun(cfg, Begin(), ts, sys) && IsRun(cfg, sys, us, mid) && i < |sys.sessions| && i < |mid.sessions|
    requires Untroubled(sys.sessions[i], mid.sessions[i]) && Work(mid.sessions) == 0 && sys.sessions[i].pendingReads == 1
    ensures CanRead(mid.sessions[i])
  {
    OneReadOf(cfg, sys, i);
    PendingExactly(sys.sessions[i]);
    StagesGrow(cfg, sys, us, mid, i);
    ReachableAfter(cfg, sys, us, mid);
    OneReadOf(cfg, mid, i);
    PendingExactly(mid.sessions[i]);
    WorkNowhere(mid.sessions, i);
  }

  /** And it has to reckon with errors: when the handlers now under way have ended, a read that
      is pending may fail, and so may a write in flight, without another byte going out. */
  lemma ReadMayFail(cfg: Config, ts: seq<Step>, sys: Server, i: nat) returns (us: seq<Step>, sys': Server)
    requires IsRun(cfg, Begin(), ts, sys) && i < |sys.sessions| && sys.sessions[i].pendingReads == 1
    ensures IsRun(cfg, sys, us + [ReadFail(i)], sys') && AllFinishing(us)
  {
    var mid;
    us, mid := FinishHandlers(cfg, sys, i);
    StillPending(cfg, ts, sys, us, mid, i);
    IdleEnabled(cfg, mid, ReadFail(i));
    RunOfOne(cfg, mid, ReadFail(i));
    sys' := Next(cfg, mid, ReadFail(i));
    RunAppend(cfg, sys, us, mid, [ReadFail(i)], sys');
  }

  lemma WriteMayFail(cfg: Config, ts: seq<Step>, sys: Server, i: nat) returns (us: seq<Step>, sys': Server)
    requires IsRun(cfg, Begin(), ts, sys) && i < |sys.sessions| && sys.sessions[i].send.writing != []
    ensures IsRun(cfg, sys, us + [WriteError(i)], sys') && AllFinishing(us)
    ensures i < |sys'.sessions| && sys'.sessions[i].send.wire == sys.sessions[i].send.wire
  {
    var mid;
    us, mid := FinishHandlers(cfg, sys, i);
    IdleEnabled(cfg, mid, WriteError(i));
    RunOfOne(cfg, mid, WriteError(i));
    sys' := Next(cfg, mid, WriteError(i));
    RunAppend(cfg, sys, us, mid, [WriteError(i)], sys');
  }

  /** Two sessions inserted, with the read of none, of the first or of both just failed. */
  function TwoSessions(failed: nat): Server
  {
    var s := Insert(Start(Made()));
    var e := ReadError(s);
    Server(if failed == 0 then [s, s, Made()] else if failed == 1 then [e, s, Made()] else [e, e, Made()], [], [])
  }

  lemma SecondSession(cfg: Config)
    ensures IsRun(cfg, AcceptedAfter(0, true), [AcceptDone(1), InsertSession(1)], TwoSessions(0))
    ensures Work(TwoSessions(0).sessions) == 0
  {
    var s := Insert(Start(Made()));
    var a, b, c := AcceptedAfter(0, true), Server([s, Start(Made())], [], []), TwoSessions(0);
    assert a.sessions == [s, Made()];
    assert c.sessions[1..] == [s, Made()];
    WorkOfOne(s);
    IdleEnabled(cfg, a, AcceptDone(1));
    assert a.sessions[1 := Start(Made())] == b.sessions;
    assert b.sessions[1 := s] + [Made()] == c.sessions;
    RunOfOne(cfg, b, InsertSession(1));
    RunCons(cfg, a, AcceptDone(1), b, [InsertSession(1)], c);
    assert [AcceptDone(1)] + [InsertSession(1)] == [AcceptDone(1), InsertSession(1)];
  }

  lemma TwoReads(cfg: Config)
    requires !cfg.oneThread && cfg.pool > 1
    ensures IsRun(cfg, TwoSessions(0), [ReadFail(0), ReadFail(1)], TwoSessions(2))
  {
    var a, b, c := TwoSessions(0), TwoSessions(1), TwoSessions(2);
    SecondSession(cfg);
    IdleEnabled(cfg, a, ReadFail(0));
    assert a.sessions[0 := ReadError(a.sessions[0])] == b.sessions;
    assert b.sessions[1 := ReadError(b.sessions[1])] == c.sessions;
    assert Acceptor.Context(1, cfg.pool) == 1;
    forall j | Running(b, j) ensures j == ReadJob(0) {
    }
    RunOfOne(cfg, b, ReadFail(1));
    RunCons(cfg, a, ReadFail(0), b, [ReadFail(1)], c);
    assert [ReadFail(0)] + [ReadFail(1)] == [ReadFail(0), ReadFail(1)];
  }

  /** Handlers of sessions of different contexts do run at the same time. */
  lemma HandlersOverlap(cfg: Config) returns (sys: Server)
    requires !cfg.oneThread && cfg.pool > 1
    ensures Reachable(cfg, sys) && Running(sys, ReadJob(0)) && Running(sys, ReadJob(1))
  {
    sys := TwoSessions(2);
    var ts := FailAccepts(cfg, 0);
    AcceptAndInsert(cfg, 0);
    ReachableAfter(cfg, AcceptsFailed(0), [AcceptDone(0), InsertSession(0)], AcceptedAfter(0, true));
    SecondSession(cfg);
    ReachableAfter(cfg, AcceptedAfter(0, true), [AcceptDone(1), InsertSession(1)], TwoSessions(0));
    TwoReads(cfg);
    ReachableAfter(cfg, TwoSessions(0), [ReadFail(0), ReadFail(1)], sys);
  }
}
