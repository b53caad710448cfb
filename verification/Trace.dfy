/** What the steps of a run alone say about a session: what it has received, which errors it
    has had, what has gone out, and whether it is registered.

    The functions below look at the steps only and know nothing of the state; the lemmas show
    that the state at the end of every run is what they say. */
module Traces {
  import opened Wire
  import opened Frames
  import opened Messages
  import opened Sessions
  import opened Servers
  import Q = SendQueue

  /** The bytes that the reads of session `i` brought, in order. */
  function Delivered(ts: seq<Step>, i: nat): seq<Byte>
  {
    if ts == [] then []
    else
      var t := ts[|ts| - 1];
      Delivered(ts[..|ts| - 1], i) + if t.ReadDone? && t.i == i then t.chunk else []
  }

  /** How many bytes of session `i` the network took. */
  function Transmitted(ts: seq<Step>, i: nat): nat
  {
    if ts == [] then 0
    else
      var t := ts[|ts| - 1];
      Transmitted(ts[..|ts| - 1], i) + if t.Network? && t.i == i then t.n else 0
  }

  /** How many reads of session `i` completed, with or without error. */
  function ReadsBegun(ts: seq<Step>, i: nat): nat
  {
    if ts == [] then 0
    else
      var t := ts[|ts| - 1];
      ReadsBegun(ts[..|ts| - 1], i) + if (t.ReadDone? || t.ReadFail?) && t.i == i then 1 else 0
  }

  function Times(ts: seq<Step>, t: Step): nat
  {
    if ts == [] then 0
    else Times(ts[..|ts| - 1], t) + if ts[|ts| - 1] == t then 1 else 0
  }

  /** A completed read has not returned from its handler yet. */
  predicate ReadHandlerRuns(ts: seq<Step>, i: nat)
  {
    Times(ts, ReadEnd(i)) < ReadsBegun(ts, i)
  }

  /** A read of session `i` has failed or has brought a header over the limits. */
  predicate ReadingFailed(ts: seq<Step>, i: nat)
  {
    ReadFail(i) in ts || Parse(Delivered(ts, i)).status == Refused
  }

  /** Session `i` is inserted, and since then no write of it has failed and no read handler has
      returned after its reading failed. */
  predicate InRegistry(ts: seq<Step>, i: nat)
  {
    if ts == [] then false
    else
      var past, t := ts[..|ts| - 1], ts[|ts| - 1];
      if t == InsertSession(i) then true
      else InRegistry(past, i) && t != WriteError(i) && !(t == ReadEnd(i) && ReadingFailed(past, i))
  }

  /** The sessions whose messages were posted, in the order of posting. */
  function Posters(ts: seq<Step>): seq<nat>
  {
    if ts == [] then []
    else
      var t := ts[|ts| - 1];
      Posters(ts[..|ts| - 1]) + if t.PostNext? then [t.i] else []
  }

  /** How many accepts were completed, by success or failure. */
  function AcceptsOver(ts: seq<Step>): nat
  {
    if ts == [] then 0
    else
      var t := ts[|ts| - 1];
      AcceptsOver(ts[..|ts| - 1]) + if t.InsertSession? || t.AcceptFail? then 1 else 0
  }

  // ------------------------------------------------------------------ one step more

  lemma LastOf(ts: seq<Step>, t: Step)
    ensures (ts + [t])[..|ts + [t]| - 1] == ts && (ts + [t])[|ts + [t]| - 1] == t
  {
  }

  lemma DeliveredSnoc(ts: seq<Step>, t: Step, i: nat)
    ensures Delivered(ts + [t], i) == Delivered(ts, i) + if t.ReadDone? && t.i == i then t.chunk else []
    ensures ReadsBegun(ts + [t], i) == ReadsBegun(ts, i) + if (t.ReadDone? || t.ReadFail?) && t.i == i then 1 else 0
  {
    LastOf(ts, t);
  }

  lemma TransmittedSnoc(ts: seq<Step>, t: Step, i: nat)
    ensures Transmitted(ts + [t], i) == Transmitted(ts, i) + if t.Network? && t.i == i then t.n else 0
  {
    LastOf(ts, t);
  }

  lemma TimesSnoc(ts: seq<Step>, t: Step, u: Step)
    ensures Times(ts + [t], u) == Times(ts, u) + if t == u then 1 else 0
  {
    LastOf(ts, t);
  }

  lemma InRegistrySnoc(ts: seq<Step>, t: Step, i: nat)
    ensures InRegistry(ts + [t], i) <==>
      t == InsertSession(i) || (InRegistry(ts, i) && t != WriteError(i) && !(t == ReadEnd(i) && ReadingFailed(ts, i)))
  {
    LastOf(ts, t);
  }

  /** The last step of a run and the state before it. */
  lemma {:induction false} RunLast(cfg: Config, a: Server, ts: seq<Step>, c: Server) returns (b: Server)
    requires IsRun(cfg, a, ts, c) && ts != []
    ensures var past, t := ts[..|ts| - 1], ts[|ts| - 1];
      ts == past + [t] && IsRun(cfg, a, past, b) && Enabled(cfg, b, t) && Next(cfg, b, t) == c
    decreases |ts|
  {
    if |ts| == 1 {
      b := a;
    } else {
      b := RunLast(cfg, Next(cfg, a, ts[0]), ts[1..], c);
      assert ts[..|ts| - 1][1..] == ts[1..][..|ts| - 2];
    }
  }

  // ------------------------------------------------------------------ accepting

  predicate StageTold(ts: seq<Step>, s: Session, i: nat)
  {
    && (s.stage == Inserted <==> InsertSession(i) in ts)
    && (s.stage == Dropped <==> AcceptFail(i) in ts)
    && (s.stage == Accepting <==> AcceptDone(i) !in ts && AcceptFail(i) !in ts)
    && (InsertSession(i) in ts ==> AcceptDone(i) in ts)
  }

  lemma StageOwn(sys: Server, ts: seq<Step>, t: Step)
    requires Possible(sys, t) && !t.Dispatch? && StageTold(ts, sys.sessions[t.i], t.i)
    ensures StageTold(ts + [t], NextSession(sys, t), t.i)
  {
  }

  // ------------------------------------------------------------------ reading

  predicate ReadsTold(ts: seq<Step>, s: Session, i: nat)
  {
    && s.received == Delivered(ts, i)
    && (s.readFailed <==> ReadFail(i) in ts)
    && ReadsBegun(ts, i) == Times(ts, ReadEnd(i)) + if s.reader.Handling? then 1 else 0
  }

  /** What a step does to the reading of its session. */
  lemma ReadEffects(sys: Server, t: Step)
    requires Possible(sys, t) && !t.Dispatch?
    ensures var s, s' := sys.sessions[t.i], NextSession(sys, t);
      && s'.received == s.received + (if t.ReadDone? then t.chunk else [])
      && s'.readFailed == (s.readFailed || t.ReadFail?)
  {
    if t.ReadEnd? {
      ReadReturnSame(sys.sessions[t.i]);
    }
  }

  lemma ReadHandlerEffects(sys: Server, t: Step)
    requires Possible(sys, t) && !t.Dispatch?
    ensures var s, s' := sys.sessions[t.i], NextSession(sys, t);
      && s'.reader.Handling? == (t.ReadDone? || t.ReadFail? || (s.reader.Handling? && !t.ReadEnd?))
      && (t.ReadDone? || t.ReadFail? ==> !s.reader.Handling?)
      && (t.ReadEnd? ==> s.reader.Handling?)
  {
    if t.ReadEnd? {
      ReadReturnSame(sys.sessions[t.i]);
    }
  }

  lemma ReadsOwn(sys: Server, ts: seq<Step>, t: Step)
    requires Possible(sys, t) && !t.Dispatch? && ReadsTold(ts, sys.sessions[t.i], t.i)
    ensures ReadsTold(ts + [t], NextSession(sys, t), t.i)
  {
    ReadEffects(sys, t);
    ReadHandlerEffects(sys, t);
    DeliveredSnoc(ts, t, t.i);
    TimesSnoc(ts, t, ReadEnd(t.i));
  }

  // ------------------------------------------------------------------ writing

  predicate WritesTold(ts: seq<Step>, s: Session, i: nat)
  {
    && (s.send.failed <==> WriteError(i) in ts)
    && Times(ts, WriteError(i)) == (if s.send.failed then 1 else 0)
    && |s.send.wire| == Transmitted(ts, i)
    && |s.send.completed| == Times(ts, WriteComplete(i))
    && Times(ts, WriteComplete(i)) + Times(ts, WriteError(i)) == Times(ts, WriteEnd(i)) + s.writeHandlers
  }

  lemma SendSame(sys: Server, t: Step)
    requires Possible(sys, t) && !t.Dispatch? && !t.WriteComplete? && !t.WriteError? && !t.Network?
    ensures NextSession(sys, t).send == sys.sessions[t.i].send
  {
  }

  /** What a step does to the writing of its session. */
  lemma WriteEffects(sys: Server, t: Step)
    requires Possible(sys, t) && !t.Dispatch?
    requires t.WriteComplete? ==> sys.sessions[t.i].send.queue != []
    ensures var s, s' := sys.sessions[t.i], NextSession(sys, t);
      && s'.send.failed == (s.send.failed || t.WriteError?)
      && |s'.send.wire| == |s.send.wire| + (if t.Network? then t.n else 0)
      && |s'.send.completed| == |s.send.completed| + (if t.WriteComplete? then 1 else 0)
  {
    if !t.WriteComplete? && !t.WriteError? && !t.Network? {
      SendSame(sys, t);
    }
  }

  lemma WriteHandlerEffects(sys: Server, t: Step)
    requires Possible(sys, t) && !t.Dispatch?
    ensures NextSession(sys, t).writeHandlers == sys.sessions[t.i].writeHandlers
      + (if t.WriteComplete? || t.WriteError? then 1 else 0) - (if t.WriteEnd? then 1 else 0)
  {
  }

  lemma WritesOwn(sys: Server, ts: seq<Step>, t: Step)
    requires Possible(sys, t) && !t.Dispatch? && Q.Inv(sys.sessions[t.i].send)
    requires WritesTold(ts, sys.sessions[t.i], t.i)
    ensures WritesTold(ts + [t], NextSession(sys, t), t.i)
  {
    if t.WriteComplete? {
      Q.CompletedKeeps(sys.sessions[t.i].send);
    }
    WriteEffects(sys, t);
    WriteHandlerEffects(sys, t);
    TransmittedSnoc(ts, t, t.i);
    TimesSnoc(ts, t, WriteComplete(t.i));
    TimesSnoc(ts, t, WriteError(t.i));
    TimesSnoc(ts, t, WriteEnd(t.i));
  }

  // ------------------------------------------------------------------ registry

  lemma RegistryOwn(sys: Server, ts: seq<Step>, t: Step)
    requires Possible(sys, t) && !t.Dispatch? && OneRead(sys.sessions[t.i])
    requires ReadsTold(ts, sys.sessions[t.i], t.i) && sys.sessions[t.i].registered == InRegistry(ts, t.i)
    ensures NextSession(sys, t).registered == InRegistry(ts + [t], t.i)
  {
    InRegistrySnoc(ts, t, t.i);
  }

  // ------------------------------------------------------------------ every run

  predicate Told(ts: seq<Step>, s: Session, i: nat)
  {
    StageTold(ts, s, i) && ReadsTold(ts, s, i) && WritesTold(ts, s, i) && s.registered == InRegistry(ts, i)
  }

  ghost predicate SessionInvAt(cfg: Config, sys: Server, t: Step)
  {
    Possible(sys, t) && !t.Dispatch? && OneRead(sys.sessions[t.i]) && Q.Inv(sys.sessions[t.i].send)
  }

  lemma OwnStepTold(cfg: Config, sys: Server, ts: seq<Step>, t: Step)
    requires SessionInvAt(cfg, sys, t) && Told(ts, sys.sessions[t.i], t.i)
    ensures Told(ts + [t], NextSession(sys, t), t.i)
  {
    StageOwn(sys, ts, t);
    ReadsOwn(sys, ts, t);
    WritesOwn(sys, ts, t);
    RegistryOwn(sys, ts, t);
  }

  /** Steps of others say nothing about a session. */
  lemma OtherStepTold(ts: seq<Step>, t: Step, s: Session, i: nat)
    requires (t.Dispatch? || t.i != i) && Told(ts, s, i)
    ensures Told(ts + [t], s, i)
  {
    DeliveredSnoc(ts, t, i);
    TransmittedSnoc(ts, t, i);
    TimesSnoc(ts, t, ReadEnd(i));
    TimesSnoc(ts, t, WriteComplete(i));
    TimesSnoc(ts, t, WriteError(i));
    TimesSnoc(ts, t, WriteEnd(i));
    InRegistrySnoc(ts, t, i);
  }

  /** The worker changes nothing that the steps tell. */
  lemma HandleTold(ts: seq<Step>, c: Callbacks, s: Session, f: Frame, i: nat)
    requires Told(ts, s, i)
    ensures Told(ts, Handle(c, s, f), i)
  {
    HandleApart(c, s, f);
  }

  /** A new session, of which no step has told anything. */
  lemma {:induction false} MadeTold(ts: seq<Step>, i: nat)
    requires forall t | t in ts :: t.Dispatch? || t.i != i
    ensures Told(ts, Made(), i)
  {
    if ts != [] {
      var past, t := ts[..|ts| - 1], ts[|ts| - 1];
      assert ts == past + [t];
      MadeTold(past, i);
      OtherStepTold(past, t, Made(), i);
    }
  }

  predicate StepsInRange(ts: seq<Step>, n: nat)
  {
    forall t | t in ts :: t.Dispatch? || t.i < n
  }

  lemma SessionsStay(cfg: Config, sys: Server, t: Step)
    requires Possible(sys, t)
    ensures |sys.sessions| <= |Next(cfg, sys, t).sessions|
    ensures t.Dispatch? || t.i < |sys.sessions|
  {
  }

  lemma DispatchTold(cfg: Config, sys: Server, ts: seq<Step>, i: nat)
    requires sys.queue != [] && i < |sys.sessions| && Told(ts, sys.sessions[i], i)
    ensures |Next(cfg, sys, Dispatch).sessions| == |sys.sessions|
    ensures Told(ts + [Dispatch], Next(cfg, sys, Dispatch).sessions[i], i)
  {
    DispatchSeenBy(cfg, sys, i);
    OtherStepTold(ts, Dispatch, sys.sessions[i], i);
    HandleTold(ts + [Dispatch], cfg.callbacks, sys.sessions[i], sys.queue[0].frame, i);
  }

  lemma StepTold(cfg: Config, sys: Server, ts: seq<Step>, t: Step, i: nat)
    requires Possible(sys, t) && i < |sys.sessions| && Told(ts, sys.sessions[i], i)
    requires OneRead(sys.sessions[i]) && Q.Inv(sys.sessions[i].send)
    ensures i < |Next(cfg, sys, t).sessions|
    ensures Told(ts + [t], Next(cfg, sys, t).sessions[i], i)
  {
    if t.Dispatch? {
      DispatchTold(cfg, sys, ts, i);
    } else {
      NextShape(cfg, sys, t);
      if i != t.i {
        OtherStepTold(ts, t, sys.sessions[i], i);
      } else {
        OwnStepTold(cfg, sys, ts, t);
      }
    }
  }

  lemma NewIsMade(cfg: Config, sys: Server, t: Step, i: nat)
    requires Possible(sys, t) && |sys.sessions| <= i < |Next(cfg, sys, t).sessions|
    ensures !t.Dispatch? && Next(cfg, sys, t).sessions[i] == Made()
  {
    if !t.Dispatch? {
      NextShape(cfg, sys, t);
    }
  }

  lemma NewSessionTold(cfg: Config, sys: Server, ts: seq<Step>, t: Step, i: nat)
    requires Possible(sys, t) && StepsInRange(ts, |sys.sessions|) && |sys.sessions| <= i < |Next(cfg, sys, t).sessions|
    ensures Told(ts + [t], Next(cfg, sys, t).sessions[i], i)
  {
    SessionsStay(cfg, sys, t);
    NewIsMade(cfg, sys, t, i);
    MadeTold(ts + [t], i);
  }

  lemma {:induction false} RunInRange(cfg: Config, ts: seq<Step>, sys: Server)
    requires IsRun(cfg, Begin(), ts, sys)
    ensures StepsInRange(ts, |sys.sessions|) && |sys.sessions| > 0
    decreases |ts|
  {
    if ts != [] {
      var before := RunLast(cfg, Begin(), ts, sys);
      RunInRange(cfg, ts[..|ts| - 1], before);
      SessionsStay(cfg, before, ts[|ts| - 1]);
    }
  }

  lemma ReadAndSendInv(cfg: Config, ts: seq<Step>, sys: Server, i: nat)
    requires IsRun(cfg, Begin(), ts, sys) && i < |sys.sessions|
    ensures OneRead(sys.sessions[i]) && Q.Inv(sys.sessions[i].send)
  {
    ReachableInv(cfg, sys);
    assert SessionInv(cfg, sys, i);
  }

  lemma LastTold(cfg: Config, past: seq<Step>, before: Server, t: Step, ts: seq<Step>, i: nat)
    requires IsRun(cfg, Begin(), past, before) && Enabled(cfg, before, t) && ts == past + [t]
    requires i < |Next(cfg, before, t).sessions| && (i < |before.sessions| ==> Told(past, before.sessions[i], i))
    ensures Told(ts, Next(cfg, before, t).sessions[i], i)
  {
    if i < |before.sessions| {
      ReadAndSendInv(cfg, past, before, i);
      StepTold(cfg, before, past, t, i);
    } else {
      RunInRange(cfg, past, before);
      NewSessionTold(cfg, before, past, t, i);
    }
  }

  lemma BeginTold(ts: seq<Step>, sys: Server, i: nat)
    requires ts == [] && sys == Begin() && i < |sys.sessions|
    ensures Told(ts, sys.sessions[i], i)
  {
    MadeTold(ts, i);
  }

  /** In every reachable state every session is what the steps of the run tell. */
  lemma {:induction false} RunTold(cfg: Config, ts: seq<Step>, sys: Server, i: nat)
    requires IsRun(cfg, Begin(), ts, sys) && i < |sys.sessions|
    ensures Told(ts, sys.sessions[i], i)
    decreases |ts|
  {
    if ts == [] {
      BeginTold(ts, sys, i);
    } else {
      var before := RunLast(cfg, Begin(), ts, sys);
      var past, t := ts[..|ts| - 1], ts[|ts| - 1];
      if i < |before.sessions| {
        RunTold(cfg, past, before, i);
      }
      LastTold(cfg, past, before, t, ts, i);
    }
  }

  lemma {:induction false} StageExclusive(cfg: Config, ts: seq<Step>, sys: Server, i: nat)
    requires IsRun(cfg, Begin(), ts, sys) && i < |sys.sessions|
    ensures !(AcceptDone(i) in ts && AcceptFail(i) in ts)
    decreases |ts|
  {
    if ts != [] {
      var before := RunLast(cfg, Begin(), ts, sys);
      RunInRange(cfg, ts[..|ts| - 1], before);
      if i < |before.sessions| {
        StageExclusive(cfg, ts[..|ts| - 1], before, i);
        RunTold(cfg, ts[..|ts| - 1], before, i);
      }
    }
  }

  /** What a run tells about the reading of a session. */
  lemma ReadFacts(cfg: Config, ts: seq<Step>, sys: Server, i: nat)
    requires IsRun(cfg, Begin(), ts, sys) && i < |sys.sessions|
    ensures var s := sys.sessions[i];
      && s.received == Delivered(ts, i)
      && (s.readFailed <==> ReadFail(i) in ts)
      && (s.reader.Handling? <==> ReadHandlerRuns(ts, i))
      && (Accepted(s) <==> AcceptDone(i) in ts)
      && (ReadEnds(s) <==> ReadingFailed(ts, i))
  {
    RunTold(cfg, ts, sys, i);
    StageExclusive(cfg, ts, sys, i);
  }

  // ------------------------------------------------------------------ the queue

  function SessionsOf(ms: seq<Msg>): seq<nat>
  {
    seq(|ms|, k requires 0 <= k < |ms| => ms[k].session)
  }

  /** Messages leave the queue in the order in which they were posted, one for each turn of
      the worker, and one new session is made for each accept. */
  predicate QueueTold(ts: seq<Step>, sys: Server)
  {
    && SessionsOf(sys.disposed + sys.queue) == Posters(ts)
    && |sys.disposed| == Times(ts, Dispatch)
    && |sys.sessions| == 1 + AcceptsOver(ts)
  }

  lemma StepQueueTold(cfg: Config, sys: Server, ts: seq<Step>, t: Step)
    requires Possible(sys, t) && QueueTold(ts, sys)
    ensures QueueTold(ts + [t], Next(cfg, sys, t))
  {
    var sys' := Next(cfg, sys, t);
    LastOf(ts, t);
    TimesSnoc(ts, t, Dispatch);
    if t.Dispatch? {
      assert sys'.disposed + sys'.queue == sys.disposed + sys.queue;
    } else if t.PostNext? {
      assert sys'.disposed + sys'.queue == sys.disposed + sys.queue + PostedBy(sys, t);
    }
  }

  lemma StepPosts(cfg: Config, sys: Server, ts: seq<Step>, t: Step, i: nat)
    requires Possible(sys, t) && |Of(sys.disposed + sys.queue, i)| == Times(ts, PostNext(i))
    ensures var sys' := Next(cfg, sys, t); |Of(sys'.disposed + sys'.queue, i)| == Times(ts + [t], PostNext(i))
  {
    var sys' := Next(cfg, sys, t);
    TimesSnoc(ts, t, PostNext(i));
    if t.Dispatch? {
      assert sys'.disposed + sys'.queue == sys.disposed + sys.queue;
    } else if t.PostNext? {
      assert sys'.disposed + sys'.queue == sys.disposed + sys.queue + PostedBy(sys, t);
      OfAppend(sys.disposed + sys.queue, PostedBy(sys, t), i);
      OfOne(PostedBy(sys, t)[0], i);
    } else {
      assert sys'.disposed + sys'.queue == sys.disposed + sys.queue;
    }
  }

  /** As many messages of a session have been in the queue as it has posted. */
  lemma {:induction false} RunPosts(cfg: Config, ts: seq<Step>, sys: Server, i: nat)
    requires IsRun(cfg, Begin(), ts, sys)
    ensures |Of(sys.disposed + sys.queue, i)| == Times(ts, PostNext(i))
    decreases |ts|
  {
    if ts != [] {
      var before := RunLast(cfg, Begin(), ts, sys);
      RunPosts(cfg, ts[..|ts| - 1], before, i);
      StepPosts(cfg, before, ts[..|ts| - 1], ts[|ts| - 1], i);
    }
  }

  lemma {:induction false} RunQueueTold(cfg: Config, ts: seq<Step>, sys: Server)
    requires IsRun(cfg, Begin(), ts, sys)
    ensures QueueTold(ts, sys)
    decreases |ts|
  {
    if ts != [] {
      var before := RunLast(cfg, Begin(), ts, sys);
      RunQueueTold(cfg, ts[..|ts| - 1], before);
      StepQueueTold(cfg, before, ts[..|ts| - 1], ts[|ts| - 1]);
    }
  }
}
