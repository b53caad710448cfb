/** The whole server as a state machine: all sessions, the logic queue, the worker, the
    acceptor and the network, in every interleaving.

    A session is named by its place in the order of `StartAccept` calls: the UUIDs are taken
    to be distinct. With `oneThread` the accept handler and all session handlers run on one
    I/O thread, as in Server-version-3; without it the accept handler has a thread of its own
    and the handlers of a session run on the thread of its context, as in
    Server-version-3-multi-thread. The handlers of one thread run one after the other; those
    of different threads, the worker and the network interleave. */
module Servers {
  import opened Wire
  import opened Frames
  import opened Messages
  import opened Sessions
  import Acceptor
  import Q = SendQueue

  /** The pool has at least one context. */
  type PoolSize = n: nat | n > 0 witness 1

  datatype Config = Config(callbacks: Callbacks, oneThread: bool, pool: PoolSize)

  datatype Server = Server(
    sessions: seq<Session>,
    queue: seq<Msg>,                 // _msg_que
    disposed: seq<Msg>)              // history: messages the worker has taken

  datatype Step =
    | AcceptDone(i: nat)             // HandleAccept without error, up to Start
    | InsertSession(i: nat)          // the rest of it: insert, StartAccept, return
    | AcceptFail(i: nat)
    | ReadDone(i: nat, chunk: seq<Byte>)
    | ReadFail(i: nat)
    | PostNext(i: nat)
    | ReadEnd(i: nat)
    | Network(i: nat, n: nat)        // n more bytes of the pending write go out
    | WriteComplete(i: nat)
    | WriteError(i: nat)
    | WriteEnd(i: nat)
    | Dispatch                       // one turn of the worker, callback included

  function Begin(): Server
  {
    Server([Made()], [], [])
  }

  // ------------------------------------------------------------------ handlers and threads

  /** A handler of a session. */
  datatype Job = AcceptJob(session: nat) | ReadJob(session: nat) | WriteJob(session: nat)

  predicate Runs(s: Session, j: Job)
  {
    match j
    case AcceptJob(_) => s.stage == Started
    case ReadJob(_) => s.reader.Handling?
    case WriteJob(_) => s.writeHandlers > 0
  }

  predicate Running(sys: Server, j: Job)
  {
    j.session < |sys.sessions| && Runs(sys.sessions[j.session], j)
  }

  /** The accept handler runs on thread 0, and context `k` of the pool on thread `k + 1`. */
  function ThreadOf(cfg: Config, j: Job): nat
  {
    if cfg.oneThread || j.AcceptJob? then 0 else Acceptor.Context(j.session, cfg.pool) + 1
  }

  /** The completions: each begins a handler. The other steps go on with one, or belong to the
      worker or the network. */
  predicate Begins(t: Step)
  {
    t.AcceptDone? || t.AcceptFail? || t.ReadDone? || t.ReadFail? || t.WriteComplete? || t.WriteError?
  }

  function JobOf(t: Step): Job
    requires Begins(t)
  {
    match t
    case AcceptDone(i) => AcceptJob(i)
    case AcceptFail(i) => AcceptJob(i)
    case ReadDone(i, _) => ReadJob(i)
    case ReadFail(i) => ReadJob(i)
    case WriteComplete(i) => WriteJob(i)
    case WriteError(i) => WriteJob(i)
  }

  /** A handler begins only when none is running on its thread. */
  ghost predicate Scheduled(cfg: Config, sys: Server, t: Step)
  {
    Begins(t) ==> forall j | Running(sys, j) :: ThreadOf(cfg, j) != ThreadOf(cfg, JobOf(t))
  }

  /** Nothing more goes out of a closed socket; a write that had already put out its last byte
      may still complete with success, any other one can only fail. */
  predicate Possible(sys: Server, t: Step)
  {
    if t.Dispatch? then sys.queue != []
    else
      && t.i < |sys.sessions|
      && var s := sys.sessions[t.i];
         match t
         case AcceptDone(_) => s.stage == Accepting
         case InsertSession(_) => s.stage == Started
         case AcceptFail(_) => s.stage == Accepting
         case ReadDone(_, chunk) => CanRead(s) && 0 < |chunk| <= MAX_LENGTH
         case ReadFail(_) => CanRead(s)
         case PostNext(_) => Todo(s) != []
         case ReadEnd(_) => s.reader.Handling? && Todo(s) == []
         case Network(_, n) => !s.closed && Q.CanTransmit(s.send, n)
         case WriteComplete(_) => Q.CanComplete(s.send)
         case WriteError(_) => s.send.writing != []
         case WriteEnd(_) => s.writeHandlers > 0
  }

  ghost predicate Enabled(cfg: Config, sys: Server, t: Step)
  {
    Possible(sys, t) && Scheduled(cfg, sys, t)
  }

  /** The session after a step of its own, apart from what happens to the queue. */
  function NextSession(sys: Server, t: Step): Session
    requires Possible(sys, t) && !t.Dispatch?
  {
    var s := sys.sessions[t.i];
    match t
    case AcceptDone(_) => Start(s)
    case InsertSession(_) => Insert(s)
    case AcceptFail(_) => Drop(s)
    case ReadDone(_, chunk) => Read(s, chunk)
    case ReadFail(_) => ReadError(s)
    case PostNext(_) => Post(s)
    case ReadEnd(_) => ReadReturn(s)
    case Network(_, n) => s.(send := Q.Transmit(s.send, n))
    case WriteComplete(_) => WriteDone(s)
    case WriteError(_) => WriteFail(s)
    case WriteEnd(_) => WriteReturn(s)
  }

  function Next(cfg: Config, sys: Server, t: Step): Server
    requires Possible(sys, t)
  {
    if t.Dispatch? then
      var m := sys.queue[0];
      var taken := sys.(queue := sys.queue[1..], disposed := sys.disposed + [m]);
      if m.session >= |sys.sessions| then taken
      else taken.(sessions := sys.sessions[m.session := Handle(cfg.callbacks, sys.sessions[m.session], m.frame)])
    else
      var moved := sys.(sessions := sys.sessions[t.i := NextSession(sys, t)]);
      match t
      case InsertSession(_) => moved.(sessions := moved.sessions + [Made()])
      case AcceptFail(_) => moved.(sessions := moved.sessions + [Made()])
      case PostNext(i) => moved.(queue := sys.queue + [Msg(i, Todo(sys.sessions[i])[0])])
      case _ => moved
  }

  ghost predicate IsRun(cfg: Config, sys: Server, ts: seq<Step>, sys': Server)
    decreases |ts|
  {
    if ts == [] then sys == sys'
    else Enabled(cfg, sys, ts[0]) && IsRun(cfg, Next(cfg, sys, ts[0]), ts[1..], sys')
  }

  ghost predicate Reachable(cfg: Config, sys: Server)
  {
    exists ts :: IsRun(cfg, Begin(), ts, sys)
  }

  // ------------------------------------------------------------------ invariant

  predicate InRange(ms: seq<Msg>, n: nat)
  {
    forall m | m in ms :: m.session < n
  }

  ghost predicate SessionInv(cfg: Config, sys: Server, i: nat)
    requires i < |sys.sessions|
  {
    Sessions.Inv(cfg.callbacks, sys.sessions[i], Of(sys.disposed, i), Of(sys.queue, i))
  }

  predicate NoneEarly(s: Session)
  {
    s.readClears != [Early] && s.writeClears != [Early]
  }

  /** On one thread no session is cleared before it is inserted. */
  predicate NotEarly(cfg: Config, s: Session)
  {
    cfg.oneThread ==> NoneEarly(s)
  }

  /** At most one handler runs on each thread, and it is one call. */
  ghost predicate Exclusive(cfg: Config, sys: Server)
  {
    && (forall j, k | Running(sys, j) && Running(sys, k) :: ThreadOf(cfg, j) == ThreadOf(cfg, k) ==> j == k)
    && (forall i :: 0 <= i < |sys.sessions| ==> sys.sessions[i].writeHandlers <= 1)
  }

  ghost predicate Inv(cfg: Config, sys: Server)
  {
    && InRange(sys.queue, |sys.sessions|) && InRange(sys.disposed, |sys.sessions|)
    && (forall i :: 0 <= i < |sys.sessions| ==> SessionInv(cfg, sys, i) && NotEarly(cfg, sys.sessions[i]))
    && Exclusive(cfg, sys)
  }

  lemma {:induction false} OfOutOfRange(ms: seq<Msg>, n: nat)
    requires InRange(ms, n)
    ensures Of(ms, n) == []
  {
    if ms != [] {
      OfOutOfRange(ms[1..], n);
    }
  }

  /** What holds of a session with its frames holds of the server that has them. */
  lemma InstallAt(cfg: Config, sys: Server, i: nat, s: Session, done: seq<Frame>, waiting: seq<Frame>)
    requires i < |sys.sessions| && sys.sessions[i] == s
    requires Of(sys.disposed, i) == done && Of(sys.queue, i) == waiting
    requires Sessions.Inv(cfg.callbacks, s, done, waiting) && NotEarly(cfg, s)
    ensures SessionInv(cfg, sys, i) && NotEarly(cfg, sys.sessions[i])
  {
  }

  lemma HandleNotEarly(cfg: Config, s: Session, f: Frame)
    requires NotEarly(cfg, s)
    ensures NotEarly(cfg, Handle(cfg.callbacks, s, f))
  {
  }

  /** How the worker's turn looks from one session. */
  lemma DispatchSeenBy(cfg: Config, sys: Server, i: nat)
    requires sys.queue != [] && i < |sys.sessions|
    ensures var sys', m := Next(cfg, sys, Dispatch), sys.queue[0];
      var taken := if m.session == i then [m.frame] else [];
      && |sys'.sessions| == |sys.sessions|
      && sys'.sessions[i] == (if m.session == i then Handle(cfg.callbacks, sys.sessions[i], m.frame) else sys.sessions[i])
      && Of(sys.queue, i) == taken + Of(sys'.queue, i)
      && Of(sys'.disposed, i) == Of(sys.disposed, i) + taken
  {
    OfAppend(sys.disposed, [sys.queue[0]], i);
    OfTail(sys.queue, i);
    OfOne(sys.queue[0], i);
  }

  lemma DispatchKeepsOwn(cfg: Config, s: Session, f: Frame, done: seq<Frame>, waiting: seq<Frame>, sys': Server, i: nat)
    requires Sessions.Inv(cfg.callbacks, s, done, [f] + waiting) && NotEarly(cfg, s)
    requires i < |sys'.sessions| && sys'.sessions[i] == Handle(cfg.callbacks, s, f)
    requires Of(sys'.disposed, i) == done + [f] && Of(sys'.queue, i) == waiting
    ensures SessionInv(cfg, sys', i) && NotEarly(cfg, sys'.sessions[i])
  {
    HandleKeeps(cfg.callbacks, s, f, done, waiting);
    HandleNotEarly(cfg, s, f);
    InstallAt(cfg, sys', i, Handle(cfg.callbacks, s, f), done + [f], waiting);
  }

  lemma DispatchKeepsAt(cfg: Config, sys: Server, i: nat)
    requires Inv(cfg, sys) && sys.queue != [] && i < |sys.sessions|
    ensures var sys' := Next(cfg, sys, Dispatch); SessionInv(cfg, sys', i) && NotEarly(cfg, sys'.sessions[i])
  {
    var m, s, sys' := sys.queue[0], sys.sessions[i], Next(cfg, sys, Dispatch);
    var done, waiting := Of(sys.disposed, i), Of(sys'.queue, i);
    assert SessionInv(cfg, sys, i) && NotEarly(cfg, s);
    DispatchSeenBy(cfg, sys, i);
    if i == m.session {
      DispatchKeepsOwn(cfg, s, m.frame, done, waiting, sys', i);
    } else {
      assert Of(sys.queue, i) == [] + waiting == waiting;
      assert done + [] == done;
      InstallAt(cfg, sys', i, s, done, waiting);
    }
  }

  /** The worker leaves the handlers alone. */
  lemma DispatchRunning(cfg: Config, sys: Server, j: Job)
    requires sys.queue != []
    ensures |Next(cfg, sys, Dispatch).sessions| == |sys.sessions|
    ensures Running(Next(cfg, sys, Dispatch), j) == Running(sys, j)
    ensures j.session < |sys.sessions| ==>
      Next(cfg, sys, Dispatch).sessions[j.session].writeHandlers == sys.sessions[j.session].writeHandlers
  {
  }

  lemma DispatchExclusive(cfg: Config, sys: Server)
    requires Exclusive(cfg, sys) && sys.queue != []
    ensures Exclusive(cfg, Next(cfg, sys, Dispatch))
  {
    forall j ensures Running(Next(cfg, sys, Dispatch), j) == Running(sys, j) {
      DispatchRunning(cfg, sys, j);
    }
    forall i | 0 <= i < |sys.sessions|
      ensures Next(cfg, sys, Dispatch).sessions[i].writeHandlers == sys.sessions[i].writeHandlers
    {
      DispatchRunning(cfg, sys, WriteJob(i));
    }
  }

  lemma DispatchKeeps(cfg: Config, sys: Server)
    requires Inv(cfg, sys) && sys.queue != []
    ensures Inv(cfg, Next(cfg, sys, Dispatch))
  {
    DispatchExclusive(cfg, sys);
    forall i | 0 <= i < |sys.sessions|
      ensures SessionInv(cfg, Next(cfg, sys, Dispatch), i) && NotEarly(cfg, Next(cfg, sys, Dispatch).sessions[i])
    {
      DispatchKeepsAt(cfg, sys, i);
    }
  }

  /** The session that takes a step of its own keeps its invariant. */
  lemma OwnStepKeeps(c: Callbacks, sys: Server, t: Step, done: seq<Frame>, waiting: seq<Frame>)
    requires Possible(sys, t) && !t.Dispatch?
    requires Sessions.Inv(c, sys.sessions[t.i], done, waiting)
    ensures Sessions.Inv(c, NextSession(sys, t), done, waiting + if t.PostNext? then [Todo(sys.sessions[t.i])[0]] else [])
  {
    var s := sys.sessions[t.i];
    assert waiting + [] == waiting;
    match t
    case AcceptDone(_) => StartKeeps(c, s, done, waiting);
    case InsertSession(_) => InsertKeeps(c, s, done, waiting);
    case AcceptFail(_) => DropKeeps(c, s, done, waiting);
    case ReadDone(_, chunk) => ReadKeeps(c, s, chunk, done, waiting);
    case ReadFail(_) => ReadErrorKeeps(c, s, done, waiting);
    case PostNext(_) => PostKeeps(c, s, done, waiting);
    case ReadEnd(_) => ReadReturnKeeps(c, s, done, waiting);
    case Network(_, n) => Sessions.TransmitKeeps(c, s, n, done, waiting);
    case WriteComplete(_) => WriteDoneKeeps(c, s, done, waiting);
    case WriteError(_) => WriteFailKeeps(c, s, done, waiting);
    case WriteEnd(_) => WriteReturnKeeps(c, s, done, waiting);
  }

  lemma LateIsNotEarly(log: seq<Moment>)
    requires log != [Early]
    ensures log + [Late] != [Early]
  {
    assert (log + [Late])[|log|] == Late;
  }

  lemma ClearsLate(s: Session)
    requires NoneEarly(s) && s.stage == Inserted
    ensures s.reader.Handling? ==> NoneEarly(ReadReturn(s))
    ensures s.send.writing != [] ==> NoneEarly(WriteFail(s))
  {
    LateIsNotEarly(s.readClears);
    LateIsNotEarly(s.writeClears);
  }

  /** On one thread a handler that clears a session finds it inserted. */
  lemma ClearerInserted(cfg: Config, sys: Server, t: Step)
    requires Exclusive(cfg, sys) && Enabled(cfg, sys, t) && cfg.oneThread && (t.ReadEnd? || t.WriteError?)
    requires Accepted(sys.sessions[t.i])
    ensures sys.sessions[t.i].stage == Inserted
  {
    if t.ReadEnd? {
      assert Running(sys, ReadJob(t.i));
    }
    assert !Running(sys, AcceptJob(t.i));
  }

  lemma ClearerAccepted(s: Session, waiting: seq<Frame>)
    requires Life(s, waiting) && (s.reader.Handling? || s.send.writing != [])
    ensures Accepted(s)
  {
  }

  lemma OtherStepsClearNothing(sys: Server, t: Step)
    requires Possible(sys, t) && !t.Dispatch? && !t.ReadEnd? && !t.WriteError?
    ensures var s, s' := sys.sessions[t.i], NextSession(sys, t);
      s'.readClears == s.readClears && s'.writeClears == s.writeClears
  {
  }

  lemma OwnStepNotEarly(cfg: Config, sys: Server, t: Step)
    requires Exclusive(cfg, sys) && Enabled(cfg, sys, t) && !t.Dispatch?
    requires Life(sys.sessions[t.i], Of(sys.queue, t.i)) && NotEarly(cfg, sys.sessions[t.i])
    ensures NotEarly(cfg, NextSession(sys, t))
  {
    if cfg.oneThread && (t.ReadEnd? || t.WriteError?) {
      ClearerAccepted(sys.sessions[t.i], Of(sys.queue, t.i));
      ClearerInserted(cfg, sys, t);
      ClearsLate(sys.sessions[t.i]);
    } else if cfg.oneThread {
      OtherStepsClearNothing(sys, t);
    }
  }

  function PostedBy(sys: Server, t: Step): seq<Msg>
    requires Possible(sys, t)
  {
    if t.PostNext? then [Msg(t.i, Todo(sys.sessions[t.i])[0])] else []
  }

  /** What a step other than the worker's changes: one session, perhaps one new session, and
      perhaps one message at the end of the queue. */
  predicate Shape(sys: Server, t: Step, sys': Server)
    requires Possible(sys, t) && !t.Dispatch?
  {
    var n := |sys.sessions|;
    && sys'.disposed == sys.disposed && sys'.queue == sys.queue + PostedBy(sys, t)
    && n <= |sys'.sessions| <= n + 1
    && (forall i :: 0 <= i < n ==> sys'.sessions[i] == if i == t.i then NextSession(sys, t) else sys.sessions[i])
    && (|sys'.sessions| > n ==> sys'.sessions[n] == Made())
  }

  lemma NextShape(cfg: Config, sys: Server, t: Step)
    requires Possible(sys, t) && !t.Dispatch?
    ensures Shape(sys, t, Next(cfg, sys, t))
  {
  }

  lemma OwnStepKeepsOwn(cfg: Config, sys: Server, t: Step)
    requires Exclusive(cfg, sys) && Enabled(cfg, sys, t) && !t.Dispatch?
    requires SessionInv(cfg, sys, t.i) && NotEarly(cfg, sys.sessions[t.i])
    ensures Sessions.Inv(cfg.callbacks, NextSession(sys, t), Of(sys.disposed, t.i), Of(sys.queue + PostedBy(sys, t), t.i))
    ensures NotEarly(cfg, NextSession(sys, t))
  {
    OwnStepKeeps(cfg.callbacks, sys, t, Of(sys.disposed, t.i), Of(sys.queue, t.i));
    OwnStepNotEarly(cfg, sys, t);
    OfAppend(sys.queue, PostedBy(sys, t), t.i);
    if t.PostNext? {
      OfOne(PostedBy(sys, t)[0], t.i);
    }
  }

  lemma PostedByOther(sys: Server, t: Step, i: nat)
    requires Possible(sys, t) && !t.Dispatch? && i != t.i
    ensures Of(sys.queue + PostedBy(sys, t), i) == Of(sys.queue, i)
  {
    OfAppend(sys.queue, PostedBy(sys, t), i);
    if t.PostNext? {
      OfOne(PostedBy(sys, t)[0], i);
    }
  }

  lemma OwnStepKeepsAt(cfg: Config, sys: Server, t: Step, i: nat)
    requires Inv(cfg, sys) && Enabled(cfg, sys, t) && !t.Dispatch? && i < |sys.sessions|
    ensures var s' := if i == t.i then NextSession(sys, t) else sys.sessions[i];
      Sessions.Inv(cfg.callbacks, s', Of(sys.disposed, i), Of(sys.queue + PostedBy(sys, t), i)) && NotEarly(cfg, s')
  {
    assert SessionInv(cfg, sys, i) && NotEarly(cfg, sys.sessions[i]);
    if i == t.i {
      OwnStepKeepsOwn(cfg, sys, t);
    } else {
      PostedByOther(sys, t, i);
    }
  }

  lemma RunsAfter(sys: Server, t: Step, j: Job)
    requires Possible(sys, t) && !t.Dispatch? && j.session == t.i && Runs(NextSession(sys, t), j)
    ensures Runs(sys.sessions[t.i], j) || (Begins(t) && j == JobOf(t))
  {
  }

  /** What runs after a step ran before or has just begun. */
  lemma RunningAfter(cfg: Config, sys: Server, t: Step, sys': Server, j: Job)
    requires Possible(sys, t) && !t.Dispatch? && Shape(sys, t, sys') && Running(sys', j)
    ensures Running(sys, j) || (Begins(t) && j == JobOf(t))
  {
    if j.session == t.i {
      RunsAfter(sys, t, j);
    } else {
      assert !Runs(Made(), j);
    }
  }

  lemma StepExclusive(cfg: Config, sys: Server, t: Step, sys': Server)
    requires Exclusive(cfg, sys) && Enabled(cfg, sys, t) && !t.Dispatch? && Shape(sys, t, sys')
    ensures Exclusive(cfg, sys')
  {
    forall j | Running(sys', j)
      ensures Running(sys, j) || (Begins(t) && j == JobOf(t))
    {
      RunningAfter(cfg, sys, t, sys', j);
    }
    forall i | 0 <= i < |sys'.sessions|
      ensures sys'.sessions[i].writeHandlers <= 1
    {
      if t.WriteComplete? || t.WriteError? {
        assert !Running(sys, WriteJob(t.i));
      }
    }
  }

  lemma StepInRange(cfg: Config, sys: Server, t: Step, sys': Server)
    requires Inv(cfg, sys) && Possible(sys, t) && !t.Dispatch? && Shape(sys, t, sys')
    ensures InRange(sys'.queue, |sys'.sessions|) && InRange(sys'.disposed, |sys'.sessions|)
  {
  }

  lemma NewSessionAt(cfg: Config, sys': Server, i: nat)
    requires i < |sys'.sessions| && sys'.sessions[i] == Made() && InRange(sys'.queue, i) && InRange(sys'.disposed, i)
    ensures SessionInv(cfg, sys', i) && NotEarly(cfg, sys'.sessions[i])
  {
    OfOutOfRange(sys'.queue, i);
    OfOutOfRange(sys'.disposed, i);
    MadeInv(cfg.callbacks);
    InstallAt(cfg, sys', i, Made(), [], []);
  }

  lemma StepKeepsAt(cfg: Config, sys: Server, t: Step, sys': Server, i: nat)
    requires Inv(cfg, sys) && Enabled(cfg, sys, t) && !t.Dispatch? && Shape(sys, t, sys') && i < |sys'.sessions|
    ensures SessionInv(cfg, sys', i) && NotEarly(cfg, sys'.sessions[i])
  {
    if i < |sys.sessions| {
      OwnStepKeepsAt(cfg, sys, t, i);
      InstallAt(cfg, sys', i, if i == t.i then NextSession(sys, t) else sys.sessions[i],
                Of(sys.disposed, i), Of(sys.queue + PostedBy(sys, t), i));
    } else {
      assert i == |sys.sessions|;
      NewSessionAt(cfg, sys', i);
    }
  }

  /** Every step of every thread keeps the invariant of every session. */
  lemma StepKeeps(cfg: Config, sys: Server, t: Step)
    requires Inv(cfg, sys) && Enabled(cfg, sys, t)
    ensures Inv(cfg, Next(cfg, sys, t))
  {
    if t.Dispatch? {
      DispatchKeeps(cfg, sys);
    } else {
      var sys' := Next(cfg, sys, t);
      NextShape(cfg, sys, t);
      StepInRange(cfg, sys, t, sys');
      StepExclusive(cfg, sys, t, sys');
      forall i | 0 <= i < |sys'.sessions|
        ensures SessionInv(cfg, sys', i) && NotEarly(cfg, sys'.sessions[i])
      {
        StepKeepsAt(cfg, sys, t, sys', i);
      }
    }
  }

  lemma BeginInv(cfg: Config)
    ensures Inv(cfg, Begin())
  {
    NewSessionAt(cfg, Begin(), 0);
    assert forall j :: !Running(Begin(), j);
  }

  lemma {:induction false} RunKeeps(cfg: Config, sys: Server, ts: seq<Step>, sys': Server)
    requires Inv(cfg, sys) && IsRun(cfg, sys, ts, sys')
    ensures Inv(cfg, sys') && |sys.sessions| <= |sys'.sessions|
    decreases |ts|
  {
    if ts != [] {
      StepKeeps(cfg, sys, ts[0]);
      RunKeeps(cfg, Next(cfg, sys, ts[0]), ts[1..], sys');
    }
  }

  lemma ReachableInv(cfg: Config, sys: Server)
    requires Reachable(cfg, sys)
    ensures Inv(cfg, sys)
  {
    var ts :| IsRun(cfg, Begin(), ts, sys);
    BeginInv(cfg);
    RunKeeps(cfg, Begin(), ts, sys);
  }
}
