/** One session as the whole server sees it: its reads, its send queue, its place in the
    registry, and the shared pointers that keep it alive.

    The functions are the steps of its handlers. Each is one critical section, one
    completion or one uninterrupted stretch on the session's own I/O thread; the reading of
    bytes is `Parse` (what Receive.dfy implements) and the sending is SendQueue.dfy (what
    Send.dfy implements). */
module Sessions {
  import opened Wire
  import opened Frames
  import opened Messages
  import Q = SendQueue

  datatype Stage =
    | Accepting      // async_accept is pending
    | Started        // HandleAccept has started it and not yet inserted it
    | Inserted
    | Dropped        // the accept failed

  /** How a run of `HandleRead` ends. */
  datatype Ending =
    | Rearm          // another async_read_some
    | Clear          // bad header: ClearSession
    | CloseAndClear  // read error: Close and ClearSession
    | Leave          // exception: nothing

  datatype Reader = NoHandler | Handling(todo: seq<Frame>, ending: Ending)

  /** When a call of ClearSession came: before or after the session was inserted. */
  datatype Moment = Early | Late

  datatype Session = Session(
    stage: Stage,
    pendingReads: nat,           // async_read_some calls pending
    reader: Reader,
    received: seq<Byte>,
    send: Q.SendState,
    writeHandlers: nat,          // HandleWrite calls past their critical section
    readFailed: bool,            // a read has completed with an error
    closed: bool,                // Close has been called: the socket is closed
    registered: bool,            // in the server's _sessions
    readClears: seq<Moment>,     // calls of ClearSession by HandleRead
    writeClears: seq<Moment>,    // calls of ClearSession by HandleWrite
    refs: int,                   // use count of the shared pointers
    destroyed: nat)              // how often the destructor has run

  /** A copy of a shared pointer. */
  function Retain(s: Session): Session
  {
    s.(refs := s.refs + 1)
  }

  /** The end of a shared pointer: the last one destroys the session. */
  function Release(s: Session): Session
  {
    s.(refs := s.refs - 1, destroyed := if s.refs - 1 == 0 then s.destroyed + 1 else s.destroyed)
  }

  function Todo(s: Session): seq<Frame>
  {
    if s.reader.Handling? then s.reader.todo else []
  }

  // ------------------------------------------------------------------ accepting

  /** `StartAccept`: the new session is bound into the accept handler, then the local
      pointer ends. */
  function Made(): Session
  {
    Release(Retain(Session(Accepting, 0, NoHandler, [], Q.Fresh, 0, false, false, false, [], [], 1, 0)))
  }

  /** `HandleAccept` without error, first `Start`, which binds a pointer into the read. */
  function Start(s: Session): Session
  {
    Retain(s.(stage := Started, pendingReads := s.pendingReads + 1))
  }

  /** ... then the insertion, then the return of the handler. */
  function Insert(s: Session): Session
  {
    Release(Retain(s.(stage := Inserted, registered := true)))
  }

  function Drop(s: Session): Session
  {
    Release(s.(stage := Dropped))
  }

  /** `ClearSession`: erasing an absent entry does nothing. */
  function Unregister(s: Session): Session
  {
    if s.registered then Release(s.(registered := false)) else s
  }

  function Now(s: Session): Moment
  {
    if s.stage == Inserted then Late else Early
  }

  function ClearByReader(s: Session): Session
  {
    Unregister(s.(readClears := s.readClears + [Now(s)]))
  }

  function ClearByWriter(s: Session): Session
  {
    Unregister(s.(writeClears := s.writeClears + [Now(s)]))
  }

  // ------------------------------------------------------------------ reading

  predicate CanRead(s: Session)
  {
    s.pendingReads > 0 && s.reader == NoHandler
  }

  function EndingOf(status: Status): Ending
  {
    match status
    case Open => Rearm
    case Refused => Clear
    case Aborted => Leave
  }

  /** A read completes with a chunk: the handler is going to post the frames it completes
      and to end as the stream says. The pointer of the read passes to the handler. */
  function Read(s: Session, chunk: seq<Byte>): Session
    requires CanRead(s)
  {
    var all := Parse(s.received + chunk);
    var known := |Parse(s.received).frames|;
    s.(pendingReads := s.pendingReads - 1, received := s.received + chunk,
       reader := Handling(if known <= |all.frames| then all.frames[known..] else [], EndingOf(all.status)))
  }

  function ReadError(s: Session): Session
    requires CanRead(s)
  {
    s.(pendingReads := s.pendingReads - 1, reader := Handling([], CloseAndClear), readFailed := true)
  }

  /** The handler posts its next message, which holds the session. */
  function Post(s: Session): Session
    requires Todo(s) != []
  {
    Retain(s.(reader := s.reader.(todo := s.reader.todo[1..])))
  }

  /** Everything is posted: the handler ends. */
  function ReadReturn(s: Session): Session
    requires s.reader.Handling?
  {
    var ended := match s.reader.ending
      case Rearm => Retain(s.(pendingReads := s.pendingReads + 1))
      case Clear => ClearByReader(s)
      case CloseAndClear => ClearByReader(s.(closed := true))
      case Leave => s;
    Release(ended.(reader := NoHandler))
  }

  // ------------------------------------------------------------------ sending

  /** A new async_write binds a pointer. */
  function Sending(s: Session, send: Q.SendState, before: nat): Session
  {
    if |send.writing| > before then Retain(s.(send := send)) else s.(send := send)
  }

  /** The worker calls the callback of the message, if there is one, and destroys the
      message. */
  function Handle(c: Callbacks, s: Session, f: Frame): Session
  {
    Release(
      if f.id in c then Sending(s, Q.Send(s.send, c[f.id](f.id, f.payload)), |s.send.writing|)
      else s)
  }

  /** `HandleWrite` without error. The pointer of the write passes to the handler. */
  function WriteDone(s: Session): Session
    requires Q.CanComplete(s.send)
  {
    Sending(s, Q.Completed(s.send), |s.send.writing| - 1).(writeHandlers := s.writeHandlers + 1)
  }

  function WriteFail(s: Session): Session
    requires s.send.writing != []
  {
    ClearByWriter(s.(send := Q.Failed(s.send), writeHandlers := s.writeHandlers + 1, closed := true))
  }

  function WriteReturn(s: Session): Session
    requires s.writeHandlers > 0
  {
    Release(s.(writeHandlers := s.writeHandlers - 1))
  }

  // ------------------------------------------------------------------ invariants
  //
  // `done` and `waiting` are the frames of this session that the worker has taken and that
  // are still in the logic queue.

  /** Nothing is lost, repeated or reordered between the wire and the worker. */
  predicate Decoded(s: Session, done: seq<Frame>, waiting: seq<Frame>)
  {
    done + waiting + Todo(s) == Parse(s.received).frames
  }

  /** The callbacks ran on the registered ids of the frames taken, in order. */
  predicate Answered(c: Callbacks, s: Session, done: seq<Frame>)
  {
    Q.Inv(s.send) && Q.Offered(s.send.log) == Replies(c, done)
  }

  predicate Accepted(s: Session)
  {
    s.stage == Started || s.stage == Inserted
  }

  predicate ReaderCleared(s: Session)
  {
    s.readClears != []
  }

  predicate Untouched(s: Session)
  {
    && s.received == [] && s.pendingReads == 0 && s.reader == NoHandler
    && s.send == Q.Fresh && s.writeHandlers == 0 && !s.readFailed && !s.closed
  }

  /** A read has failed, or has brought a header over the limits. */
  predicate ReadEnds(s: Session)
  {
    s.readFailed || Parse(s.received).status == Refused
  }

  /** At most one read is pending, and only while the stream is open and no read has failed.
      The reader has cleared the session exactly if it ended by an error or by a header over
      the limits. */
  predicate OneRead(s: Session)
  {
    var status := Parse(s.received).status;
    && s.pendingReads <= 1
    && (s.pendingReads == 1 ==> s.reader == NoHandler && status == Open && !s.readFailed && Accepted(s))
    && (s.reader.Handling? ==> s.pendingReads == 0 && Accepted(s))
    && (s.reader.Handling? ==> s.reader.ending == if s.readFailed then CloseAndClear else EndingOf(status))
    && (ReaderCleared(s) <==> s.reader == NoHandler && ReadEnds(s))
    && (Accepted(s) && s.pendingReads == 0 && s.reader == NoHandler ==> s.readFailed || status != Open)
    && (s.readFailed ==> status == Open && Todo(s) == [])
    && (!Accepted(s) ==> Untouched(s))
  }

  /** Close has been called exactly if a write has failed or the handler of a failed read has
      ended. */
  predicate ClosedByError(s: Session)
  {
    s.closed <==> s.send.failed || (s.readFailed && s.reader == NoHandler)
  }

  /** All pointers to the session: the pending accept or its handler, the registry, the
      pending read or its handler, the pending writes and their handlers, the messages. */
  function Holders(s: Session, waiting: seq<Frame>): nat
  {
    (if s.stage == Accepting || s.stage == Started then 1 else 0)
    + (if s.registered then 1 else 0)
    + s.pendingReads + (if s.reader.Handling? then 1 else 0)
    + |s.send.writing| + s.writeHandlers
    + |waiting|
  }

  /** The use count is the number of holders, and the session is destroyed once, when there
      is none left. */
  predicate Counted(s: Session, waiting: seq<Frame>)
  {
    && s.refs == Holders(s, waiting)
    && s.destroyed == (if Holders(s, waiting) == 0 then 1 else 0)
  }

  /** Registered means inserted and not cleared since; a write that failed has cleared the
      session, and neither the reader nor a write clears it twice. */
  predicate Listed(s: Session)
  {
    && (s.registered <==> s.stage == Inserted && s.readClears != [Late] && s.writeClears != [Late])
    && (s.stage != Inserted ==> s.readClears != [Late] && s.writeClears != [Late])
    && (!Accepted(s) ==> s.readClears == [] && s.writeClears == [])
    && (s.send.failed <==> s.writeClears != [])
    && |s.readClears| <= 1 && |s.writeClears| <= 1
  }

  /** What holds of the messages on their way through the session. */
  predicate Flow(c: Callbacks, s: Session, done: seq<Frame>, waiting: seq<Frame>)
  {
    Decoded(s, done, waiting) && Answered(c, s, done)
  }

  /** What holds of its reads, its socket, its pointers and its registry entry. */
  predicate Life(s: Session, waiting: seq<Frame>)
  {
    OneRead(s) && ClosedByError(s) && Counted(s, waiting) && Listed(s)
  }

  predicate Inv(c: Callbacks, s: Session, done: seq<Frame>, waiting: seq<Frame>)
  {
    Flow(c, s, done, waiting) && Life(s, waiting)
  }

  // ------------------------------------------------------------------ every step keeps them

  lemma MadeInv(c: Callbacks)
    ensures Inv(c, Made(), [], [])
  {
  }

  /** A step that leaves the bytes received, the frames to be posted and the send queue alone
      keeps the flow of the messages. */
  lemma FlowSame(c: Callbacks, s: Session, t: Session, done: seq<Frame>, waiting: seq<Frame>)
    requires Flow(c, s, done, waiting) && t.received == s.received && Todo(t) == Todo(s) && t.send == s.send
    ensures Flow(c, t, done, waiting)
  {
  }

  lemma StartLife(s: Session, waiting: seq<Frame>)
    requires Life(s, waiting) && s.stage == Accepting && Parse(s.received).status == Open
    ensures Life(Start(s), waiting)
  {
  }

  lemma StartKeeps(c: Callbacks, s: Session, done: seq<Frame>, waiting: seq<Frame>)
    requires Inv(c, s, done, waiting) && s.stage == Accepting
    ensures Inv(c, Start(s), done, waiting)
  {
    assert s.received == [];
    StartLife(s, waiting);
    FlowSame(c, s, Start(s), done, waiting);
  }

  lemma InsertLife(s: Session, waiting: seq<Frame>)
    requires Life(s, waiting) && s.stage == Started
    ensures Life(Insert(s), waiting)
  {
  }

  lemma InsertKeeps(c: Callbacks, s: Session, done: seq<Frame>, waiting: seq<Frame>)
    requires Inv(c, s, done, waiting) && s.stage == Started
    ensures Inv(c, Insert(s), done, waiting)
  {
    InsertLife(s, waiting);
    FlowSame(c, s, Insert(s), done, waiting);
  }

  lemma DropLife(s: Session, waiting: seq<Frame>)
    requires Life(s, waiting) && s.stage == Accepting
    ensures Life(Drop(s), waiting)
  {
  }

  lemma DropKeeps(c: Callbacks, s: Session, done: seq<Frame>, waiting: seq<Frame>)
    requires Inv(c, s, done, waiting) && s.stage == Accepting
    ensures Inv(c, Drop(s), done, waiting)
  {
    DropLife(s, waiting);
    FlowSame(c, s, Drop(s), done, waiting);
  }

  lemma ReadLife(s: Session, chunk: seq<Byte>, waiting: seq<Frame>)
    requires Life(s, waiting) && CanRead(s)
    ensures Life(Read(s, chunk), waiting)
  {
  }

  lemma ReadKeeps(c: Callbacks, s: Session, chunk: seq<Byte>, done: seq<Frame>, waiting: seq<Frame>)
    requires Inv(c, s, done, waiting) && CanRead(s)
    ensures Inv(c, Read(s, chunk), done, waiting)
  {
    ReadLife(s, chunk, waiting);
    ParseGrows(s.received, chunk);
    var known, all := Parse(s.received).frames, Parse(s.received + chunk).frames;
    assert done + waiting + [] == done + waiting == known;
    assert known + all[|known|..] == all;
  }

  lemma ReadErrorLife(s: Session, waiting: seq<Frame>)
    requires Life(s, waiting) && CanRead(s)
    ensures Life(ReadError(s), waiting)
  {
  }

  lemma ReadErrorKeeps(c: Callbacks, s: Session, done: seq<Frame>, waiting: seq<Frame>)
    requires Inv(c, s, done, waiting) && CanRead(s)
    ensures Inv(c, ReadError(s), done, waiting)
  {
    ReadErrorLife(s, waiting);
    FlowSame(c, s, ReadError(s), done, waiting);
  }

  lemma PostLife(s: Session, waiting: seq<Frame>)
    requires Life(s, waiting) && Todo(s) != []
    ensures Life(Post(s), waiting + [Todo(s)[0]])
  {
  }

  lemma PostKeeps(c: Callbacks, s: Session, done: seq<Frame>, waiting: seq<Frame>)
    requires Inv(c, s, done, waiting) && Todo(s) != []
    ensures Inv(c, Post(s), done, waiting + [Todo(s)[0]])
  {
    PostLife(s, waiting);
    var todo := Todo(s);
    assert done + (waiting + [todo[0]]) + todo[1..] == done + waiting + todo;
  }

  lemma ReadClearSame(s: Session)
    requires s.reader == Handling([], Clear) || s.reader == Handling([], CloseAndClear)
    ensures var t := ReadReturn(s);
      t == s.(reader := NoHandler, closed := s.closed || s.reader.ending == CloseAndClear, registered := false,
              readClears := s.readClears + [Now(s)], refs := t.refs, destroyed := t.destroyed)
  {
  }

  lemma ReadClearListed(s: Session)
    requires Listed(s) && Accepted(s) && s.readClears == []
    requires s.reader == Handling([], Clear) || s.reader == Handling([], CloseAndClear)
    ensures Listed(ReadReturn(s))
  {
    ReadClearSame(s);
    assert ReadReturn(s).readClears == [Now(s)];
  }

  lemma ReadClearOne(s: Session)
    requires OneRead(s) && ClosedByError(s)
    requires s.reader == Handling([], Clear) || s.reader == Handling([], CloseAndClear)
    ensures OneRead(ReadReturn(s)) && ClosedByError(ReadReturn(s))
  {
    ReadClearSame(s);
  }

  lemma ReadClearCounted(s: Session, waiting: seq<Frame>)
    requires Counted(s, waiting)
    requires s.reader == Handling([], Clear) || s.reader == Handling([], CloseAndClear)
    ensures Counted(ReadReturn(s), waiting)
  {
    assert Holders(ReadReturn(s), waiting) == Holders(s, waiting) - if s.registered then 2 else 1;
  }

  lemma ReadClearLife(s: Session, waiting: seq<Frame>)
    requires Life(s, waiting)
    requires s.reader == Handling([], Clear) || s.reader == Handling([], CloseAndClear)
    ensures Life(ReadReturn(s), waiting)
  {
    ReadClearOne(s);
    ReadClearListed(s);
    ReadClearCounted(s, waiting);
  }

  lemma ReadRearmLife(s: Session, waiting: seq<Frame>)
    requires Life(s, waiting) && s.reader.Handling? && Todo(s) == [] && s.reader.ending == Rearm
    ensures Life(ReadReturn(s), waiting)
  {
    assert ReadReturn(s) == s.(pendingReads := 1, reader := NoHandler);
  }

  lemma ReadLeaveLife(s: Session, waiting: seq<Frame>)
    requires Life(s, waiting) && s.reader.Handling? && Todo(s) == [] && s.reader.ending == Leave
    ensures Life(ReadReturn(s), waiting)
  {
    assert Holders(ReadReturn(s), waiting) == Holders(s, waiting) - 1;
  }

  lemma ReadReturnLife(s: Session, waiting: seq<Frame>)
    requires Life(s, waiting) && s.reader.Handling? && Todo(s) == []
    ensures Life(ReadReturn(s), waiting)
  {
    match s.reader.ending
    case Rearm => ReadRearmLife(s, waiting);
    case Leave => ReadLeaveLife(s, waiting);
    case _ => ReadClearLife(s, waiting);
  }

  lemma ReadReturnSame(s: Session)
    requires s.reader.Handling?
    ensures var t := ReadReturn(s);
      t.received == s.received && t.send == s.send && t.reader == NoHandler && t.readFailed == s.readFailed
  {
  }

  lemma ReadReturnKeeps(c: Callbacks, s: Session, done: seq<Frame>, waiting: seq<Frame>)
    requires Inv(c, s, done, waiting) && s.reader.Handling? && Todo(s) == []
    ensures Inv(c, ReadReturn(s), done, waiting)
  {
    ReadReturnLife(s, waiting);
    ReadReturnSame(s);
    FlowSame(c, s, ReadReturn(s), done, waiting);
  }

  /** A session with a message in the queue has been accepted. */
  lemma WaitingIsAccepted(c: Callbacks, s: Session, done: seq<Frame>, waiting: seq<Frame>)
    requires Inv(c, s, done, waiting) && waiting != []
    ensures Accepted(s)
  {
    assert |done + waiting + Todo(s)| > 0;
  }

  lemma DispatchDecoded(c: Callbacks, s: Session, f: Frame, done: seq<Frame>, waiting: seq<Frame>)
    requires Decoded(s, done, [f] + waiting)
    ensures Decoded(s, done + [f], waiting)
    ensures Replies(c, done + [f]) == Replies(c, done) + if f.id in c then [c[f.id](f.id, f.payload)] else []
  {
    assert done + [f] + waiting == done + ([f] + waiting);
    RepliesAppend(c, done, [f]);
    RepliesOne(c, f);
  }

  /** Sending touches neither the reader nor the registry. */
  lemma SendingIsApart(s: Session, t: Session)
    requires OneRead(s) && ClosedByError(s) && Listed(s) && Accepted(s) && t.send.failed == s.send.failed
    requires t == s.(send := t.send, writeHandlers := t.writeHandlers, refs := t.refs, destroyed := t.destroyed)
    ensures OneRead(t) && ClosedByError(t) && Listed(t)
  {
  }

  lemma ReplyCounted(c: Callbacks, s: Session, f: Frame, waiting: seq<Frame>)
    requires Counted(s, [f] + waiting) && f.id in c
    ensures Counted(Handle(c, s, f), waiting)
  {
    Q.SendStartsWrite(s.send, c[f.id](f.id, f.payload));
    var t := Handle(c, s, f);
    assert Holders(t, waiting) == Holders(s, [f] + waiting) - 1 + (|t.send.writing| - |s.send.writing|);
  }

  lemma ReplyLife(c: Callbacks, s: Session, f: Frame, waiting: seq<Frame>)
    requires Life(s, [f] + waiting) && Accepted(s) && f.id in c
    ensures Life(Handle(c, s, f), waiting)
  {
    SendingIsApart(s, Handle(c, s, f));
    ReplyCounted(c, s, f, waiting);
  }

  lemma ReplyFlow(c: Callbacks, s: Session, f: Frame, done: seq<Frame>, waiting: seq<Frame>)
    requires Flow(c, s, done, [f] + waiting) && f.id in c
    ensures Flow(c, Handle(c, s, f), done + [f], waiting)
  {
    DispatchDecoded(c, s, f, done, waiting);
    Q.SendKeeps(s.send, c[f.id](f.id, f.payload));
    assert Decoded(Handle(c, s, f), done + [f], waiting);
  }

  lemma DropMessageFlow(c: Callbacks, s: Session, f: Frame, done: seq<Frame>, waiting: seq<Frame>)
    requires Flow(c, s, done, [f] + waiting) && f.id !in c
    ensures Flow(c, Handle(c, s, f), done + [f], waiting)
  {
    DispatchDecoded(c, s, f, done, waiting);
    assert Replies(c, done) + [] == Replies(c, done);
  }

  lemma DropMessageLife(c: Callbacks, s: Session, f: Frame, waiting: seq<Frame>)
    requires Life(s, [f] + waiting) && f.id !in c
    ensures Life(Handle(c, s, f), waiting)
  {
  }

  lemma HandleKeeps(c: Callbacks, s: Session, f: Frame, done: seq<Frame>, waiting: seq<Frame>)
    requires Inv(c, s, done, [f] + waiting)
    ensures Inv(c, Handle(c, s, f), done + [f], waiting)
  {
    WaitingIsAccepted(c, s, done, [f] + waiting);
    if f.id in c {
      ReplyFlow(c, s, f, done, waiting);
      ReplyLife(c, s, f, waiting);
    } else {
      DropMessageFlow(c, s, f, done, waiting);
      DropMessageLife(c, s, f, waiting);
    }
  }

  /** What the worker does to a session it does to the send queue and the pointers. */
  lemma HandleApart(c: Callbacks, s: Session, f: Frame)
    ensures var s' := Handle(c, s, f);
      && s' == s.(send := s'.send, refs := s'.refs, destroyed := s'.destroyed)
      && s'.send.failed == s.send.failed && s'.send.wire == s.send.wire && s'.send.completed == s.send.completed
  {
  }

  lemma TransmitKeeps(c: Callbacks, s: Session, n: nat, done: seq<Frame>, waiting: seq<Frame>)
    requires Inv(c, s, done, waiting) && Q.CanTransmit(s.send, n)
    ensures Inv(c, s.(send := Q.Transmit(s.send, n)), done, waiting)
  {
    Q.TransmitKeeps(s.send, n);
    SendingIsApart(s, s.(send := Q.Transmit(s.send, n)));
  }

  lemma WriteDoneSame(s: Session)
    requires Q.CanComplete(s.send)
    ensures var t := WriteDone(s);
      && t == s.(send := Q.Completed(s.send), writeHandlers := s.writeHandlers + 1, refs := t.refs)
      && t.send.failed == s.send.failed
  {
  }

  lemma WriteDoneLife(s: Session, waiting: seq<Frame>)
    requires Life(s, waiting) && Q.CanComplete(s.send)
    requires |Q.Completed(s.send).writing| >= |s.send.writing| - 1
    ensures Life(WriteDone(s), waiting)
  {
    var t := WriteDone(s);
    WriteDoneSame(s);
    SendingIsApart(s, t);
    assert Holders(t, waiting) == Holders(s, waiting) + (|t.send.writing| - |s.send.writing|) + 1;
  }

  lemma WriteDoneKeeps(c: Callbacks, s: Session, done: seq<Frame>, waiting: seq<Frame>)
    requires Inv(c, s, done, waiting) && Q.CanComplete(s.send)
    ensures Inv(c, WriteDone(s), done, waiting)
  {
    Q.CompletedKeeps(s.send);
    WriteDoneLife(s, waiting);
  }

  lemma WriteFailLife(s: Session, waiting: seq<Frame>)
    requires Life(s, waiting) && s.send.writing != [] && !s.send.failed
    ensures Life(WriteFail(s), waiting)
  {
    var t := WriteFail(s);
    assert Accepted(s) && s.writeClears == [];
    assert t.writeClears == [Now(s)] && t.send.failed && !t.registered;
    assert Holders(t, waiting) == Holders(s, waiting) - if s.registered then 1 else 0;
  }

  lemma WriteFailKeeps(c: Callbacks, s: Session, done: seq<Frame>, waiting: seq<Frame>)
    requires Inv(c, s, done, waiting) && s.send.writing != []
    ensures Inv(c, WriteFail(s), done, waiting)
  {
    Q.FailedKeeps(s.send);
    WriteFailLife(s, waiting);
  }

  lemma WriteReturnLife(s: Session, waiting: seq<Frame>)
    requires Life(s, waiting) && s.writeHandlers > 0
    ensures Life(WriteReturn(s), waiting)
  {
  }

  lemma WriteReturnKeeps(c: Callbacks, s: Session, done: seq<Frame>, waiting: seq<Frame>)
    requires Inv(c, s, done, waiting) && s.writeHandlers > 0
    ensures Inv(c, WriteReturn(s), done, waiting)
  {
    WriteReturnLife(s, waiting);
    FlowSame(c, s, WriteReturn(s), done, waiting);
  }
}
