/** What the send queue of a session does, as a function of what happens to it.

    The specification of the class in Send.dfy and a part of the whole server in Server.dfy.
    `async_write` is taken to put the bytes of its buffer on the wire in order, and to
    complete with success after the last of them or with an error after any of them. */
module SendQueue {
  import opened Wire
  import opened Frames

  /** One call of `Send`: the reply, and how long it found the queue. */
  datatype Offer = Offer(reply: Frame, depth: nat)

  datatype SendState = SendState(
    queue: seq<Frame>,            // _send_que, front first
    writing: seq<seq<Byte>>,      // the buffers of the async_write calls in flight
    progress: nat,                // how much of the first of them is on the wire
    failed: bool,                 // an async_write has completed with an error
    completed: seq<Frame>,        // frames whose write has completed
    log: seq<Offer>,              // all calls of Send
    wire: seq<Byte>)              // all bytes put on the wire

  const Fresh := SendState([], [], 0, false, [], [], [])

  function StartWrite(s: SendState): SendState
    requires s.queue != []
  {
    s.(writing := s.writing + [Encode(s.queue[0])], progress := 0)
  }

  function Send(s: SendState, f: Frame): SendState
  {
    var depth := |s.queue|;
    var logged := s.(log := s.log + [Offer(f, depth)]);
    if depth > MAX_SENDQUE then logged
    else
      var pushed := logged.(queue := s.queue + [f]);
      if depth > 0 then pushed else StartWrite(pushed)
  }

  /** The network takes `n` more bytes of the write in flight. */
  function Transmit(s: SendState, n: nat): SendState
    requires CanTransmit(s, n)
  {
    s.(wire := s.wire + s.writing[0][s.progress..s.progress + n], progress := s.progress + n)
  }

  predicate CanTransmit(s: SendState, n: nat)
  {
    s.writing != [] && s.progress + n <= |s.writing[0]|
  }

  predicate CanComplete(s: SendState)
  {
    s.writing != [] && s.progress == |s.writing[0]|
  }

  /** `HandleWrite` without error. The pop of an empty queue is shown never to happen. */
  function Completed(s: SendState): SendState
    requires CanComplete(s)
  {
    if s.queue == [] then s.(writing := s.writing[1..])
    else
      var popped := s.(writing := s.writing[1..], queue := s.queue[1..],
                       completed := s.completed + [s.queue[0]], progress := 0);
      if popped.queue == [] then popped else StartWrite(popped)
  }

  /** `HandleWrite` with an error. */
  function Failed(s: SendState): SendState
    requires s.writing != []
  {
    s.(writing := s.writing[1..], failed := true)
  }

  // ------------------------------------------------------------------ accounting

  function Offered(log: seq<Offer>): seq<Frame>
  {
    if log == [] then [] else Offered(log[..|log| - 1]) + [log[|log| - 1].reply]
  }

  /** The offers `Send` did not refuse: those that found at most MAX_SENDQUE frames. */
  function Accepted(log: seq<Offer>): seq<Frame>
  {
    if log == [] then []
    else
      var last := log[|log| - 1];
      Accepted(log[..|log| - 1]) + if last.depth <= MAX_SENDQUE then [last.reply] else []
  }

  function RefusedCount(log: seq<Offer>): nat
  {
    if log == [] then 0
    else RefusedCount(log[..|log| - 1]) + if log[|log| - 1].depth <= MAX_SENDQUE then 0 else 1
  }

  lemma LogSnoc(log: seq<Offer>, o: Offer)
    ensures Offered(log + [o]) == Offered(log) + [o.reply]
    ensures Accepted(log + [o]) == Accepted(log) + if o.depth <= MAX_SENDQUE then [o.reply] else []
    ensures RefusedCount(log + [o]) == RefusedCount(log) + if o.depth <= MAX_SENDQUE then 0 else 1
  {
    var longer := log + [o];
    assert longer[..|longer| - 1] == log && longer[|longer| - 1] == o;
  }

  /** The accepted replies are all that were offered exactly when none was refused. */
  lemma {:induction false} NothingRefused(log: seq<Offer>)
    ensures |Accepted(log)| + RefusedCount(log) == |Offered(log)| == |log|
    ensures RefusedCount(log) == 0 <==> Accepted(log) == Offered(log)
  {
    if log != [] {
      NothingRefused(log[..|log| - 1]);
    }
  }

  /** A call of `Send` starts a write exactly when it finds the queue empty. */
  lemma SendStartsWrite(s: SendState, f: Frame)
    ensures |Send(s, f).writing| == |s.writing| + if s.queue == [] then 1 else 0
  {
  }

  // ------------------------------------------------------------------ invariant

  /** At most one write is in flight, and its buffer is the whole frame at the front. The
      queue is non-empty exactly while a write is in flight or after a write has failed. */
  predicate Serialised(s: SendState)
  {
    && |s.writing| <= 1
    && (s.queue != [] <==> s.writing != [] || s.failed)
    && !(s.writing != [] && s.failed)
    && (s.writing != [] ==> s.writing[0] == Encode(s.queue[0]))
  }

  /** The wire carries the completed frames and then a part of the one at the front. */
  predicate WireFollows(s: SendState)
  {
    if s.queue == [] then s.wire == EncodeAll(s.completed)
    else s.progress <= |Encode(s.queue[0])| && s.wire == EncodeAll(s.completed) + Encode(s.queue[0])[..s.progress]
  }

  /** Every offer is completed, queued or refused, and refused exactly at full length. */
  predicate Accounted(s: SendState)
  {
    && Accepted(s.log) == s.completed + s.queue
    && |s.log| == |s.completed| + |s.queue| + RefusedCount(s.log)
    && |s.queue| <= MAX_SENDQUE + 1
    && (forall i :: 0 <= i < |s.log| ==> s.log[i].depth <= MAX_SENDQUE + 1)
  }

  predicate Inv(s: SendState)
  {
    Serialised(s) && WireFollows(s) && Accounted(s)
  }

  lemma SendSerialised(s: SendState, f: Frame)
    requires Serialised(s)
    ensures Serialised(Send(s, f))
  {
    var t := Send(s, f);
    if 0 < |s.queue| <= MAX_SENDQUE {
      assert t.queue[0] == s.queue[0];
    }
  }

  lemma SendWireFollows(s: SendState, f: Frame)
    requires WireFollows(s)
    ensures WireFollows(Send(s, f))
  {
    var t := Send(s, f);
    if s.queue == [] {
      assert t.wire == EncodeAll(t.completed) + Encode(f)[..0];
    } else if |s.queue| <= MAX_SENDQUE {
      assert t.queue[0] == s.queue[0];
    }
  }

  lemma SendAccounted(s: SendState, f: Frame)
    requires Accounted(s)
    ensures Accounted(Send(s, f)) && Offered(Send(s, f).log) == Offered(s.log) + [f]
  {
    LogSnoc(s.log, Offer(f, |s.queue|));
    if |s.queue| <= MAX_SENDQUE {
      assert s.completed + (s.queue + [f]) == s.completed + s.queue + [f];
    }
  }

  lemma SendKeeps(s: SendState, f: Frame)
    requires Inv(s)
    ensures Inv(Send(s, f))
    ensures Offered(Send(s, f).log) == Offered(s.log) + [f]
  {
    SendSerialised(s, f);
    SendWireFollows(s, f);
    SendAccounted(s, f);
  }

  lemma TransmitKeeps(s: SendState, n: nat)
    requires Inv(s) && CanTransmit(s, n)
    ensures Inv(Transmit(s, n))
  {
    var b := Encode(s.queue[0]);
    assert b[..s.progress] + b[s.progress..s.progress + n] == b[..s.progress + n];
  }

  lemma CompletedKeeps(s: SendState)
    requires Inv(s) && CanComplete(s)
    ensures s.queue != [] && Inv(Completed(s))
    ensures |Completed(s).writing| == if |s.queue| > 1 then 1 else 0
  {
    var t := Completed(s);
    var b := Encode(s.queue[0]);
    assert b[..s.progress] == b;
    EncodeAllSnoc(s.completed, s.queue[0]);
    assert s.completed + [s.queue[0]] + s.queue[1..] == s.completed + s.queue;
    assert t.queue != [] ==> t.wire == EncodeAll(t.completed) + Encode(t.queue[0])[..0];
  }

  lemma FailedKeeps(s: SendState)
    requires Inv(s) && s.writing != []
    ensures Inv(Failed(s))
  {
  }

  /** What the peer has been sent is always a prefix of the encoded accepted replies. */
  lemma WireIsPrefix(s: SendState)
    requires Inv(s)
    ensures s.wire <= EncodeAll(Accepted(s.log))
    ensures s.queue == [] ==> s.wire == EncodeAll(Accepted(s.log))
  {
    EncodeAllAppend(s.completed, s.queue);
    if s.queue == [] {
      assert s.completed + s.queue == s.completed;
    } else {
      assert Encode(s.queue[0])[..s.progress] <= EncodeAll(s.queue);
    }
  }

  /** After a failed write nothing is in flight, and no `Send` starts a write. */
  lemma FailureIsFinal(s: SendState, f: Frame)
    requires Inv(s) && s.failed
    ensures s.writing == [] && !CanComplete(s) && (forall n :: !CanTransmit(s, n))
    ensures var t := Send(s, f); t.failed && t.writing == [] && t.wire == s.wire && t.completed == s.completed
  {
  }
}
