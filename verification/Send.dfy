/** The sending half of a session: both overloads of `Send`, and `HandleWrite`.

    Every method body is one critical section of the session's `_send_lock`. */
module Send {
  import opened Wire
  import opened Frames
  import opened MsgNodes
  import Q = SendQueue

  /** The lengths for which the buffer of a node can be allocated. */
  predicate Allocatable(maxLen: Short)
  {
    0 <= maxLen <= SHORT_MAX - HEAD_TOTAL_LEN
  }

  /** The lengths for which C++ defines what making the node does: it succeeds or throws.
      From -5 to -1 a buffer is allocated that is too small for what is written to it. */
  predicate Defined(maxLen: Short)
  {
    !(-5 <= maxLen < 0)
  }

  /** The bytes of `msg` that a node of length `maxLen` carries. */
  function Carried(msg: seq<Byte>, maxLen: Short): Payload
  {
    if Allocatable(maxLen) && maxLen <= |msg| then msg[..maxLen] else []
  }

  class SendHalf {
    const endian: Endian
    var sendQue: seq<MsgNode>
    var inFlight: seq<MsgNode>       // nodes whose buffers are given to async_write
    var clears: nat                  // calls of the server's ClearSession for this session
    var closes: nat                  // calls of Close

    ghost var frames: seq<Frame>     // what the nodes of sendQue carry
    ghost var progress: nat
    ghost var failed: bool
    ghost var completed: seq<Frame>
    ghost var log: seq<Q.Offer>
    ghost var wire: seq<Byte>

    /** The contents of the buffers in flight, as they are now. */
    ghost function Buffers(): seq<seq<Byte>>
      requires inFlight != [] ==> inFlight[0].Valid()
      reads this`inFlight, inFlight, set m: MsgNode | m in inFlight :: m.data
    {
      if inFlight == [] then [] else [inFlight[0].data[..inFlight[0].total]]
    }

    ghost predicate Nodes()
      reads this`sendQue, this`inFlight, this`frames, sendQue, inFlight
      reads (set m: MsgNode | m in sendQue :: m.data) + (set m: MsgNode | m in inFlight :: m.data)
    {
      && |frames| == |sendQue|
      && (forall i :: 0 <= i < |sendQue| ==> sendQue[i].Carries(frames[i]))
      && |inFlight| <= 1
      && (inFlight != [] ==> inFlight[0].Valid())
    }

    ghost function State(): Q.SendState
      requires Nodes()
      reads this, sendQue, inFlight
      reads (set m: MsgNode | m in sendQue :: m.data) + (set m: MsgNode | m in inFlight :: m.data)
    {
      Q.SendState(frames, Buffers(), progress, failed, completed, log, wire)
    }

    ghost predicate Valid()
      reads this, sendQue, inFlight
      reads (set m: MsgNode | m in sendQue :: m.data) + (set m: MsgNode | m in inFlight :: m.data)
    {
      Nodes() && Q.Inv(State())
    }

    constructor (e: Endian)
      ensures Valid() && State() == Q.Fresh && clears == closes == 0
    {
      endian := e;
      sendQue, inFlight, clears, closes := [], [], 0, 0;
      frames, progress, failed, completed, log, wire := [], 0, false, [], [], [];
    }

    /** `async_write` of the front node. */
    method WriteFront()
      requires Nodes() && sendQue != [] && inFlight == []
      modifies this`inFlight, this`progress
      ensures Nodes() && State() == Q.StartWrite(old(State()))
    {
      inFlight := inFlight + [sendQue[0]];
      progress := 0;
      assert Buffers() == [] + [Encode(frames[0])];
    }

    /** `_send_que.push(make_shared<SendNode>(...))`. */
    method Push(msg: seq<Byte>, maxLen: Short, msgId: Short)
      requires Nodes() && Allocatable(maxLen) && maxLen <= |msg|
      modifies this`sendQue, this`frames
      ensures Nodes() && |sendQue| == |old(sendQue)| + 1
      ensures State() == old(State()).(queue := old(frames) + [Frame(msgId, msg[..maxLen])])
    {
      var node := new MsgNode.Send(endian, msg, maxLen, msgId);
      sendQue := sendQue + [node];
      frames := frames + [Frame(msgId, msg[..maxLen])];
    }

    /** `_send_que.pop()`. */
    method Pop()
      requires Nodes() && sendQue != []
      modifies this`sendQue, this`frames
      ensures Nodes() && |sendQue| == |old(sendQue)| - 1
      ensures State() == old(State()).(queue := old(frames)[1..])
    {
      sendQue, frames := sendQue[1..], frames[1..];
    }

    /** Push, and write if the queue was empty. */
    method Accept(msg: seq<Byte>, maxLen: Short, msgId: Short)
      requires Nodes() && Allocatable(maxLen) && maxLen <= |msg|
      requires sendQue == [] ==> inFlight == []
      modifies this`sendQue, this`frames, this`inFlight, this`progress
      ensures Nodes()
      ensures var pushed := old(State()).(queue := old(frames) + [Frame(msgId, msg[..maxLen])]);
        State() == if |old(sendQue)| > 0 then pushed else Q.StartWrite(pushed)
    {
      var sendQueSize := |sendQue|;
      Push(msg, maxLen, msgId);
      if sendQueSize > 0 {
        return;
      }
      WriteFront();
    }

    /** `Send(char*, short, short)`. A full queue refuses whatever is offered; otherwise a node
        whose buffer size is no `short`, or is negative, cannot be allocated, and the call
        throws and changes nothing. In the log, refused bytes of such a length count as an
        empty frame. */
    method SendBytes(msg: seq<Byte>, maxLen: Short, msgId: Short) returns (threw: bool)
      requires Valid()
      requires |sendQue| <= MAX_SENDQUE ==> Defined(maxLen) && (Allocatable(maxLen) ==> maxLen <= |msg|)
      modifies this`sendQue, this`inFlight, this`frames, this`log, this`progress
      ensures Valid() && threw == (|old(sendQue)| <= MAX_SENDQUE && !Allocatable(maxLen))
      ensures State() == if threw then old(State()) else Q.Send(old(State()), Frame(msgId, Carried(msg, maxLen)))
      ensures |old(sendQue)| <= MAX_SENDQUE && !threw ==> State().queue == old(State()).queue + [Frame(msgId, msg[..maxLen])]
    {
      ghost var f := Frame(msgId, Carried(msg, maxLen));
      Q.SendKeeps(State(), f);
      if |sendQue| > MAX_SENDQUE {
        log := log + [Q.Offer(f, |frames|)];
        return false;
      }
      if !Allocatable(maxLen) {
        return true;
      }
      log := log + [Q.Offer(f, |frames|)];
      Accept(msg, maxLen, msgId);
      return false;
    }

    /** `Send(std::string, short)`: the length of the string is narrowed to a short. */
    method SendText(msg: seq<Byte>, msgId: Short) returns (threw: bool)
      requires Valid() && (|sendQue| <= MAX_SENDQUE ==> Defined(ToShort(|msg|)))
      modifies this`sendQue, this`inFlight, this`frames, this`log, this`progress
      ensures Valid() && threw == (|old(sendQue)| <= MAX_SENDQUE && !Allocatable(ToShort(|msg|)))
      ensures State() ==
        if threw then old(State()) else Q.Send(old(State()), Frame(msgId, Carried(msg, ToShort(|msg|))))
      ensures |old(sendQue)| <= MAX_SENDQUE && !threw ==>
        State().queue == old(State()).queue + [Frame(msgId, msg[..ToShort(|msg|)])]
    {
      threw := SendBytes(msg, ToShort(|msg|), msgId);
    }

    /** The network takes `n` more bytes. */
    ghost method Transmit(n: nat)
      requires Valid() && Q.CanTransmit(State(), n)
      modifies this`wire, this`progress
      ensures Valid() && State() == Q.Transmit(old(State()), n)
    {
      Q.TransmitKeeps(State(), n);
      wire := wire + Buffers()[0][progress..progress + n];
      progress := progress + n;
    }

    /** The write in flight has completed with success: pop, and write the next. */
    method WriteDone()
      requires Valid() && Q.CanComplete(State())
      modifies this`sendQue, this`inFlight, this`frames, this`completed, this`progress
      ensures Valid() && State() == Q.Completed(old(State()))
    {
      Q.CompletedKeeps(State());
      inFlight := inFlight[1..];
      completed, progress := completed + [frames[0]], 0;
      Pop();
      if sendQue != [] {
        WriteFront();
      }
    }

    method WriteFailed()
      requires Valid() && inFlight != []
      modifies this`inFlight, this`failed, this`clears, this`closes
      ensures Valid() && State() == Q.Failed(old(State()))
      ensures clears == old(clears) + 1 && closes == old(closes) + 1
    {
      Q.FailedKeeps(State());
      inFlight := inFlight[1..];
      closes := closes + 1;
      failed := true;
      clears := clears + 1;
    }

    /** The completion of the write in flight. */
    method HandleWrite(error: bool)
      requires Valid() && inFlight != [] && (!error ==> Q.CanComplete(State()))
      modifies this`sendQue, this`inFlight, this`frames, this`completed, this`progress, this`failed, this`clears, this`closes
      ensures Valid() && State() == if error then Q.Failed(old(State())) else Q.Completed(old(State()))
      ensures clears == old(clears) + (if error then 1 else 0) && closes == old(closes) + if error then 1 else 0
    {
      if !error {
        WriteDone();
      } else {
        WriteFailed();
      }
    }
  }

  /** The narrowed length carries the whole text exactly when the frame of the text fits a
      buffer of `short` size. */
  lemma TextCarriedWhole(msg: seq<Byte>)
    ensures Allocatable(ToShort(|msg|)) ==> ToShort(|msg|) <= |msg|
    ensures Allocatable(ToShort(|msg|)) && Carried(msg, ToShort(|msg|)) == msg <==> |msg| <= SHORT_MAX - HEAD_TOTAL_LEN
  {
    ToShortExact(|msg|);
    assert Allocatable(ToShort(|msg|)) ==> |Carried(msg, ToShort(|msg|))| == ToShort(|msg|);
  }

  /** A text it does not carry: `Send` queues 2^16 bytes as a frame with no payload, and on an
      empty queue what it writes is a header that announces length 0. */
  lemma TextTruncated(s: Q.SendState, msg: seq<Byte>, msgId: Short)
    requires |msg| == 0x1_0000 && Q.Inv(s) && |s.queue| <= MAX_SENDQUE
    ensures var t := Q.Send(s, Frame(msgId, Carried(msg, ToShort(|msg|))));
      && Allocatable(ToShort(|msg|))
      && t.queue == s.queue + [Frame(msgId, [])]
      && (s.queue == [] ==> t.writing == [BigEndian(msgId) + [0, 0]])
  {
    assert Carried(msg, ToShort(|msg|)) == [];
    assert Encode(Frame(msgId, [])) == BigEndian(msgId) + [0, 0];
  }
}
