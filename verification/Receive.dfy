/** The receiving half of a session: `Start` and `HandleRead`.

    The loop body of `HandleRead` is cut into methods along its branches; the line numbers
    in their comments are those of Server-version-3-multi-thread/CSession.cpp. */
module Receive {
  import opened Wire
  import opened Frames
  import opened MsgNodes

  lemma Glue<T>(s: seq<T>, i: nat, j: nat, k: nat)
    requires i <= j <= k <= |s|
    ensures s[i..j] + s[j..k] == s[i..k]
  {
  }

  lemma GlueBehind<T>(before: seq<T>, s: seq<T>, j: nat, k: nat)
    requires j <= k <= |s|
    ensures before + s[..j] + s[j..k] == before + s[..k]
  {
  }

  class ReceiveHalf {
    const endian: Endian
    const data: array<Byte>          // _data, filled by the pending read
    const head: MsgNode              // _recv_head_node
    var recv: MsgNode?               // _recv_msg_node
    var bHeadParse: bool

    // What the handlers do to the rest of the server.
    var posted: seq<MsgNode>         // nodes given to PostMsgToQue, oldest first
    var pendingReads: nat            // async_read_some calls not yet completed
    var clears: nat                  // calls of the server's ClearSession for this session
    var closes: nat                  // calls of Close

    ghost var received: seq<Byte>    // all bytes delivered by completed reads
    ghost var stream: Parsed         // what the decoder has made of the bytes it looked at

    /** The posted nodes stand for `fs`, and no buffer still in use is one of theirs. */
    ghost predicate PostedAre(fs: seq<Frame>)
      reads this`posted, posted, set m: MsgNode | m in posted :: m.data
    {
      && |posted| == |fs|
      && (forall i :: 0 <= i < |fs| ==>
            posted[i].Holds(fs[i]) && posted[i] != head && posted[i].data != head.data && posted[i].data != data)
    }

    /** The header node holds exactly `rest`. */
    ghost predicate HeadHolds(rest: seq<Byte>)
      reads head`cur, head.data
    {
      head.Valid() && head.Text() == rest
    }

    /** The message node stands for the legal header at the start of `rest` and holds what
        follows it. */
    ghost predicate RecvHolds(rest: seq<Byte>)
      reads this`recv, this`posted, recv, if recv != null then {recv.data} else {}
    {
      && |rest| >= HEAD_TOTAL_LEN
      && recv != null && recv.Valid() && recv.total == HeadLen(rest) && recv.id == HeadId(rest)
      && recv.Text() == rest[HEAD_TOTAL_LEN..]
      && HeaderStatus(HeadId(rest), HeadLen(rest)) == Open
      && recv != head && recv.data != head.data && recv.data != data
      && (forall i :: 0 <= i < |posted| ==> posted[i] != recv && posted[i].data != recv.data)
    }

    /** The partial header or, when `parsing` a message, the partial message holds exactly
        `rest`. While a message is being received the count of the header node is stale. */
    ghost predicate Buffers(parsing: bool, rest: seq<Byte>)
      reads this`recv, this`posted, head`cur, head.data, recv, if recv != null then {recv.data} else {}
    {
      && parsing == (|rest| >= HEAD_TOTAL_LEN)
      && (if parsing then RecvHolds(rest) && recv.cur < recv.total else HeadHolds(rest))
    }

    ghost predicate Core()
      reads head`cur
    {
      && data.Length == MAX_LENGTH && data != head.data
      && head.Valid() && head.total == HEAD_TOTAL_LEN && head.cur < HEAD_TOTAL_LEN
    }

    ghost predicate ValidAs(parsing: bool)
      reads this`recv, this`posted, this`stream, this`pendingReads, head`cur, head.data
      reads recv, (if recv != null then {recv.data} else {}), posted, set m: MsgNode | m in posted :: m.data
    {
      && Core()
      && PostedAre(stream.frames)
      && (stream.status == Open ==> Buffers(parsing, stream.rest))
      && pendingReads <= 1
      && (pendingReads == 1 ==> stream.status == Open)
    }

    /** The nodes and flags of the decoder are what `stream` dictates. */
    ghost predicate Valid()
      reads this`recv, this`posted, this`stream, this`pendingReads, this`bHeadParse, head`cur, head.data
      reads recv, (if recv != null then {recv.data} else {}), posted, set m: MsgNode | m in posted :: m.data
    {
      ValidAs(bHeadParse)
    }

    /** `stream` is the one-shot parse of everything received. */
    ghost predicate Synced()
      reads this`stream, this`received
    {
      stream == Parse(received)
    }

    /** The objects a read may write to: never a posted node. */
    ghost function InUse(): set<object>
      reads this`recv, this`bHeadParse
    {
      {this, data, head, head.data} + (if bHeadParse && recv != null then {recv, recv.data} else {})
    }

    ghost predicate Zeroed()
      reads data
    {
      forall i :: 0 <= i < data.Length ==> data[i] == 0
    }

    constructor (e: Endian)
      ensures Valid() && Synced() && received == [] && posted == [] && pendingReads == clears == closes == 0
      ensures !bHeadParse && fresh(data) && fresh(head) && fresh(head.data)
    {
      endian := e;
      data := new Byte[MAX_LENGTH](_ => 0);
      var node := new MsgNode.Recv(HEAD_TOTAL_LEN, 0);
      head := node;
      recv := null;
      bHeadParse := false;
      posted, pendingReads, clears, closes := [], 0, 0, 0;
      received, stream := [], Parse([]);
    }

    /** `memset(_data, 0, MAX_LENGTH)` and `async_read_some` into `_data`. */
    method Rearm(ghost parsing: bool)
      requires ValidAs(parsing) && stream.status == Open && pendingReads == 0
      modifies this`pendingReads, data
      ensures ValidAs(parsing) && pendingReads == 1 && Zeroed()
    {
      Memzero(data, MAX_LENGTH);
      pendingReads := pendingReads + 1;
    }

    method Start()
      requires Valid() && stream.status == Open && pendingReads == 0
      modifies this`pendingReads, data
      ensures Valid() && pendingReads == 1 && Zeroed()
    {
      Rearm(bHeadParse);
    }

    /** The next `n` bytes of the chunk: both ends lie inside the receive buffer. */
    method Unread(ghost chunk: seq<Byte>, from: nat, n: nat) returns (src: seq<Byte>)
      requires |chunk| <= data.Length && data[..|chunk|] == chunk && from + n <= |chunk|
      ensures src == chunk[from..from + n]
    {
      src := data[from..from + n];
      assert forall i :: 0 <= i < n ==> src[i] == data[..|chunk|][from + i];
    }

    /** Too few bytes for a header: keep them and read on (lines 110-117). */
    method PauseHeader(src: seq<Byte>)
      requires ValidAs(false) && stream.status == Open && pendingReads == 0 && head.cur + |src| < HEAD_TOTAL_LEN
      modifies this`stream, this`pendingReads, head`cur, head.data, data
      ensures ValidAs(false) && Advances(old(stream), src, stream) && stream.status == Open
      ensures pendingReads == 1 && Zeroed()
    {
      head.Append(src);
      stream := stream.(rest := stream.rest + src);
      Rearm(false);
    }

    /** Complete the header and read id and length out of it (lines 119-140). The count of
        the header node is not updated. */
    method TakeHeader(src: seq<Byte>) returns (msgId: Short, msgLen: Short)
      requires ValidAs(false) && stream.status == Open && head.cur + |src| == HEAD_TOTAL_LEN
      modifies head.data
      ensures Core() && PostedAre(stream.frames)
      ensures var q := stream.rest + src; |q| == HEAD_TOTAL_LEN && msgId == HeadId(q) && msgLen == HeadLen(q)
    {
      Memcpy(head.data, head.cur, src);
      ghost var q := stream.rest + src;
      assert head.data[..HEAD_TOTAL_LEN] == q;
      assert forall i :: 0 <= i < 4 ==> head.data[i] == head.data[..HEAD_TOTAL_LEN][i];
      LoadIsBigEndian(endian, head.data[0], head.data[1]);
      LoadIsBigEndian(endian, head.data[2], head.data[3]);
      msgId := NetworkOrder(endian, LoadShort(endian, head.data[0], head.data[1]));
      msgLen := NetworkOrder(endian, LoadShort(endian, head.data[2], head.data[3]));
    }

    /** The limits checks (lines 131-148). On a bad header whatever was read with it, `left`,
        is never looked at. */
    method CheckHeader(msgId: Short, msgLen: Short, ghost left: seq<Byte>) returns (ok: bool)
      requires Core() && PostedAre(stream.frames) && stream.status == Open && pendingReads == 0
      requires var q := stream.rest + left; |q| >= HEAD_TOTAL_LEN && msgId == HeadId(q) && msgLen == HeadLen(q)
      modifies this`stream, this`clears
      ensures ok == (HeaderStatus(msgId, msgLen) == Open)
      ensures ok ==> stream == old(stream) && clears == old(clears)
      ensures !ok ==> Valid() && Advances(old(stream), left, stream) && stream.status == HeaderStatus(msgId, msgLen)
      ensures !ok ==> clears == old(clears) + if stream.status == Refused then 1 else 0
    {
      ok := false;
      if msgId > MAX_LENGTH {
        clears := clears + 1;
      } else if msgLen > MAX_LENGTH {
        clears := clears + 1;
      } else if msgLen < 0 {
        // The allocation of the node throws, and the handler's catch clause ends it.
      } else {
        return true;
      }
      stream := Parsed(stream.frames, stream.rest + left, HeaderStatus(msgId, msgLen));
    }

    /** `make_shared<RecvNode>` for a legal header that ends with the bytes `hdr`. */
    method NewMessage(msgId: Short, msgLen: Short, ghost hdr: seq<Byte>)
      requires Core() && PostedAre(stream.frames)
      requires var q := stream.rest + hdr;
        |q| == HEAD_TOTAL_LEN && msgId == HeadId(q) && msgLen == HeadLen(q) && HeaderStatus(msgId, msgLen) == Open
      modifies this`recv
      ensures RecvHolds(stream.rest + hdr) && recv.cur == 0 && recv.total == msgLen
      ensures fresh(recv) && fresh(recv.data) && PostedAre(stream.frames)
    {
      recv := new MsgNode.Recv(msgLen, msgId);
    }

    /** Copy payload bytes behind those already received. */
    method FillBody(src: seq<Byte>, ghost q: seq<Byte>, ghost fs: seq<Frame>)
      requires RecvHolds(q) && recv.cur + |src| <= recv.total && PostedAre(fs)
      modifies recv`cur, recv.data
      ensures RecvHolds(q + src) && recv.cur == old(recv.cur) + |src| && PostedAre(fs)
    {
      assert (q + src)[HEAD_TOTAL_LEN..] == q[HEAD_TOTAL_LEN..] + src;
      recv.Append(src);
    }

    /** Some payload bytes, not enough to complete the message: keep them and read on
        (lines 151-158 and 185-192). `hdr` is what the same turn took as header. */
    method PauseBody(src: seq<Byte>, ghost hdr: seq<Byte>)
      requires Core() && PostedAre(stream.frames) && stream.status == Open && pendingReads == 0
      requires RecvHolds(stream.rest + hdr) && recv.cur + |src| < recv.total
      modifies this`stream, this`pendingReads, recv`cur, recv.data, data
      ensures ValidAs(true) && Advances(old(stream), hdr + src, stream) && stream.status == Open
      ensures pendingReads == 1 && Zeroed()
    {
      ghost var q := stream.rest + hdr;
      FillBody(src, q, stream.frames);
      assert stream.rest + (hdr + src) == q + src;
      stream := stream.(rest := q + src);
      Rearm(true);
    }

    /** `PostMsgToQue` of a complete message, then wait for a header again. */
    method Deliver(ghost q: seq<Byte>, ghost fs: seq<Frame>)
      requires RecvHolds(q) && recv.cur == recv.total && PostedAre(fs) && Core()
      modifies this`posted, this`bHeadParse, head`cur, head.data, recv.data
      ensures posted == old(posted) + [recv] && !bHeadParse && Core() && HeadHolds([])
      ensures PostedAre(fs + [Frame(HeadId(q), q[HEAD_TOTAL_LEN..])])
    {
      recv.data[recv.total] := 0;
      assert recv.Text() == old(recv.Text());
      posted := posted + [recv];
      bHeadParse := false;
      head.Clear();
    }

    /** The rest of the payload (lines 161-179 and 193-211). */
    method FinishBody(src: seq<Byte>, ghost hdr: seq<Byte>, last: bool)
      requires Core() && PostedAre(stream.frames) && stream.status == Open && pendingReads == 0
      requires RecvHolds(stream.rest + hdr) && recv.cur + |src| == recv.total
      modifies this`stream, this`posted, this`bHeadParse, this`pendingReads, head`cur, head.data, recv`cur, recv.data, data
      ensures ValidAs(false) && !bHeadParse && Advances(old(stream), hdr + src, stream) && stream.status == Open
      ensures posted == old(posted) + [recv]
      ensures if last then pendingReads == 1 && Zeroed() else pendingReads == 0 && unchanged(data)
    {
      ghost var q, fs := stream.rest + hdr, stream.frames;
      FillBody(src, q, fs);
      assert stream.rest + (hdr + src) == q + src;
      Deliver(q + src, fs);
      stream := Parsed(fs + [Frame(HeadId(q + src), (q + src)[HEAD_TOTAL_LEN..])], [], Open);
      if last {
        Rearm(false);
      }
    }

    /** A message being received is new, unless it was already being received. */
    twostate predicate RecvKept()
      reads this`bHeadParse, this`recv
    {
      bHeadParse && recv != null ==> (old(bHeadParse) && recv == old(recv)) || (fresh(recv) && fresh(recv.data))
    }

    /** What one turn of the loop of `HandleRead` does to a chunk of which the bytes before
        `from` are consumed: either it consumes up to `to` and goes on, or it takes the whole
        chunk in and the handler returns. */
    twostate predicate Took(chunk: seq<Byte>, from: nat, to: nat, more: bool)
      reads this`recv, this`bHeadParse, this`posted, this`stream, this`pendingReads, this`clears, data, head, head.data
      reads recv, (if recv != null then {recv.data} else {}), posted, set m: MsgNode | m in posted :: m.data
    {
      && Valid() && old(posted) <= posted && RecvKept()
      && clears == old(clears) + (if stream.status == Refused then 1 else 0)
      && if more then
           from < to < |chunk| && unchanged(data) && stream.status == Open && pendingReads == 0
         else
           to == |chunk| && (if stream.status == Open then pendingReads == 1 && Zeroed() else pendingReads == 0)
    }

    /** ... and it follows the one-shot parser. */
    twostate predicate Turn(chunk: seq<Byte>, from: nat, to: nat, more: bool)
      requires from <= to <= |chunk|
      reads this`recv, this`bHeadParse, this`posted, this`stream, this`pendingReads, this`clears, data, head, head.data
      reads recv, (if recv != null then {recv.data} else {}), posted, set m: MsgNode | m in posted :: m.data
    {
      Took(chunk, from, to, more) && Advances(old(stream), chunk[from..to], stream)
    }

    /** A turn that finds the decoder inside a message (lines 184-211). */
    method ReadBody(ghost chunk: seq<Byte>, copyLen: nat, bytes: nat) returns (copyLen': nat, bytes': nat, more: bool)
      requires Valid() && stream.status == Open && pendingReads == 0 && bHeadParse
      requires bytes > 0 && copyLen + bytes == |chunk| <= MAX_LENGTH && data[..|chunk|] == chunk
      modifies this`stream, this`posted, this`bHeadParse, this`pendingReads, InUse() - {this}
      ensures copyLen <= copyLen' && copyLen' + bytes' == |chunk| && more == (bytes' > 0)
      ensures Turn(chunk, copyLen, copyLen', more)
    {
      assert stream.rest + [] == stream.rest;
      var remainMsg := recv.total - recv.cur;
      if bytes < remainMsg {
        var src := Unread(chunk, copyLen, bytes);
        assert [] + src == src;
        PauseBody(src, []);
        return copyLen + bytes, 0, false;
      }
      var src := Unread(chunk, copyLen, remainMsg);
      assert [] + src == src;
      copyLen', bytes' := copyLen + remainMsg, bytes - remainMsg;
      more := bytes' > 0;
      FinishBody(src, [], bytes' <= 0);
    }

    /** The chunk ends inside the new message (lines 151-158). */
    method BeginBody(ghost chunk: seq<Byte>, ghost hdr: seq<Byte>, copyLen: nat, bytes: nat)
      requires Core() && PostedAre(stream.frames) && stream.status == Open && pendingReads == 0
      requires copyLen + bytes == |chunk| <= MAX_LENGTH && data[..|chunk|] == chunk
      requires RecvHolds(stream.rest + hdr) && recv.cur + bytes < recv.total
      modifies this`stream, this`bHeadParse, this`pendingReads, recv`cur, recv.data, data
      ensures Valid() && bHeadParse && Advances(old(stream), hdr + chunk[copyLen..copyLen + bytes], stream)
      ensures stream.status == Open && pendingReads == 1 && Zeroed()
    {
      var src := Unread(chunk, copyLen, bytes);
      PauseBody(src, hdr);
      bHeadParse := true;
    }

    /** The header is complete and legal: allocate the message and take what the chunk has
        of it (lines 148-179). */
    method ReadPayload(ghost chunk: seq<Byte>, ghost hdr: seq<Byte>, msgId: Short, msgLen: Short, copyLen: nat, bytes: nat)
      returns (copyLen': nat, bytes': nat, more: bool)
      requires Core() && PostedAre(stream.frames) && stream.status == Open && pendingReads == 0 && !bHeadParse
      requires copyLen + bytes == |chunk| <= MAX_LENGTH && data[..|chunk|] == chunk
      requires var q := stream.rest + hdr;
        |q| == HEAD_TOTAL_LEN && msgId == HeadId(q) && msgLen == HeadLen(q) && HeaderStatus(msgId, msgLen) == Open
      modifies this`recv, this`stream, this`posted, this`bHeadParse, this`pendingReads, data, head`cur, head.data
      ensures Valid() && stream.status == Open && old(posted) <= posted
      ensures bHeadParse ==> fresh(recv) && fresh(recv.data)
      ensures copyLen <= copyLen' && copyLen' + bytes' == |chunk| && more == (bytes' > 0)
      ensures Advances(old(stream), hdr + chunk[copyLen..copyLen'], stream)
      ensures if more then unchanged(data) && pendingReads == 0 else pendingReads == 1 && Zeroed()
    {
      NewMessage(msgId, msgLen, hdr);
      if bytes < msgLen {
        BeginBody(chunk, hdr, copyLen, bytes);
        return copyLen + bytes, 0, false;
      }
      copyLen', bytes' := copyLen + msgLen, bytes - msgLen;
      more := bytes' > 0;
      var src := Unread(chunk, copyLen, msgLen);
      assert hdr + src == hdr + chunk[copyLen..copyLen'];
      FinishBody(src, hdr, bytes' <= 0);
    }

    /** The header is complete in the header node: check it, and go on with the message if
        it is legal. `hdr` is the part of the header that lay in this chunk. */
    method AfterHeader(ghost chunk: seq<Byte>, ghost hdr: seq<Byte>, ghost from: nat, msgId: Short, msgLen: Short,
                       copyLen: nat, bytes: nat)
      returns (copyLen': nat, bytes': nat, more: bool)
      requires Core() && PostedAre(stream.frames) && stream.status == Open && pendingReads == 0 && !bHeadParse
      requires from < copyLen && copyLen + bytes == |chunk| <= MAX_LENGTH && data[..|chunk|] == chunk
      requires hdr == chunk[from..copyLen]
      requires var q := stream.rest + hdr; |q| == HEAD_TOTAL_LEN && msgId == HeadId(q) && msgLen == HeadLen(q)
      modifies this`recv, this`stream, this`posted, this`bHeadParse, this`pendingReads, this`clears, data, head`cur, head.data
      ensures copyLen <= copyLen' && copyLen' + bytes' == |chunk| && more == (bytes' > 0)
      ensures Turn(chunk, from, copyLen', more)
    {
      copyLen', bytes', more := copyLen + bytes, 0, false;
      Glue(chunk, from, copyLen, |chunk|);
      assert stream.rest + chunk[from..|chunk|] == stream.rest + hdr + chunk[copyLen..|chunk|];
      var ok := CheckHeader(msgId, msgLen, chunk[from..|chunk|]);
      if ok {
        copyLen', bytes', more := ReadPayload(chunk, hdr, msgId, msgLen, copyLen, bytes);
        Glue(chunk, from, copyLen, copyLen');
      }
    }

    /** A turn that finds the decoder waiting for a header (lines 108-180). */
    method ReadHeader(ghost chunk: seq<Byte>, copyLen: nat, bytes: nat) returns (copyLen': nat, bytes': nat, more: bool)
      requires Valid() && stream.status == Open && pendingReads == 0 && !bHeadParse
      requires bytes > 0 && copyLen + bytes == |chunk| <= MAX_LENGTH && data[..|chunk|] == chunk
      modifies this`recv, this`stream, this`posted, this`bHeadParse, this`pendingReads, this`clears, data, head`cur, head.data
      ensures copyLen <= copyLen' && copyLen' + bytes' == |chunk| && more == (bytes' > 0)
      ensures Turn(chunk, copyLen, copyLen', more)
    {
      if bytes + head.cur < HEAD_TOTAL_LEN {
        var src := Unread(chunk, copyLen, bytes);
        PauseHeader(src);
        return copyLen + bytes, 0, false;
      }
      var headRemain := HEAD_TOTAL_LEN - head.cur;
      var hdr := Unread(chunk, copyLen, headRemain);
      var msgId, msgLen := TakeHeader(hdr);
      copyLen', bytes', more := AfterHeader(chunk, hdr, copyLen, msgId, msgLen, copyLen + headRemain, bytes - headRemain);
    }

    /** The `if` of the loop body. */
    method OneTurn(ghost chunk: seq<Byte>, copyLen: nat, bytes: nat) returns (copyLen': nat, bytes': nat, more: bool)
      requires Valid() && stream.status == Open && pendingReads == 0
      requires bytes > 0 && copyLen + bytes == |chunk| <= MAX_LENGTH && data[..|chunk|] == chunk
      modifies this`recv, this`stream, this`posted, this`bHeadParse, this`pendingReads, this`clears, InUse() - {this}
      ensures copyLen <= copyLen' && copyLen' + bytes' == |chunk| && more == (bytes' > 0)
      ensures Turn(chunk, copyLen, copyLen', more)
    {
      if !bHeadParse {
        copyLen', bytes', more := ReadHeader(chunk, copyLen, bytes);
      } else {
        copyLen', bytes', more := ReadBody(chunk, copyLen, bytes);
      }
    }

    /** The bytes of a turn count as received. */
    ghost method NoteReceived(part: seq<Byte>)
      requires Parse(received).status == Open && Advances(Parse(received), part, stream)
      modifies this`received
      ensures Synced() && received == old(received) + part
    {
      ParseAdvances(received, part, stream);
      received := received + part;
    }

    method TakeTurn(ghost chunk: seq<Byte>, copyLen: nat, bytes: nat) returns (copyLen': nat, bytes': nat, more: bool)
      requires Valid() && Synced() && stream.status == Open && pendingReads == 0
      requires bytes > 0 && copyLen + bytes == |chunk| <= MAX_LENGTH && data[..|chunk|] == chunk
      modifies this`recv, this`stream, this`received, this`posted, this`bHeadParse, this`pendingReads, this`clears
      modifies InUse() - {this}
      ensures copyLen <= copyLen' && copyLen' + bytes' == |chunk| && more == (bytes' > 0)
      ensures Synced() && received == old(received) + chunk[copyLen..copyLen']
      ensures Took(chunk, copyLen, copyLen', more)
    {
      copyLen', bytes', more := OneTurn(chunk, copyLen, bytes);
      NoteReceived(chunk[copyLen..copyLen']);
    }

    /** The `while` loop of `HandleRead` over a chunk that was read without error. */
    method Consume(transferred: nat)
      requires Valid() && Synced() && stream.status == Open && pendingReads == 0 && transferred <= MAX_LENGTH
      modifies InUse()
      ensures Valid() && Synced() && received == old(received) + old(data[..transferred]) && old(posted) <= posted
      ensures pendingReads == if transferred > 0 && stream.status == Open then 1 else 0
      ensures pendingReads == 1 ==> Zeroed()
      ensures RecvKept()
      ensures clears == old(clears) + (if stream.status == Refused then 1 else 0) && closes == old(closes)
    {
      ghost var before, chunk := received, data[..transferred];
      assert received == before + chunk[..0];
      var bytes, copyLen := transferred, 0;
      while bytes > 0
        invariant copyLen + bytes == transferred && (transferred > 0 ==> bytes > 0)
        invariant data[..transferred] == chunk
        invariant Valid() && Synced() && received == before + chunk[..copyLen] && stream.status == Open
        invariant pendingReads == 0 && clears == old(clears) && closes == old(closes)
        invariant old(posted) <= posted
        invariant RecvKept()
        decreases bytes
      {
        var more;
        ghost var from := copyLen;
        copyLen, bytes, more := TakeTurn(chunk, copyLen, bytes);
        GlueBehind(before, chunk, from, copyLen);
        if !more {
          return;
        }
      }
    }

    /** A posted node is none of the objects a read may write to. */
    lemma PostedNotInUse()
      requires Valid() && stream.status == Open
      ensures forall m | m in posted :: m !in InUse() && m.data !in InUse()
    {
      assert forall m | m in posted :: exists i :: 0 <= i < |posted| && posted[i] == m;
    }

    method HandleRead(error: bool, transferred: nat)
      requires Valid() && Synced() && pendingReads == 1 && transferred <= MAX_LENGTH
      modifies InUse()
      ensures Valid() && Synced() && old(posted) <= posted
      ensures received == if error then old(received) else old(received) + old(data[..transferred])
      ensures pendingReads == if !error && transferred > 0 && stream.status == Open then 1 else 0
      ensures pendingReads == 1 ==> Zeroed()
      ensures RecvKept()
      ensures clears == old(clears) + if error || stream.status == Refused then 1 else 0
      ensures closes == old(closes) + if error then 1 else 0
      ensures forall m | m in old(posted) :: unchanged(m) && unchanged(m.data)
    {
      PostedNotInUse();
      pendingReads := pendingReads - 1;
      if !error {
        Consume(transferred);
      } else {
        closes := closes + 1;
        clears := clears + 1;
      }
    }

    /** Bytes kept for a frame that is not complete. */
    function Retained(): nat
      reads this`bHeadParse, this`recv, head`cur, recv
    {
      if bHeadParse && recv != null then HEAD_TOTAL_LEN + recv.cur else head.cur
    }

    /** Every byte received is in a posted frame or still in a node of the decoder. */
    lemma BytesConserved()
      requires Valid() && Synced() && stream.status == Open
      ensures |received| == FrameBytes(stream.frames) + Retained()
    {
      ParseConservesBytes(received);
    }

    /** What the one-shot parser finds in the whole stream, as far as the decoder can show
        it: after a bad header later chunks are not read any more. */
    ghost predicate Answers(all: Parsed)
      reads this`stream
    {
      && stream.frames == all.frames && stream.status == all.status
      && (all.status == Open ==> stream.rest == all.rest)
    }

    /** A read completes with `chunk` in the receive buffer. */
    method ReadChunk(chunk: seq<Byte>)
      requires Valid() && Synced() && pendingReads == 1 && 0 < |chunk| <= MAX_LENGTH
      modifies InUse()
      ensures Valid() && Synced() && received == old(received) + chunk && RecvKept()
      ensures pendingReads == if stream.status == Open then 1 else 0
    {
      Memcpy(data, 0, chunk);
      assert data[..|chunk|] == chunk;
      HandleRead(false, |chunk|);
    }

    /** What is left unread after the stream has ended changes nothing. */
    lemma AnswersWhole(chunks: seq<seq<Byte>>, i: nat)
      requires Synced() && i <= |chunks| && received == Flatten(chunks[..i])
      requires i == |chunks| || stream.status != Open
      ensures Answers(Parse(Flatten(chunks)))
    {
      FlattenSplit(chunks, i);
      if i == |chunks| {
        assert Flatten(chunks) == received + [] == received;
      } else {
        ParseGrows(received, Flatten(chunks[i..]));
      }
    }

    /** The completion of reads, one chunk after the other, as long as a read is armed:
        however the stream was cut, the answer is that of the one-shot parser. */
    method Run(chunks: seq<seq<Byte>>)
      requires Valid() && Synced() && received == [] && pendingReads == 1
      requires forall c | c in chunks :: 0 < |c| <= MAX_LENGTH
      modifies InUse()
      ensures Valid() && Answers(Parse(Flatten(chunks)))
      ensures pendingReads == if stream.status == Open then 1 else 0
    {
      var i := 0;
      while i < |chunks| && pendingReads == 1
        invariant i <= |chunks| && Valid() && Synced() && received == Flatten(chunks[..i])
        invariant pendingReads == if stream.status == Open then 1 else 0
        invariant RecvKept()
      {
        ReadChunk(chunks[i]);
        FlattenTake(chunks, i);
        i := i + 1;
      }
      AnswersWhole(chunks, i);
    }

    /** The round trip: encoded frames, cut in any way, are posted as they were, and the
        decoder waits for a header with nothing kept. */
    lemma RoundTripPosted(fs: seq<Frame>)
      requires Valid() && AllLegal(fs) && Answers(Parse(EncodeAll(fs)))
      ensures PostedAre(fs) && !bHeadParse && head.cur == 0 && stream.status == Open
    {
      RoundTrip(fs);
      assert |head.Text()| == head.cur;
    }
  }

  /** A session that is sent encoded frames, cut in any way into reads: every frame is posted
      as it was, and the session waits for the next header with one read armed. */
  method ReceiveFrames(e: Endian, fs: seq<Frame>, chunks: seq<seq<Byte>>) returns (half: ReceiveHalf)
    requires AllLegal(fs) && Flatten(chunks) == EncodeAll(fs)
    requires forall c | c in chunks :: 0 < |c| <= MAX_LENGTH
    ensures fresh(half) && half.Valid() && half.PostedAre(fs)
    ensures |half.posted| == |fs| && forall i :: 0 <= i < |fs| ==>
      var node := half.posted[i]; node.id == fs[i].id && node.cur <= node.data.Length && node.data[..node.cur] == fs[i].payload
    ensures !half.bHeadParse && half.head.cur == 0 && half.pendingReads == 1
  {
    half := new ReceiveHalf(e);
    half.Start();
    half.Run(chunks);
    half.RoundTripPosted(fs);
  }
}
