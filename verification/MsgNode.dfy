/** The buffers messages are received into and sent from. */
module MsgNodes {
  import opened Wire
  import opened Frames

  /** `memcpy`: every use proves that source and destination stay inside their buffers. */
  method Memcpy(dst: array<Byte>, at: nat, src: seq<Byte>)
    requires at + |src| <= dst.Length
    modifies dst
    ensures dst[..] == old(dst[..at]) + src + old(dst[at + |src|..])
  {
    for i := 0 to |src|
      invariant dst[..at + i] == old(dst[..at]) + src[..i]
      invariant dst[at + i..] == old(dst[at + i..])
    {
      dst[at + i] := src[i];
    }
  }

  /** `memset(_, 0, n)`. */
  method Memzero(dst: array<Byte>, n: nat)
    requires n <= dst.Length
    modifies dst
    ensures forall i :: 0 <= i < n ==> dst[i] == 0
    ensures forall i :: n <= i < dst.Length ==> dst[i] == old(dst[i])
  {
    for i := 0 to n
      invariant forall k :: 0 <= k < i ==> dst[k] == 0
      invariant forall k :: i <= k < dst.Length ==> dst[k] == old(dst[k])
    {
      dst[i] := 0;
    }
  }

  /** `MsgNode` with the id that `RecvNode` and `SendNode` add to it. The buffer has one
      byte more than `total`, for the closing zero. */
  class MsgNode {
    const id: Short
    const total: nat
    const data: array<Byte>
    var cur: nat

    ghost predicate Valid()
      reads this`cur
    {
      data.Length == total + 1 && cur <= total <= SHORT_MAX
    }

    /** What the worker reads out of a received node: `std::string(_data, _cur_len)`. */
    function Text(): seq<Byte>
      requires Valid()
      reads this`cur, data
    {
      data[..cur]
    }

    /** A received node that is complete and stands for frame `f`, closed by a zero. */
    ghost predicate Holds(f: Frame)
      reads this`cur, data
    {
      Valid() && cur == total && id == f.id && Text() == f.payload && data[total] == 0
    }

    /** A node to be sent whose buffer is the encoding of `f`. */
    ghost predicate Carries(f: Frame)
      reads this`cur, data
    {
      Valid() && id == f.id && data[..total] == Encode(f)
    }

    /** An empty node, for a header (`id` unused) or for a message. */
    constructor Recv(maxLen: Short, id: Short)
      requires maxLen >= 0
      ensures Valid() && cur == 0 && total == maxLen && this.id == id
      ensures fresh(data) && forall i :: 0 <= i < data.Length ==> data[i] == 0
    {
      this.id := id;
      total := maxLen;
      data := new Byte[maxLen + 1](_ => 0);
      cur := 0;
    }

    /** `SendNode`: id and length in network order, then `maxLen` bytes of the message. */
    constructor Send(e: Endian, msg: seq<Byte>, maxLen: Short, id: Short)
      requires 0 <= maxLen <= SHORT_MAX - HEAD_TOTAL_LEN && maxLen <= |msg|
      ensures Carries(Frame(id, msg[..maxLen])) && fresh(data)
    {
      this.id := id;
      total := maxLen + HEAD_TOTAL_LEN;
      data := new Byte[maxLen + HEAD_TOTAL_LEN + 1](_ => 0);
      cur := 0;
      new;
      var idImage := StoreShort(e, NetworkOrder(e, id));
      var lenImage := StoreShort(e, NetworkOrder(e, maxLen));
      Memcpy(data, 0, idImage);
      Memcpy(data, HEAD_ID_LEN, lenImage);
      Memcpy(data, HEAD_TOTAL_LEN, msg[..maxLen]);
      StoreIsBigEndian(e, id);
      StoreIsBigEndian(e, maxLen);
    }

    /** Copy `src` behind the bytes already there and count it in. */
    method Append(src: seq<Byte>)
      requires Valid() && cur + |src| <= total
      modifies this`cur, data
      ensures Valid() && cur == old(cur) + |src|
      ensures Text() == old(Text()) + src
    {
      Memcpy(data, cur, src);
      cur := cur + |src|;
    }

    /** `Clear`: zero the buffer and the count. */
    method Clear()
      requires Valid()
      modifies this`cur, data
      ensures Valid() && cur == 0 && forall i :: 0 <= i < total ==> data[i] == 0
    {
      Memzero(data, total);
      cur := 0;
    }
  }
}
