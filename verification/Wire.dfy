/** Bytes, 16-bit signed shorts and the byte order of the wire.

    The server copies shorts to and from buffers with `memcpy`, so what lands in the buffer
    depends on the byte order of the host. The functions below keep the two steps apart:
    the memory image of a short on a given host, and the conversion between host and
    network order (big-endian, appendix B of RFC 791). */
module Wire {

  type Byte = b: int | 0 <= b < 0x100
  type Short = v: int | -0x8000 <= v < 0x8000

  const MAX_LENGTH := 2048
  const HEAD_TOTAL_LEN := 4
  const HEAD_ID_LEN := 2
  const MAX_SENDQUE := 1000
  const SHORT_MAX := 0x7FFF

  datatype Endian = Little | Big

  /** The bits of a short read as an unsigned number. */
  function Unsigned(v: Short): (u: int)
    ensures 0 <= u < 0x1_0000
  {
    if v < 0 then v + 0x1_0000 else v
  }

  /** Narrowing of an integer to `short`: reduction modulo 2^16, two's complement. */
  function ToShort(n: int): Short
  {
    var u := n % 0x1_0000;
    if u < 0x8000 then u else u - 0x1_0000
  }

  /** The two bytes `memcpy` takes out of a short on a host of the given byte order. */
  function StoreShort(e: Endian, v: Short): seq<Byte>
  {
    var u := Unsigned(v);
    match e
    case Little => [u % 0x100, u / 0x100]
    case Big => [u / 0x100, u % 0x100]
  }

  /** The short that `memcpy` makes of two bytes on a host of the given byte order. */
  function LoadShort(e: Endian, b0: Byte, b1: Byte): Short
  {
    match e
    case Little => ToShort(b1 * 0x100 + b0)
    case Big => ToShort(b0 * 0x100 + b1)
  }

  /** `host_to_network_short` and `network_to_host_short`: swap the bytes on a
      little-endian host, do nothing on a big-endian one. */
  function NetworkOrder(e: Endian, v: Short): Short
  {
    match e
    case Little => var u := Unsigned(v); ToShort((u % 0x100) * 0x100 + u / 0x100)
    case Big => v
  }

  /** Big-endian image of a short, on any host. */
  function BigEndian(v: Short): seq<Byte>
  {
    [Unsigned(v) / 0x100, Unsigned(v) % 0x100]
  }

  function FromBigEndian(b0: Byte, b1: Byte): Short
  {
    ToShort(b0 * 0x100 + b1)
  }

  /** Both are two's complement: the same number modulo 2^16, in their ranges. */
  lemma TwosComplement(v: Short, n: int)
    ensures Unsigned(v) % 0x1_0000 == v % 0x1_0000
    ensures ToShort(n) % 0x1_0000 == n % 0x1_0000
  {
  }

  /** Two bytes make a short that has them as its bytes. */
  lemma UnsignedOfPair(high: Byte, low: Byte)
    ensures Unsigned(ToShort(high * 0x100 + low)) == high * 0x100 + low
    ensures (high * 0x100 + low) % 0x100 == low && (high * 0x100 + low) / 0x100 == high
  {
  }

  /** Converting and then copying writes big-endian bytes whatever the host. */
  lemma StoreIsBigEndian(e: Endian, v: Short)
    ensures StoreShort(e, NetworkOrder(e, v)) == BigEndian(v)
  {
    if e.Little? {
      UnsignedOfPair(Unsigned(v) % 0x100, Unsigned(v) / 0x100);
    }
  }

  /** Copying and then converting reads big-endian bytes whatever the host. */
  lemma LoadIsBigEndian(e: Endian, b0: Byte, b1: Byte)
    ensures NetworkOrder(e, LoadShort(e, b0, b1)) == FromBigEndian(b0, b1)
  {
    if e.Little? {
      UnsignedOfPair(b1, b0);
    }
  }

  /** The big-endian image of a short and the short itself determine each other. */
  lemma BigEndianInverse(v: Short, b0: Byte, b1: Byte)
    ensures BigEndian(v) == [b0, b1] <==> v == FromBigEndian(b0, b1)
  {
    if v == FromBigEndian(b0, b1) {
      assert Unsigned(v) == b0 * 0x100 + b1;
    }
    if BigEndian(v) == [b0, b1] {
      assert BigEndian(v)[0] == b0 && BigEndian(v)[1] == b1;
      assert Unsigned(v) == b0 * 0x100 + b1;
    }
  }

  /** Narrowing keeps a length exactly when it is below 2^15. */
  lemma ToShortExact(n: nat)
    ensures ToShort(n) == n <==> n < 0x8000
  {
  }
}
