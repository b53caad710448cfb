/** Frames, their encoding, and the one-shot parser of a byte stream.

    A frame on the wire is a 2-byte id, a 2-byte length and the payload. `Parse` is the
    meaning of a received stream: what the incremental decoder must have posted after any
    way of cutting that stream into reads. */
module Frames {
  import opened Wire

  /** A payload whose frame still fits a buffer of `short` size. */
  type Payload = p: seq<Byte> | |p| <= SHORT_MAX - HEAD_TOTAL_LEN

  datatype Frame = Frame(id: Short, payload: Payload)

  function Encode(f: Frame): (bytes: seq<Byte>)
    ensures |bytes| == HEAD_TOTAL_LEN + |f.payload|
  {
    BigEndian(f.id) + BigEndian(|f.payload|) + f.payload
  }

  /** The encoding byte by byte: two bytes of id, two bytes of length, most significant first,
      and the payload. */
  lemma EncodeByByte(f: Frame)
    ensures var e := Encode(f);
      && |e| == HEAD_TOTAL_LEN + |f.payload|
      && (e[0] as int * 0x100 + e[1] as int - f.id as int) % 0x1_0000 == 0
      && e[2] as int * 0x100 + e[3] as int == |f.payload|
      && e[HEAD_TOTAL_LEN..] == f.payload
  {
    assert Encode(f)[..2] == BigEndian(f.id);
    TwosComplement(f.id, 0);
  }

  function EncodeAll(fs: seq<Frame>): seq<Byte>
  {
    if fs == [] then [] else Encode(fs[0]) + EncodeAll(fs[1..])
  }

  /** What the decoder takes without refusing the session. Ids may be negative. */
  predicate Legal(f: Frame)
  {
    f.id <= MAX_LENGTH && |f.payload| <= MAX_LENGTH
  }

  predicate AllLegal(fs: seq<Frame>)
  {
    forall f | f in fs :: Legal(f)
  }

  /** How a stream stands at its first byte that belongs to no complete legal frame. */
  datatype Status =
    | Open      // more bytes may complete a frame
    | Refused   // a header with an id or a length above the limit
    | Aborted   // a header with a negative length: no node can be allocated for it

  datatype Parsed = Parsed(frames: seq<Frame>, rest: seq<Byte>, status: Status)

  function HeadId(s: seq<Byte>): Short
    requires |s| >= HEAD_TOTAL_LEN
  {
    FromBigEndian(s[0], s[1])
  }

  function HeadLen(s: seq<Byte>): Short
    requires |s| >= HEAD_TOTAL_LEN
  {
    FromBigEndian(s[2], s[3])
  }

  /** What the limits checks say about a complete header, in the order they are made. */
  function HeaderStatus(id: Short, len: Short): Status
  {
    if id > MAX_LENGTH || len > MAX_LENGTH then Refused
    else if len < 0 then Aborted
    else Open
  }

  /** A complete legal frame is at the start of `s`. */
  predicate StartsWithFrame(s: seq<Byte>)
  {
    |s| >= HEAD_TOTAL_LEN && HeaderStatus(HeadId(s), HeadLen(s)) == Open && |s| >= HEAD_TOTAL_LEN + HeadLen(s)
  }

  function Parse(s: seq<Byte>): Parsed
  {
    if StartsWithFrame(s) then
      var n := HEAD_TOTAL_LEN + HeadLen(s);
      Prepend([Frame(HeadId(s), s[HEAD_TOTAL_LEN..n])], Parse(s[n..]))
    else
      Parsed([], s, if |s| < HEAD_TOTAL_LEN then Open else HeaderStatus(HeadId(s), HeadLen(s)))
  }

  function Prepend(fs: seq<Frame>, p: Parsed): Parsed
  {
    p.(frames := fs + p.frames)
  }

  // ------------------------------------------------------------------ composition

  lemma PrependTwice(fs: seq<Frame>, gs: seq<Frame>, p: Parsed)
    ensures Prepend(fs, Prepend(gs, p)) == Prepend(fs + gs, p)
  {
    assert fs + (gs + p.frames) == fs + gs + p.frames;
  }

  lemma FirstFrame(a: seq<Byte>, b: seq<Byte>)
    requires StartsWithFrame(a)
    ensures var n := HEAD_TOTAL_LEN + HeadLen(a);
      Parse(a + b) == Prepend([Frame(HeadId(a), a[HEAD_TOTAL_LEN..n])], Parse(a[n..] + b))
  {
    var n := HEAD_TOTAL_LEN + HeadLen(a);
    assert (a + b)[n..] == a[n..] + b;
    assert (a + b)[HEAD_TOTAL_LEN..n] == a[HEAD_TOTAL_LEN..n];
  }

  /** Parsing may stop anywhere and go on with the unconsumed rest: the frames already found
      stay, and what follows depends on the earlier stream through `rest` alone. */
  lemma {:induction false} ParseExtend(a: seq<Byte>, b: seq<Byte>)
    requires Parse(a).status == Open
    ensures Parse(a + b) == Prepend(Parse(a).frames, Parse(Parse(a).rest + b))
  {
    if StartsWithFrame(a) {
      var n := HEAD_TOTAL_LEN + HeadLen(a);
      FirstFrame(a, b);
      ParseExtend(a[n..], b);
      PrependTwice([Frame(HeadId(a), a[HEAD_TOTAL_LEN..n])], Parse(a[n..]).frames, Parse(Parse(a[n..]).rest + b));
    } else {
      assert Parse(a) == Parsed([], a, Open);
      assert [] + Parse(a + b).frames == Parse(a + b).frames;
    }
  }

  /** After a bad header nothing more is found: later bytes only pile up behind it. */
  lemma {:induction false} ParseStuck(a: seq<Byte>, b: seq<Byte>)
    requires Parse(a).status != Open
    ensures Parse(a + b) == Parse(a).(rest := Parse(a).rest + b)
  {
    if StartsWithFrame(a) {
      FirstFrame(a, b);
      ParseStuck(a[HEAD_TOTAL_LEN + HeadLen(a)..], b);
    }
  }

  /** Frames once found are never taken back or changed by later bytes. */
  lemma ParseGrows(a: seq<Byte>, b: seq<Byte>)
    ensures Parse(a).frames <= Parse(a + b).frames
    ensures Parse(a).status != Open ==> Parse(a + b).frames == Parse(a).frames && Parse(a + b).status == Parse(a).status
  {
    if Parse(a).status == Open {
      ParseExtend(a, b);
    } else {
      ParseStuck(a, b);
    }
  }

  // ------------------------------------------------------------------ meaning

  /** A stream that begins with no complete legal frame, and why. Defined on the bytes
      alone, without parsing. */
  predicate NoFrame(rest: seq<Byte>, status: Status)
  {
    if |rest| < HEAD_TOTAL_LEN then status == Open
    else
      && status == HeaderStatus(HeadId(rest), HeadLen(rest))
      && (status == Open ==> |rest| < HEAD_TOTAL_LEN + HeadLen(rest))
  }

  /** `p` cuts the stream into encodings of legal frames followed by something that begins
      with no frame. */
  predicate Decomposes(s: seq<Byte>, p: Parsed)
  {
    s == EncodeAll(p.frames) + p.rest && AllLegal(p.frames) && NoFrame(p.rest, p.status)
  }

  lemma EncodedHeader(f: Frame, tail: seq<Byte>)
    ensures var s := Encode(f) + tail;
      && HeadId(s) == f.id && HeadLen(s) == |f.payload|
      && s[HEAD_TOTAL_LEN..HEAD_TOTAL_LEN + |f.payload|] == f.payload
      && s[HEAD_TOTAL_LEN + |f.payload|..] == tail
  {
    var s := Encode(f) + tail;
    BigEndianInverse(f.id, s[0], s[1]);
    BigEndianInverse(|f.payload|, s[2], s[3]);
    assert BigEndian(f.id) == [s[0], s[1]];
    assert BigEndian(|f.payload|) == [s[2], s[3]];
  }

  lemma ParseEncoded(f: Frame, tail: seq<Byte>)
    requires Legal(f)
    ensures Parse(Encode(f) + tail) == Prepend([f], Parse(tail))
  {
    EncodedHeader(f, tail);
  }

  lemma DecodedHeader(s: seq<Byte>)
    requires |s| >= HEAD_TOTAL_LEN && 0 <= HeadLen(s) <= SHORT_MAX - HEAD_TOTAL_LEN && |s| >= HEAD_TOTAL_LEN + HeadLen(s)
    ensures var n := HEAD_TOTAL_LEN + HeadLen(s);
      s == Encode(Frame(HeadId(s), s[HEAD_TOTAL_LEN..n])) + s[n..]
  {
    BigEndianInverse(HeadId(s), s[0], s[1]);
    BigEndianInverse(HeadLen(s), s[2], s[3]);
    var n := HEAD_TOTAL_LEN + HeadLen(s);
    assert s == [s[0], s[1]] + [s[2], s[3]] + s[HEAD_TOTAL_LEN..n] + s[n..];
  }

  lemma {:induction false} ParseDecomposes(s: seq<Byte>)
    ensures Decomposes(s, Parse(s))
  {
    var p := Parse(s);
    if !StartsWithFrame(s) {
      assert s == EncodeAll([]) + s;
    } else {
      var n := HEAD_TOTAL_LEN + HeadLen(s);
      var f := Frame(HeadId(s), s[HEAD_TOTAL_LEN..n]);
      var q := Parse(s[n..]);
      ParseDecomposes(s[n..]);
      DecodedHeader(s);
      assert p.frames == [f] + q.frames && p.frames[1..] == q.frames;
      assert s == Encode(f) + (EncodeAll(q.frames) + q.rest) == EncodeAll(p.frames) + p.rest;
    }
  }

  lemma {:induction false} DecompositionParses(fs: seq<Frame>, rest: seq<Byte>, status: Status)
    requires AllLegal(fs) && NoFrame(rest, status)
    ensures Parse(EncodeAll(fs) + rest) == Parsed(fs, rest, status)
  {
    var s := EncodeAll(fs) + rest;
    if fs == [] {
      assert s == rest;
    } else {
      var tail := EncodeAll(fs[1..]) + rest;
      assert s == Encode(fs[0]) + tail;
      ParseEncoded(fs[0], tail);
      DecompositionParses(fs[1..], rest, status);
      assert [fs[0]] + fs[1..] == fs;
    }
  }

  /** The parser finds the frames of a stream: it answers `p` exactly when `p` cuts the
      stream into legal frames and a frameless rest. So there is exactly one such cut. */
  lemma {:induction false} ParseIsTheDecomposition(s: seq<Byte>, p: Parsed)
    ensures Parse(s) == p <==> Decomposes(s, p)
  {
    ParseDecomposes(s);
    if Decomposes(s, p) {
      DecompositionParses(p.frames, p.rest, p.status);
    }
  }

  /** One decoding step: the bytes `b` complete no frame and join the rest, or they show why
      the stream ends, or they complete exactly one legal frame and leave no rest. */
  predicate Advances(p: Parsed, b: seq<Byte>, p': Parsed)
  {
    var q := p.rest + b;
    || (NoFrame(q, p'.status) && p' == Parsed(p.frames, q, p'.status))
    || (&& StartsWithFrame(q) && |q| == HEAD_TOTAL_LEN + HeadLen(q)
        && p' == Parsed(p.frames + [Frame(HeadId(q), q[HEAD_TOTAL_LEN..])], [], Open))
  }

  /** Decoding steps follow the one-shot parse of everything received. */
  lemma ParseAdvances(a: seq<Byte>, b: seq<Byte>, p': Parsed)
    requires Parse(a).status == Open && Advances(Parse(a), b, p')
    ensures Parse(a + b) == p'
  {
    var q := Parse(a).rest + b;
    ParseExtend(a, b);
    if StartsWithFrame(q) {
      assert q[HEAD_TOTAL_LEN..|q|] == q[HEAD_TOTAL_LEN..] && q[|q|..] == [];
      assert Parse(q) == Prepend([Frame(HeadId(q), q[HEAD_TOTAL_LEN..])], Parse([]));
    } else {
      assert Parse(a).frames + [] == Parse(a).frames;
    }
  }

  // ------------------------------------------------------------------ round trip

  /** The longest prefix of legal frames. */
  function LegalPrefix(fs: seq<Frame>): seq<Frame>
  {
    if fs == [] || !Legal(fs[0]) then [] else [fs[0]] + LegalPrefix(fs[1..])
  }

  /** Whatever the sender encodes, the receiver finds the frames up to the first one over
      the limits, and refuses there. */
  lemma {:induction false} ParseOfEncodings(fs: seq<Frame>)
    ensures var p := Parse(EncodeAll(fs));
      && p.frames == LegalPrefix(fs)
      && p.status == (if AllLegal(fs) then Open else Refused)
      && (AllLegal(fs) ==> p.rest == [])
  {
    if fs == [] {
    } else {
      if !Legal(fs[0]) {
        EncodedHeader(fs[0], EncodeAll(fs[1..]));
      } else {
        ParseEncoded(fs[0], EncodeAll(fs[1..]));
        ParseOfEncodings(fs[1..]);
        assert AllLegal(fs) <==> AllLegal(fs[1..]) by {
          assert fs == [fs[0]] + fs[1..];
        }
      }
    }
  }

  lemma {:induction false} LegalPrefixWhole(fs: seq<Frame>)
    ensures LegalPrefix(fs) == fs <==> AllLegal(fs)
  {
    if fs == [] {
    } else {
      LegalPrefixWhole(fs[1..]);
      assert fs == [fs[0]] + fs[1..];
      if LegalPrefix(fs) == fs {
        assert LegalPrefix(fs)[1..] == LegalPrefix(fs[1..]);
      }
    }
  }

  /** Encoding a list of frames and decoding it gives the list back, with the decoder idle,
      exactly when every frame respects the limits on id and length. */
  lemma {:induction false} RoundTrip(fs: seq<Frame>)
    ensures Parse(EncodeAll(fs)) == Parsed(fs, [], Open) <==> AllLegal(fs)
  {
    ParseOfEncodings(fs);
    LegalPrefixWhole(fs);
  }

  /** Cut off anywhere, an encoding decodes to a prefix of its frames. */
  lemma {:induction false} PrefixDecodes(wire: seq<Byte>, fs: seq<Frame>)
    requires wire <= EncodeAll(fs) && AllLegal(fs)
    ensures Parse(wire).frames <= fs
  {
    RoundTrip(fs);
    var rest := EncodeAll(fs)[|wire|..];
    assert wire + rest == EncodeAll(fs);
    ParseGrows(wire, rest);
  }

  // ------------------------------------------------------------------ sizes

  lemma {:induction false} EncodeAllAppend(a: seq<Frame>, b: seq<Frame>)
    ensures EncodeAll(a + b) == EncodeAll(a) + EncodeAll(b)
  {
    if a == [] {
      assert a + b == b;
    } else {
      assert (a + b)[1..] == a[1..] + b;
      EncodeAllAppend(a[1..], b);
    }
  }

  lemma EncodeAllSnoc(a: seq<Frame>, f: Frame)
    ensures EncodeAll(a + [f]) == EncodeAll(a) + Encode(f)
  {
    EncodeAllAppend(a, [f]);
    assert EncodeAll([f]) == Encode(f) + EncodeAll([]);
  }

  /** Wire bytes taken up by a list of frames. */
  function FrameBytes(fs: seq<Frame>): nat
  {
    if fs == [] then 0 else HEAD_TOTAL_LEN + |fs[0].payload| + FrameBytes(fs[1..])
  }

  lemma {:induction false} FrameBytesIsEncodedLength(fs: seq<Frame>)
    ensures FrameBytes(fs) == |EncodeAll(fs)|
  {
    if fs != [] {
      FrameBytesIsEncodedLength(fs[1..]);
    }
  }

  /** Every received byte is in a found frame or in the rest. */
  lemma ParseConservesBytes(s: seq<Byte>)
    ensures |s| == FrameBytes(Parse(s).frames) + |Parse(s).rest|
  {
    ParseDecomposes(s);
    FrameBytesIsEncodedLength(Parse(s).frames);
  }

  // ------------------------------------------------------------------ chunks

  function Flatten(chunks: seq<seq<Byte>>): seq<Byte>
  {
    if chunks == [] then [] else chunks[0] + Flatten(chunks[1..])
  }

  lemma {:induction false} FlattenAppend(a: seq<seq<Byte>>, b: seq<seq<Byte>>)
    ensures Flatten(a + b) == Flatten(a) + Flatten(b)
  {
    if a == [] {
      assert a + b == b;
    } else {
      assert (a + b)[1..] == a[1..] + b;
      FlattenAppend(a[1..], b);
    }
  }

  lemma FlattenTake(chunks: seq<seq<Byte>>, i: nat)
    requires i < |chunks|
    ensures Flatten(chunks[..i + 1]) == Flatten(chunks[..i]) + chunks[i]
  {
    assert chunks[..i + 1] == chunks[..i] + [chunks[i]];
    FlattenAppend(chunks[..i], [chunks[i]]);
    assert Flatten([chunks[i]]) == chunks[i] + Flatten([chunks[i]][1..]);
  }

  lemma FlattenSplit(chunks: seq<seq<Byte>>, i: nat)
    requires i <= |chunks|
    ensures Flatten(chunks) == Flatten(chunks[..i]) + Flatten(chunks[i..])
  {
    assert chunks == chunks[..i] + chunks[i..];
    FlattenAppend(chunks[..i], chunks[i..]);
  }
}
