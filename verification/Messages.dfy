/** Messages of many sessions in one queue, and what the callbacks make of them. */
module Messages {
  import opened Wire
  import opened Frames

  /** A `LogicNode`: a session and a complete frame it has received. */
  datatype Msg = Msg(session: nat, frame: Frame)

  /** `_fun_callbacks`: each registered id with the reply its callback sends. The reply has
      an id of its own, taken from the body of the request. */
  type Callbacks = map<Short, (Short, Payload) -> Frame>

  /** The frames of one session, in the order of the queue. */
  function Of(ms: seq<Msg>, session: nat): seq<Frame>
  {
    if ms == [] then []
    else (if ms[0].session == session then [ms[0].frame] else []) + Of(ms[1..], session)
  }

  /** The messages whose id has a callback: the others are dropped. */
  function Registered(c: Callbacks, ms: seq<Msg>): seq<Msg>
  {
    if ms == [] then []
    else (if ms[0].frame.id in c then [ms[0]] else []) + Registered(c, ms[1..])
  }

  /** The replies to the frames of one session, in the order of the requests. */
  function Replies(c: Callbacks, fs: seq<Frame>): seq<Frame>
  {
    if fs == [] then []
    else (if fs[0].id in c then [c[fs[0].id](fs[0].id, fs[0].payload)] else []) + Replies(c, fs[1..])
  }

  lemma Concat3<T>(a: seq<T>, b: seq<T>, c: seq<T>)
    ensures a + (b + c) == a + b + c
  {
  }

  lemma {:induction false} OfAppend(a: seq<Msg>, b: seq<Msg>, session: nat)
    ensures Of(a + b, session) == Of(a, session) + Of(b, session)
  {
    if a == [] {
      assert a + b == b;
    } else {
      assert (a + b)[1..] == a[1..] + b;
      OfAppend(a[1..], b, session);
      Concat3(if a[0].session == session then [a[0].frame] else [], Of(a[1..], session), Of(b, session));
    }
  }

  lemma {:induction false} RegisteredAppend(c: Callbacks, a: seq<Msg>, b: seq<Msg>)
    ensures Registered(c, a + b) == Registered(c, a) + Registered(c, b)
  {
    if a == [] {
      assert a + b == b;
    } else {
      assert (a + b)[1..] == a[1..] + b;
      RegisteredAppend(c, a[1..], b);
      Concat3(if a[0].frame.id in c then [a[0]] else [], Registered(c, a[1..]), Registered(c, b));
    }
  }

  lemma {:induction false} RepliesAppend(c: Callbacks, a: seq<Frame>, b: seq<Frame>)
    ensures Replies(c, a + b) == Replies(c, a) + Replies(c, b)
  {
    if a == [] {
      assert a + b == b;
    } else {
      assert (a + b)[1..] == a[1..] + b;
      RepliesAppend(c, a[1..], b);
      Concat3(if a[0].id in c then [c[a[0].id](a[0].id, a[0].payload)] else [], Replies(c, a[1..]), Replies(c, b));
    }
  }

  lemma OfOne(m: Msg, session: nat)
    ensures Of([m], session) == if m.session == session then [m.frame] else []
  {
    assert Of([m], session) == (if m.session == session then [m.frame] else []) + Of([m][1..], session);
  }

  lemma OfTail(ms: seq<Msg>, session: nat)
    requires ms != []
    ensures Of(ms, session) == Of([ms[0]], session) + Of(ms[1..], session)
  {
    OfAppend([ms[0]], ms[1..], session);
    assert [ms[0]] + ms[1..] == ms;
  }

  lemma RegisteredOne(c: Callbacks, m: Msg)
    ensures Registered(c, [m]) == if m.frame.id in c then [m] else []
  {
    assert Registered(c, [m]) == (if m.frame.id in c then [m] else []) + Registered(c, [m][1..]);
  }

  lemma RepliesOne(c: Callbacks, f: Frame)
    ensures Replies(c, [f]) == if f.id in c then [c[f.id](f.id, f.payload)] else []
  {
    assert Replies(c, [f]) == (if f.id in c then [c[f.id](f.id, f.payload)] else []) + Replies(c, [f][1..]);
  }

  /** Replies to a prefix of the requests are a prefix of the replies. */
  lemma RepliesPrefix(c: Callbacks, a: seq<Frame>, b: seq<Frame>)
    requires a <= b
    ensures Replies(c, a) <= Replies(c, b)
  {
    RepliesAppend(c, a, b[|a|..]);
    assert b == a + b[|a|..];
  }
}
