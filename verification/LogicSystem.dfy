/** The logic queue as its critical sections see it: `PostMsgToQue`, one turn of `DealMsg`,
    and the drain on stop. The waiting and waking between them is in WakeUp.dfy. */
module LogicSystems {
  import opened Wire
  import opened Frames
  import opened MsgNodes
  import opened Messages

  /** The session is held by number: the same number names it everywhere. */
  datatype LogicNode = LogicNode(session: nat, node: MsgNode)

  /** One invocation of a callback: session, id, and the text made of the node. */
  datatype Call = Call(session: nat, id: Short, text: Payload)

  function CallsFor(ms: seq<Msg>): seq<Call>
  {
    seq(|ms|, i requires 0 <= i < |ms| => Call(ms[i].session, ms[i].frame.id, ms[i].frame.payload))
  }

  /** What the callbacks made of the calls for one session, in order. */
  function Results(c: Callbacks, calls: seq<Call>, session: nat): seq<Frame>
  {
    if calls == [] then []
    else
      (if calls[0].session == session && calls[0].id in c then [c[calls[0].id](calls[0].id, calls[0].text)] else [])
      + Results(c, calls[1..], session)
  }

  lemma CallsForHead(m: Msg, ms: seq<Msg>)
    ensures CallsFor([m] + ms) == [Call(m.session, m.frame.id, m.frame.payload)] + CallsFor(ms)
  {
  }

  lemma CallsForSnoc(ms: seq<Msg>, m: Msg)
    ensures CallsFor(ms + [m]) == CallsFor(ms) + [Call(m.session, m.frame.id, m.frame.payload)]
  {
  }

  lemma ResultsHead(c: Callbacks, m: Msg, ms: seq<Msg>, session: nat)
    requires m.frame.id in c
    ensures Results(c, CallsFor([m] + ms), session)
      == (if m.session == session then [c[m.frame.id](m.frame.id, m.frame.payload)] else []) + Results(c, CallsFor(ms), session)
  {
    CallsForHead(m, ms);
  }

  /** The callbacks make of the messages taken what the replies of each session are. */
  lemma {:induction false} ResultsOfTaken(c: Callbacks, ms: seq<Msg>, session: nat)
    ensures Results(c, CallsFor(Registered(c, ms)), session) == Replies(c, Of(ms, session))
  {
    if ms != [] {
      var m, rest := ms[0], ms[1..];
      ResultsOfTaken(c, rest, session);
      OfTail(ms, session);
      OfOne(m, session);
      RepliesAppend(c, Of([m], session), Of(rest, session));
      if m.session == session {
        RepliesOne(c, m.frame);
      }
      RegisteredAppend(c, [m], rest);
      RegisteredOne(c, m);
      assert ms == [m] + rest;
      if m.frame.id in c {
        ResultsHead(c, m, Registered(c, rest), session);
      } else {
        assert [] + Registered(c, rest) == Registered(c, rest);
      }
    }
  }

  class LogicSystem {
    const callbacks: Callbacks
    var msgQue: seq<LogicNode>
    var bStop: bool
    var calls: seq<Call>             // callback invocations so far

    ghost var queued: seq<Msg>       // what the nodes in msgQue stand for
    ghost var disposed: seq<Msg>     // messages taken off the queue, oldest first

    /** The queued nodes are complete and stand for `queued`; the callbacks ran on exactly
        the disposed messages that have one. */
    ghost predicate Valid()
      reads this, set n: LogicNode | n in msgQue :: n.node
      reads set n: LogicNode | n in msgQue :: n.node.data
    {
      && |queued| == |msgQue|
      && (forall i :: 0 <= i < |msgQue| ==>
            msgQue[i].session == queued[i].session && msgQue[i].node.Holds(queued[i].frame))
      && calls == CallsFor(Registered(callbacks, disposed))
    }

    constructor (c: Callbacks)
      ensures Valid() && callbacks == c && queued == disposed == [] && !bStop
    {
      callbacks := c;
      msgQue, bStop, calls := [], false, [];
      queued, disposed := [], [];
    }

    /** Push under the lock, and say whether the worker is to be notified after it. */
    method PostMsgToQue(msg: LogicNode, ghost f: Frame) returns (notify: bool)
      requires Valid() && msg.node.Holds(f)
      modifies this`msgQue, this`queued
      ensures Valid() && queued == old(queued) + [Msg(msg.session, f)]
      ensures notify <==> old(queued) == []
    {
      msgQue := msgQue + [msg];
      queued := queued + [Msg(msg.session, f)];
      notify := |msgQue| == 1;
    }

    /** The destructor, before it joins the worker: set the flag, then say that the worker is
        to be notified, whatever the queue holds. */
    method Stop() returns (notify: bool)
      requires Valid()
      modifies this`bStop
      ensures Valid() && bStop && notify
    {
      bStop := true;
      notify := true;
    }

    /** Take the front message: call its callback if its id has one, then pop. The same in
        the normal turn and in the drain (lines 37-46 and 52-61). */
    method DealFront()
      requires Valid() && msgQue != []
      modifies this`msgQue, this`queued, this`disposed, this`calls
      ensures Valid() && queued == old(queued)[1..] && disposed == old(disposed) + [old(queued)[0]]
      ensures var m := old(queued)[0];
        calls == old(calls) + if m.frame.id in callbacks then [Call(m.session, m.frame.id, m.frame.payload)] else []
    {
      ghost var m := queued[0];
      RegisteredAppend(callbacks, disposed, [m]);
      RegisteredOne(callbacks, m);
      var msgNode := msgQue[0];
      disposed := disposed + [m];
      if msgNode.node.id !in callbacks {
        msgQue, queued := msgQue[1..], queued[1..];
        return;
      }
      calls := calls + [Call(msgNode.session, msgNode.node.id, msgNode.node.Text())];
      msgQue, queued := msgQue[1..], queued[1..];
    }

    /** What the callbacks have made of their calls for a session are the replies to the
        messages of that session that were taken. */
    lemma ResultsAreReplies(session: nat)
      requires Valid()
      ensures Results(callbacks, calls, session) == Replies(callbacks, Of(disposed, session))
    {
      ResultsOfTaken(callbacks, disposed, session);
    }

    /** A turn of `DealMsg` once the wait is over. After stop it empties the queue and the
        worker exits. */
    method DealTurn() returns (exit: bool)
      requires Valid() && (msgQue != [] || bStop)
      modifies this`msgQue, this`queued, this`disposed, this`calls
      ensures Valid() && exit == bStop
      ensures var taken := if bStop then |old(queued)| else 1;
        disposed == old(disposed) + old(queued)[..taken] && queued == old(queued)[taken..]
    {
      if bStop {
        var n := |msgQue|;
        while msgQue != []
          invariant Valid() && |msgQue| <= n
          invariant queued == old(queued)[n - |msgQue|..]
          invariant disposed == old(disposed) + old(queued)[..n - |msgQue|]
          decreases |msgQue|
        {
          DealFront();
        }
        return true;
      }
      DealFront();
      return false;
    }
  }
}
