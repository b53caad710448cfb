/** The I/O context pool and the server object: which context a session gets, and which
    sessions are registered. */
module Acceptor {

  /** The index `GetIOService` moves to. */
  function Following(i: nat, size: nat): nat
  {
    if i + 1 == size then 0 else i + 1
  }

  /** The context returned by call `k`, counting from 0. */
  function Context(k: nat, size: nat): nat
  {
    if k == 0 then 0 else Following(Context(k - 1, size), size)
  }

  /** How often the first `k` calls have wrapped around. */
  function Rounds(k: nat, size: nat): nat
  {
    if k == 0 then 0 else Rounds(k - 1, size) + if Context(k, size) == 0 then 1 else 0
  }

  /** How many of the first `k` calls returned context `c`. */
  function Count(k: nat, size: nat, c: nat): nat
  {
    if k == 0 then 0 else Count(k - 1, size, c) + if Context(k - 1, size) == c then 1 else 0
  }

  /** Call `k` returns context `k` modulo the pool size. */
  lemma {:induction false} ContextIsRemainder(k: nat, size: nat)
    requires size > 0
    ensures Context(k, size) < size && k == Rounds(k, size) * size + Context(k, size)
  {
    if k > 0 {
      ContextIsRemainder(k - 1, size);
      var r := Rounds(k - 1, size);
      assert (r + 1) * size == r * size + size;
    }
  }

  lemma {:induction false} CountByRounds(k: nat, size: nat, c: nat)
    requires c < size
    ensures Count(k, size, c) == Rounds(k, size) + if c < Context(k, size) then 1 else 0
  {
    if k > 0 {
      CountByRounds(k - 1, size, c);
      ContextIsRemainder(k - 1, size);
    }
  }

  /** After any number of calls the contexts have been returned equally often, up to one. */
  lemma Balanced(k: nat, size: nat, a: nat, b: nat)
    requires a < size && b < size
    ensures -1 <= Count(k, size, a) - Count(k, size, b) <= 1
  {
    CountByRounds(k, size, a);
    CountByRounds(k, size, b);
  }

  lemma {:induction false} Ahead(k: nat, j: nat, size: nat)
    requires j <= size && size > 0
    ensures var i := Context(k, size) + j;
      && Context(k + j, size) == (if i < size then i else i - size)
      && Rounds(k + j, size) == Rounds(k, size) + if i < size then 0 else 1
  {
    ContextIsRemainder(k, size);
    if j > 0 {
      Ahead(k, j - 1, size);
    }
  }

  /** Any `size` calls in a row return every context exactly once. */
  lemma OncePerRound(k: nat, size: nat, c: nat)
    requires c < size
    ensures Count(k + size, size, c) == Count(k, size, c) + 1
  {
    Ahead(k, size, size);
    CountByRounds(k, size, c);
    CountByRounds(k + size, size, c);
  }

  class AsioIOServicePool {
    const size: nat                  // the contexts are numbered from 0
    var nextIOService: nat
    ghost var calls: nat

    ghost predicate Valid()
      reads this
    {
      size > 0 && nextIOService == Context(calls, size) && nextIOService < size
    }

    /** The vector of contexts must not be empty: element 0 is taken at the first call. */
    constructor (n: nat)
      requires n > 0
      ensures Valid() && size == n && calls == 0
    {
      size, nextIOService, calls := n, 0, 0;
    }

    method GetIOService() returns (service: nat)
      requires Valid()
      modifies this
      ensures Valid() && calls == old(calls) + 1
      ensures service == Context(old(calls), size)
    {
      service := nextIOService;
      nextIOService := nextIOService + 1;
      if nextIOService == size {
        nextIOService := 0;
      }
      calls := calls + 1;
    }
  }

  /** `CServer`. Sessions are numbered in the order in which `StartAccept` makes them, which
      stands for their UUIDs. */
  class CServer {
    const pool: AsioIOServicePool
    var sessions: set<nat>           // keys of _sessions
    var contexts: seq<nat>           // the context of each session made
    var started: set<nat>            // sessions on which Start was called

    ghost var inserted: set<nat>     // history: sessions inserted
    ghost var cleared: set<nat>      // history: sessions cleared after their insertion

    /** The registry holds what was inserted and not cleared since, and session `k` was made
        for context `k` modulo the pool size. */
    ghost predicate Valid()
      reads this, pool
    {
      && pool.Valid() && pool.calls == |contexts|
      && (forall k :: 0 <= k < |contexts| ==> contexts[k] == Context(k, pool.size))
      && cleared <= inserted && sessions == inserted - cleared
      && inserted <= started
    }

    /** One accept is pending, for the session made last; it is not started yet. */
    ghost predicate Pending()
      reads this
    {
      contexts != [] && forall k | k in started :: k < |contexts| - 1
    }

    constructor (p: AsioIOServicePool)
      requires p.Valid() && p.calls == 0
      modifies p
      ensures Valid() && Pending() && pool == p && sessions == {} && |contexts| == 1
    {
      pool, sessions, contexts, started := p, {}, [], {};
      inserted, cleared := {}, {};
      new;
      StartAccept();
    }

    method StartAccept()
      requires Valid() && forall k | k in started :: k < |contexts|
      modifies this`contexts, pool
      ensures Valid() && Pending() && |contexts| == |old(contexts)| + 1 && old(contexts) <= contexts
    {
      var service := pool.GetIOService();
      contexts := contexts + [service];
    }

    /** The pending accept completes. Whatever the outcome, the next one is started; the
        failed attempt has used up a context too. */
    method HandleAccept(error: bool)
      requires Valid() && Pending()
      modifies this`sessions, this`started, this`contexts, this`inserted, pool
      ensures Valid() && Pending() && |contexts| == |old(contexts)| + 1 && old(contexts) <= contexts
      ensures var made := |old(contexts)| - 1;
        if error then sessions == old(sessions) && started == old(started)
        else sessions == old(sessions) + {made} && started == old(started) + {made} && made !in old(sessions)
    {
      var newSession := |contexts| - 1;
      assert newSession !in started;
      if !error {
        started := started + {newSession};
        sessions := sessions + {newSession};
        inserted := inserted + {newSession};
      }
      StartAccept();
    }

    /** Erasing an absent key changes nothing, so clearing twice is clearing once. */
    method ClearSession(session: nat)
      requires Valid()
      modifies this`sessions, this`cleared
      ensures Valid() && sessions == old(sessions) - {session}
      ensures session !in old(sessions) ==> sessions == old(sessions) && cleared == old(cleared)
    {
      if session in sessions {
        cleared := cleared + {session};
      }
      sessions := sessions - {session};
    }
  }
}
