/** What the two rate limiters guarantee on every trace of calls. */
module RateLaws {
  import opened Wrappers
  import opened RateLimit

  predicate Nondecreasing(trace: Trace) {
    forall i, j :: 0 <= i < j < |trace| ==> trace[i].at <= trace[j].at
  }

  // Clients do not affect each other

  function Only(trace: Trace, client: string): Trace {
    if trace == [] then []
    else Only(Init(trace), client) + if Last(trace).client == client then [Last(trace)] else []
  }

  /** A client's reference window is what its own calls alone make of it. */
  lemma {:induction false} OthersDoNotCount(trace: Trace, client: string, window: nat)
    ensures Reference(trace, client, window) == Reference(Only(trace, client), client, window)
  {
    if trace != [] {
      OthersDoNotCount(Init(trace), client, window);
      var own := Only(trace, client);
      if Last(trace).client == client {
        assert Init(own) == Only(Init(trace), client) && Last(own) == Last(trace);
      } else {
        assert own == Only(Init(trace), client);
      }
    }
  }

  // One window

  /** The number of calls of a client from a position on. */
  function Hits(trace: Trace, client: string, from: nat): nat {
    if |trace| <= from then 0
    else Hits(Init(trace), client, from) + if Last(trace).client == client then 1 else 0
  }

  /** What the k-th call of a window is told. */
  function Share(k: nat, limit: nat): Decision {
    if k <= limit then Decision(true, limit - k) else Decision(false, 0)
  }

  /** The call that opened the client's present reference window. */
  function OpenedAt(trace: Trace, client: string, window: nat): nat
    requires Reference(trace, client, window).Some?
  {
    var init := Init(trace);
    var before := Reference(init, client, window);
    if Last(trace).client != client then OpenedAt(init, client, window)
    else if before.Some? && Last(trace).at < before.value.reset then OpenedAt(init, client, window)
    else |init|
  }

  /** In each window instance of the reference the k-th call is admitted exactly when
      k <= limit and then reports limit - k, whatever the order of the clock readings. */
  lemma {:induction false} ReferenceWindowCounts(trace: Trace, client: string, window: nat, limit: nat)
    requires Reference(trace, client, window).Some?
    ensures var (w, k) := (Reference(trace, client, window).value, OpenedAt(trace, client, window));
            && k < |trace| && trace[k].client == client && w.reset == trace[k].at + window
            && w.count == Hits(trace, client, k) >= 1
            && (forall j :: k < j < |trace| && trace[j].client == client ==> trace[j].at < w.reset)
            && (Last(trace).client == client ==>
                  ReferenceDecision(trace, limit, window) == Share(Hits(trace, client, k), limit))
  {
    var init := Init(trace);
    var before := Reference(init, client, window);
    assert forall j :: 0 <= j < |init| ==> init[j] == trace[j];
    if Last(trace).client != client || (before.Some? && Last(trace).at < before.value.reset) {
      ReferenceWindowCounts(init, client, window, limit);
    } else {
      assert Hits(init, client, |init|) == 0;
    }
  }

  // One window of the in-memory store, in any order of the clock readings

  /** The call that created the entry the map holds for the client. */
  function EnteredAt(trace: Trace, client: string, window: nat): nat
    requires client in Memory(trace, window)
  {
    var init := Init(trace);
    if Last(trace).client != client then EnteredAt(init, client, window)
    else if client in Pruned(Memory(init, window), Last(trace).at) then EnteredAt(init, client, window)
    else |init|
  }

  /** In each window instance of the in-memory store the k-th call is admitted exactly
      when k <= limit and then reports limit - k, whatever the order of the clock
      readings. An instance lasts from the call that made the entry until a reading, of
      any client, at or after its end. */
  lemma {:induction false} WindowCounts(trace: Trace, client: string, window: nat, limit: nat)
    requires client in Memory(trace, window)
    ensures var (w, k) := (Memory(trace, window)[client], EnteredAt(trace, client, window));
            && k < |trace| && trace[k].client == client && w.reset == trace[k].at + window
            && w.count == Hits(trace, client, k) >= 1
            && (forall j :: k < j < |trace| ==> trace[j].at < w.reset)
            && (Last(trace).client == client ==>
                  MemoryDecision(trace, limit, window) == Share(Hits(trace, client, k), limit))
  {
    var init := Init(trace);
    assert forall j :: 0 <= j < |init| ==> init[j] == trace[j];
    if client in Pruned(Memory(init, window), Last(trace).at) {
      WindowCounts(init, client, window, limit);
    } else {
      assert Hits(init, client, |init|) == 0;
    }
  }

  /** An instance opens exactly when the client calls and the map holds no window for it
      that is open at the reading. */
  lemma OpensIff(trace: Trace, window: nat)
    requires trace != []
    ensures var (c, before) := (Last(trace), Memory(Init(trace), window));
            EnteredAt(trace, c.client, window) == |trace| - 1
            <==> !(c.client in before && c.at < before[c.client].reset)
  {
    var (c, before) := (Last(trace), Memory(Init(trace), window));
    if c.client in Pruned(before, c.at) {
      WindowCounts(Init(trace), c.client, window, 0);
    }
  }

  // Pruning

  /** The latest clock reading among the calls after the client's last one. */
  function Peak(trace: Trace, client: string): Time {
    if trace == [] || Last(trace).client == client then 0
    else
      var p := Peak(Init(trace), client);
      if p < Last(trace).at then Last(trace).at else p
  }

  /** The client's window is still open for this call, but a call before it, with a later
      clock reading, has already pruned it. */
  predicate PrunedTooSoon(trace: Trace, c: Call, window: nat) {
    var w := Reference(trace, c.client, window);
    w.Some? && c.at < w.value.reset <= Peak(trace, c.client)
  }

  predicate NeverTooSoon(trace: Trace, window: nat) {
    trace == [] || (NeverTooSoon(Init(trace), window) && !PrunedTooSoon(Init(trace), Last(trace), window))
  }

  /** At every call of the trace the pruning store has the window of the reference. */
  predicate MemoryFollows(trace: Trace, window: nat) {
    trace == []
    || (MemoryFollows(Init(trace), window)
        && Lookup(Memory(trace, window), Last(trace).client) == Reference(trace, Last(trace).client, window))
  }

  /** A client's window in a store that forgets it at the first reading past its end. */
  function Held(trace: Trace, client: string, window: nat): Option<Window> {
    if trace == [] then None
    else
      var before := Held(Init(trace), client, window);
      if Last(trace).client == client then Some(Hit(before, Last(trace).at, window))
      else if before.Some? && Last(trace).at < before.value.reset then before
      else None
  }

  /** On every trace the map holds, of each client, exactly the window that no reading has
      passed. Of the calls of others only the clock readings matter. */
  lemma {:induction false} MemoryHolds(trace: Trace, client: string, window: nat)
    ensures Lookup(Memory(trace, window), client) == Held(trace, client, window)
  {
    if trace != [] {
      MemoryHolds(Init(trace), client, window);
    }
  }

  /** While no call comes too late, that window is the reference's. */
  lemma {:induction false} MemoryHoldsReference(trace: Trace, client: string, window: nat)
    requires NeverTooSoon(trace, window) && window > 0
    ensures var w := Reference(trace, client, window);
            Lookup(Memory(trace, window), client) == if w.Some? && Peak(trace, client) < w.value.reset then w else None
    ensures Reference(trace, client, window).Some? ==> Reference(trace, client, window).value.reset > 0
  {
    if trace != [] {
      MemoryHoldsReference(Init(trace), client, window);
    }
  }

  /** Pruning is invisible exactly when no call finds its window pruned too soon. */
  lemma {:induction false} PruningInvisibleIff(trace: Trace, window: nat)
    requires window > 0
    ensures MemoryFollows(trace, window) <==> NeverTooSoon(trace, window)
  {
    if trace != [] {
      PruningInvisibleIff(Init(trace), window);
      if NeverTooSoon(Init(trace), window) {
        var (c, w) := (Last(trace), Reference(Init(trace), Last(trace).client, window));
        MemoryHoldsReference(Init(trace), c.client, window);
        ReferenceCounts(Init(trace), c.client, window);
      }
    }
  }

  lemma {:induction false} ReferenceCounts(trace: Trace, client: string, window: nat)
    ensures Reference(trace, client, window).Some? ==> Reference(trace, client, window).value.count >= 1
  {
    if trace != [] {
      ReferenceCounts(Init(trace), client, window);
    }
  }

  lemma {:induction false} PeakBound(trace: Trace, client: string, bound: Time)
    requires forall i :: 0 <= i < |trace| ==> trace[i].at <= bound
    ensures Peak(trace, client) <= bound
  {
    if trace != [] {
      PeakBound(Init(trace), client, bound);
    }
  }

  /** Nondecreasing clock readings never prune too soon. */
  lemma {:induction false} OrderedNeverTooSoon(trace: Trace, window: nat)
    requires Nondecreasing(trace)
    ensures NeverTooSoon(trace, window)
  {
    if trace != [] {
      OrderedNeverTooSoon(Init(trace), window);
      PeakBound(Init(trace), Last(trace).client, Last(trace).at);
    }
  }

  lemma {:induction false} OnlyIsOneClient(trace: Trace, client: string, i: nat)
    requires i < |Only(trace, client)|
    ensures Only(trace, client)[i].client == client
  {
    if i < |Only(Init(trace), client)| {
      OnlyIsOneClient(Init(trace), client, i);
    }
  }

  /** A client on its own is never pruned too soon. */
  lemma {:induction false} AloneNeverTooSoon(trace: Trace, client: string, window: nat)
    requires window > 0 && forall i :: 0 <= i < |trace| ==> trace[i].client == client
    ensures NeverTooSoon(trace, window) && Peak(trace, client) == 0
  {
    if trace != [] {
      AloneNeverTooSoon(Init(trace), client, window);
      MemoryHoldsReference(Init(trace), client, window);
    }
  }

  /** While no call comes too late, the in-memory store decides a call as if its client
      were the only one. */
  lemma ClientsApart(trace: Trace, limit: nat, window: nat)
    requires trace != [] && window > 0 && NeverTooSoon(trace, window)
    ensures var own := Only(trace, Last(trace).client);
            own != [] && Last(own) == Last(trace)
            && MemoryDecision(trace, limit, window) == MemoryDecision(own, limit, window)
  {
    var client := Last(trace).client;
    var own := Only(trace, client);
    assert Last(own) == Last(trace);
    forall i | 0 <= i < |own| ensures own[i].client == client {
      OnlyIsOneClient(trace, client, i);
    }
    AloneNeverTooSoon(own, client, window);
    PruningInvisibleIff(trace, window);
    PruningInvisibleIff(own, window);
    OthersDoNotCount(trace, client, window);
  }

  /** Clocks are read before the lock is taken, so a reading can be older than one that
      pruned: the second call of "a" is let through although its window is still open. */
  lemma LateReadingReopens(window: nat)
    requires window > 1
    ensures var trace := [Call("a", 0), Call("b", window), Call("a", window - 1)];
            && MemoryDecision(trace, 1, window).allowed && !ReferenceDecision(trace, 1, window).allowed
  {
    var trace := [Call("a", 0), Call("b", window), Call("a", window - 1)];
    var two, one := Init(trace), Init(Init(trace));
    assert Init(one) == [] && Last(one) == Call("a", 0);
    assert Last(two) == Call("b", window) && Last(trace) == Call("a", window - 1);
    assert Reference(one, "a", window) == Some(Window(1, window)) == Reference(two, "a", window);
    assert Memory(one, window) == map["a" := Window(1, window)];
    assert "a" !in Memory(two, window);
  }

  // The Redis store

  lemma KeyInjective(a: string, b: string)
    requires Key(a) == Key(b)
    ensures a == b
  {
    assert Key(a)[|PREFIX|..] == a && Key(b)[|PREFIX|..] == b;
  }

  /** The counter of a client is the reference window of the TTL's length. */
  lemma {:induction false} RedisFollows(trace: Trace, client: string, window: nat)
    ensures var (c, w) := (Lookup(Redis(trace, window), Key(client)), Reference(trace, client, Ttl(window)));
            && (c.None? <==> w.None?)
            && (c.Some? ==> c.value.n == w.value.count && c.value.until == w.value.reset)
  {
    if trace != [] {
      RedisFollows(Init(trace), client, window);
      if Key(Last(trace).client) == Key(client) {
        KeyInjective(Last(trace).client, client);
      }
    }
  }

  /** In each window instance of the Redis store, of the TTL's length, the k-th call is
      admitted exactly when k <= limit and then reports limit - k, whatever the order of
      the clock readings. */
  lemma RedisWindowCounts(trace: Trace, client: string, window: nat, limit: nat)
    requires Key(client) in Redis(trace, window)
    ensures Reference(trace, client, Ttl(window)).Some?
    ensures var (c, k) := (Redis(trace, window)[Key(client)], OpenedAt(trace, client, Ttl(window)));
            && k < |trace| && trace[k].client == client && c.until == trace[k].at + Ttl(window)
            && c.n == Hits(trace, client, k)
            && (forall j :: k < j < |trace| && trace[j].client == client ==> trace[j].at < c.until)
            && (Last(trace).client == client ==>
                  RedisDecision(trace, limit, window) == Share(Hits(trace, client, k), limit))
  {
    RedisFollows(trace, client, window);
    ReferenceWindowCounts(trace, client, Ttl(window), limit);
  }

  /** The Redis store decides a call as if its client were the only one, on every trace. */
  lemma RedisClientsApart(trace: Trace, limit: nat, window: nat)
    requires trace != []
    ensures var own := Only(trace, Last(trace).client);
            own != [] && Last(own) == Last(trace)
            && RedisDecision(trace, limit, window) == RedisDecision(own, limit, window)
  {
    var client := Last(trace).client;
    var own := Only(trace, client);
    assert Last(own) == Last(trace);
    RedisFollows(trace, client, window);
    RedisFollows(own, client, window);
    OthersDoNotCount(trace, client, Ttl(window));
  }

  /** Redis's window is the configured one cut to milliseconds, and at least one of them. */
  lemma TtlIs(window: nat)
    ensures Ttl(window) % 1_000_000 == 0
    ensures if window < 1_000_000 then Ttl(window) == 1_000_000 else Ttl(window) <= window < Ttl(window) + 1_000_000
  {
  }

  ghost predicate StoresAgree(window: nat) {
    forall trace: Trace, limit: nat | trace != [] && Nondecreasing(trace) ::
      MemoryDecision(trace, limit, window) == RedisDecision(trace, limit, window)
  }

  lemma MemoryDecides(trace: Trace, limit: nat, window: nat)
    requires trace != [] && Nondecreasing(trace) && window > 0
    ensures MemoryDecision(trace, limit, window) == ReferenceDecision(trace, limit, window)
  {
    OrderedNeverTooSoon(trace, window);
    PruningInvisibleIff(trace, window);
  }

  /** The two stores return the same decisions and remaining counts on every trace with
      nondecreasing times exactly when the window is a whole number of milliseconds. */
  lemma StoresAgreeIff(window: nat)
    requires window > 0
    ensures StoresAgree(window) <==> window % MILLISECOND == 0
  {
    if window % MILLISECOND == 0 {
      assert Ttl(window) == window;
      forall trace: Trace, limit: nat | trace != [] && Nondecreasing(trace)
        ensures MemoryDecision(trace, limit, window) == RedisDecision(trace, limit, window)
      {
        MemoryDecides(trace, limit, window);
        RedisFollows(trace, Last(trace).client, window);
      }
    } else {
      PartMillisecondsDiffer(window);
    }
  }

  /** A window with a part of a millisecond: the second call, made when the shorter of the
      two windows has just ended, is let through by one store only. */
  lemma PartMillisecondsDiffer(window: nat)
    requires window % MILLISECOND != 0
    ensures var trace := [Call("a", 0), Call("a", if Ttl(window) < window then Ttl(window) else window)];
            && Nondecreasing(trace)
            && (MemoryDecision(trace, 1, window).allowed <==> window < Ttl(window))
            && (RedisDecision(trace, 1, window).allowed <==> Ttl(window) < window)
            && Ttl(window) != window
  {
    var early := if Ttl(window) < window then Ttl(window) else window;
    var trace := [Call("a", 0), Call("a", early)];
    MemoryDecides(trace, 1, window);
    RedisFollows(trace, "a", window);
    TwoCalls(early, window);
    TwoCalls(early, Ttl(window));
  }

  lemma TwoCalls(second: Time, window: nat)
    ensures var trace := [Call("a", 0), Call("a", second)];
            Reference(trace, "a", window)
            == Some(if second < window then Window(2, window) else Window(1, second + window))
  {
    var trace := [Call("a", 0), Call("a", second)];
    assert Last(trace) == Call("a", second) && Init(trace) == [Call("a", 0)] && Init(Init(trace)) == [];
    assert Reference([Call("a", 0)], "a", window) == Some(Window(1, window));
  }

  // Any interval of one window length

  /** A call of the client in [lo, hi). */
  predicate Counts(c: Call, client: string, lo: Time, hi: Time) { c.client == client && lo <= c.at < hi }

  /** How many calls of a client with readings in [lo, hi) the reference admitted. */
  function Admitted(trace: Trace, client: string, limit: nat, window: nat, lo: Time, hi: Time): nat {
    if trace == [] then 0
    else
      Admitted(Init(trace), client, limit, window, lo, hi)
      + if Counts(Last(trace), client, lo, hi) && ReferenceDecision(trace, limit, window).allowed then 1 else 0
  }

  function MemoryAdmitted(trace: Trace, client: string, limit: nat, window: nat, lo: Time, hi: Time): nat {
    if trace == [] then 0
    else
      MemoryAdmitted(Init(trace), client, limit, window, lo, hi)
      + if Counts(Last(trace), client, lo, hi) && MemoryDecision(trace, limit, window).allowed then 1 else 0
  }

  function RedisAdmitted(trace: Trace, client: string, limit: nat, window: nat, lo: Time, hi: Time): nat {
    if trace == [] then 0
    else
      RedisAdmitted(Init(trace), client, limit, window, lo, hi)
      + if Counts(Last(trace), client, lo, hi) && RedisDecision(trace, limit, window).allowed then 1 else 0
  }

  function Least(a: nat, b: nat): nat { if a < b then a else b }

  /** How many admitted calls [lo, lo + window) can hold, by where the client's present
      window opened: before the interval, inside it, or after it. */
  function Ceiling(w: Option<Window>, limit: nat, window: nat, lo: Time): nat {
    if w.None? then 0
    else if w.value.reset < lo + window then Least(w.value.count, limit)
    else if w.value.reset < lo + 2 * window then limit + Least(w.value.count, limit)
    else 2 * limit
  }

  lemma {:induction false} AdmittedCeiling(trace: Trace, client: string, limit: nat, window: nat, lo: Time)
    requires Nondecreasing(trace)
    ensures var w := Reference(trace, client, window);
            Admitted(trace, client, limit, window, lo, lo + window) <= Ceiling(w, limit, window, lo)
    ensures trace != [] && Last(trace).at < lo ==> Admitted(trace, client, limit, window, lo, lo + window) == 0
    ensures var w := Reference(trace, client, window);
            w.Some? ==>
              w.value.count >= 1 && w.value.reset >= window && trace != [] && w.value.reset <= Last(trace).at + window
  {
    if trace != [] {
      var init := Init(trace);
      AdmittedCeiling(init, client, limit, window, lo);
      assert init != [] ==> Last(init).at <= Last(trace).at;
    }
  }

  lemma {:induction false} MemoryAdmits(trace: Trace, client: string, limit: nat, window: nat, lo: Time, hi: Time)
    requires Nondecreasing(trace) && window > 0
    ensures MemoryAdmitted(trace, client, limit, window, lo, hi) == Admitted(trace, client, limit, window, lo, hi)
  {
    if trace != [] {
      MemoryAdmits(Init(trace), client, limit, window, lo, hi);
      MemoryDecides(trace, limit, window);
    }
  }

  lemma {:induction false} RedisAdmits(trace: Trace, client: string, limit: nat, window: nat, lo: Time, hi: Time)
    ensures RedisAdmitted(trace, client, limit, window, lo, hi) == Admitted(trace, client, limit, Ttl(window), lo, hi)
  {
    if trace != [] {
      RedisAdmits(Init(trace), client, limit, window, lo, hi);
      RedisFollows(trace, Last(trace).client, window);
    }
  }

  /** With nondecreasing readings, any half-open interval of one window length admits at
      most 2 * limit calls of a client, in either store. Redis's window is the TTL. */
  lemma SlidingBound(trace: Trace, client: string, limit: nat, window: nat, lo: Time)
    requires Nondecreasing(trace) && window > 0
    ensures MemoryAdmitted(trace, client, limit, window, lo, lo + window) <= 2 * limit
    ensures RedisAdmitted(trace, client, limit, window, lo, lo + Ttl(window)) <= 2 * limit
  {
    MemoryAdmits(trace, client, limit, window, lo, lo + window);
    AdmittedCeiling(trace, client, limit, window, lo);
    RedisAdmits(trace, client, limit, window, lo, lo + Ttl(window));
    AdmittedCeiling(trace, client, limit, Ttl(window), lo);
  }
}
