/** Fixed-window rate limiting (pkg/middleware/rate_limit.go): the in-memory store with
    pruning and the Redis store with INCR and PEXPIRE, each against one reference. */
module RateLimit {
  import opened Wrappers

  /** Nanoseconds. */
  type Time = nat

  const MILLISECOND: nat := 1_000_000

  datatype Window = Window(count: nat, reset: Time)

  datatype Decision = Decision(allowed: bool, remaining: nat)

  // The reference: one client, nothing ever pruned

  /** A call at `at`: the next in the open window, or the first of a new one. */
  function Hit(w: Option<Window>, at: Time, window: nat): Window {
    if w.Some? && at < w.value.reset then Window(w.value.count + 1, w.value.reset) else Window(1, at + window)
  }

  function Decide(count: nat, limit: nat): Decision {
    if count > limit then Decision(false, 0) else Decision(true, limit - count)
  }

  function Lookup<V>(m: map<string, V>, key: string): Option<V> {
    if key in m then Some(m[key]) else None
  }

  // The in-memory store

  function Pruned(m: map<string, Window>, now: Time): map<string, Window> {
    map k | k in m && now < m[k].reset :: m[k]
  }

  function MemoryHit(m: map<string, Window>, client: string, now: Time, window: nat): map<string, Window> {
    Pruned(m, now)[client := Hit(Lookup(Pruned(m, now), client), now, window)]
  }

  class MemoryStore {
    var windows: map<string, Window>

    constructor ()
      ensures windows == map[]
    {
      windows := map[];
    }

    /** Deletes while ranging over the keys. */
    method PruneExpired(now: Time)
      modifies this
      ensures windows == Pruned(old(windows), now)
    {
      var todo := windows.Keys;
      while todo != {}
        invariant todo <= windows.Keys <= old(windows).Keys
        invariant forall k :: k in windows ==> windows[k] == old(windows)[k]
        invariant forall k :: k in old(windows) && k !in todo ==> (k in windows <==> now < old(windows)[k].reset)
        decreases |todo|
      {
        var k :| k in todo;
        todo := todo - {k};
        if now >= windows[k].reset {
          windows := windows - {k};
        }
      }
    }

    /** None for a cancelled request: the store is not touched. */
    method Allow(cancelled: bool, client: string, limit: nat, window: nat, now: Time) returns (d: Option<Decision>)
      modifies this
      ensures cancelled ==> d == None && windows == old(windows)
      ensures !cancelled ==>
                windows == MemoryHit(old(windows), client, now, window)
                && d == Some(Decide(windows[client].count, limit))
      ensures !cancelled && window > 0 ==> forall k :: k in windows ==> now < windows[k].reset
    {
      if cancelled {
        return None;
      }
      PruneExpired(now);
      var w := Window(0, now + window);
      if client in windows && now < windows[client].reset {
        w := windows[client];
      }
      w := w.(count := w.count + 1);
      windows := windows[client := w];
      if w.count > limit {
        return Some(Decision(false, 0));
      }
      return Some(Decision(true, limit - w.count));
    }
  }

  // The Redis store

  datatype Counter = Counter(n: Positive, until: Time)

  const PREFIX := "v1:ratelimit:"

  function Key(client: string): string { PREFIX + client }

  /** PEXPIRE takes whole milliseconds, and at least one. */
  function Ttl(window: nat): nat {
    (if window / MILLISECOND < 1 then 1 else window / MILLISECOND) * MILLISECOND
  }

  /** INCR, then PEXPIRE on the first hit; a key past its expiry is gone. */
  function Script(m: map<string, Counter>, key: string, now: Time, ttl: nat): map<string, Counter> {
    if key in m && now < m[key].until then m[key := Counter(m[key].n + 1, m[key].until)]
    else m[key := Counter(1, now + ttl)]
  }

  class RedisStore {
    var counters: map<string, Counter>

    constructor ()
      ensures counters == map[]
    {
      counters := map[];
    }

    /** A fresh key has no expiry until the script sets one. */
    method Eval(key: string, ms: nat, now: Time) returns (n: nat)
      modifies this
      ensures counters == Script(old(counters), key, now, ms * MILLISECOND)
      ensures n == counters[key].n
    {
      if key in counters && now < counters[key].until {
        n := counters[key].n + 1;
        counters := counters[key := Counter(n, counters[key].until)];
      } else {
        n := 1;
      }
      if n == 1 {
        counters := counters[key := Counter(n, now + ms * MILLISECOND)];
      }
    }

    method Allow(client: string, limit: nat, window: nat, now: Time) returns (d: Decision)
      modifies this
      ensures counters == Script(old(counters), Key(client), now, Ttl(window))
      ensures d == Decide(counters[Key(client)].n, limit)
    {
      var ms := window / MILLISECOND;
      if ms < 1 {
        ms := 1;
      }
      var n := Eval(Key(client), ms, now);
      if n > limit {
        return Decision(false, 0);
      }
      return Decision(true, limit - n);
    }
  }

  // Traces of calls, in the order the stores take them

  datatype Call = Call(client: string, at: Time)

  type Trace = seq<Call>

  function Init(trace: Trace): Trace
    requires trace != []
  {
    trace[..|trace| - 1]
  }

  function Last(trace: Trace): Call
    requires trace != []
  {
    trace[|trace| - 1]
  }

  /** The reference window of one client, which only its own calls touch. */
  function Reference(trace: Trace, client: string, window: nat): Option<Window> {
    if trace == [] then None
    else if Last(trace).client == client
    then Some(Hit(Reference(Init(trace), client, window), Last(trace).at, window))
    else Reference(Init(trace), client, window)
  }

  function Memory(trace: Trace, window: nat): map<string, Window> {
    if trace == [] then map[] else MemoryHit(Memory(Init(trace), window), Last(trace).client, Last(trace).at, window)
  }

  function Redis(trace: Trace, window: nat): map<string, Counter> {
    if trace == [] then map[]
    else Script(Redis(Init(trace), window), Key(Last(trace).client), Last(trace).at, Ttl(window))
  }

  // The three decisions on the last call of a trace

  lemma ReferenceOfLast(trace: Trace, window: nat)
    requires trace != []
    ensures Reference(trace, Last(trace).client, window).Some?
    ensures Last(trace).client in Memory(trace, window) && Key(Last(trace).client) in Redis(trace, window)
  {
  }

  function ReferenceDecision(trace: Trace, limit: nat, window: nat): Decision
    requires trace != []
  {
    ReferenceOfLast(trace, window);
    Decide(Reference(trace, Last(trace).client, window).value.count, limit)
  }

  function MemoryDecision(trace: Trace, limit: nat, window: nat): Decision
    requires trace != []
  {
    ReferenceOfLast(trace, window);
    Decide(Memory(trace, window)[Last(trace).client].count, limit)
  }

  function RedisDecision(trace: Trace, limit: nat, window: nat): Decision
    requires trace != []
  {
    ReferenceOfLast(trace, window);
    Decide(Redis(trace, window)[Key(Last(trace).client)].n, limit)
  }
}
