/** The Redis denylist (pkg/auth/denylist.go) on one expiring key space, and the access
    decision that reads it (pkg/middleware/jwt_auth.go), against a log of revocations
    that never forgets. */
module Denylist {
  import opened Wrappers
  import opened Text
  import opened RefreshTokens
  import opened Sessions
  import SessionLaws

  datatype Entry = Entry(value: string, until: Time)

  /** Keys vanish at their TTL. */
  type Keys = map<string, Entry>

  datatype Jwt = Jwt(user: User, jti: string, iat: nat, exp: nat)  // NumericDates: whole seconds

  const JTI_PREFIX := "v1:token_denylist:jti:"
  const USER_PREFIX := "v1:token_denylist:user:"
  const USER_SUFFIX := ":revoke_before"

  function JtiKey(jti: string): string { JTI_PREFIX + jti }

  function UserKey(user: User): string { USER_PREFIX + Decimal(user) + USER_SUFFIX }

  function Get(keys: Keys, key: string, now: Time): Option<string> {
    if key in keys && now < keys[key].until then Some(keys[key].value) else None
  }

  function Set(keys: Keys, key: string, value: string, now: Time, ttl: nat): Keys {
    keys[key := Entry(value, now + ttl)]
  }

  // The two kinds of key never collide

  lemma UserKeyInjective(u: User, v: User)
    requires UserKey(u) == UserKey(v)
    ensures u == v
  {
    assert |Decimal(u)| == |Decimal(v)|;
    assert UserKey(u)[|USER_PREFIX|..|USER_PREFIX| + |Decimal(u)|] == Decimal(u);
    assert UserKey(v)[|USER_PREFIX|..|USER_PREFIX| + |Decimal(v)|] == Decimal(v);
    ParseDecimal(u);
    ParseDecimal(v);
  }

  lemma KeysApart(jti: string, user: User)
    ensures JtiKey(jti) != UserKey(user)
  {
    assert JtiKey(jti)[18] == 'j' && UserKey(user)[18] == 'u';
  }

  lemma JtiKeyInjective(a: string, b: string)
    requires JtiKey(a) == JtiKey(b)
    ensures a == b
  {
    assert JtiKey(a)[|JTI_PREFIX|..] == a && JtiKey(b)[|JTI_PREFIX|..] == b;
  }

  // GenerateToken

  /** A token minted at m: both dates cut to the second. */
  function Mint(user: User, jti: string, m: Time, ttl: nat): Jwt {
    Jwt(user, jti, Seconds(m), Seconds(m + ttl))
  }

  // What the denylist answers

  predicate JtiDenied(keys: Keys, jti: string, now: Time) {
    jti != "" && Get(keys, JtiKey(jti), now).Some?
  }

  predicate UserRevoked(keys: Keys, user: User, iat: nat, now: Time) {
    user != 0
    && match Get(keys, UserKey(user), now)
       case None => false
       case Some(value) => ParseNat(value).Some? && ParseNat(value).value >= iat
  }

  predicate Admits(keys: Keys, t: Jwt, now: Time) {
    now < t.exp * SECOND && t.user != 0 && !JtiDenied(keys, t.jti, now) && !UserRevoked(keys, t.user, t.iat, now)
  }

  // What the writes do

  function Denied(keys: Keys, jti: string, until: Time, now: Time): Keys {
    if jti == "" || until <= now then keys else Set(keys, JtiKey(jti), "1", now, until - now)
  }

  function UserDenied(keys: Keys, user: User, before: Time, now: Time, ttl: nat): Keys {
    if user == 0 || ttl == 0 then keys else Set(keys, UserKey(user), Decimal(Seconds(before)), now, ttl)
  }

  class RedisDenylist {
    var keys: Keys
    const accessTtl: nat

    constructor (accessTtl: nat)
      ensures keys == map[] && this.accessTtl == accessTtl
    {
      keys, this.accessTtl := map[], accessTtl;
    }

    method Deny(jti: string, until: Time, now: Time) returns (ok: bool)
      modifies this`keys
      ensures ok <==> jti != ""
      ensures keys == Denied(old(keys), jti, until, now)
    {
      if jti == "" { return false; }
      if until <= now { return true; }
      keys := Set(keys, JtiKey(jti), "1", now, until - now);
      return true;
    }

    method IsDenied(jti: string, now: Time) returns (denied: bool)
      ensures denied == JtiDenied(keys, jti, now)
    {
      if jti == "" { return false; }
      return Get(keys, JtiKey(jti), now).Some?;
    }

    method DenyUserBefore(user: User, before: Time, now: Time) returns (ok: bool)
      modifies this`keys
      ensures ok <==> user != 0
      ensures keys == UserDenied(old(keys), user, before, now, accessTtl)
    {
      if user == 0 { return false; }
      if accessTtl == 0 { return true; }
      keys := Set(keys, UserKey(user), Decimal(Seconds(before)), now, accessTtl);
      return true;
    }

    method IsUserRevoked(user: User, iat: nat, now: Time) returns (revoked: bool)
      ensures revoked == UserRevoked(keys, user, iat, now)
    {
      if user == 0 { return false; }
      var value := Get(keys, UserKey(user), now);
      if value.None? { return false; }
      var ts := ParseNat(value.value);
      if ts.None? { return false; }
      return ts.value >= iat;
    }

    /** JWTAuth after the signature check. */
    method Authorize(c: Claims, now: Time) returns (verdict: Verdict)
      ensures verdict == Invalid <==>
                (c.exp.Some? && now >= c.exp.value * SECOND) || c.user == 0 || !ValidRole(c.role)
      ensures verdict == Revoked <==>
                verdict != Invalid
                && (JtiDenied(keys, c.jti, now) || (c.iat.Some? && UserRevoked(keys, c.user, c.iat.value, now)))
      ensures c.exp.Some? && c.iat.Some? && ValidRole(c.role) ==>
                (verdict == Accepted <==> Admits(keys, Jwt(c.user, c.jti, c.iat.value, c.exp.value), now))
    {
      if c.exp.Some? && now >= c.exp.value * SECOND { return Invalid; }
      if c.user == 0 { return Invalid; }
      if !ValidRole(c.role) { return Invalid; }
      if c.jti != "" {
        var denied := IsDenied(c.jti, now);
        if denied { return Revoked; }
      }
      if c.iat.Some? {
        var revoked := IsUserRevoked(c.user, c.iat.value, now);
        if revoked { return Revoked; }
      }
      return Accepted;
    }
  }

  /** What a signed token may carry; GenerateToken fills in everything. */
  datatype Claims = Claims(user: User, jti: string, role: string, iat: Option<nat>, exp: Option<nat>)

  predicate ValidRole(role: string) { role in {"user", "admin"} }

  datatype Verdict = Accepted | Revoked | Invalid

  // Runs of revocations, and the log

  /** A revocation and when it happened: the clock read and the write are one step. */
  datatype Revocation = OneToken(t: Jwt, at: Time) | AllOf(user: User, at: Time)

  function Replay(log: seq<Revocation>, ttl: nat): Keys {
    if log == [] then map[]
    else
      var keys := Replay(log[..|log| - 1], ttl);
      match log[|log| - 1]
      case OneToken(t, at) => Denied(keys, t.jti, t.exp * SECOND, at)
      case AllOf(user, at) => UserDenied(keys, user, at, at, ttl)
  }

  predicate InOrder(log: seq<Revocation>, now: Time) {
    (forall i, j :: 0 <= i < j < |log| ==> log[i].at <= log[j].at) && forall i :: 0 <= i < |log| ==> log[i].at <= now
  }

  /** jtis are random: one jti, one token. */
  predicate JtisDistinct(log: seq<Revocation>, t: Jwt) {
    forall i :: 0 <= i < |log| && log[i].OneToken? && log[i].t.jti == t.jti ==> log[i].t == t
  }

  predicate Names(r: Revocation, t: Jwt) {
    match r
    case OneToken(u, _) => u == t
    case AllOf(user, at) => user == t.user && Seconds(at) >= t.iat
  }

  /** The decision of a log that never forgets. */
  predicate LogAdmits(log: seq<Revocation>, t: Jwt, now: Time) {
    now < t.exp * SECOND && !exists i :: 0 <= i < |log| && Names(log[i], t)
  }

  /** A token whose jti the log holds is denied for as long as it has not expired, and no
      other token is. */
  lemma {:induction false} JtiAgrees(log: seq<Revocation>, ttl: nat, t: Jwt, now: Time)
    requires InOrder(log, now) && JtisDistinct(log, t) && t.jti != "" && now < t.exp * SECOND
    ensures JtiDenied(Replay(log, ttl), t.jti, now) <==> exists i :: 0 <= i < |log| && log[i].OneToken? && log[i].t == t
    ensures JtiKey(t.jti) in Replay(log, ttl) ==> Replay(log, ttl)[JtiKey(t.jti)].until == t.exp * SECOND
  {
    if log != [] {
      var init, last := log[..|log| - 1], log[|log| - 1];
      JtiAgrees(init, ttl, t, now);
      assert forall i :: 0 <= i < |init| ==> init[i] == log[i];
      match last
      case OneToken(u, at) =>
        if JtiKey(u.jti) == JtiKey(t.jti) {
          JtiKeyInjective(u.jti, t.jti);
        }
      case AllOf(user, at) =>
        KeysApart(t.jti, user);
    }
  }

  /** The last logout of every session of a user. */
  function LastAll(log: seq<Revocation>, user: User): Option<Time> {
    if log == [] then None
    else if log[|log| - 1].AllOf? && log[|log| - 1].user == user then Some(log[|log| - 1].at)
    else LastAll(log[..|log| - 1], user)
  }

  /** The key of a user holds the second of the last logout-all, for one TTL. */
  lemma {:induction false} UserKeyHoldsLast(log: seq<Revocation>, ttl: nat, user: User)
    requires ttl > 0 && user != 0
    ensures var keys := Replay(log, ttl);
            match LastAll(log, user)
            case None => UserKey(user) !in keys
            case Some(at) => UserKey(user) in keys && keys[UserKey(user)] == Entry(Decimal(Seconds(at)), at + ttl)
  {
    if log != [] {
      var init, last := log[..|log| - 1], log[|log| - 1];
      UserKeyHoldsLast(init, ttl, user);
      match last
      case OneToken(t, at) =>
        KeysApart(t.jti, user);
      case AllOf(other, at) =>
        if UserKey(other) == UserKey(user) {
          UserKeyInjective(other, user);
        }
    }
  }

  lemma {:induction false} LastAllIsLatest(log: seq<Revocation>, now: Time, user: User)
    requires InOrder(log, now)
    ensures LastAll(log, user).None? ==> forall i :: 0 <= i < |log| ==> !(log[i].AllOf? && log[i].user == user)
    ensures LastAll(log, user).Some? ==>
              (exists i :: 0 <= i < |log| && log[i] == AllOf(user, LastAll(log, user).value))
              && forall i :: 0 <= i < |log| && log[i].AllOf? && log[i].user == user ==>
                   log[i].at <= LastAll(log, user).value
  {
    if log != [] {
      var init, last := log[..|log| - 1], log[|log| - 1];
      LastAllIsLatest(init, now, user);
      assert forall i :: 0 <= i < |init| ==> init[i] == log[i];
      if last.AllOf? && last.user == user {
        assert log[|log| - 1] == AllOf(user, last.at);
      }
    }
  }

  /** The store rejects for the user cutoff exactly while the key of the last logout-all
      lives; the log, forever. */
  lemma UserAgrees(log: seq<Revocation>, ttl: nat, t: Jwt, now: Time)
    requires InOrder(log, now) && ttl > 0 && t.user != 0
    ensures UserRevoked(Replay(log, ttl), t.user, t.iat, now) <==>
            LastAll(log, t.user).Some? && now < LastAll(log, t.user).value + ttl
            && Seconds(LastAll(log, t.user).value) >= t.iat
    ensures (exists i :: 0 <= i < |log| && log[i].AllOf? && Names(log[i], t)) <==>
            LastAll(log, t.user).Some? && Seconds(LastAll(log, t.user).value) >= t.iat
  {
    UserKeyHoldsLast(log, ttl, t.user);
    LastAllIsLatest(log, now, t.user);
    if LastAll(log, t.user).Some? {
      var at := LastAll(log, t.user).value;
      ParseDecimal(Seconds(at));
      assert forall i :: 0 <= i < |log| && log[i].at <= at ==> Seconds(log[i].at) <= Seconds(at);
    }
  }

  /** Where the expiring store and the log can differ: only for a token the log rejects by
      a logout-all whose key has already gone. */
  lemma StoreVersusLog(log: seq<Revocation>, ttl: nat, t: Jwt, now: Time)
    requires InOrder(log, now) && JtisDistinct(log, t) && ttl > 0 && t.user != 0 && t.jti != ""
    ensures Admits(Replay(log, ttl), t, now) <==>
            LogAdmits(log, t, now)
            || (now < t.exp * SECOND
                && (forall i :: 0 <= i < |log| && log[i].OneToken? ==> log[i].t != t)
                && LastAll(log, t.user).Some? && LastAll(log, t.user).value + ttl <= now)
  {
    UserAgrees(log, ttl, t, now);
    if now < t.exp * SECOND {
      JtiAgrees(log, ttl, t, now);
    }
    if i :| 0 <= i < |log| && Names(log[i], t) {
      assert log[i].AllOf? || log[i].t == t;
    }
    if i :| 0 <= i < |log| && log[i].OneToken? && log[i].t == t {
      assert Names(log[i], t);
    }
    if i :| 0 <= i < |log| && log[i].AllOf? && Names(log[i], t) {
      assert Names(log[i], t);
    }
  }

  lemma WholeSeconds(m: Time, ttl: nat, at: Time)
    requires ttl % SECOND == 0 && Seconds(at) >= Seconds(m)
    ensures Seconds(m + ttl) * SECOND <= at + ttl
  {
    assert Seconds(m + ttl) == Seconds(m) + ttl / SECOND;
  }

  lemma MintedBefore(m: Time, ttl: nat, at: Time)
    requires m <= at
    ensures Seconds(m + ttl) * SECOND <= at + ttl
  {
  }

  /** With an access TTL of whole seconds the denylist decides like the log. */
  lemma StoreAgreesWithLog(log: seq<Revocation>, ttl: nat, user: User, jti: string, m: Time, now: Time)
    requires InOrder(log, now) && ttl > 0 && user != 0 && jti != ""
    requires JtisDistinct(log, Mint(user, jti, m, ttl))
    requires ttl % SECOND == 0
    ensures Admits(Replay(log, ttl), Mint(user, jti, m, ttl), now) <==> LogAdmits(log, Mint(user, jti, m, ttl), now)
  {
    var t := Mint(user, jti, m, ttl);
    StoreVersusLog(log, ttl, t, now);
    UserAgrees(log, ttl, t, now);
    if LastAll(log, user).Some? && Seconds(LastAll(log, user).value) >= t.iat {
      WholeSeconds(m, ttl, LastAll(log, user).value);
    }
  }

  /** Any TTL: a token minted no later than a logout-all of its user stays rejected. */
  lemma EarlierTokensRejected(log: seq<Revocation>, ttl: nat, user: User, jti: string, m: Time, now: Time, i: nat)
    requires InOrder(log, now) && ttl > 0 && user != 0
    requires i < |log| && log[i].AllOf? && log[i].user == user && m <= log[i].at
    ensures !Admits(Replay(log, ttl), Mint(user, jti, m, ttl), now)
  {
    var t := Mint(user, jti, m, ttl);
    UserAgrees(log, ttl, t, now);
    LastAllIsLatest(log, now, user);
    MintedBefore(m, ttl, LastAll(log, user).value);
  }

  /** A revocation history and a token minted by now. */
  predicate Plausible(log: seq<Revocation>, t: Jwt, m: Time, now: Time) {
    InOrder(log, now) && JtisDistinct(log, t) && m <= now && t.user != 0 && t.jti != ""
  }

  ghost predicate AlwaysAgrees(ttl: nat) {
    forall log, user, jti, m, now | Plausible(log, Mint(user, jti, m, ttl), m, now) ::
      Admits(Replay(log, ttl), Mint(user, jti, m, ttl), now) <==> LogAdmits(log, Mint(user, jti, m, ttl), now)
  }

  /** A TTL with a part of a second: a token minted later in the second of a logout-all
      outlives the cutoff. */
  lemma PartSecondsDiffer(ttl: nat, user: User, jti: string)
    requires ttl % SECOND != 0 && user != 0 && jti != ""
    ensures var m := SECOND - ttl % SECOND;
            var now := if ttl < m then m else ttl;
            var (log, t) := ([AllOf(user, 0)], Mint(user, jti, m, ttl));
            Plausible(log, t, m, now) && Admits(Replay(log, ttl), t, now) && !LogAdmits(log, t, now)
  {
    var m := SECOND - ttl % SECOND;
    var now := if ttl < m then m else ttl;
    var (log, t) := ([AllOf(user, 0)], Mint(user, jti, m, ttl));
    assert t.exp == ttl / SECOND + 1 && t.iat == 0;
    StoreVersusLog(log, ttl, t, now);
    assert log[0] == AllOf(user, 0) && Names(log[0], t);
    assert LastAll(log, user) == Some(0);
  }

  /** The expiring denylist is as good as a log that never forgets exactly when the
      access TTL is a whole number of seconds. */
  lemma AgreesExactlyOnWholeSeconds(ttl: nat)
    requires ttl > 0
    ensures AlwaysAgrees(ttl) <==> ttl % SECOND == 0
  {
    if ttl % SECOND == 0 {
      forall log, user, jti, m, now | Plausible(log, Mint(user, jti, m, ttl), m, now)
        ensures Admits(Replay(log, ttl), Mint(user, jti, m, ttl), now) <==> LogAdmits(log, Mint(user, jti, m, ttl), now)
      {
        StoreAgreesWithLog(log, ttl, user, jti, m, now);
      }
    } else {
      PartSecondsDiffer(ttl, 1, "j");
    }
  }

  /** Without revocations a token lives for its TTL, less at most the part of a second
      that exp cuts off. */
  lemma MintLifetime(user: User, jti: string, m: Time, ttl: nat, now: Time)
    requires user != 0
    ensures now + 1_000_000_000 <= m + ttl ==> Admits(map[], Mint(user, jti, m, ttl), now)
    ensures m + ttl <= now ==> !Admits(map[], Mint(user, jti, m, ttl), now)
  {
  }

  /** A logout-all leaves alone the tokens that are minted in a later second. */
  lemma LaterTokensAccepted(log: seq<Revocation>, ttl: nat, user: User, jti: string, m: Time, now: Time)
    requires Plausible(log, Mint(user, jti, m, ttl), m, now) && ttl > 0 && now + 1_000_000_000 <= m + ttl
    requires forall i :: 0 <= i < |log| ==>
               match log[i]
               case OneToken(t, _) => t.jti != jti
               case AllOf(other, at) => other == user ==> at / 1_000_000_000 < m / 1_000_000_000
    ensures Admits(Replay(log, ttl), Mint(user, jti, m, ttl), now)
  {
    var t := Mint(user, jti, m, ttl);
    assert forall i :: 0 <= i < |log| ==> !Names(log[i], t);
    StoreVersusLog(log, ttl, t, now);
  }

  // The interleaving machine on this key space

  predicate CutoffAt(cutoffs: map<User, Cutoff>, keys: Keys, user: User) {
    && (user in cutoffs <==> UserKey(user) in keys)
    && (user in cutoffs ==> keys[UserKey(user)] == Entry(Decimal(cutoffs[user].second), cutoffs[user].until))
  }

  predicate DeniedAt(denied: map<string, Time>, keys: Keys, jti: string) {
    && (jti in denied <==> JtiKey(jti) in keys)
    && (jti in denied ==> keys[JtiKey(jti)] == Entry("1", denied[jti]))
  }

  ghost predicate SameKeys(cutoffs: map<User, Cutoff>, denied: map<string, Time>, keys: Keys) {
    (forall user :: CutoffAt(cutoffs, keys, user)) && (forall jti :: DeniedAt(denied, keys, jti))
  }

  /** The machine's cutoffs are the user keys, and its denied jtis are the jti keys. */
  ghost predicate SameStore(s: State, keys: Keys) { SameKeys(s.cutoffs, s.denied, keys) }

  /** What a step of the machine writes to Redis. */
  function KeysStep(s: State, keys: Keys, e: Event): Keys {
    if e.Advance? && e.r in s.requests && s.requests[e.r].call.Logout?
    then LogoutKeys(s, keys, s.requests[e.r].call, s.requests[e.r].pc)
    else keys
  }

  function LogoutKeys(s: State, keys: Keys, call: Call, pc: Pc): Keys
    requires call.Logout?
  {
    match pc
    case DenyingUser(at) => UserDenied(keys, call.user, at, s.now, s.config.accessTtl)
    case DenyingToken => if call.exp.Some? then Denied(keys, call.jti, call.exp.value, s.now) else keys
    case _ => keys
  }

  function KeysRun(s: State, keys: Keys, es: seq<Event>): Keys
    decreases |es|
  {
    if es == [] then keys else KeysRun(Step(s, es[0]), KeysStep(s, keys, es[0]), es[1..])
  }

  /** DenyUserBefore writes the machine's cutoff and nothing else. */
  lemma CutoffWritten(s: State, keys: Keys, user: User, before: Time)
    requires SameStore(s, keys) && user != 0
    ensures SameKeys(
              s.cutoffs[user := Cutoff(Seconds(before), s.now + s.config.accessTtl)], s.denied,
              UserDenied(keys, user, before, s.now, s.config.accessTtl))
  {
    var cutoffs := s.cutoffs[user := Cutoff(Seconds(before), s.now + s.config.accessTtl)];
    var keys' := UserDenied(keys, user, before, s.now, s.config.accessTtl);
    forall other ensures CutoffAt(cutoffs, keys', other) {
      assert CutoffAt(s.cutoffs, keys, other);
      if UserKey(other) == UserKey(user) {
        UserKeyInjective(other, user);
      }
    }
    forall jti ensures DeniedAt(s.denied, keys', jti) {
      assert DeniedAt(s.denied, keys, jti);
      KeysApart(jti, user);
    }
  }

  /** Deny writes the machine's denied jti and nothing else. */
  lemma TokenWritten(s: State, keys: Keys, jti: string, until: Time)
    requires SameStore(s, keys) && jti != "" && s.now < until
    ensures SameKeys(s.cutoffs, s.denied[jti := until], Denied(keys, jti, until, s.now))
  {
    var keys' := Denied(keys, jti, until, s.now);
    var denied := s.denied[jti := until];
    forall other ensures DeniedAt(denied, keys', other) {
      assert DeniedAt(s.denied, keys, other);
      if JtiKey(other) == JtiKey(jti) {
        JtiKeyInjective(other, jti);
      }
    }
    forall user ensures CutoffAt(s.cutoffs, keys', user) {
      assert CutoffAt(s.cutoffs, keys, user);
      KeysApart(jti, user);
    }
  }

  lemma LogoutSameStore(s: State, keys: Keys, call: Call, pc: Pc)
    requires SameStore(s, keys) && call.Logout?
    ensures var fx := LogoutStep(s, call, pc); SameKeys(fx.cutoffs, fx.denied, LogoutKeys(s, keys, call, pc))
  {
    match pc
    case DenyingUser(at) =>
      if call.user != 0 {
        CutoffWritten(s, keys, call.user, at);
      }
    case DenyingToken =>
      if call.exp.Some? && call.jti != "" && s.now < call.exp.value {
        TokenWritten(s, keys, call.jti, call.exp.value);
      }
    case _ =>
  }

  /** Every step keeps the machine's store equal to the keys in Redis. */
  lemma StepSameStore(s: State, keys: Keys, e: Event)
    requires SameStore(s, keys)
    ensures SameStore(Step(s, e), KeysStep(s, keys, e))
  {
    if e.Advance? && e.r in s.requests && s.requests[e.r].call.Logout? {
      LogoutSameStore(s, keys, s.requests[e.r].call, s.requests[e.r].pc);
    }
  }

  lemma {:induction false} RunSameStore(s: State, keys: Keys, es: seq<Event>)
    requires SameStore(s, keys)
    ensures SameStore(Run(s, es), KeysRun(s, keys, es)) && Run(s, es).config == s.config
    decreases |es|
  {
    if es != [] {
      StepSameStore(s, keys, es[0]);
      RunSameStore(Step(s, es[0]), KeysStep(s, keys, es[0]), es[1..]);
    }
  }

  /** The machine accepts a token exactly when JWTAuth does. */
  lemma MachineAccepts(s: State, keys: Keys, user: User, jti: string, m: Time)
    requires SameStore(s, keys) && user != 0
    ensures SessionLaws.Accepts(s, user, jti, m) <==> Admits(keys, Mint(user, jti, m, s.config.accessTtl), s.now)
  {
    assert CutoffAt(s.cutoffs, keys, user) && DeniedAt(s.denied, keys, jti);
    if user in s.cutoffs {
      ParseDecimal(s.cutoffs[user].second);
    }
  }

  /** JWTAuth, in a continuation of a run, on a token of the user minted at m. */
  predicate AuthAdmits(config: Config, es: seq<Event>, more: seq<Event>, user: User, jti: string, m: Time) {
    var (s, keys) := (Run(Init(config), es), KeysRun(Init(config), map[], es));
    Admits(KeysRun(s, keys, more), Mint(user, jti, m, config.accessTtl), Run(s, more).now)
  }

  ghost predicate AuthRejectsForever(config: Config, es: seq<Event>, user: User, at: Time) {
    forall more, jti, m: Time :: m <= at ==> !AuthAdmits(config, es, more, user, jti, m)
  }

  lemma AuthIsAccepts(config: Config, es: seq<Event>, more: seq<Event>, user: User, jti: string, m: Time)
    requires user != 0
    ensures AuthAdmits(config, es, more, user, jti, m)
            <==> SessionLaws.Accepts(Run(Run(Init(config), es), more), user, jti, m)
  {
    var (s, keys) := (Run(Init(config), es), KeysRun(Init(config), map[], es));
    RunSameStore(Init(config), map[], es);
    RunSameStore(s, keys, more);
    MachineAccepts(Run(s, more), KeysRun(s, keys, more), user, jti, m);
  }

  /** The finality of logout-all on the real keys, cutoffs and denied jtis side by side in
      one key space: JWTAuth rejects the user's tokens minted up to `at` in every
      continuation if and only if no older logout-all is still to write, or they have
      expired. */
  lemma AuthFinalIff(config: Config, es: seq<Event>, user: User, at: Time)
    requires var s := Run(Init(config), es);
             user != 0 && SessionLaws.Covers(s, user, at) && s.cutoffs[user].second == Seconds(at)
    ensures var s := Run(Init(config), es);
            AuthRejectsForever(config, es, user, at)
            <==> !SessionLaws.OlderPending(s, user, at) || !SessionLaws.Live(s, at)
  {
    var s := Run(Init(config), es);
    SessionLaws.LogoutAllFinalIff(config, es, user, at);
    forall more, jti, m: Time
      ensures AuthAdmits(config, es, more, user, jti, m) <==> SessionLaws.Accepts(Run(s, more), user, jti, m)
    {
      AuthIsAccepts(config, es, more, user, jti, m);
    }
  }
}
