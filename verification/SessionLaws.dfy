/** What the session protocol guarantees over whole runs, for any number of concurrent
    callers: single use of refresh tokens, reuse detection, and logout. */
module SessionLaws {
  import opened Wrappers
  import opened RefreshTokens
  import opened Sessions

  lemma ReachableInv(config: Config, es: seq<Event>)
    ensures Inv(Run(Init(config), es))
  {
    RunKeeps(Init(config), es);
  }

  // Families

  /** The largest row id of a family. */
  function Newest(rows: Table, family: Family): Option<nat> {
    if rows == [] then None
    else if rows[|rows| - 1].family == family then Some(|rows| - 1)
    else Newest(rows[..|rows| - 1], family)
  }

  lemma {:induction false} NewestIsLast(rows: Table, family: Family)
    ensures Newest(rows, family).None? ==> !HasFamily(rows, family)
    ensures Newest(rows, family).Some? ==>
              var k := Newest(rows, family).value;
              k < |rows| && rows[k].family == family
              && forall j :: 0 <= j < |rows| && rows[j].family == family ==> j <= k
  {
    if rows != [] {
      NewestIsLast(rows[..|rows| - 1], family);
      assert forall j :: 0 <= j < |rows| - 1 ==> rows[..|rows| - 1][j] == rows[j];
    }
  }

  /** In every reachable state the newest row of a family is its one unconsumed row, and
      its rows agree on the user and on whether and when they were revoked. */
  lemma FamilyShape(config: Config, es: seq<Event>, i: nat)
    requires i < |Run(Init(config), es).rows|
    ensures var rows := Run(Init(config), es).rows;
            var newest := Newest(rows, rows[i].family);
            && newest.Some? && i <= newest.value < |rows|
            && rows[newest.value].family == rows[i].family
            && rows[newest.value].user == rows[i].user
            && rows[newest.value].revoked == rows[i].revoked
            && (rows[i].consumed.None? <==> i == newest.value)
  {
    var rows := Run(Init(config), es).rows;
    ReachableInv(config, es);
    NewestIsLast(rows, rows[i].family);
    var k := Newest(rows, rows[i].family).value;
    assert LastOfFamily(rows, i) <==> i == k;
  }

  /** Rows never leave, never change identity, and consumed_at and revoked_at are
      written at most once, whatever happens next. */
  lemma WriteOnce(config: Config, es: seq<Event>, more: seq<Event>)
    ensures var s := Run(Init(config), es); Extends(s.rows, Run(s, more).rows)
  {
    ReachableInv(config, es);
    RunKeeps(Run(Init(config), es), more);
  }

  // Single use

  predicate Won(s: State, r: Id, presented: Hash) {
    r in s.requests && s.requests[r].call == Refresh(presented)
    && s.requests[r].pc.Done? && s.requests[r].pc.outcome.Refreshed?
  }

  /** A refresh token yields at most one successful refresh in any run. */
  lemma SingleUse(config: Config, es: seq<Event>, presented: Hash, r1: Id, r2: Id)
    requires Won(Run(Init(config), es), r1, presented) && Won(Run(Init(config), es), r2, presented)
    ensures r1 == r2
  {
    var s := Run(Init(config), es);
    ReachableInv(config, es);
    var p1, p2 := s.requests[r1].pc.outcome.parent, s.requests[r2].pc.outcome.parent;
    assert RequestInv(s.rows, s.now, s.requests[r1]) && RequestInv(s.rows, s.now, s.requests[r2]);
    assert s.rows[p1].hash == s.rows[p2].hash;
    assert Succeeded(s, r1, p1) && Succeeded(s, r2, p1);
  }

  // Revoked families are frozen

  /** The family exists and every row of it is revoked. */
  ghost predicate Dead(rows: Table, family: Family) {
    HasFamily(rows, family) && forall i :: 0 <= i < |rows| && rows[i].family == family ==> rows[i].revoked.Some?
  }

  /** From s to s': no row joined the family and none of its tokens was refreshed. */
  ghost predicate Frozen(s: State, s': State, family: Family) {
    && |s.rows| <= |s'.rows|
    && (forall i :: |s.rows| <= i < |s'.rows| ==> s'.rows[i].family != family)
    && (forall r, parent: nat :: Succeeded(s', r, parent) && parent < |s'.rows| && s'.rows[parent].family == family ==>
          Succeeded(s, r, parent))
  }

  lemma StepFreezes(s: State, e: Event, family: Family)
    requires Inv(s) && Dead(s.rows, family)
    ensures Dead(Step(s, e).rows, family) && Frozen(s, Step(s, e), family)
  {
    var s' := Step(s, e);
    StepExtends(s, e);
    StepKeepsInv(s, e);
    assert forall i :: 0 <= i < |s.rows| ==> RowExtends(s.rows[i], s'.rows[i]);
    assert forall i :: |s.rows| <= i < |s'.rows| ==> s'.rows[i].family != family by {
      NewRows(s, e, family);
    }
    forall r, parent: nat | Succeeded(s', r, parent) && parent < |s'.rows| && s'.rows[parent].family == family
      ensures Succeeded(s, r, parent)
    {
      if !Succeeded(s, r, parent) {
        SuccessNeedsActive(s, e, r, parent);
      }
    }
    var i :| 0 <= i < |s.rows| && s.rows[i].family == family;
    assert s'.rows[i].family == family;
  }

  /** A new row opens a new family or continues one that has an active row. */
  lemma NewRows(s: State, e: Event, family: Family)
    requires Inv(s) && Dead(s.rows, family)
    ensures forall i :: |s.rows| <= i < |Step(s, e).rows| ==> Step(s, e).rows[i].family != family
  {
    if e.Advance? && e.r in s.requests {
      var req := s.requests[e.r];
      assert RequestInv(s.rows, s.now, req);
    }
  }

  lemma {:induction false} RunFreezes(s: State, es: seq<Event>, family: Family)
    requires Inv(s) && Dead(s.rows, family)
    ensures Dead(Run(s, es).rows, family) && Frozen(s, Run(s, es), family)
    decreases |es|
  {
    if es != [] {
      var s1 := Step(s, es[0]);
      StepFreezes(s, es[0], family);
      StepKeepsInv(s, es[0]);
      RunFreezes(s1, es[1..], family);
      RunKeeps(s1, es[1..]);
      FrozenThrough(s, s1, Run(s, es), family);
    }
  }

  lemma FrozenThrough(s: State, s1: State, s2: State, family: Family)
    requires Inv(s1) && Extends(s1.rows, s2.rows) && Frozen(s, s1, family) && Frozen(s1, s2, family)
    ensures Frozen(s, s2, family)
  {
    forall r, parent: nat | Succeeded(s2, r, parent) && parent < |s2.rows| && s2.rows[parent].family == family
      ensures Succeeded(s, r, parent)
    {
      assert Succeeded(s1, r, parent);
      assert RequestInv(s1.rows, s1.now, s1.requests[r]);
      assert RowExtends(s1.rows[parent], s2.rows[parent]);
    }
    forall i | |s.rows| <= i < |s2.rows| ensures s2.rows[i].family != family {
      if i < |s1.rows| {
        assert RowExtends(s1.rows[i], s2.rows[i]);
      }
    }
  }

  /** A refresh that ends in reuse detection, a lost race included, has revoked the whole
      family of the presented token for good: no row joins it and none of its tokens,
      the race winner's included, is ever refreshed again. */
  lemma ReuseRevokesForever(config: Config, es: seq<Event>, more: seq<Event>, r: Id)
    requires var s := Run(Init(config), es);
             r in s.requests && s.requests[r].pc.Done? && s.requests[r].pc.outcome.ReuseDetected?
    ensures var s := Run(Init(config), es);
            var outcome := s.requests[r].pc.outcome;
            && s.requests[r].call.Refresh?
            && outcome.id < |s.rows| && s.rows[outcome.id].hash == s.requests[r].call.hash
            && s.rows[outcome.id].family == outcome.family
            && Dead(Run(s, more).rows, outcome.family) && Frozen(s, Run(s, more), outcome.family)
  {
    var s := Run(Init(config), es);
    ReachableInv(config, es);
    var outcome := s.requests[r].pc.outcome;
    assert RequestInv(s.rows, s.now, s.requests[r]);
    assert s.rows[outcome.id].family == outcome.family;
    RunFreezes(s, more, outcome.family);
  }

  // Logout of every session: refresh tokens

  predicate IsLogoutAll(call: Call, user: User) { call.Logout? && call.user == user && call.one.None? }

  /** Request r logs the user out everywhere and is at this point. */
  predicate About(s: State, r: Id, user: User, pc: Pc) {
    r in s.requests && IsLogoutAll(s.requests[r].call, user) && s.requests[r].pc == pc
  }

  /** Once logout-all has revoked the user's rows, every family the user had is dead for
      good: nothing it contains can be rotated, not even by a refresh that read its row
      earlier. Rows of the user that are still active belong to later families. */
  lemma LogoutAllEndsSessions(
      config: Config, es: seq<Event>, r: Id, user: User, at: Time, hash: Hash, family: Family, more: seq<Event>, i: nat)
    requires About(Run(Init(config), es), r, user, RevokingAll(at))
    requires i < |Run(Init(config), es).rows| && Run(Init(config), es).rows[i].user == user
    ensures var s := Run(Init(config), es);
            var s1 := Step(s, Advance(r, hash, family));
            && About(s1, r, user, DenyingUser(at))
            && Dead(Run(s1, more).rows, s.rows[i].family)
            && Frozen(s1, Run(s1, more), s.rows[i].family)
            && Run(s1, more).rows[i].revoked.Some?
  {
    var s := Run(Init(config), es);
    var s1 := Step(s, Advance(r, hash, family));
    ReachableInv(config, es);
    StepKeepsInv(s, Advance(r, hash, family));
    assert s1.rows == RevokeUserRows(s.rows, user, at);
    assert s1.rows[i].family == s.rows[i].family;
    forall j | 0 <= j < |s1.rows| && s1.rows[j].family == s.rows[i].family ensures s1.rows[j].revoked.Some? {
      assert i != j ==> s.rows[i].user == s.rows[j].user;
    }
    RunFreezes(s1, more, s.rows[i].family);
    RunKeeps(s1, more);
    assert RowExtends(s1.rows[i], Run(s1, more).rows[i]);
  }

  // Logout of every session: access tokens

  /** exp of an access token minted at m, as a time: minted plus TTL, cut to seconds. */
  function Expiry(config: Config, m: Time): Time { Seconds(m + config.accessTtl) * SECOND }

  predicate Live(s: State, m: Time) { s.now < Expiry(s.config, m) }

  /** revoke_before is still stored and is not older than the token's iat. */
  predicate CutOff(s: State, user: User, m: Time) {
    user in s.cutoffs && s.now < s.cutoffs[user].until && s.cutoffs[user].second >= Seconds(m)
  }

  predicate JtiDenied(s: State, jti: string) { jti != "" && jti in s.denied && s.now < s.denied[jti] }

  /** JWTAuth on a token of the user minted at m. */
  predicate Accepts(s: State, user: User, jti: string, m: Time) {
    Live(s, m) && !CutOff(s, user, m) && !JtiDenied(s, jti)
  }

  lemma ExpiryMonotone(config: Config, m: Time, t: Time)
    requires m <= t
    ensures Expiry(config, m) <= Expiry(config, t) <= t + config.accessTtl && Seconds(m) <= Seconds(t)
  {
  }

  /** The stored cutoff outlives every token minted up to `at`. */
  predicate Covers(s: State, user: User, at: Time) {
    at <= s.now && user in s.cutoffs && at + s.config.accessTtl <= s.cutoffs[user].until
  }

  lemma {:induction false} CoversForever(s: State, es: seq<Event>, user: User, at: Time)
    requires Covers(s, user, at)
    ensures Covers(Run(s, es), user, at) && Run(s, es).config == s.config && s.now <= Run(s, es).now
    decreases |es|
  {
    if es != [] {
      CoversForever(Step(s, es[0]), es[1..], user, at);
    }
  }

  /** After logout-all has stored its cutoff, a token minted no later than the logout
      read the clock is accepted exactly when it has not expired, its jti is not denied,
      and the cutoff stored now is older than its iat. */
  lemma CutoffDecides(s: State, user: User, at: Time, jti: string, m: Time)
    requires Covers(s, user, at) && m <= at
    ensures Accepts(s, user, jti, m) <==> Live(s, m) && !JtiDenied(s, jti) && s.cutoffs[user].second < Seconds(m)
  {
    ExpiryMonotone(s.config, m, at);
  }

  /** Another logout-all of the user is between its clock read and its write, with an
      older second. */
  predicate OlderPending(s: State, user: User, at: Time) {
    exists r :: r in s.requests && OlderLogout(s.requests[r], user, at)
  }

  predicate OlderLogout(req: Request, user: User, at: Time) {
    IsLogoutAll(req.call, user)
    && (req.pc.RevokingAll? || req.pc.DenyingUser?) && Seconds(req.pc.at) < Seconds(at)
  }

  predicate NewEnough(s: State, user: User, at: Time) {
    Covers(s, user, at) && s.cutoffs[user].second >= Seconds(at) && !OlderPending(s, user, at)
  }

  /** A logout-all that starts now is not older than one that read the clock before. */
  lemma NoneOlderStarts(s: State, e: Event, user: User, at: Time)
    requires at <= s.now && !OlderPending(s, user, at)
    ensures !OlderPending(Step(s, e), user, at)
  {
    var s' := Step(s, e);
    if r :| r in s'.requests && OlderLogout(s'.requests[r], user, at) {
      assert r in s.requests && !OlderLogout(s.requests[r], user, at);
      ExpiryMonotone(s.config, at, s.now);
    }
  }

  lemma StaysNewEnough(s: State, e: Event, user: User, at: Time)
    requires Inv(s) && NewEnough(s, user, at)
    ensures NewEnough(Step(s, e), user, at)
  {
    NoneOlderStarts(s, e, user, at);
    if e.Advance? && e.r in s.requests {
      assert !OlderLogout(s.requests[e.r], user, at);
    }
  }

  lemma {:induction false} AlwaysNewEnough(s: State, es: seq<Event>, user: User, at: Time)
    requires Inv(s) && NewEnough(s, user, at)
    ensures NewEnough(Run(s, es), user, at)
    decreases |es|
  {
    if es != [] {
      StaysNewEnough(s, es[0], user, at);
      StepKeepsInv(s, es[0]);
      AlwaysNewEnough(Step(s, es[0]), es[1..], user, at);
    }
  }

  /** A run in which the older logout finishes leaves its older cutoff stored. */
  lemma OlderOverwrites(s: State, user: User, at: Time, r: Id)
    requires r in s.requests && OlderLogout(s.requests[r], user, at) && user != 0
    ensures exists es :: user in Run(s, es).cutoffs && Run(s, es).cutoffs[user].second < Seconds(at)
                         && Run(s, es).now == s.now && Run(s, es).config == s.config && Run(s, es).denied == s.denied
  {
    var go := Advance(r, 0, 0);
    var s1 := Step(s, go);
    assert Run(s, [go]) == Run(s1, []) == s1;
    if s.requests[r].pc.RevokingAll? {
      var s2 := Step(s1, go);
      assert [go, go][1..] == [go];
      assert Run(s, [go, go]) == Run(s1, [go]) == Run(s2, []) == s2;
    }
  }

  /** There is always a jti that was not denied. */
  lemma {:induction false} LongerThanAll(jtis: set<string>) returns (n: nat)
    ensures forall jti :: jti in jtis ==> |jti| < n
  {
    n := 0;
    if jtis != {} {
      var one :| one in jtis;
      n := LongerThanAll(jtis - {one});
      n := if n <= |one| then |one| + 1 else n;
    }
  }

  ghost predicate RejectsForever(s: State, user: User, at: Time) {
    forall es: seq<Event>, jti: string, m: Time :: m <= at ==> !Accepts(Run(s, es), user, jti, m)
  }

  /** Exactly when logout-all is final for access tokens. In a reachable state in which a
      logout-all that read the clock at `at` has stored its cutoff, the user's tokens
      minted up to `at` are rejected in every continuation if and only if no other
      logout-all of the user is in flight with an older second (or the tokens have
      expired anyway). */
  lemma LogoutAllFinalIff(config: Config, es: seq<Event>, user: User, at: Time)
    requires var s := Run(Init(config), es);
             user != 0 && Covers(s, user, at) && s.cutoffs[user].second == Seconds(at)
    ensures var s := Run(Init(config), es);
            RejectsForever(s, user, at) <==> !OlderPending(s, user, at) || !Live(s, at)
  {
    var s := Run(Init(config), es);
    ReachableInv(config, es);
    if !OlderPending(s, user, at) || !Live(s, at) {
      forall more: seq<Event>, jti: string, m: Time | m <= at ensures !Accepts(Run(s, more), user, jti, m) {
        CoversForever(s, more, user, at);
        CutoffDecides(Run(s, more), user, at, jti, m);
        ExpiryMonotone(s.config, m, at);
        if !OlderPending(s, user, at) {
          AlwaysNewEnough(s, more, user, at);
        }
      }
    } else {
      var r :| r in s.requests && OlderLogout(s.requests[r], user, at);
      OlderOverwrites(s, user, at, r);
      var more :| user in Run(s, more).cutoffs && Run(s, more).cutoffs[user].second < Seconds(at)
                  && Run(s, more).now == s.now && Run(s, more).config == s.config && Run(s, more).denied == s.denied;
      var n := LongerThanAll(s.denied.Keys);
      assert Accepts(Run(s, more), user, seq(n, _ => 'j'), at);
    }
  }

  /** The write of a logout-all establishes what LogoutAllFinalIff starts from. */
  lemma LogoutAllStores(config: Config, es: seq<Event>, r: Id, user: User, at: Time, hash: Hash, family: Family)
    requires user != 0 && About(Run(Init(config), es), r, user, DenyingUser(at))
    ensures var s1 := Step(Run(Init(config), es), Advance(r, hash, family));
            && About(s1, r, user, DenyingToken)
            && Covers(s1, user, at) && s1.cutoffs[user].second == Seconds(at)
  {
    ReachableInv(config, es);
    var s := Run(Init(config), es);
    assert RequestInv(s.rows, s.now, s.requests[r]);
  }

  // The run that reopens access

  const SHORT := Config(300 * SECOND, 3600 * SECOND)

  /** A logout of every session with the access token that was minted at 0 s. */
  function All(user: User): Call { Logout(user, None, "caller", Some(300 * SECOND)) }

  /** Logouts 0 and 1 of every session, at the given points, with the clock at 5 s, after
      a login that minted at 5 s. */
  function Overlapping(
      user: User, rows: Table, pc0: Pc, pc1: Pc, cutoffs: map<User, Cutoff>, denied: map<string, Time>): State
  {
    State(SHORT, 5 * SECOND, rows, cutoffs, denied,
          map[0 := Request(All(user), pc0), 1 := Request(All(user), pc1),
              2 := Request(Login(user), Done(LoggedIn(0, 5 * SECOND)))])
  }

  /** Logout 0 reads the clock at 0 s; the login comes at 5 s. */
  function OverlapStart(user: User): seq<Event> {
    [Begin(0, All(user)), Begin(1, All(user)), Advance(0, 0, 0)]
    + ([Begin(2, Login(user)), Tick(5 * SECOND)] + [Advance(2, 0, 0), Advance(2, 0, 0)])
  }

  /** Logout 1 reads the clock at 5 s and finishes. */
  function OverlapMiddle(): seq<Event> {
    [Advance(1, 0, 0), Advance(1, 0, 0)] + [Advance(1, 0, 0), Advance(1, 0, 0)]
  }

  /** Logout 0 goes on and finishes. */
  function OverlapEnd(): seq<Event> {
    [Advance(0, 0, 0), Advance(0, 0, 0), Advance(0, 0, 0)]
  }

  lemma Run2(s: State, e1: Event, e2: Event)
    ensures Run(s, [e1, e2]) == Step(Step(s, e1), e2)
  {
    assert [e1, e2][1..] == [e2];
    assert Run(s, [e1, e2]) == Run(Step(s, e1), [e2]) == Run(Step(Step(s, e1), e2), []);
  }

  lemma Run3(s: State, e1: Event, e2: Event, e3: Event)
    ensures Run(s, [e1, e2, e3]) == Step(Step(Step(s, e1), e2), e3)
  {
    assert [e1, e2, e3][1..] == [e2, e3];
    Run2(Step(s, e1), e2, e3);
  }

  lemma {:induction false} RunAppend(s: State, es: seq<Event>, more: seq<Event>)
    ensures Run(s, es + more) == Run(Run(s, es), more)
    decreases |es|
  {
    if es == [] {
      assert es + more == more;
    } else {
      RunAppend(Step(s, es[0]), es[1..], more);
      assert (es + more)[1..] == es[1..] + more;
    }
  }

  function LoginRow(user: User): Row { Row(user, 0, 0, 3605 * SECOND, None, None) }

  function EndedRow(user: User): Row { Row(user, 0, 0, 3605 * SECOND, None, Some(5 * SECOND)) }

  lemma BothBegin(user: User)
    ensures Run(Init(SHORT), [Begin(0, All(user)), Begin(1, All(user)), Advance(0, 0, 0)])
            == State(SHORT, 0, [], map[], map[],
                     map[0 := Request(All(user), RevokingAll(0)), 1 := Request(All(user), Start)])
  {
    Run3(Init(SHORT), Begin(0, All(user)), Begin(1, All(user)), Advance(0, 0, 0));
  }

  lemma LoginRuns(user: User, s: State)
    requires s == State(SHORT, 0, [], map[], map[],
                        map[0 := Request(All(user), RevokingAll(0)), 1 := Request(All(user), Start)])
    ensures Run(s, [Begin(2, Login(user)), Tick(5 * SECOND)] + [Advance(2, 0, 0), Advance(2, 0, 0)])
            == Overlapping(user, [LoginRow(user)], RevokingAll(0), Start, map[], map[])
  {
    var s2 := s.(now := 5 * SECOND, requests := s.requests[2 := Request(Login(user), Start)]);
    var s3 := s2.(requests := s.requests[2 := Request(Login(user), Inserting(5 * SECOND))]);
    Run2(s, Begin(2, Login(user)), Tick(5 * SECOND));
    Run2(s2, Advance(2, 0, 0), Advance(2, 0, 0));
    assert Step(s2, Advance(2, 0, 0)) == s3;
    assert Step(s3, Advance(2, 0, 0)).rows == [LoginRow(user)];
    RunAppend(s, [Begin(2, Login(user)), Tick(5 * SECOND)], [Advance(2, 0, 0), Advance(2, 0, 0)]);
  }

  lemma StartRuns(user: User)
    ensures Run(Init(SHORT), OverlapStart(user))
            == Overlapping(user, [LoginRow(user)], RevokingAll(0), Start, map[], map[])
  {
    BothBegin(user);
    LoginRuns(user, Run(Init(SHORT), [Begin(0, All(user)), Begin(1, All(user)), Advance(0, 0, 0)]));
    RunAppend(Init(SHORT), [Begin(0, All(user)), Begin(1, All(user)), Advance(0, 0, 0)],
              [Begin(2, Login(user)), Tick(5 * SECOND)] + [Advance(2, 0, 0), Advance(2, 0, 0)]);
  }

  /** One step of logout r, the other at rest. */
  lemma OneLogoutStep(
      user: User, rows: Table, pc0: Pc, pc1: Pc, cutoffs: map<User, Cutoff>, denied: map<string, Time>, r: Id)
    requires r < 2
    ensures var s := Overlapping(user, rows, pc0, pc1, cutoffs, denied);
            var fx := LogoutStep(s, All(user), if r == 0 then pc0 else pc1);
            Step(s, Advance(r, 0, 0))
            == Overlapping(user, fx.rows, if r == 0 then fx.pc else pc0, if r == 1 then fx.pc else pc1,
                           fx.cutoffs, fx.denied)
  {
  }

  lemma RowsEnded(user: User)
    ensures RevokeUserRows([LoginRow(user)], user, 5 * SECOND) == [EndedRow(user)]
    ensures RevokeUserRows([EndedRow(user)], user, 0) == [EndedRow(user)]
  {
  }

  const NEWER := Cutoff(5, 305 * SECOND)
  const OLDER := Cutoff(0, 305 * SECOND)

  lemma MiddleRuns(user: User)
    requires user != 0
    ensures Run(Overlapping(user, [LoginRow(user)], RevokingAll(0), Start, map[], map[]), OverlapMiddle())
            == Overlapping(user, [EndedRow(user)], RevokingAll(0), Done(LoggedOut),
                           map[user := NEWER], map["caller" := 300 * SECOND])
  {
    var go := Advance(1, 0, 0);
    var (before, after) := ([LoginRow(user)], [EndedRow(user)]);
    RowsEnded(user);
    OneLogoutStep(user, before, RevokingAll(0), Start, map[], map[], 1);
    OneLogoutStep(user, before, RevokingAll(0), RevokingAll(5 * SECOND), map[], map[], 1);
    OneLogoutStep(user, after, RevokingAll(0), DenyingUser(5 * SECOND), map[], map[], 1);
    OneLogoutStep(user, after, RevokingAll(0), DenyingToken, map[user := NEWER], map[], 1);
    var s := Overlapping(user, before, RevokingAll(0), Start, map[], map[]);
    Run2(s, go, go);
    Run2(Overlapping(user, after, RevokingAll(0), DenyingUser(5 * SECOND), map[], map[]), go, go);
    RunAppend(s, [go, go], [go, go]);
  }

  /** Logout 0 at a point while logout 1 is done and its token denied. */
  function Ending(user: User, pc0: Pc, cutoff: Cutoff): State {
    Overlapping(user, [EndedRow(user)], pc0, Done(LoggedOut), map[user := cutoff], map["caller" := 300 * SECOND])
  }

  lemma EndWrites(user: User)
    requires user != 0
    ensures Step(Ending(user, RevokingAll(0), NEWER), Advance(0, 0, 0)) == Ending(user, DenyingUser(0), NEWER)
    ensures Step(Ending(user, DenyingUser(0), NEWER), Advance(0, 0, 0)) == Ending(user, DenyingToken, OLDER)
  {
    var (rows, denied) := ([EndedRow(user)], map["caller" := 300 * SECOND]);
    RowsEnded(user);
    OneLogoutStep(user, rows, RevokingAll(0), Done(LoggedOut), map[user := NEWER], denied, 0);
    OneLogoutStep(user, rows, DenyingUser(0), Done(LoggedOut), map[user := NEWER], denied, 0);
  }

  lemma EndDenies(user: User)
    ensures Step(Ending(user, DenyingToken, OLDER), Advance(0, 0, 0)) == Ending(user, Done(LoggedOut), OLDER)
  {
    var (rows, denied) := ([EndedRow(user)], map["caller" := 300 * SECOND]);
    OneLogoutStep(user, rows, DenyingToken, Done(LoggedOut), map[user := OLDER], denied, 0);
    assert denied["caller" := 300 * SECOND] == denied;
  }

  lemma EndRuns(user: User)
    requires user != 0
    ensures Run(Ending(user, RevokingAll(0), NEWER), OverlapEnd()) == Ending(user, Done(LoggedOut), OLDER)
  {
    var go := Advance(0, 0, 0);
    EndWrites(user);
    EndDenies(user);
    Run3(Ending(user, RevokingAll(0), NEWER), go, go, go);
  }

  /** Two overlapping logouts of every session, the first to read the clock being the
      last to write. A login mints a token at 5 s; once logout 1 is done the token is
      rejected; once logout 0 is done too it is accepted again. */
  lemma OverlappingLogoutsReopen(user: User, jti: string)
    requires user != 0 && jti != "caller"
    ensures var s1 := Run(Init(SHORT), OverlapStart(user) + OverlapMiddle());
            var s2 := Run(s1, OverlapEnd());
            && 2 in s1.requests && s1.requests[2] == Request(Login(user), Done(LoggedIn(0, 5 * SECOND)))
            && About(s1, 1, user, Done(LoggedOut)) && !Accepts(s1, user, jti, 5 * SECOND)
            && About(s2, 0, user, Done(LoggedOut)) && Accepts(s2, user, jti, 5 * SECOND)
  {
    RunAppend(Init(SHORT), OverlapStart(user), OverlapMiddle());
    StartRuns(user);
    MiddleRuns(user);
    EndRuns(user);
  }
}
