/** Whose rows a session request may touch, and when a token may still be refreshed. */
module SessionScope {
  import opened Wrappers
  import opened RefreshTokens
  import opened Sessions
  import opened SessionLaws

  // Time

  /** What a request has checked, and what a finished refresh has left behind. */
  ghost predicate RequestTimely(rows: Table, config: Config, req: Request) {
    match req.pc
    case Checked(_, row, at) => at <= row.expires
    case Rotating(_, row, at, _) => at <= row.expires
    case Done(Refreshed(parent, child, _)) =>
      parent < |rows| && child < |rows| && rows[parent].consumed.Some?
      && rows[child].expires == rows[parent].consumed.value + config.refreshTtl
    case _ => true
  }

  ghost predicate RowsTimely(rows: Table) {
    forall i :: 0 <= i < |rows| && rows[i].consumed.Some? ==> rows[i].consumed.value <= rows[i].expires
  }

  // Scope

  /** The family a logout is about to revoke is its user's. */
  ghost predicate RequestScoped(rows: Table, req: Request) {
    req.call.Logout? && req.pc.RevokingFamily? ==>
      HasFamily(rows, req.pc.family)
      && forall i :: 0 <= i < |rows| && rows[i].family == req.pc.family ==> rows[i].user == req.call.user
  }

  ghost predicate Scoped(s: State) {
    && Inv(s) && RowsTimely(s.rows)
    && forall r :: r in s.requests ==>
         RequestTimely(s.rows, s.config, s.requests[r]) && RequestScoped(s.rows, s.requests[r])
  }

  lemma RequestTimelyKept(rows: Table, rows': Table, config: Config, req: Request)
    requires RequestTimely(rows, config, req) && Extends(rows, rows')
    ensures RequestTimely(rows', config, req)
  {
    if req.pc.Done? && req.pc.outcome.Refreshed? {
      var (parent, child) := (req.pc.outcome.parent, req.pc.outcome.child);
      assert RowExtends(rows[parent], rows'[parent]) && RowExtends(rows[child], rows'[child]);
    }
  }

  lemma RequestScopedKept(rows: Table, rows': Table, req: Request)
    requires RequestScoped(rows, req) && Extends(rows, rows') && TableInv(rows')
    ensures RequestScoped(rows', req)
  {
    if req.call.Logout? && req.pc.RevokingFamily? {
      var k :| 0 <= k < |rows| && rows[k].family == req.pc.family;
      assert RowExtends(rows[k], rows'[k]);
    }
  }

  lemma RefreshTimely(s: State, req: Request, hash: Hash, family: Family)
    requires req.call.Refresh? && RequestInv(s.rows, s.now, req) && RequestTimely(s.rows, s.config, req)
    ensures var fx := NextStep(s, req, hash, family); RequestTimely(fx.rows, s.config, req.(pc := fx.pc))
  {
  }

  /** Logins and logouts neither check an expiry nor trade a token. */
  lemma OtherTimely(s: State, req: Request, hash: Hash, family: Family)
    requires !req.call.Refresh? && RequestInv(s.rows, s.now, req) && RequestTimely(s.rows, s.config, req)
    ensures var fx := NextStep(s, req, hash, family); RequestTimely(fx.rows, s.config, req.(pc := fx.pc))
  {
    var fx := NextStep(s, req, hash, family);
    if fx.pc == req.pc {
      assert req.pc.Done? ==> fx.rows == s.rows;
    }
  }

  lemma MovedTimely(s: State, req: Request, hash: Hash, family: Family)
    requires RequestInv(s.rows, s.now, req) && RequestTimely(s.rows, s.config, req)
    ensures var fx := NextStep(s, req, hash, family); RequestTimely(fx.rows, s.config, req.(pc := fx.pc))
  {
    if req.call.Refresh? {
      RefreshTimely(s, req, hash, family);
    } else {
      OtherTimely(s, req, hash, family);
    }
  }

  lemma MovedScoped(s: State, req: Request, hash: Hash, family: Family)
    requires TableInv(s.rows) && RequestScoped(s.rows, req)
    ensures var fx := NextStep(s, req, hash, family); RequestScoped(fx.rows, req.(pc := fx.pc))
  {
    if req.call.Logout? && req.pc.Finding? && req.call.one.Some? {
      var id := FindByHash(s.rows, req.call.one.value);
      assert id.Some? ==> s.rows[id.value].family == s.rows[id.value].family;
    }
  }

  lemma MovedRows(s: State, req: Request, hash: Hash, family: Family)
    requires TableInv(s.rows) && RowsTimely(s.rows)
    requires RequestInv(s.rows, s.now, req) && RequestTimely(s.rows, s.config, req)
    ensures RowsTimely(NextStep(s, req, hash, family).rows)
  {
  }

  lemma StepRequest(s: State, e: Event, r: Id)
    requires Scoped(s) && r in Step(s, e).requests
    ensures var s' := Step(s, e);
            RequestTimely(s'.rows, s'.config, s'.requests[r]) && RequestScoped(s'.rows, s'.requests[r])
  {
    var s' := Step(s, e);
    StepExtends(s, e);
    if e.Advance? && e.r == r {
      MovedTimely(s, s.requests[r], e.hash, e.family);
      MovedScoped(s, s.requests[r], e.hash, e.family);
    } else if r in s.requests && s'.requests[r] == s.requests[r] {
      RequestTimelyKept(s.rows, s'.rows, s.config, s.requests[r]);
      RequestScopedKept(s.rows, s'.rows, s.requests[r]);
    }
  }

  lemma StepKeepsScoped(s: State, e: Event)
    requires Scoped(s)
    ensures Scoped(Step(s, e))
  {
    var s' := Step(s, e);
    StepKeepsInv(s, e);
    if e.Advance? && e.r in s.requests {
      MovedRows(s, s.requests[e.r], e.hash, e.family);
    }
    forall r | r in s'.requests
      ensures RequestTimely(s'.rows, s'.config, s'.requests[r]) && RequestScoped(s'.rows, s'.requests[r])
    {
      StepRequest(s, e, r);
    }
  }

  lemma {:induction false} RunKeepsScoped(s: State, es: seq<Event>)
    requires Scoped(s)
    ensures Scoped(Run(s, es)) && Run(s, es).config == s.config
    decreases |es|
  {
    if es != [] {
      StepKeepsScoped(s, es[0]);
      RunKeepsScoped(Step(s, es[0]), es[1..]);
    }
  }

  /** No refresh token is used after it expired, and the token it is traded for lives one
      refresh TTL from that use. */
  lemma RefreshedInTime(config: Config, es: seq<Event>, presented: Hash, r: Id)
    requires Won(Run(Init(config), es), r, presented)
    ensures var s := Run(Init(config), es);
            var outcome := s.requests[r].pc.outcome;
            && outcome.parent < outcome.child < |s.rows|
            && s.rows[outcome.parent].hash == presented
            && s.rows[outcome.parent].consumed.Some?
            && s.rows[outcome.parent].consumed.value <= s.rows[outcome.parent].expires
            && s.rows[outcome.child].expires == s.rows[outcome.parent].consumed.value + config.refreshTtl
            && s.rows[outcome.child].family == s.rows[outcome.parent].family
  {
    RunKeepsScoped(Init(config), es);
    var s := Run(Init(config), es);
    assert RequestInv(s.rows, s.now, s.requests[r]);
    assert RequestTimely(s.rows, s.config, s.requests[r]);
  }

  /** The rows a request may change: none for a login, the family of the presented token
      for a refresh, the caller's own for a logout. */
  ghost predicate MayTouch(rows: Table, call: Call, row: Row) {
    match call
    case Login(_) => false
    case Refresh(hash) => exists k :: 0 <= k < |rows| && rows[k].hash == hash && rows[k].family == row.family
    case Logout(user, _, _, _) => row.user == user
  }

  lemma StepTouches(s: State, req: Request, hash: Hash, family: Family, i: nat)
    requires TableInv(s.rows) && RequestInv(s.rows, s.now, req) && RequestScoped(s.rows, req) && i < |s.rows|
    ensures var rows' := NextStep(s, req, hash, family).rows;
            i < |rows'| && (rows'[i] != s.rows[i] ==> MayTouch(s.rows, req.call, s.rows[i]))
  {
  }

  /** In every run a step that changes a row is taken by a request that may touch it:
      presenting somebody else's token to logout revokes nothing. */
  lemma OnlyOwnSessions(config: Config, es: seq<Event>, e: Event, i: nat)
    requires i < |Run(Init(config), es).rows|
    ensures var s := Run(Init(config), es);
            var s' := Step(s, e);
            && i < |s'.rows|
            && (s'.rows[i] != s.rows[i] ==>
                  e.Advance? && e.r in s.requests && MayTouch(s.rows, s.requests[e.r].call, s.rows[i]))
  {
    RunKeepsScoped(Init(config), es);
    var s := Run(Init(config), es);
    if e.Advance? && e.r in s.requests {
      assert RequestInv(s.rows, s.now, s.requests[e.r]) && RequestScoped(s.rows, s.requests[e.r]);
      StepTouches(s, s.requests[e.r], e.hash, e.family, i);
    }
  }

  /** Once a logout has revoked the family of the caller's token, the family is dead for
      good. */
  lemma LogoutEndsSession(
      config: Config, es: seq<Event>, r: Id, family: Family, at: Time, hash: Hash, drawn: Family, more: seq<Event>)
    requires var s := Run(Init(config), es);
             r in s.requests && s.requests[r].call.Logout? && s.requests[r].pc == RevokingFamily(family, at)
    ensures var s1 := Step(Run(Init(config), es), Advance(r, hash, drawn));
            && s1.requests[r].pc == DenyingToken
            && Dead(Run(s1, more).rows, family) && Frozen(s1, Run(s1, more), family)
  {
    var s := Run(Init(config), es);
    RunKeepsScoped(Init(config), es);
    assert RequestScoped(s.rows, s.requests[r]);
    var s1 := Step(s, Advance(r, hash, drawn));
    StepKeepsInv(s, Advance(r, hash, drawn));
    var k :| 0 <= k < |s.rows| && s.rows[k].family == family;
    assert s1.rows[k].family == family;
    RunFreezes(s1, more, family);
  }
}
