/** How refreshes and logouts end, told from the tables: a lost race, a rotation, a
    refusal, a finished logout. Between the steps of the request that is looked at, any
    other requests take theirs. */
module SessionOutcomes {
  import opened Wrappers
  import opened RefreshTokens
  import opened Sessions
  import opened SessionLaws
  import opened SessionScope

  /** The event moves request r. */
  predicate Moves(e: Event, r: Id) {
    match e
    case Tick(_) => false
    case Begin(o, _) => o == r
    case Abort(o) => o == r
    case NoUser(o) => o == r
    case Advance(o, _, _) => o == r
  }

  lemma {:induction false} OthersMove(s: State, es: seq<Event>, r: Id)
    requires r in s.requests && forall e :: e in es ==> !Moves(e, r)
    ensures r in Run(s, es).requests && Run(s, es).requests[r] == s.requests[r]
    decreases |es|
  {
    if es != [] {
      assert es[0] in es;
      OthersMove(Step(s, es[0]), es[1..], r);
    }
  }

  // Refresh

  /** A lost race: a refresh about to rotate a row that others have consumed or revoked
      goes on, in its next two steps, to reuse detection, and the whole family is dead. */
  lemma LostRaceRevokes(
      config: Config, es: seq<Event>, r: Id, id: nat, row: Row, at: Time, minted: Time,
      draw: Event, between: seq<Event>, draw': Event)
    requires var s := Run(Init(config), es);
             && r in s.requests && s.requests[r].pc == Rotating(id, row, at, minted)
             && id < |s.rows| && (s.rows[id].consumed.Some? || s.rows[id].revoked.Some?)
    requires draw.Advance? && draw.r == r && draw'.Advance? && draw'.r == r
    requires forall e :: e in between ==> !Moves(e, r)
    ensures var s := Run(Init(config), es);
            var s1 := Step(s, draw);
            var s2 := Step(Run(s1, between), draw');
            && s1.rows == s.rows
            && r in s2.requests && s2.requests[r].pc == Done(ReuseDetected(id, row.family))
            && row.family == s.rows[id].family && Dead(s2.rows, row.family)
  {
    ReachableInv(config, es);
    var s := Run(Init(config), es);
    assert RequestInv(s.rows, s.now, s.requests[r]);
    var s1 := Step(s, draw);
    StepKeepsInv(s, draw);
    OthersMove(s1, between, r);
    RunKeeps(s1, between);
    ReuseRevokes(Run(s1, between), r, draw');
  }

  lemma ReuseRevokes(s: State, r: Id, e: Event)
    requires Inv(s) && r in s.requests && s.requests[r].pc.RevokingReuse? && e.Advance? && e.r == r
    ensures var (pc, s') := (s.requests[r].pc, Step(s, e));
            s'.requests[r].pc == Done(ReuseDetected(pc.id, pc.family)) && Dead(s'.rows, pc.family)
  {
    var pc := s.requests[r].pc;
    assert RequestInv(s.rows, s.now, s.requests[r]);
    assert Step(s, e).rows[pc.id].family == pc.family;
  }

  /** A rotation that is not late: the row is consumed at the time it was checked, one row
      of the same user and family with the new hash follows, and nothing else changes. */
  lemma RotationTrades(
      config: Config, es: seq<Event>, r: Id, id: nat, row: Row, at: Time, minted: Time, hash: Hash, family: Family)
    requires var s := Run(Init(config), es);
             && r in s.requests && s.requests[r].pc == Rotating(id, row, at, minted)
             && id < |s.rows| && s.rows[id].consumed.None? && s.rows[id].revoked.None?
    ensures var s := Run(Init(config), es);
            var s' := Step(s, Advance(r, hash, family));
            if exists i :: 0 <= i < |s.rows| && s.rows[i].hash == hash
            then s'.requests[r].pc == Done(Failed) && s'.rows == s.rows
            else
              && s'.requests[r].pc == Done(Refreshed(id, |s.rows|, minted))
              && s'.rows == s.rows[id := s.rows[id].(consumed := Some(at))]
                            + [Row(s.rows[id].user, hash, s.rows[id].family, at + config.refreshTtl, None, None)]
  {
    ReachableInv(config, es);
    RunKeepsConfig(Init(config), es);
    var s := Run(Init(config), es);
    assert RequestInv(s.rows, s.now, s.requests[r]);
  }

  lemma {:induction false} RunKeepsConfig(s: State, es: seq<Event>)
    ensures Run(s, es).config == s.config
    decreases |es|
  {
    if es != [] {
      RunKeepsConfig(Step(s, es[0]), es[1..]);
    }
  }

  /** Request r refreshes this token. */
  ghost predicate Refreshing(s: State, r: Id, presented: Hash) {
    r in s.requests && s.requests[r].call == Refresh(presented)
  }

  /** Why a token may be refused. */
  predicate Refusable(s: State, i: nat)
    requires i < |s.rows|
  {
    s.rows[i].revoked.Some? || s.rows[i].expires < s.now
  }

  lemma StaysRefusable(s: State, e: Event, i: nat)
    requires Inv(s) && i < |s.rows| && Refusable(s, i)
    ensures i < |Step(s, e).rows| && Refusable(Step(s, e), i)
  {
    StepExtends(s, e);
    assert RowExtends(s.rows[i], Step(s, e).rows[i]);
  }

  /** Refused as invalid only with a reason. */
  ghost predicate Reasonable(s: State, r: Id, presented: Hash, i: nat) {
    && Inv(s) && Refreshing(s, r, presented) && i < |s.rows| && s.rows[i].hash == presented
    && (s.requests[r].pc == Done(InvalidRefresh) ==> Refusable(s, i))
  }

  lemma StepReasonable(s: State, e: Event, r: Id, presented: Hash, i: nat)
    requires Reasonable(s, r, presented, i) && e != NoUser(r)
    ensures Reasonable(Step(s, e), r, presented, i)
  {
    var s' := Step(s, e);
    StepKeepsInv(s, e);
    StepExtends(s, e);
    assert RowExtends(s.rows[i], s'.rows[i]);
    assert RequestInv(s.rows, s.now, s.requests[r]);
    if s.requests[r].pc == Done(InvalidRefresh) {
      StaysRefusable(s, e, i);
    } else if e.Advance? && e.r == r && s.requests[r].pc.Found? {
      var pc := s.requests[r].pc;
      assert s.rows[pc.id].hash == presented && pc.id == i;
    }
  }

  lemma {:induction false} RunReasonable(s: State, es: seq<Event>, r: Id, presented: Hash, i: nat)
    requires Reasonable(s, r, presented, i) && NoUser(r) !in es
    ensures Reasonable(Run(s, es), r, presented, i)
    decreases |es|
  {
    if es != [] {
      assert es[0] in es;
      StepReasonable(s, es[0], r, presented, i);
      RunReasonable(Step(s, es[0]), es[1..], r, presented, i);
    }
  }

  /** A stored token whose user is still there is refused as invalid only if it has been
      revoked or has expired. So a used token that is neither ends in reuse detection. */
  lemma RefusalHasReason(config: Config, es: seq<Event>, r: Id, presented: Hash, i: nat, more: seq<Event>)
    requires var s := Run(Init(config), es);
             Refreshing(s, r, presented) && s.requests[r].pc == Start && i < |s.rows| && s.rows[i].hash == presented
    requires NoUser(r) !in more
    ensures var s := Run(Run(Init(config), es), more);
            && Refreshing(s, r, presented) && i < |s.rows|
            && (s.requests[r].pc == Done(InvalidRefresh) ==> s.rows[i].revoked.Some? || s.rows[i].expires < s.now)
  {
    ReachableInv(config, es);
    RunReasonable(Run(Init(config), es), more, r, presented, i);
  }

  /** Reuse is detected only for a token that was used or revoked before: the step that
      decides for it finds the row so. */
  lemma ReuseNeedsUse(s: State, e: Event, r: Id)
    requires Inv(s) && r in s.requests && !s.requests[r].pc.RevokingReuse? && !s.requests[r].pc.Done?
    requires Step(s, e).requests[r].pc.RevokingReuse?
    ensures var id := Step(s, e).requests[r].pc.id;
            id < |s.rows| && (s.rows[id].consumed.Some? || s.rows[id].revoked.Some?)
  {
    OwnReuse(s, s.requests[r], e);
  }

  lemma OwnReuse(s: State, req: Request, e: Event)
    requires RequestInv(s.rows, s.now, req) && e.Advance? && !req.pc.RevokingReuse? && !req.pc.Done?
    requires NextStep(s, req, e.hash, e.family).pc.RevokingReuse?
    ensures var id := NextStep(s, req, e.hash, e.family).pc.id;
            id < |s.rows| && (s.rows[id].consumed.Some? || s.rows[id].revoked.Some?)
  {
    if req.pc.Found? {
      assert RowExtends(req.pc.row, s.rows[req.pc.id]);
    }
  }

  // Logout

  ghost predicate EndingAll(s: State, r: Id, user: User, n: nat) {
    && Inv(s) && r in s.requests && IsLogoutAll(s.requests[r].call, user) && n <= |s.rows|
    && match s.requests[r].pc
       case Start => true
       case RevokingAll(_) => true
       case Done(Failed) => true
       case _ => forall i :: 0 <= i < n && s.rows[i].user == user ==> s.rows[i].revoked.Some?
  }

  /** The step of the logout itself. */
  lemma OwnEndingAll(s: State, r: Id, user: User, n: nat, hash: Hash, family: Family)
    requires EndingAll(s, r, user, n)
    ensures var fx := NextStep(s, s.requests[r], hash, family);
            match fx.pc
            case Start => true
            case RevokingAll(_) => true
            case Done(Failed) => true
            case _ => n <= |fx.rows| && forall i :: 0 <= i < n && fx.rows[i].user == user ==> fx.rows[i].revoked.Some?
  {
  }

  lemma StepEndingAll(s: State, e: Event, r: Id, user: User, n: nat)
    requires EndingAll(s, r, user, n)
    ensures EndingAll(Step(s, e), r, user, n)
  {
    var s' := Step(s, e);
    StepKeepsInv(s, e);
    StepExtends(s, e);
    if e.Advance? && e.r == r {
      OwnEndingAll(s, r, user, n, e.hash, e.family);
    } else {
      forall i | 0 <= i < n && s'.rows[i].user == user && s.rows[i].revoked.Some? ensures s'.rows[i].revoked.Some? {
        assert RowExtends(s.rows[i], s'.rows[i]);
      }
      forall i | 0 <= i < n ensures s'.rows[i].user == s.rows[i].user {
        assert RowExtends(s.rows[i], s'.rows[i]);
      }
    }
  }

  lemma {:induction false} RunEndingAll(s: State, es: seq<Event>, r: Id, user: User, n: nat)
    requires EndingAll(s, r, user, n)
    ensures EndingAll(Run(s, es), r, user, n)
    decreases |es|
  {
    if es != [] {
      StepEndingAll(s, es[0], r, user, n);
      RunEndingAll(Step(s, es[0]), es[1..], r, user, n);
    }
  }

  /** A logout of every session that has returned without an error has revoked every row
      that the user had when it began. */
  lemma FinishedLogoutAll(config: Config, es: seq<Event>, r: Id, user: User, more: seq<Event>)
    requires About(Run(Init(config), es), r, user, Start)
    ensures var (s, s') := (Run(Init(config), es), Run(Run(Init(config), es), more));
            && r in s'.requests
            && (s'.requests[r].pc == Done(LoggedOut) ==>
                  |s.rows| <= |s'.rows|
                  && forall i :: 0 <= i < |s.rows| && s.rows[i].user == user ==> s'.rows[i].revoked.Some?)
  {
    var s := Run(Init(config), es);
    ReachableInv(config, es);
    RunEndingAll(s, more, r, user, |s.rows|);
    RunKeeps(s, more);
    assert forall i :: 0 <= i < |s.rows| ==> RowExtends(s.rows[i], Run(s, more).rows[i]);
  }

  ghost predicate EndingOne(s: State, r: Id, i: nat) {
    && Inv(s) && r in s.requests && s.requests[r].call.Logout? && i < |s.rows|
    && s.requests[r].call.one == Some(s.rows[i].hash) && s.requests[r].call.user == s.rows[i].user
    && match s.requests[r].pc
       case Start => true
       case Finding(_) => true
       case RevokingFamily(family, _) => family == s.rows[i].family
       case Done(Failed) => true
       case _ => s.rows[i].revoked.Some?
  }

  lemma StepEndingOne(s: State, e: Event, r: Id, i: nat)
    requires EndingOne(s, r, i)
    ensures EndingOne(Step(s, e), r, i)
  {
    var s' := Step(s, e);
    StepKeepsInv(s, e);
    StepExtends(s, e);
    assert RowExtends(s.rows[i], s'.rows[i]);
    if e.Advance? && e.r == r && s.requests[r].pc.Finding? {
      var found := FindByHash(s.rows, s.rows[i].hash);
      assert found == Some(i);
    }
  }

  lemma {:induction false} RunEndingOne(s: State, es: seq<Event>, r: Id, i: nat)
    requires EndingOne(s, r, i)
    ensures EndingOne(Run(s, es), r, i)
    decreases |es|
  {
    if es != [] {
      StepEndingOne(s, es[0], r, i);
      RunEndingOne(Step(s, es[0]), es[1..], r, i);
    }
  }

  /** A logout with the user's own token that has returned without an error has revoked
      the token's family. */
  lemma FinishedLogoutOne(config: Config, es: seq<Event>, r: Id, i: nat, more: seq<Event>)
    requires var s := Run(Init(config), es);
             && r in s.requests && s.requests[r].call.Logout? && s.requests[r].pc == Start && i < |s.rows|
             && s.requests[r].call.one == Some(s.rows[i].hash) && s.requests[r].call.user == s.rows[i].user
    ensures var (s, s') := (Run(Init(config), es), Run(Run(Init(config), es), more));
            && r in s'.requests
            && (s'.requests[r].pc == Done(LoggedOut) ==> Dead(s'.rows, s.rows[i].family))
  {
    var s := Run(Init(config), es);
    ReachableInv(config, es);
    RunEndingOne(s, more, r, i);
    RunKeeps(s, more);
    var s' := Run(s, more);
    assert RowExtends(s.rows[i], s'.rows[i]);
    if s'.requests[r].pc == Done(LoggedOut) {
      assert forall j :: 0 <= j < |s'.rows| && s'.rows[j].family == s'.rows[i].family ==>
               s'.rows[j].revoked == s'.rows[i].revoked;
    }
  }

  // The access token that a logout came with

  /** Whoever logs out with this jti brings the exp of the one token that has it. */
  predicate OneExp(call: Call, jti: string, exp: Time) {
    call.Logout? && call.jti == jti ==> call.exp == Some(exp)
  }

  ghost predicate Denying(s: State, r: Id, jti: string, exp: Time) {
    && jti != "" && r in s.requests && s.requests[r].call.Logout? && s.requests[r].call.jti == jti
    && (forall o :: o in s.requests ==> OneExp(s.requests[o].call, jti, exp))
    && (s.requests[r].pc == Done(LoggedOut) && s.now < exp ==> jti in s.denied && s.denied[jti] == exp)
  }

  lemma StepDenying(s: State, e: Event, r: Id, jti: string, exp: Time)
    requires Denying(s, r, jti, exp) && (e.Begin? ==> OneExp(e.call, jti, exp))
    ensures Denying(Step(s, e), r, jti, exp)
  {
    if e.Advance? && e.r in s.requests {
      assert OneExp(s.requests[e.r].call, jti, exp);
    }
  }

  lemma {:induction false} RunDenying(s: State, es: seq<Event>, r: Id, jti: string, exp: Time)
    requires Denying(s, r, jti, exp) && forall e :: e in es && e.Begin? ==> OneExp(e.call, jti, exp)
    ensures Denying(Run(s, es), r, jti, exp)
    decreases |es|
  {
    if es != [] {
      assert es[0] in es;
      StepDenying(s, es[0], r, jti, exp);
      RunDenying(Step(s, es[0]), es[1..], r, jti, exp);
    }
  }

  /** A logout that has returned without an error has denied the access token it came
      with: it is rejected from then on, in every continuation in which the jti stays the
      jti of one token. */
  lemma FinishedLogoutDenies(
      config: Config, es: seq<Event>, r: Id, user: User, jti: string, exp: Time, m: Time, more: seq<Event>)
    requires var s := Run(Init(config), es);
             && r in s.requests && s.requests[r].call.Logout? && s.requests[r].pc == Start
             && s.requests[r].call.jti == jti && jti != ""
             && (forall o :: o in s.requests ==> OneExp(s.requests[o].call, jti, exp))
    requires forall e :: e in more && e.Begin? ==> OneExp(e.call, jti, exp)
    requires exp == Expiry(config, m)
    ensures var s := Run(Run(Init(config), es), more);
            && r in s.requests
            && (s.requests[r].pc == Done(LoggedOut) ==> !Accepts(s, user, jti, m))
  {
    RunKeepsConfig(Init(config), es);
    RunKeepsConfig(Run(Init(config), es), more);
    RunDenying(Run(Init(config), es), more, r, jti, exp);
  }
}
