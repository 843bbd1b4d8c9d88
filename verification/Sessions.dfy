/** Login, Refresh and Logout (pkg/service/user_service.go) as an interleaving machine.
    Every store call is one step; between its steps a request holds only what it has
    read. Any number of requests run at once, may fail at any point, and the clock moves
    freely between steps. Random values are drawn in the step that stores them. */
module Sessions {
  import opened Wrappers
  import opened RefreshTokens

  const SECOND: nat := 1_000_000_000

  /** The Unix second of a time, as a NumericDate carries it. */
  function Seconds(t: Time): nat { t / SECOND }

  type Id = nat

  /** A logout names one session or all, and brings the jti and exp of its access token. */
  datatype Call =
    | Login(user: User)
    | Refresh(hash: Hash)
    | Logout(user: User, one: Option<Hash>, jti: string, exp: Option<Time>)

  datatype Outcome =
    | LoggedIn(id: nat, minted: Time)
    | Refreshed(parent: nat, child: nat, minted: Time)
    | InvalidRefresh
    | ReuseDetected(id: nat, family: Family)
    | LoggedOut
    | Failed

  datatype Pc =
    | Start
    | Inserting(minted: Time)                              // Login: tokens made
    | Found(id: nat, row: Row)                             // Refresh: row read
    | Checked(id: nat, row: Row, at: Time)                 // Refresh: row looked active
    | Rotating(id: nat, row: Row, at: Time, minted: Time)  // Refresh: access token made
    | RevokingReuse(id: nat, family: Family, at: Time)     // Refresh: reuse or lost race
    | Finding(at: Time)                                    // Logout of one family
    | RevokingFamily(family: Family, at: Time)
    | RevokingAll(at: Time)                                // Logout of every session
    | DenyingUser(at: Time)
    | DenyingToken
    | Done(outcome: Outcome)

  datatype Request = Request(call: Call, pc: Pc)

  /** The revoke_before entry of a user and when it vanishes. */
  datatype Cutoff = Cutoff(second: nat, until: Time)

  datatype Config = Config(accessTtl: Positive, refreshTtl: Positive)

  datatype State = State(
    config: Config, now: Time, rows: Table,
    cutoffs: map<User, Cutoff>,
    denied: map<string, Time>,          // jtis, and when their entries vanish
    requests: map<Id, Request>)

  datatype Event =
    | Tick(d: nat)
    | Begin(r: Id, call: Call)
    | Abort(r: Id)
    | NoUser(r: Id)                               // Refresh: the user of the row is gone
    | Advance(r: Id, hash: Hash, family: Family)  // with the random draws of the step

  function Init(config: Config): State {
    State(config, 0, [], map[], map[], map[])
  }

  datatype Effect = Effect(rows: Table, cutoffs: map<User, Cutoff>, denied: map<string, Time>, pc: Pc)

  function FindByHash(rows: Table, hash: Hash): (id: Option<nat>)
    ensures id.Some? ==> id.value < |rows| && rows[id.value].hash == hash
    ensures id.None? ==> !HasHash(rows, hash)
  {
    if rows == [] then None
    else if rows[|rows| - 1].hash == hash then Some(|rows| - 1)
    else FindByHash(rows[..|rows| - 1], hash)
  }

  function Stay(s: State, pc: Pc): Effect { Effect(s.rows, s.cutoffs, s.denied, pc) }

  function WithRows(s: State, rows: Table, pc: Pc): Effect { Effect(rows, s.cutoffs, s.denied, pc) }

  /** A drawn family id is fresh; a drawn hash may collide, which the UNIQUE constraint
      turns into a failure. */
  function LoginStep(s: State, user: User, pc: Pc, hash: Hash, family: Family): Effect {
    match pc
    case Start => Stay(s, Inserting(s.now))
    case Inserting(minted) =>
      if HasFamily(s.rows, family) then Stay(s, pc)
      else if HasHash(s.rows, hash) then Stay(s, Done(Failed))
      else
        var row := Row(user, hash, family, s.now + s.config.refreshTtl, None, None);
        WithRows(s, s.rows + [row], Done(LoggedIn(|s.rows|, minted)))
    case _ => Stay(s, pc)
  }

  function RefreshStep(s: State, presented: Hash, pc: Pc, hash: Hash): Effect {
    match pc
    case Start =>
      (match FindByHash(s.rows, presented)
       case None => Stay(s, Done(InvalidRefresh))
       case Some(id) => Stay(s, Found(id, s.rows[id])))
    case Found(id, row) =>
      if row.revoked.Some? || row.expires < s.now then Stay(s, Done(InvalidRefresh))
      else if row.consumed.Some? then Stay(s, RevokingReuse(id, row.family, s.now))
      else Stay(s, Checked(id, row, s.now))
    case Checked(id, row, at) => Stay(s, Rotating(id, row, at, s.now))
    case Rotating(id, row, at, minted) =>
      var next := Row(row.user, hash, row.family, at + s.config.refreshTtl, None, None);
      (match Rotate(s.rows, id, at, next)
       case (rows', Rotated(child)) => WithRows(s, rows', Done(Refreshed(id, child, minted)))
       case (_, AlreadyConsumed) => Stay(s, RevokingReuse(id, row.family, at))
       case (_, DuplicateHash) => Stay(s, Done(Failed)))
    case RevokingReuse(id, family, at) =>
      WithRows(s, RevokeFamilyRows(s.rows, family, at), Done(ReuseDetected(id, family)))
    case _ => Stay(s, pc)
  }

  function LogoutStep(s: State, call: Call, pc: Pc): Effect
    requires call.Logout?
  {
    match pc
    case Start => Stay(s, if call.one.Some? then Finding(s.now) else RevokingAll(s.now))
    case Finding(at) =>
      (match if call.one.Some? then FindByHash(s.rows, call.one.value) else None
       case None => Stay(s, DenyingToken)
       case Some(id) =>
         if s.rows[id].user == call.user then Stay(s, RevokingFamily(s.rows[id].family, at))
         else Stay(s, DenyingToken))
    case RevokingFamily(family, at) => WithRows(s, RevokeFamilyRows(s.rows, family, at), DenyingToken)
    case RevokingAll(at) => WithRows(s, RevokeUserRows(s.rows, call.user, at), DenyingUser(at))
    case DenyingUser(at) =>
      if call.user == 0 then Stay(s, DenyingToken)  // DenyUserBefore refuses it; the error is only logged
      else
        var cutoff := Cutoff(Seconds(at), s.now + s.config.accessTtl);
        Effect(s.rows, s.cutoffs[call.user := cutoff], s.denied, DenyingToken)
    case DenyingToken =>
      if call.jti == "" || call.exp.None? || call.exp.value <= s.now then Stay(s, Done(LoggedOut))
      else Effect(s.rows, s.cutoffs, s.denied[call.jti := call.exp.value], Done(LoggedOut))
    case _ => Stay(s, pc)
  }

  function NextStep(s: State, req: Request, hash: Hash, family: Family): Effect {
    match req.call
    case Login(user) => LoginStep(s, user, req.pc, hash, family)
    case Refresh(presented) => RefreshStep(s, presented, req.pc, hash)
    case Logout(_, _, _, _) => LogoutStep(s, req.call, req.pc)
  }

  /** An event that cannot happen leaves the state alone, so every event list is a run. */
  function Step(s: State, e: Event): State {
    match e
    case Tick(d) => s.(now := s.now + d)
    case Begin(r, call) =>
      if r in s.requests then s else s.(requests := s.requests[r := Request(call, Start)])
    case Abort(r) =>
      if r in s.requests && !s.requests[r].pc.Done?
      then s.(requests := s.requests[r := s.requests[r].(pc := Done(Failed))])
      else s
    case Advance(r, hash, family) =>
      if r !in s.requests then s
      else
        var fx := NextStep(s, s.requests[r], hash, family);
        s.(rows := fx.rows, cutoffs := fx.cutoffs, denied := fx.denied,
           requests := s.requests[r := s.requests[r].(pc := fx.pc)])
    case NoUser(r) =>
      if r in s.requests && s.requests[r].pc.Checked?
      then s.(requests := s.requests[r := s.requests[r].(pc := Done(InvalidRefresh))])
      else s
  }

  function Run(s: State, es: seq<Event>): State
    decreases |es|
  {
    if es == [] then s else Run(Step(s, es[0]), es[1..])
  }

  // What every reachable state keeps

  /** What a request knows about the row it once read. */
  ghost predicate Read(rows: Table, call: Call, id: nat, row: Row) {
    call.Refresh? && id < |rows| && row.hash == call.hash && RowExtends(row, rows[id])
  }

  ghost predicate RequestInv(rows: Table, now: Time, req: Request) {
    match req.pc
    case Found(id, row) => Read(rows, req.call, id, row)
    case Checked(id, row, _) => Read(rows, req.call, id, row)
    case Rotating(id, row, _, _) => Read(rows, req.call, id, row)
    case RevokingReuse(id, family, _) =>
      req.call.Refresh? && id < |rows| && rows[id].hash == req.call.hash && rows[id].family == family
    case RevokingAll(at) => req.call.Logout? && req.call.one.None? && at <= now
    case DenyingUser(at) => req.call.Logout? && req.call.one.None? && at <= now
    case Done(Refreshed(parent, child, _)) =>
      req.call.Refresh? && parent < child < |rows| && rows[parent].hash == req.call.hash
      && rows[parent].consumed.Some? && rows[child].family == rows[parent].family
    case Done(ReuseDetected(id, family)) =>
      req.call.Refresh? && id < |rows| && rows[id].hash == req.call.hash && rows[id].family == family
      && rows[id].revoked.Some?
    case _ => true
  }

  predicate Succeeded(s: State, r: Id, parent: nat) {
    r in s.requests && s.requests[r].pc.Done? && s.requests[r].pc.outcome.Refreshed?
    && s.requests[r].pc.outcome.parent == parent
  }

  ghost predicate Inv(s: State) {
    && TableInv(s.rows)
    && (forall r :: r in s.requests ==> RequestInv(s.rows, s.now, s.requests[r]))
    && (forall r1, r2, parent :: Succeeded(s, r1, parent) && Succeeded(s, r2, parent) ==> r1 == r2)
  }

  ghost predicate RowsKept(rows: Table, rows': Table) { TableInv(rows') && Extends(rows, rows') }

  lemma LoginRows(s: State, req: Request, hash: Hash, family: Family)
    requires TableInv(s.rows) && req.call.Login?
    ensures RowsKept(s.rows, NextStep(s, req, hash, family).rows)
  {
    if req.pc.Inserting? && !HasFamily(s.rows, family) && !HasHash(s.rows, hash) {
      InsertKeeps(s.rows, Row(req.call.user, hash, family, s.now + s.config.refreshTtl, None, None));
    }
  }

  lemma RotatingRows(s: State, req: Request, hash: Hash, family: Family)
    requires TableInv(s.rows) && req.call.Refresh? && req.pc.Rotating? && RequestInv(s.rows, s.now, req)
    ensures RowsKept(s.rows, NextStep(s, req, hash, family).rows)
  {
    var (pc, row) := (req.pc, req.pc.row);
    var next := Row(row.user, hash, row.family, pc.at + s.config.refreshTtl, None, None);
    RotateKeeps(s.rows, pc.id, pc.at, next);
    assert NextStep(s, req, hash, family).rows == Rotate(s.rows, pc.id, pc.at, next).0;
  }

  lemma RefreshRows(s: State, req: Request, hash: Hash, family: Family)
    requires TableInv(s.rows) && req.call.Refresh? && RequestInv(s.rows, s.now, req)
    ensures RowsKept(s.rows, NextStep(s, req, hash, family).rows)
  {
    match req.pc
    case Rotating(_, _, _, _) => RotatingRows(s, req, hash, family);
    case RevokingReuse(_, fam, at) => RevokeFamilyKeeps(s.rows, fam, at);
    case _ =>
  }

  lemma LogoutRows(s: State, req: Request, hash: Hash, family: Family)
    requires TableInv(s.rows) && req.call.Logout?
    ensures RowsKept(s.rows, NextStep(s, req, hash, family).rows)
  {
    match req.pc
    case RevokingFamily(fam, at) => RevokeFamilyKeeps(s.rows, fam, at);
    case RevokingAll(at) => RevokeUserKeeps(s.rows, req.call.user, at);
    case _ =>
  }

  lemma RotatingRequest(s: State, req: Request, hash: Hash, family: Family)
    requires TableInv(s.rows) && req.call.Refresh? && req.pc.Rotating? && RequestInv(s.rows, s.now, req)
    ensures var fx := NextStep(s, req, hash, family); RequestInv(fx.rows, s.now, req.(pc := fx.pc))
  {
  }

  lemma RevokingRequest(s: State, req: Request, hash: Hash, family: Family)
    requires req.call.Refresh? && req.pc.RevokingReuse? && RequestInv(s.rows, s.now, req)
    ensures var fx := NextStep(s, req, hash, family); RequestInv(fx.rows, s.now, req.(pc := fx.pc))
  {
  }

  lemma RefreshRequest(s: State, req: Request, hash: Hash, family: Family)
    requires TableInv(s.rows) && req.call.Refresh? && RequestInv(s.rows, s.now, req)
    ensures var fx := NextStep(s, req, hash, family); RequestInv(fx.rows, s.now, req.(pc := fx.pc))
  {
    if req.pc.Rotating? {
      RotatingRequest(s, req, hash, family);
    } else if req.pc.RevokingReuse? {
      RevokingRequest(s, req, hash, family);
    }
  }

  lemma LogoutRequest(s: State, req: Request, hash: Hash, family: Family)
    requires req.call.Logout? && RequestInv(s.rows, s.now, req)
    ensures var fx := NextStep(s, req, hash, family); RequestInv(fx.rows, s.now, req.(pc := fx.pc))
  {
  }

  lemma MovedRequest(s: State, req: Request, hash: Hash, family: Family)
    requires TableInv(s.rows) && RequestInv(s.rows, s.now, req)
    ensures var fx := NextStep(s, req, hash, family); RequestInv(fx.rows, s.now, req.(pc := fx.pc))
  {
    if req.call.Refresh? {
      RefreshRequest(s, req, hash, family);
    } else if req.call.Logout? {
      LogoutRequest(s, req, hash, family);
    }
  }

  lemma RequestKept(rows: Table, now: Time, rows': Table, now': Time, req: Request)
    requires RequestInv(rows, now, req) && Extends(rows, rows') && now <= now'
    ensures RequestInv(rows', now', req)
  {
    match req.pc
    case Found(id, row) => assert RowExtends(rows[id], rows'[id]);
    case Checked(id, row, _) => assert RowExtends(rows[id], rows'[id]);
    case Rotating(id, row, _, _) => assert RowExtends(rows[id], rows'[id]);
    case RevokingReuse(id, _, _) => assert RowExtends(rows[id], rows'[id]);
    case Done(Refreshed(parent, child, _)) =>
      assert RowExtends(rows[parent], rows'[parent]) && RowExtends(rows[child], rows'[child]);
    case Done(ReuseDetected(id, _)) => assert RowExtends(rows[id], rows'[id]);
    case _ =>
  }

  lemma SuccessIsRotation(s: State, req: Request, hash: Hash, family: Family)
    requires var pc := NextStep(s, req, hash, family).pc; pc.Done? && pc.outcome.Refreshed?
    ensures req.pc == NextStep(s, req, hash, family).pc
            || (req.pc.Rotating? && req.pc.id < |s.rows| && Active(s.rows[req.pc.id])
                && NextStep(s, req, hash, family).pc.outcome.parent == req.pc.id)
  {
  }

  /** A refresh succeeds only by finding its row active. */
  lemma SuccessNeedsActive(s: State, e: Event, r: Id, parent: nat)
    requires Inv(s) && Succeeded(Step(s, e), r, parent) && !Succeeded(s, r, parent)
    ensures e.Advance? && e.r == r && parent < |s.rows| && Active(s.rows[parent])
  {
    if e.Advance? && e.r == r {
      SuccessIsRotation(s, s.requests[r], e.hash, e.family);
    }
  }

  lemma StepExtends(s: State, e: Event)
    requires Inv(s)
    ensures TableInv(Step(s, e).rows) && Extends(s.rows, Step(s, e).rows)
  {
    if e.Advance? && e.r in s.requests {
      var req := s.requests[e.r];
      match req.call
      case Login(_) => LoginRows(s, req, e.hash, e.family);
      case Refresh(_) => RefreshRows(s, req, e.hash, e.family);
      case Logout(_, _, _, _) => LogoutRows(s, req, e.hash, e.family);
    }
  }

  lemma StepKeepsRequests(s: State, e: Event, r: Id)
    requires Inv(s) && r in Step(s, e).requests
    ensures RequestInv(Step(s, e).rows, Step(s, e).now, Step(s, e).requests[r])
  {
    var s' := Step(s, e);
    StepExtends(s, e);
    if e.Advance? && e.r == r {
      MovedRequest(s, s.requests[r], e.hash, e.family);
    } else if r in s.requests {
      RequestKept(s.rows, s.now, s'.rows, s'.now, s.requests[r]);
    }
  }

  lemma StepKeepsInv(s: State, e: Event)
    requires Inv(s)
    ensures Inv(Step(s, e))
  {
    var s' := Step(s, e);
    StepExtends(s, e);
    forall r | r in s'.requests ensures RequestInv(s'.rows, s'.now, s'.requests[r]) {
      StepKeepsRequests(s, e, r);
    }
    forall r1, r2, parent | Succeeded(s', r1, parent) && Succeeded(s', r2, parent) ensures r1 == r2 {
      OneSuccess(s, e, r1, r2, parent);
    }
  }

  lemma OneSuccess(s: State, e: Event, r1: Id, r2: Id, parent: nat)
    requires Inv(s) && Succeeded(Step(s, e), r1, parent) && Succeeded(Step(s, e), r2, parent)
    ensures r1 == r2
  {
    if !Succeeded(s, r1, parent) {
      SuccessNeedsActive(s, e, r1, parent);
    }
    if !Succeeded(s, r2, parent) {
      SuccessNeedsActive(s, e, r2, parent);
    }
    assert Succeeded(s, r1, parent) ==> RequestInv(s.rows, s.now, s.requests[r1]);
    assert Succeeded(s, r2, parent) ==> RequestInv(s.rows, s.now, s.requests[r2]);
  }

  lemma {:induction false} RunKeeps(s: State, es: seq<Event>)
    requires Inv(s)
    ensures Inv(Run(s, es)) && Extends(s.rows, Run(s, es).rows)
    decreases |es|
  {
    if es != [] {
      StepKeepsInv(s, es[0]);
      StepExtends(s, es[0]);
      RunKeeps(Step(s, es[0]), es[1..]);
      ExtendsTransitive(s.rows, Step(s, es[0]).rows, Run(s, es).rows);
    }
  }
}
