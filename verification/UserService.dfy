/** Login, Refresh and Logout as the service runs them (pkg/service/user_service.go),
    tied to the interleaving machine: a call that nobody interrupts, under one clock
    reading, ends exactly where the machine ends. */
module UserService {
  import opened Wrappers
  import opened RefreshTokens
  import opened Sessions
  import opened Denylist
  import opened Text

  /** The steps of one request, one after the other, until it is done. */
  function Finish(s: State, req: Request, hash: Hash, family: Family, steps: nat): Effect
    decreases steps
  {
    var fx := NextStep(s, req, hash, family);
    if steps == 0 || fx.pc.Done? then fx
    else Finish(Applied(s, fx), req.(pc := fx.pc), hash, family, steps - 1)
  }

  function Applied(s: State, fx: Effect): State { s.(rows := fx.rows, cutoffs := fx.cutoffs, denied := fx.denied) }

  /** Five steps are enough for any call. */
  function Alone(s: State, call: Call, hash: Hash, family: Family): Effect {
    Finish(s, Request(call, Start), hash, family, 4)
  }

  /** How resolving the user of a refresh row, its role and the new tokens ends. */
  datatype Resolution = Resolved | Gone | Broken

  /** A refresh during which other requests leave the table as `meanwhile` just before
      it rotates; they may have consumed or revoked the row it read. */
  function RefreshAmong(s: State, presented: Hash, resolution: Resolution, meanwhile: Table, hash: Hash): Effect {
    var req := Request(Refresh(presented), Start);
    var fx := Finish(s, req, hash, 0, 1);
    match fx.pc
    case RevokingReuse(_, _, _) => NextStep(s, req.(pc := fx.pc), hash, 0)
    case Checked(_, _, _) =>
      (match resolution
       case Gone => Stay(s, Done(InvalidRefresh))
       case Broken => Stay(s, Done(Failed))
       case Resolved =>
         Finish(s.(rows := meanwhile), req.(pc := NextStep(s, req.(pc := fx.pc), hash, 0).pc), hash, 0, 1))
    case _ => fx
  }

  /** Where a refresh that has read its row goes on. */
  function ReadVerdict(id: nat, row: Row, now: Time): Pc {
    if row.revoked.Some? || row.expires < now then Done(InvalidRefresh)
    else if row.consumed.Some? then RevokingReuse(id, row.family, now)
    else Checked(id, row, now)
  }

  lemma RefreshReads(s: State, presented: Hash, hash: Hash)
    ensures var found := FindByHash(s.rows, presented);
            Finish(s, Request(Refresh(presented), Start), hash, 0, 1)
            == Stay(s, if found.None? then Done(InvalidRefresh)
                       else ReadVerdict(found.value, s.rows[found.value], s.now))
  {
    var found := FindByHash(s.rows, presented);
    if found.Some? {
      var at := Request(Refresh(presented), Found(found.value, s.rows[found.value]));
      assert Finish(s, Request(Refresh(presented), Start), hash, 0, 1) == Finish(s, at, hash, 0, 0);
    }
  }

  lemma RefreshGoesOn(s: State, presented: Hash, resolution: Resolution, meanwhile: Table, hash: Hash)
    ensures var found := FindByHash(s.rows, presented);
            found.None? ==> RefreshAmong(s, presented, resolution, meanwhile, hash) == Stay(s, Done(InvalidRefresh))
    ensures var found := FindByHash(s.rows, presented);
            found.Some? ==>
              RefreshAmong(s, presented, resolution, meanwhile, hash) ==
              match ReadVerdict(found.value, s.rows[found.value], s.now)
              case RevokingReuse(id, family, at) =>
                WithRows(s, RevokeFamilyRows(s.rows, family, at), Done(ReuseDetected(id, family)))
              case Checked(id, row, at) =>
                (match resolution
                 case Gone => Stay(s, Done(InvalidRefresh))
                 case Broken => Stay(s, Done(Failed))
                 case Resolved =>
                   Finish(s.(rows := meanwhile), Request(Refresh(presented), Rotating(id, row, at, at)), hash, 0, 1))
              case end => Stay(s, end)
  {
    RefreshReads(s, presented, hash);
  }

  /** A logout of one session: what it finds and, if that is the caller's, revokes. */
  lemma OneGoesOn(s: State, call: Call)
    requires call.Logout? && call.one.Some?
    ensures var found := FindByHash(s.rows, call.one.value);
            Alone(s, call, 0, 0)
            == if found.Some? && s.rows[found.value].user == call.user then
                 var rows := RevokeFamilyRows(s.rows, s.rows[found.value].family, s.now);
                 LogoutStep(s.(rows := rows), call, DenyingToken)
               else LogoutStep(s, call, DenyingToken)
  {
    var found := FindByHash(s.rows, call.one.value);
    assert Alone(s, call, 0, 0) == Finish(s, Request(call, Finding(s.now)), 0, 0, 3);
    if found.Some? && s.rows[found.value].user == call.user {
      var family := s.rows[found.value].family;
      assert Finish(s, Request(call, Finding(s.now)), 0, 0, 3)
          == Finish(s, Request(call, RevokingFamily(family, s.now)), 0, 0, 2);
      assert Finish(s, Request(call, RevokingFamily(family, s.now)), 0, 0, 2)
          == Finish(s.(rows := RevokeFamilyRows(s.rows, family, s.now)), Request(call, DenyingToken), 0, 0, 1);
    } else {
      assert Finish(s, Request(call, Finding(s.now)), 0, 0, 3) == Finish(s, Request(call, DenyingToken), 0, 0, 2);
    }
  }

  /** A logout of every session: what it revokes and stores. */
  lemma AllGoesOn(s: State, call: Call)
    requires call.Logout? && call.one.None?
    ensures var s1 := s.(rows := RevokeUserRows(s.rows, call.user, s.now));
            var fx := LogoutStep(s1, call, DenyingUser(s.now));
            Alone(s, call, 0, 0) == LogoutStep(Applied(s1, fx), call, DenyingToken)
  {
    var s1 := s.(rows := RevokeUserRows(s.rows, call.user, s.now));
    assert Alone(s, call, 0, 0) == Finish(s, Request(call, RevokingAll(s.now)), 0, 0, 3);
    assert Finish(s, Request(call, RevokingAll(s.now)), 0, 0, 3)
        == Finish(s1, Request(call, DenyingUser(s.now)), 0, 0, 2);
    var s2 := Applied(s1, LogoutStep(s1, call, DenyingUser(s.now)));
    assert Finish(s1, Request(call, DenyingUser(s.now)), 0, 0, 2) == Finish(s2, Request(call, DenyingToken), 0, 0, 1);
  }

  /** A cutoff stored now is in force now. */
  lemma CutoffStays(s: State, keys: Keys, user: User, now: Time)
    requires SameStore(s, keys) && user != 0
    requires user in s.cutoffs && s.cutoffs[user] == Cutoff(Seconds(now), now + s.config.accessTtl)
    ensures forall iat: nat :: iat * SECOND <= now ==> UserRevoked(keys, user, iat, now)
  {
    assert CutoffAt(s.cutoffs, keys, user);
    ParseDecimal(Seconds(now));
  }

  /** Every row of the family, or of the user, is stamped that was not revoked yet, and
      nothing else changes. */
  ghost predicate FamilyEnded(rows: Table, rows': Table, family: Family, at: Time) {
    |rows'| == |rows|
    && forall i :: 0 <= i < |rows| ==>
         rows'[i] ==
         if rows[i].family == family && rows[i].revoked.None? then rows[i].(revoked := Some(at)) else rows[i]
  }

  ghost predicate UserEnded(rows: Table, rows': Table, user: User, at: Time) {
    |rows'| == |rows|
    && forall i :: 0 <= i < |rows| ==>
         rows'[i] == if rows[i].user == user && rows[i].revoked.None? then rows[i].(revoked := Some(at)) else rows[i]
  }

  /** How a rotation of row id, read as `row`, ends on a table: reuse with the family
      ended when the row is consumed or revoked by now, an error when the new hash is
      taken, and otherwise the row traded for a new one. */
  ghost predicate Traded(
      rows: Table, id: nat, row: Row, now: Time, hash: Hash, ttl: nat, outcome: Outcome, rows': Table)
  {
    if id >= |rows| || rows[id].consumed.Some? || rows[id].revoked.Some? then
      outcome == ReuseDetected(id, row.family) && FamilyEnded(rows, rows', row.family, now)
    else if exists i :: 0 <= i < |rows| && rows[i].hash == hash then
      outcome == Failed && rows' == rows
    else
      outcome == Refreshed(id, |rows|, now)
      && rows' == rows[id := rows[id].(consumed := Some(now))]
                  + [Row(row.user, hash, row.family, now + ttl, None, None)]
  }

  /** How a refresh of the token of row id ends. */
  ghost predicate Ended(
      rows: Table, id: nat, now: Time, resolution: Resolution, meanwhile: Table, hash: Hash, ttl: nat,
      outcome: Outcome, rows': Table)
    requires id < |rows|
  {
    var row := rows[id];
    if row.revoked.Some? || row.expires < now then outcome == InvalidRefresh && rows' == rows
    else if row.consumed.Some? then
      outcome == ReuseDetected(id, row.family) && FamilyEnded(rows, rows', row.family, now)
    else
      match resolution
      case Gone => outcome == InvalidRefresh && rows' == rows
      case Broken => outcome == Failed && rows' == rows
      case Resolved => Traded(meanwhile, id, row, now, hash, ttl, outcome, rows')
  }

  class Service {
    const config: Config
    const store: RefreshTokenStore
    const denylist: RedisDenylist

    constructor (config: Config, store: RefreshTokenStore, denylist: RedisDenylist)
      ensures this.config == config && this.store == store && this.denylist == denylist
    {
      this.config, this.store, this.denylist := config, store, denylist;
    }

    /** s is the machine's view of this service's tables and keys. */
    ghost predicate Shows(s: State)
      reads this, store, denylist
    {
      && s.config == config && denylist.accessTtl == config.accessTtl
      && s.rows == store.rows && SameStore(s, denylist.keys)
    }

    /** After the password check, with the random values drawn for the tokens. */
    method IssueTokenPair(ghost s: State, user: User, now: Time, hash: Hash, family: Family) returns (outcome: Outcome)
      requires Shows(s) && s.now == now && !HasFamily(store.rows, family)
      modifies store
      ensures var fx := Alone(s, Login(user), hash, family); Shows(Applied(s, fx)) && Done(outcome) == fx.pc
      ensures if exists i :: 0 <= i < |s.rows| && s.rows[i].hash == hash
              then outcome == Failed && store.rows == s.rows
              else
                && outcome == LoggedIn(|s.rows|, now)
                && store.rows == s.rows + [Row(user, hash, family, now + config.refreshTtl, None, None)]
    {
      assert Alone(s, Login(user), hash, family)
          == Finish(s, Request(Login(user), Inserting(now)), hash, family, 3);
      var minted := now;
      var row := Row(user, hash, family, now + config.refreshTtl, None, None);
      var id := store.Create(row);
      if id.None? {
        return Failed;
      }
      return LoggedIn(id.value, minted);
    }

    /** The steps other requests take while this one is between two store calls. */
    method Interleave(meanwhile: Table)
      modifies store
      ensures store.rows == meanwhile
    {
      store.rows := meanwhile;
    }

    method RefreshPair(
        ghost s: State, presented: Option<Hash>, now: Time, resolution: Resolution, meanwhile: Table, hash: Hash)
        returns (outcome: Outcome)
      requires Shows(s) && s.now == now && TableInv(store.rows)
      modifies store
      ensures presented.None? ==> outcome == InvalidRefresh && Shows(s)
      ensures presented.Some? ==>
                var fx := RefreshAmong(s, presented.value, resolution, meanwhile, hash);
                Shows(Applied(s, fx)) && Done(outcome) == fx.pc
      ensures (forall i :: 0 <= i < |s.rows| ==> Some(s.rows[i].hash) != presented) ==>
                outcome == InvalidRefresh && store.rows == s.rows
      ensures forall i :: 0 <= i < |s.rows| && Some(s.rows[i].hash) == presented ==>
                Ended(s.rows, i, now, resolution, meanwhile, hash, config.refreshTtl, outcome, store.rows)
    {
      if presented.None? {
        return InvalidRefresh;
      }
      var found := store.FindByHash(presented.value);
      if found.None? {
        RefreshGoesOn(s, presented.value, resolution, meanwhile, hash);
        return InvalidRefresh;
      }
      assert forall i :: 0 <= i < |s.rows| && s.rows[i].hash == presented.value ==> i == found.value;
      outcome := RefreshRow(s, found.value, now, resolution, meanwhile, hash);
    }

    /** From the row that was found. */
    method RefreshRow(ghost s: State, id: nat, now: Time, resolution: Resolution, meanwhile: Table, hash: Hash)
        returns (outcome: Outcome)
      requires Shows(s) && s.now == now && TableInv(store.rows) && id < |store.rows|
      modifies store
      ensures var fx := RefreshAmong(s, s.rows[id].hash, resolution, meanwhile, hash);
              Shows(Applied(s, fx)) && Done(outcome) == fx.pc
      ensures Ended(s.rows, id, now, resolution, meanwhile, hash, config.refreshTtl, outcome, store.rows)
    {
      var row := store.rows[id];
      ghost var call := Refresh(row.hash);
      RefreshGoesOn(s, row.hash, resolution, meanwhile, hash);
      assert FindByHash(store.rows, row.hash) == Some(id);
      if row.revoked.Some? {
        return InvalidRefresh;
      }
      if row.expires < now {
        return InvalidRefresh;
      }
      if row.consumed.Some? {
        store.RevokeFamily(row.family, now);
        return ReuseDetected(id, row.family);
      }
      match resolution {
        case Gone => return InvalidRefresh;
        case Broken => return Failed;
        case Resolved =>
      }
      Interleave(meanwhile);
      outcome := RotateOrRevoke(s.(rows := meanwhile), call, id, row, now, hash);
    }

    /** Trades the row that was read, or revokes its family. */
    method RotateOrRevoke(ghost s: State, ghost call: Call, id: nat, row: Row, now: Time, hash: Hash)
        returns (outcome: Outcome)
      requires Shows(s) && call.Refresh?
      modifies store
      ensures Traded(s.rows, id, row, now, hash, config.refreshTtl, outcome, store.rows)
      ensures var fx := Finish(s, Request(call, Rotating(id, row, now, now)), hash, 0, 1);
              Shows(Applied(s, fx)) && Done(outcome) == fx.pc
    {
      var next := Row(row.user, hash, row.family, now + config.refreshTtl, None, None);
      var result := store.RotateAtomically(id, now, next);
      match result
      case AlreadyConsumed =>
        store.RevokeFamily(row.family, now);
        return ReuseDetected(id, row.family);
      case DuplicateHash =>
        return Failed;
      case Rotated(child) =>
        return Refreshed(id, child, now);
    }

    /** Denies the access token that the call came with; a failure is only logged. */
    method DenyToken(ghost s: State, call: Call, now: Time)
      requires Shows(s) && s.now == now && call.Logout?
      modifies denylist
      ensures Shows(Applied(s, LogoutStep(s, call, DenyingToken)))
      ensures LogoutStep(s, call, DenyingToken).pc == Done(LoggedOut)
      ensures call.jti != "" && call.exp.Some? && now < call.exp.value ==>
                JtiDenied(denylist.keys, call.jti, now) && denylist.keys[JtiKey(call.jti)].until == call.exp.value
    {
      if call.jti != "" && call.exp.Some? {
        if now < call.exp.value {
          TokenWritten(s, denylist.keys, call.jti, call.exp.value);
        }
        var _ := denylist.Deny(call.jti, call.exp.value, now);
      }
    }

    method EndSessions(ghost s: State, call: Call, now: Time) returns (outcome: Outcome)
      requires Shows(s) && s.now == now && call.Logout? && TableInv(store.rows)
      modifies store, denylist
      ensures var fx := Alone(s, call, 0, 0); Shows(Applied(s, fx)) && Done(outcome) == fx.pc && outcome == LoggedOut
      ensures call.one.None? ==>
                UserEnded(s.rows, store.rows, call.user, now)
                && (call.user != 0 ==>
                      forall iat: nat :: iat * SECOND <= now ==> UserRevoked(denylist.keys, call.user, iat, now))
      ensures (forall i :: 0 <= i < |s.rows| ==> Some(s.rows[i].hash) != call.one) && call.one.Some? ==>
                store.rows == s.rows
      ensures forall i :: 0 <= i < |s.rows| && Some(s.rows[i].hash) == call.one ==>
                if s.rows[i].user == call.user then FamilyEnded(s.rows, store.rows, s.rows[i].family, now)
                else store.rows == s.rows
      ensures call.jti != "" && call.exp.Some? && now < call.exp.value ==>
                JtiDenied(denylist.keys, call.jti, now) && denylist.keys[JtiKey(call.jti)].until == call.exp.value
    {
      ghost var fx;
      if call.one.Some? {
        fx := EndOne(s, call, now);
      } else {
        fx := EndAll(s, call, now);
      }
      DenyToken(Applied(s, fx), call, now);
      if call.one.None? && call.user != 0 {
        CutoffStays(Applied(s, LogoutStep(Applied(s, fx), call, DenyingToken)), denylist.keys, call.user, now);
      }
      return LoggedOut;
    }

    /** Revokes the family of the presented token if it is the caller's. */
    method EndOne(ghost s: State, call: Call, now: Time) returns (ghost fx: Effect)
      requires Shows(s) && s.now == now && call.Logout? && call.one.Some? && TableInv(store.rows)
      modifies store
      ensures Shows(Applied(s, fx)) && fx.pc == DenyingToken
      ensures Alone(s, call, 0, 0) == LogoutStep(Applied(s, fx), call, DenyingToken)
      ensures (forall i :: 0 <= i < |s.rows| ==> Some(s.rows[i].hash) != call.one) ==> store.rows == s.rows
      ensures forall i :: 0 <= i < |s.rows| && Some(s.rows[i].hash) == call.one ==>
                if s.rows[i].user == call.user then FamilyEnded(s.rows, store.rows, s.rows[i].family, now)
                else store.rows == s.rows
    {
      OneGoesOn(s, call);
      fx := Stay(s, DenyingToken);
      var found := store.FindByHash(call.one.value);
      assert found == FindByHash(store.rows, call.one.value);
      if found.Some? {
        var row := store.rows[found.value];
        if row.user == call.user {
          store.RevokeFamily(row.family, now);
          fx := WithRows(s, store.rows, DenyingToken);
        }
      }
    }

    /** Revokes every row of the caller and stores the cutoff. */
    method EndAll(ghost s: State, call: Call, now: Time) returns (ghost fx: Effect)
      requires Shows(s) && s.now == now && call.Logout? && call.one.None?
      modifies store, denylist
      ensures Shows(Applied(s, fx)) && fx.pc == DenyingToken
      ensures Alone(s, call, 0, 0) == LogoutStep(Applied(s, fx), call, DenyingToken)
      ensures UserEnded(s.rows, store.rows, call.user, now)
      ensures call.user != 0 ==> fx.cutoffs == s.cutoffs[call.user := Cutoff(Seconds(now), now + config.accessTtl)]
    {
      AllGoesOn(s, call);
      store.RevokeAllForUser(call.user, now);
      ghost var s1 := s.(rows := store.rows);
      fx := LogoutStep(s1, call, DenyingUser(now));
      if call.user != 0 {
        CutoffWritten(s1, denylist.keys, call.user, now);
      }
      var _ := denylist.DenyUserBefore(call.user, now, now);
    }
  }
}
