/** The refresh_tokens table: the guarded statements of
    pkg/repository/dbsqlc/refresh_tokens.sql.go as functions on the rows, and the store
    that issues them (pkg/repository/refresh_sqlc.go). A row's id is its position: ids
    are handed out in increasing order and no statement deletes a row. */
module RefreshTokens {
  import opened Wrappers

  /** Nanoseconds since the Unix epoch. */
  type Time = nat

  // Hashes and family ids are only compared for equality.
  type Hash = nat
  type Family = nat
  type User = nat

  datatype Row = Row(
    user: User, hash: Hash, family: Family, expires: Time,
    consumed: Option<Time>, revoked: Option<Time>)

  type Table = seq<Row>

  predicate Active(row: Row) { row.consumed.None? && row.revoked.None? }

  predicate HasHash(rows: Table, hash: Hash) {
    exists i :: 0 <= i < |rows| && rows[i].hash == hash
  }

  predicate HasFamily(rows: Table, family: Family) {
    exists i :: 0 <= i < |rows| && rows[i].family == family
  }

  // The statements

  /** UPDATE ... SET revoked_at WHERE (user or family) AND revoked_at IS NULL. */
  function Revoke(rows: Table, which: Row -> bool, at: Time): (out: Table)
    ensures |out| == |rows|
    ensures forall i :: 0 <= i < |rows| ==>
              out[i] == if which(rows[i]) && rows[i].revoked.None? then rows[i].(revoked := Some(at)) else rows[i]
  {
    seq(|rows|, i requires 0 <= i < |rows| =>
      if which(rows[i]) && rows[i].revoked.None? then rows[i].(revoked := Some(at)) else rows[i])
  }

  function RevokeFamilyRows(rows: Table, family: Family, at: Time): Table {
    Revoke(rows, (row: Row) => row.family == family, at)
  }

  function RevokeUserRows(rows: Table, user: User, at: Time): Table {
    Revoke(rows, (row: Row) => row.user == user, at)
  }

  datatype RotateResult = Rotated(id: nat) | AlreadyConsumed | DuplicateHash

  /** Consume the old row if it is still active and insert the next one, or change
      nothing. */
  function Rotate(rows: Table, oldId: nat, at: Time, next: Row): (Table, RotateResult) {
    if oldId >= |rows| || !Active(rows[oldId]) then (rows, AlreadyConsumed)
    else if HasHash(rows, next.hash) then (rows, DuplicateHash)
    else (rows[oldId := rows[oldId].(consumed := Some(at))] + [next], Rotated(|rows|))
  }

  // The store

  class RefreshTokenStore {
    var rows: Table

    constructor ()
      ensures rows == []
    {
      rows := [];
    }

    /** INSERT; token_hash is UNIQUE. */
    method Create(token: Row) returns (id: Option<nat>)
      requires token.consumed.None? && token.revoked.None?
      modifies this
      ensures HasHash(old(rows), token.hash) ==> id == None && rows == old(rows)
      ensures !HasHash(old(rows), token.hash) ==> id == Some(|old(rows)|) && rows == old(rows) + [token]
    {
      if HasHash(rows, token.hash) {
        return None;
      }
      id := Some(|rows|);
      rows := rows + [token];
    }

    method FindByHash(hash: Hash) returns (id: Option<nat>)
      ensures id.None? <==> !HasHash(rows, hash)
      ensures id.Some? ==> id.value < |rows| && rows[id.value].hash == hash
    {
      if !HasHash(rows, hash) {
        return None;
      }
      var i :| 0 <= i < |rows| && rows[i].hash == hash;
      return Some(i);
    }

    /** The number of rows changed: 1, or 0 when the row is no longer active. */
    method ConsumeIfActive(id: nat, at: Time) returns (n: nat)
      modifies this
      ensures n == 1 <==> id < |old(rows)| && Active(old(rows)[id])
      ensures rows == if n == 1 then old(rows)[id := old(rows)[id].(consumed := Some(at))] else old(rows)
    {
      if id < |rows| && Active(rows[id]) {
        rows := rows[id := rows[id].(consumed := Some(at))];
        return 1;
      }
      return 0;
    }

    /** One transaction: a failed insert rolls the consumption back. */
    method RotateAtomically(oldId: nat, at: Time, next: Row) returns (result: RotateResult)
      requires next.consumed.None? && next.revoked.None?
      modifies this
      ensures (rows, result) == Rotate(old(rows), oldId, at, next)
    {
      var begin := rows;
      var n := ConsumeIfActive(oldId, at);
      if n != 1 {
        return AlreadyConsumed;
      }
      assert HasHash(rows, next.hash) <==> HasHash(begin, next.hash) by {
        assert forall i :: 0 <= i < |rows| ==> rows[i].hash == begin[i].hash;
      }
      var id := Create(next);
      if id.None? {
        rows := begin;
        return DuplicateHash;
      }
      return Rotated(id.value);
    }

    method RevokeFamily(family: Family, at: Time)
      modifies this
      ensures rows == RevokeFamilyRows(old(rows), family, at)
    {
      rows := Revoke(rows, (row: Row) => row.family == family, at);
    }

    method RevokeAllForUser(user: User, at: Time)
      modifies this
      ensures rows == RevokeUserRows(old(rows), user, at)
    {
      rows := Revoke(rows, (row: Row) => row.user == user, at);
    }
  }

  // What the rows of a family look like

  predicate LastOfFamily(rows: Table, i: nat)
    requires i < |rows|
  {
    forall j :: i < j < |rows| ==> rows[j].family != rows[i].family
  }

  /** Hashes are unique; the rows of a family share the user and the revocation; the
      newest row of a family is the one that is not consumed. */
  ghost predicate TableInv(rows: Table) {
    && (forall i, j :: 0 <= i < j < |rows| ==> rows[i].hash != rows[j].hash)
    && (forall i, j :: 0 <= i < j < |rows| && rows[i].family == rows[j].family ==>
          rows[i].user == rows[j].user && rows[i].revoked == rows[j].revoked)
    && (forall i {:trigger LastOfFamily(rows, i)} ::
          0 <= i < |rows| ==> (rows[i].consumed.None? <==> LastOfFamily(rows, i)))
  }

  /** Rows are only added, keep their identity, and are consumed and revoked at most
      once. */
  ghost predicate Extends(rows: Table, rows': Table) {
    && |rows| <= |rows'|
    && (forall i :: 0 <= i < |rows| ==> RowExtends(rows[i], rows'[i]))
  }

  predicate RowExtends(row: Row, row': Row) {
    && row' == row.(consumed := row'.consumed, revoked := row'.revoked)
    && (row.consumed.Some? ==> row'.consumed == row.consumed)
    && (row.revoked.Some? ==> row'.revoked == row.revoked)
  }

  lemma ExtendsTransitive(a: Table, b: Table, c: Table)
    requires Extends(a, b) && Extends(b, c)
    ensures Extends(a, c)
  {
    forall i | 0 <= i < |a| ensures RowExtends(a[i], c[i]) {
      assert RowExtends(a[i], b[i]) && RowExtends(b[i], c[i]);
    }
  }

  lemma RevokeKeeps(rows: Table, which: Row -> bool, at: Time)
    requires TableInv(rows)
    requires forall i, j :: 0 <= i < j < |rows| && rows[i].family == rows[j].family ==> which(rows[i]) == which(rows[j])
    ensures var rows' := Revoke(rows, which, at); TableInv(rows') && Extends(rows, rows')
  {
    var rows' := Revoke(rows, which, at);
    forall i | 0 <= i < |rows| ensures LastOfFamily(rows', i) <==> LastOfFamily(rows, i) {
    }
  }

  lemma RevokeFamilyKeeps(rows: Table, family: Family, at: Time)
    requires TableInv(rows)
    ensures TableInv(RevokeFamilyRows(rows, family, at)) && Extends(rows, RevokeFamilyRows(rows, family, at))
  {
    RevokeKeeps(rows, (row: Row) => row.family == family, at);
  }

  lemma RevokeUserKeeps(rows: Table, user: User, at: Time)
    requires TableInv(rows)
    ensures TableInv(RevokeUserRows(rows, user, at)) && Extends(rows, RevokeUserRows(rows, user, at))
  {
    RevokeKeeps(rows, (row: Row) => row.user == user, at);
  }

  /** A login's insert starts a family of one. */
  lemma InsertKeeps(rows: Table, row: Row)
    requires TableInv(rows) && Active(row) && !HasHash(rows, row.hash) && !HasFamily(rows, row.family)
    ensures TableInv(rows + [row]) && Extends(rows, rows + [row])
  {
    var rows' := rows + [row];
    forall i | 0 <= i < |rows| ensures LastOfFamily(rows', i) <==> LastOfFamily(rows, i) {
      assert rows[i].family != row.family;
      if LastOfFamily(rows', i) {
        forall j | i < j < |rows| ensures rows[j].family != rows[i].family {
          assert rows'[j].family != rows'[i].family;
        }
      }
    }
  }

  lemma RotateKeeps(rows: Table, oldId: nat, at: Time, next: Row)
    requires TableInv(rows) && Active(next)
    requires oldId < |rows| && next.family == rows[oldId].family && next.user == rows[oldId].user
    ensures var (rows', _) := Rotate(rows, oldId, at, next); TableInv(rows') && Extends(rows, rows')
  {
    var (rows', result) := Rotate(rows, oldId, at, next);
    if result.Rotated? {
      assert LastOfFamily(rows, oldId);
      forall i | 0 <= i < |rows'| ensures rows'[i].consumed.None? <==> LastOfFamily(rows', i) {
        RotateLast(rows, oldId, at, next, i);
      }
    }
  }

  lemma RotateLast(rows: Table, oldId: nat, at: Time, next: Row, i: nat)
    requires TableInv(rows) && Active(next)
    requires oldId < |rows| && Active(rows[oldId]) && next.family == rows[oldId].family && !HasHash(rows, next.hash)
    requires i <= |rows|
    ensures var (rows', _) := Rotate(rows, oldId, at, next);
            rows'[i].consumed.None? <==> LastOfFamily(rows', i)
  {
    var (rows', _) := Rotate(rows, oldId, at, next);
    assert forall j :: 0 <= j < |rows| ==> rows'[j].family == rows[j].family;
    if i < |rows| && rows[i].family == next.family {
      assert rows'[|rows|].family == rows'[i].family;
      assert i != oldId ==> rows[i].consumed.Some? by {
        assert LastOfFamily(rows, oldId) && (LastOfFamily(rows, i) ==> i >= oldId);
      }
    } else if i < |rows| {
      assert LastOfFamily(rows', i) <==> LastOfFamily(rows, i);
    }
  }
}
