/** The books table and the statements on it (pkg/repository/dbsqlc/books.sql.go,
    pkg/repository/book_sqlc.go:138-199). Ids come from a sequence and are never reused;
    no statement writes owner_id. */
module BookStore {
  import opened Wrappers
  import opened BookList
  import ListCompiler

  function IndexOf(rows: seq<Book>, id: nat): (i: Option<nat>)
    ensures i.Some? ==> i.value < |rows| && rows[i.value].id == id
    ensures i.None? ==> forall j :: 0 <= j < |rows| ==> rows[j].id != id
  {
    if rows == [] then None
    else if rows[|rows| - 1].id == id then Some(|rows| - 1)
    else IndexOf(rows[..|rows| - 1], id)
  }

  predicate Has(rows: seq<Book>, id: nat) { IndexOf(rows, id).Some? }

  function Row(rows: seq<Book>, id: nat): Book
    requires Has(rows, id)
  {
    rows[IndexOf(rows, id).value]
  }

  /** Title and author of one row, COALESCEd with what was there; owner and creation
      time stay. */
  function Patched(b: Book, title: Option<string>, author: Option<string>, now: nat): Book {
    b.(title := if title.Some? then title.value else b.title,
       author := if author.Some? then author.value else b.author,
       updated := now)
  }

  function WithPatch(rows: seq<Book>, id: nat, title: Option<string>, author: Option<string>, now: nat): seq<Book> {
    match IndexOf(rows, id)
    case None => rows
    case Some(i) => rows[i := Patched(rows[i], title, author, now)]
  }

  function Without(rows: seq<Book>, id: nat): seq<Book> {
    match IndexOf(rows, id)
    case None => rows
    case Some(i) => rows[..i] + rows[i + 1..]
  }

  /** Unique ids, all drawn from the sequence. */
  ghost predicate TableOk(rows: seq<Book>, nextId: nat) {
    UniqueIds(rows) && forall i :: 0 <= i < |rows| ==> rows[i].id < nextId
  }

  lemma RowAt(rows: seq<Book>, i: nat)
    requires UniqueIds(rows) && i < |rows|
    ensures IndexOf(rows, rows[i].id) == Some(i) && Row(rows, rows[i].id) == rows[i]
  {
  }

  /** The row of an id looks the same in two tables. */
  ghost predicate SameRow(rows: seq<Book>, rows': seq<Book>, id: nat) {
    Has(rows, id) == Has(rows', id) && (Has(rows, id) ==> Row(rows, id) == Row(rows', id))
  }

  lemma SameRowByIndex(rows: seq<Book>, rows': seq<Book>, i: nat, j: nat)
    requires UniqueIds(rows) && UniqueIds(rows') && i < |rows| && j < |rows'| && rows[i] == rows'[j]
    ensures SameRow(rows, rows', rows[i].id)
  {
    RowAt(rows, i);
    RowAt(rows', j);
  }

  /** A patch keeps the table sound, the ids and owners, and every other row. */
  lemma PatchLocal(
      rows: seq<Book>, nextId: nat, id: nat, title: Option<string>, author: Option<string>, now: nat, other: nat)
    requires TableOk(rows, nextId) && Has(rows, id)
    ensures var rows' := WithPatch(rows, id, title, author, now);
            && TableOk(rows', nextId) && |rows'| == |rows|
            && (forall i :: 0 <= i < |rows| ==> rows'[i].id == rows[i].id && rows'[i].owner == rows[i].owner)
            && Has(rows', id) && Row(rows', id) == Patched(Row(rows, id), title, author, now)
            && (other != id ==> SameRow(rows, rows', other))
  {
    var rows' := WithPatch(rows, id, title, author, now);
    RowAt(rows', IndexOf(rows, id).value);
    if other != id {
      if Has(rows, other) {
        SameRowByIndex(rows, rows', IndexOf(rows, other).value, IndexOf(rows, other).value);
      }
      if Has(rows', other) {
        SameRowByIndex(rows, rows', IndexOf(rows', other).value, IndexOf(rows', other).value);
      }
    }
  }

  /** A delete keeps the table sound and every other row, and takes no other. */
  lemma DeleteLocal(rows: seq<Book>, nextId: nat, id: nat, other: nat)
    requires TableOk(rows, nextId) && Has(rows, id)
    ensures var rows' := Without(rows, id);
            && TableOk(rows', nextId) && !Has(rows', id)
            && (forall j :: 0 <= j < |rows'| ==> rows'[j] in rows)
            && (other != id ==> SameRow(rows, rows', other))
  {
    var k := IndexOf(rows, id).value;
    var rows' := Without(rows, id);
    assert forall j :: 0 <= j < |rows'| ==> rows'[j] == rows[if j < k then j else j + 1];
    if other != id {
      if Has(rows, other) {
        var i := IndexOf(rows, other).value;
        SameRowByIndex(rows, rows', i, if i < k then i else i - 1);
      }
      if Has(rows', other) {
        var j := IndexOf(rows', other).value;
        SameRowByIndex(rows, rows', if j < k then j else j + 1, j);
      }
    }
  }

  lemma InsertLocal(rows: seq<Book>, nextId: nat, b: Book, other: nat)
    requires TableOk(rows, nextId) && b.id == nextId
    ensures TableOk(rows + [b], nextId + 1) && (other != b.id ==> SameRow(rows, rows + [b], other))
  {
    assert (rows + [b])[..|rows|] == rows;
  }

  class Store {
    var rows: seq<Book>
    var nextId: nat

    ghost predicate Valid()
      reads this
    {
      TableOk(rows, nextId)
    }

    constructor ()
      ensures Valid() && rows == [] && nextId == 1
    {
      rows, nextId := [], 1;
    }

    method Create(owner: nat, title: string, author: string, now: nat) returns (b: Book)
      requires Valid()
      modifies this
      ensures Valid()
      ensures b == Book(old(nextId), owner, title, author, now, now)
      ensures rows == old(rows) + [b] && nextId == old(nextId) + 1
    {
      b := Book(nextId, owner, title, author, now, now);
      rows, nextId := rows + [b], nextId + 1;
    }

    method FirstByID(id: nat) returns (b: Option<Book>)
      ensures b == if Has(rows, id) then Some(Row(rows, id)) else None
    {
      var i := IndexOf(rows, id);
      if i.None? {
        return None;
      }
      return Some(rows[i.value]);
    }

    method UpdateFields(id: nat, title: string, author: string, now: nat) returns (b: Option<Book>)
      requires Valid()
      modifies this`rows
      ensures Valid()
      ensures rows == WithPatch(old(rows), id, Some(title), Some(author), now)
      ensures b ==
              if Has(old(rows), id) then Some(Patched(Row(old(rows), id), Some(title), Some(author), now)) else None
      ensures b.Some? ==>
                && Has(old(rows), id) && Has(rows, id) && Row(rows, id) == b.value
                && b.value.title == title && b.value.author == author && b.value.updated == now
                && b.value.id == id && b.value.owner == Row(old(rows), id).owner
                && b.value.created == Row(old(rows), id).created
    {
      var i := IndexOf(rows, id);
      if i.None? {
        return None;
      }
      rows := rows[i.value := rows[i.value].(title := title, author := author, updated := now)];
      RowAt(rows, i.value);
      return Some(rows[i.value]);
    }

    /** With nothing to change the row is only read: updated_at stays. */
    method PatchFields(id: nat, title: Option<string>, author: Option<string>, now: nat) returns (b: Option<Book>)
      requires Valid()
      modifies this`rows
      ensures Valid()
      ensures title.None? && author.None? ==>
                rows == old(rows) && b == if Has(rows, id) then Some(Row(rows, id)) else None
      ensures title.Some? || author.Some? ==>
                rows == WithPatch(old(rows), id, title, author, now)
                && b == if Has(old(rows), id) then Some(Patched(Row(old(rows), id), title, author, now)) else None
      ensures b.Some? ==>
                && Has(old(rows), id) && Has(rows, id) && Row(rows, id) == b.value
                && b.value.title == (if title.Some? then title.value else Row(old(rows), id).title)
                && b.value.author == (if author.Some? then author.value else Row(old(rows), id).author)
                && b.value.updated == (if title.Some? || author.Some? then now else Row(old(rows), id).updated)
                && b.value.id == id && b.value.owner == Row(old(rows), id).owner
                && b.value.created == Row(old(rows), id).created
    {
      if title.None? && author.None? {
        b := FirstByID(id);
        return;
      }
      var i := IndexOf(rows, id);
      if i.None? {
        return None;
      }
      rows := rows[i.value := Patched(rows[i.value], title, author, now)];
      RowAt(rows, i.value);
      return Some(rows[i.value]);
    }

    method DeleteByID(id: nat) returns (found: bool)
      requires Valid()
      modifies this`rows
      ensures Valid()
      ensures found == Has(old(rows), id)
      ensures rows == Without(old(rows), id) && !Has(rows, id)
    {
      var i := IndexOf(rows, id);
      if i.None? {
        return false;
      }
      rows := rows[..i.value] + rows[i.value + 1..];
      return true;
    }

    method List(loc: Locale, q: Query) returns (books: seq<Book>)
      ensures books == ListCompiler.Listed(loc, q, rows)
    {
      var st, args := ListCompiler.BuildListQuery(loc, q);
      var found := ListCompiler.Execute(loc, st, args, rows);
      books := [];
      for i := 0 to |found|
        invariant books == found[..i]
      {
        books := books + [found[i]];
      }
    }
  }
}
