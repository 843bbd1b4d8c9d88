/** The book service run one call at a time (pkg/service/book_service.go): the cached
    service lists what the uncached one would, and its events rebuild the table. */
module BookService {
  import opened Wrappers
  import opened BookList
  import opened BookStore
  import opened CacheKey
  import ListCompiler

  // Events

  datatype Payload = Payload(id: nat, owner: nat, title: string, author: string)

  datatype BookEvent = Created(book: Payload) | Updated(book: Payload) | Deleted(book: Payload)

  function Snapshot(b: Book): Payload { Payload(b.id, b.owner, b.title, b.author) }

  function Apply(m: map<nat, Payload>, e: BookEvent): map<nat, Payload> {
    if e.Deleted? then m - {e.book.id} else m[e.book.id := e.book]
  }

  /** What a consumer that applies the events in order ends up with. */
  function Replay(events: seq<BookEvent>): map<nat, Payload> {
    if events == [] then map[] else Apply(Replay(events[..|events| - 1]), events[|events| - 1])
  }

  function Contents(rows: seq<Book>): map<nat, Payload> {
    if rows == [] then map[]
    else Contents(rows[..|rows| - 1])[rows[|rows| - 1].id := Snapshot(rows[|rows| - 1])]
  }

  lemma {:induction false} ContentsKeys(rows: seq<Book>, id: nat)
    ensures id in Contents(rows) <==> exists i :: 0 <= i < |rows| && rows[i].id == id
  {
    if rows != [] {
      var init := rows[..|rows| - 1];
      ContentsKeys(init, id);
      if i :| 0 <= i < |rows| && rows[i].id == id {
        assert i < |init| ==> init[i].id == id;
      }
    }
  }

  lemma {:induction false} ContentsAt(rows: seq<Book>, i: nat)
    requires UniqueIds(rows) && i < |rows|
    ensures rows[i].id in Contents(rows) && Contents(rows)[rows[i].id] == Snapshot(rows[i])
  {
    if i < |rows| - 1 {
      ContentsAt(rows[..|rows| - 1], i);
    }
  }

  lemma ContentsDetermined(rows: seq<Book>, m: map<nat, Payload>)
    requires UniqueIds(rows)
    requires forall i :: 0 <= i < |rows| ==> rows[i].id in m && m[rows[i].id] == Snapshot(rows[i])
    requires forall id :: id in m ==> exists i :: 0 <= i < |rows| && rows[i].id == id
    ensures Contents(rows) == m
  {
    forall id
      ensures id in Contents(rows) <==> id in m
      ensures id in m ==> Contents(rows)[id] == m[id]
    {
      ContentsKeys(rows, id);
      if i :| 0 <= i < |rows| && rows[i].id == id {
        ContentsAt(rows, i);
      }
    }
  }

  lemma PatchedContents(rows: seq<Book>, i: nat, b: Book)
    requires UniqueIds(rows) && i < |rows| && b.id == rows[i].id
    ensures Contents(rows[i := b]) == Contents(rows)[b.id := Snapshot(b)]
  {
    var rows' := rows[i := b];
    var m := Contents(rows)[b.id := Snapshot(b)];
    forall j | 0 <= j < |rows'| ensures rows'[j].id in m && m[rows'[j].id] == Snapshot(rows'[j]) {
      ContentsAt(rows, j);
    }
    forall id | id in m ensures exists j :: 0 <= j < |rows'| && rows'[j].id == id {
      ContentsKeys(rows, id);
      assert rows'[i].id == b.id;
      if j :| 0 <= j < |rows| && rows[j].id == id {
        assert rows'[j].id == id;
      }
    }
    ContentsDetermined(rows', m);
  }

  lemma PatchContents(rows: seq<Book>, id: nat, title: Option<string>, author: Option<string>, now: nat)
    requires UniqueIds(rows) && Has(rows, id)
    ensures Contents(WithPatch(rows, id, title, author, now))
            == Contents(rows)[id := Snapshot(Patched(Row(rows, id), title, author, now))]
  {
    PatchedContents(rows, IndexOf(rows, id).value, Patched(Row(rows, id), title, author, now));
  }

  lemma ReadContents(rows: seq<Book>, id: nat)
    requires UniqueIds(rows) && Has(rows, id)
    ensures Contents(rows) == Contents(rows)[id := Snapshot(Row(rows, id))]
  {
    ContentsAt(rows, IndexOf(rows, id).value);
  }

  /** What PatchFields did, seen in the contents. */
  lemma PatchedFieldsContents(
      rows: seq<Book>, id: nat, title: Option<string>, author: Option<string>, now: nat, rows': seq<Book>, b: Book)
    requires UniqueIds(rows) && Has(rows, id)
    requires title.None? && author.None? ==> rows' == rows && b == Row(rows, id)
    requires title.Some? || author.Some? ==>
               rows' == WithPatch(rows, id, title, author, now) && b == Patched(Row(rows, id), title, author, now)
    ensures b.id == id && Contents(rows') == Contents(rows)[id := Snapshot(b)]
  {
    if title.None? && author.None? {
      ReadContents(rows, id);
    } else {
      PatchContents(rows, id, title, author, now);
    }
  }

  lemma DeletedRows(rows: seq<Book>, i: nat, id: nat)
    requires UniqueIds(rows) && i < |rows|
    ensures var rest := rows[..i] + rows[i + 1..];
            (exists j :: 0 <= j < |rest| && rest[j].id == id)
            <==> id != rows[i].id && exists j :: 0 <= j < |rows| && rows[j].id == id
  {
    var rest := rows[..i] + rows[i + 1..];
    if j :| 0 <= j < |rows| && rows[j].id == id && id != rows[i].id {
      assert rest[if j < i then j else j - 1].id == id;
    }
    if j :| 0 <= j < |rest| && rest[j].id == id {
      assert rows[if j < i then j else j + 1].id == id;
    }
  }

  lemma DeletedContents(rows: seq<Book>, i: nat)
    requires UniqueIds(rows) && i < |rows|
    ensures Contents(rows[..i] + rows[i + 1..]) == Contents(rows) - {rows[i].id}
  {
    var rest := rows[..i] + rows[i + 1..];
    var m := Contents(rows) - {rows[i].id};
    forall j | 0 <= j < |rest| ensures rest[j].id in m && m[rest[j].id] == Snapshot(rest[j]) {
      ContentsAt(rows, if j < i then j else j + 1);
    }
    forall id | id in m ensures exists j :: 0 <= j < |rest| && rest[j].id == id {
      ContentsKeys(rows, id);
      DeletedRows(rows, i, id);
    }
    assert UniqueIds(rest);
    ContentsDetermined(rest, m);
  }

  lemma ReplayOne(events: seq<BookEvent>, e: BookEvent)
    ensures Replay(events + [e]) == Apply(Replay(events), e)
  {
    assert (events + [e])[..|events|] == events;
  }

  // The cached pages

  /** Under the current generation only listings of the present table are cached, and
      nothing is cached yet under a later one. */
  ghost predicate PagesOk(loc: Locale, pages: map<string, seq<Book>>, gen: nat, rows: seq<Book>) {
    && (forall q :: Allowlisted(q) && Key(gen, q) in pages ==> pages[Key(gen, q)] == ListCompiler.Listed(loc, q, rows))
    && (forall g, q :: Allowlisted(q) && g > gen ==> Key(g, q) !in pages)
  }

  lemma StoredPageOk(loc: Locale, pages: map<string, seq<Book>>, gen: nat, rows: seq<Book>, q: Query)
    requires PagesOk(loc, pages, gen, rows) && Allowlisted(q)
    ensures PagesOk(loc, pages[Key(gen, q) := ListCompiler.Listed(loc, q, rows)], gen, rows)
  {
    forall q' | Allowlisted(q') && Key(gen, q') == Key(gen, q) ensures q' == q {
      KeyInjective(gen, q', gen, q);
    }
    forall g, q' | Allowlisted(q') && g > gen ensures Key(g, q') != Key(gen, q) {
      if Key(g, q') == Key(gen, q) {
        KeyInjective(g, q', gen, q);
      }
    }
  }

  /** After a bump no page is cached under the new generation, whatever the table is. */
  lemma BumpedPagesOk(loc: Locale, pages: map<string, seq<Book>>, gen: nat, rows: seq<Book>, rows': seq<Book>)
    requires PagesOk(loc, pages, gen, rows)
    ensures PagesOk(loc, pages, gen + 1, rows')
  {
  }

  datatype Outcome = Ok(book: Book) | NotFound | Forbidden

  class Service {
    const loc: Locale
    const cached: bool                  // false: the service with redis nil
    const store: Store
    var counter: Option<nat>            // the generation key; absent until the first bump
    var pages: map<string, seq<Book>>
    var published: seq<BookEvent>

    ghost predicate Valid()
      reads this, store
    {
      && store.Valid()
      && PagesOk(loc, pages, Generation(), store.rows)
      && (!cached ==> pages == map[])
      && Replay(published) == Contents(store.rows)
    }

    /** Applying the published events in order gives every row of the table, field by
        field, and nothing else. */
    lemma ReplayIsTable()
      requires Valid()
      ensures var (m, rows) := (Replay(published), store.rows);
              && (forall i :: 0 <= i < |rows| ==>
                    && rows[i].id in m
                    && m[rows[i].id].id == rows[i].id && m[rows[i].id].owner == rows[i].owner
                    && m[rows[i].id].title == rows[i].title && m[rows[i].id].author == rows[i].author)
              && (forall id :: id in m ==> exists i :: 0 <= i < |rows| && rows[i].id == id)
    {
      forall i | 0 <= i < |store.rows|
        ensures store.rows[i].id in Contents(store.rows)
        ensures Contents(store.rows)[store.rows[i].id] == Snapshot(store.rows[i])
      {
        ContentsAt(store.rows, i);
      }
      forall id | id in Contents(store.rows) ensures exists i :: 0 <= i < |store.rows| && store.rows[i].id == id {
        ContentsKeys(store.rows, id);
      }
    }

    constructor (loc: Locale, cached: bool, store: Store)
      requires store.Valid() && store.rows == []
      ensures Valid() && this.store == store && this.loc == loc && this.cached == cached && published == []
    {
      this.loc, this.cached, this.store := loc, cached, store;
      counter, pages, published := None, map[], [];
    }

    /** cacheGeneration: an absent key reads as 0. */
    function Generation(): nat
      reads this
    {
      if counter.Some? then counter.value else 0
    }

    /** INCR; a service without Redis has nothing to bump. */
    method BumpGeneration(ghost before: seq<Book>)
      requires PagesOk(loc, pages, Generation(), before)
      requires !cached ==> pages == map[]
      modifies this`counter
      ensures PagesOk(loc, pages, Generation(), store.rows)
      ensures counter == if cached then Some(old(Generation()) + 1) else old(counter)
    {
      BumpedPagesOk(loc, pages, Generation(), before, store.rows);
      if cached {
        counter := Some(Generation() + 1);
      }
    }

    method Publish(e: BookEvent)
      modifies this`published
      ensures published == old(published) + [e] && Replay(published) == Apply(Replay(old(published)), e)
    {
      ReplayOne(published, e);
      published := published + [e];
    }

    /** What every mutation ends with, once the table has changed from `before`. */
    method BumpAndPublish(ghost before: seq<Book>, e: BookEvent)
      requires store.Valid() && PagesOk(loc, pages, Generation(), before)
      requires !cached ==> pages == map[]
      requires Replay(published) == Contents(before) && Contents(store.rows) == Apply(Contents(before), e)
      modifies this`counter, this`published
      ensures Valid() && published == old(published) + [e]
    {
      BumpGeneration(before);
      Publish(e);
    }

    /** A cached page may vanish whenever it likes. */
    method Evict(key: string)
      requires Valid()
      modifies this`pages
      ensures Valid() && pages == old(pages) - {key}
    {
      pages := pages - {key};
    }

    /** The same list as the uncached store, cached or not. */
    method ListBooks(q: Query) returns (books: seq<Book>)
      requires Valid() && Allowlisted(q)
      modifies this`pages
      ensures Valid() && counter == old(counter)
      ensures books == ListCompiler.Listed(loc, q, store.rows)
    {
      if !cached {
        books := store.List(loc, q);
        return;
      }
      var key := Key(Generation(), q);
      if key in pages {
        return pages[key];
      }
      books := store.List(loc, q);
      StoredPageOk(loc, pages, Generation(), store.rows, q);
      pages := pages[key := books];
    }

    method CreateBook(owner: nat, title: string, author: string, now: nat) returns (b: Book)
      requires Valid()
      modifies this`counter, this`published, store
      ensures Valid()
      ensures b == Book(old(store.nextId), owner, title, author, now, now)
      ensures store.rows == old(store.rows) + [b] && store.nextId == old(store.nextId) + 1
      ensures published == old(published) + [Created(Payload(b.id, b.owner, b.title, b.author))]
    {
      ghost var before := store.rows;
      b := store.Create(owner, title, author, now);
      assert store.rows[..|before|] == before;
      BumpAndPublish(before, Created(Snapshot(b)));
    }

    method GetBook(id: nat) returns (b: Option<Book>)
      ensures b == if Has(store.rows, id) then Some(Row(store.rows, id)) else None
    {
      b := store.FirstByID(id);
    }

    /** PUT: only the owner, and title and author only. */
    method ReplaceBook(actor: nat, id: nat, title: string, author: string, now: nat) returns (result: Outcome)
      requires Valid()
      modifies this`counter, this`published, store`rows
      ensures Valid()
      ensures result == Verdict(old(store.rows), actor, id, Some(title), Some(author), now)
      ensures result.NotFound? <==> !Has(old(store.rows), id)
      ensures result.Forbidden? <==> Has(old(store.rows), id) && Row(old(store.rows), id).owner != actor
      ensures result.Ok? ==>
                && Has(store.rows, id) && Row(store.rows, id) == result.book
                && result.book.title == title && result.book.author == author && result.book.updated == now
                && result.book.id == id && result.book.owner == actor
                && result.book.created == Row(old(store.rows), id).created
      ensures store.rows ==
              if result.Ok? then WithPatch(old(store.rows), id, Some(title), Some(author), now) else old(store.rows)
      ensures published == old(published) +
              if result.Ok? then [Updated(Payload(id, actor, title, author))] else []
    {
      var b := store.FirstByID(id);
      if b.None? {
        return NotFound;
      }
      if b.value.owner != actor {
        return Forbidden;
      }
      ghost var before := store.rows;
      var book := store.UpdateFields(id, title, author, now);
      result := if book.None? then NotFound else Ok(book.value);
      if result.Ok? {
        PatchContents(before, id, Some(title), Some(author), now);
        BumpAndPublish(before, Updated(Snapshot(result.book)));
      }
    }

    /** PATCH: with no field given the row is left as it is, but the call still bumps and
        publishes. */
    method PatchBook(actor: nat, id: nat, title: Option<string>, author: Option<string>, now: nat)
        returns (result: Outcome)
      requires Valid()
      modifies this`counter, this`published, store`rows
      ensures Valid()
      ensures title.None? && author.None? ==>
                result == Checked(old(store.rows), actor, id) && store.rows == old(store.rows)
      ensures title.Some? || author.Some? ==>
                result == Verdict(old(store.rows), actor, id, title, author, now)
                && store.rows ==
                   if result.Ok? then WithPatch(old(store.rows), id, title, author, now) else old(store.rows)
      ensures result.NotFound? <==> !Has(old(store.rows), id)
      ensures result.Forbidden? <==> Has(old(store.rows), id) && Row(old(store.rows), id).owner != actor
      ensures result.Ok? ==>
                && Has(store.rows, id) && Row(store.rows, id) == result.book
                && result.book.title == (if title.Some? then title.value else Row(old(store.rows), id).title)
                && result.book.author == (if author.Some? then author.value else Row(old(store.rows), id).author)
                && (title.Some? || author.Some? ==> result.book.updated == now)
                && result.book.id == id && result.book.owner == actor
                && result.book.created == Row(old(store.rows), id).created
      ensures published == old(published) +
              if result.Ok? then [Updated(Payload(id, actor, result.book.title, result.book.author))] else []
    {
      var b := store.FirstByID(id);
      if b.None? {
        return NotFound;
      }
      if b.value.owner != actor {
        return Forbidden;
      }
      ghost var before := store.rows;
      var book := store.PatchFields(id, title, author, now);
      result := if book.None? then NotFound else Ok(book.value);
      if result.Ok? {
        PatchedFieldsContents(before, id, title, author, now, store.rows, result.book);
        BumpAndPublish(before, Updated(Snapshot(result.book)));
      }
    }

    /** The deleted event carries the row as it was read. */
    method DeleteBook(actor: nat, id: nat) returns (result: Outcome)
      requires Valid()
      modifies this`counter, this`published, store`rows
      ensures Valid()
      ensures result == Checked(old(store.rows), actor, id)
      ensures result.NotFound? <==> !Has(old(store.rows), id)
      ensures result.Forbidden? <==> Has(old(store.rows), id) && Row(old(store.rows), id).owner != actor
      ensures result.Ok? ==> !Has(store.rows, id) && Has(old(store.rows), id) && result.book == Row(old(store.rows), id)
      ensures store.rows == if result.Ok? then Without(old(store.rows), id) else old(store.rows)
      ensures published == old(published) +
              if result.Ok? then [Deleted(Payload(id, actor, result.book.title, result.book.author))] else []
    {
      var b := store.FirstByID(id);
      if b.None? {
        return NotFound;
      }
      if b.value.owner != actor {
        return Forbidden;
      }
      ghost var before := store.rows;
      var found := store.DeleteByID(id);
      result := if found then Ok(b.value) else NotFound;
      if result.Ok? {
        DeletedContents(before, IndexOf(before, id).value);
        BumpAndPublish(before, Deleted(Snapshot(b.value)));
      }
    }
  }

  /** Who may touch a book. */
  function Checked(rows: seq<Book>, actor: nat, id: nat): Outcome {
    if !Has(rows, id) then NotFound
    else if Row(rows, id).owner != actor then Forbidden
    else Ok(Row(rows, id))
  }

  function Verdict(
      rows: seq<Book>, actor: nat, id: nat, title: Option<string>, author: Option<string>, now: nat): Outcome
  {
    match Checked(rows, actor, id)
    case Ok(b) => Ok(Patched(b, title, author, now))
    case refused => refused
  }
}
