/** Any sequence of calls, made one after the other to a cached and to an uncached book
    service, with cached pages lost at any point: the same answers and the same events. */
module BookTwins {
  import opened Wrappers
  import opened BookList
  import opened BookStore
  import opened BookService
  import opened CacheKey
  import ListCompiler

  datatype Call =
    | ListBooks(q: Query)
    | GetBook(id: nat)
    | CreateBook(owner: nat, title: string, author: string)
    | ReplaceBook(actor: nat, id: nat, title: string, author: string)
    | PatchBook(actor: nat, id: nat, newTitle: Option<string>, newAuthor: Option<string>)
    | DeleteBook(actor: nat, id: nat)
    | LosePage(key: string)

  datatype Reply = Books(books: seq<Book>) | One(outcome: Outcome) | Nothing

  /** Queries come from the parameter parser. */
  predicate Servable(c: Call) { c.ListBooks? ==> Allowlisted(c.q) }

  method ServeEdit(s: Service, c: Call, now: nat) returns (outcome: Outcome)
    requires s.Valid() && (c.ReplaceBook? || c.PatchBook? || c.DeleteBook?)
    modifies s`counter, s`published, s.store`rows
    ensures s.Valid()
    ensures (s.store.rows, s.store.nextId, One(outcome))
            == Answer(s.loc, old(s.store.rows), old(s.store.nextId), c, now)
    ensures s.published == old(s.published) + Announced(c, One(outcome))
  {
    match c
    case ReplaceBook(actor, id, title, author) =>
      outcome := s.ReplaceBook(actor, id, title, author, now);
    case PatchBook(actor, id, title, author) =>
      outcome := s.PatchBook(actor, id, title, author, now);
    case DeleteBook(actor, id) =>
      outcome := s.DeleteBook(actor, id);
  }

  method Serve(s: Service, c: Call, now: nat) returns (reply: Reply)
    requires s.Valid() && Servable(c)
    modifies s, s.store
    ensures s.Valid()
    ensures (s.store.rows, s.store.nextId, reply) == Answer(s.loc, old(s.store.rows), old(s.store.nextId), c, now)
    ensures s.published == old(s.published) + Announced(c, reply)
  {
    match c
    case ListBooks(q) =>
      var books := s.ListBooks(q);
      reply := Books(books);
    case GetBook(id) =>
      var b := s.GetBook(id);
      reply := One(if b.Some? then Ok(b.value) else NotFound);
    case CreateBook(owner, title, author) =>
      var b := s.CreateBook(owner, title, author, now);
      reply := One(Ok(b));
    case LosePage(key) =>
      s.Evict(key);
      reply := Nothing;
    case edit =>
      var outcome := ServeEdit(s, edit, now);
      reply := One(outcome);
  }

  /** The table and the answer after one call, with no cache in sight. */
  function Answer(loc: Locale, rows: seq<Book>, nextId: nat, c: Call, now: nat): (seq<Book>, nat, Reply) {
    match c
    case ListBooks(q) => (rows, nextId, Books(ListCompiler.Listed(loc, q, rows)))
    case GetBook(id) => (rows, nextId, One(if Has(rows, id) then Ok(Row(rows, id)) else NotFound))
    case CreateBook(owner, title, author) =>
      var b := Book(nextId, owner, title, author, now, now);
      (rows + [b], nextId + 1, One(Ok(b)))
    case ReplaceBook(actor, id, title, author) =>
      var outcome := Verdict(rows, actor, id, Some(title), Some(author), now);
      (if outcome.Ok? then WithPatch(rows, id, Some(title), Some(author), now) else rows, nextId, One(outcome))
    case PatchBook(actor, id, title, author) =>
      if title.None? && author.None? then (rows, nextId, One(Checked(rows, actor, id)))
      else
        var outcome := Verdict(rows, actor, id, title, author, now);
        (if outcome.Ok? then WithPatch(rows, id, title, author, now) else rows, nextId, One(outcome))
    case DeleteBook(actor, id) =>
      var outcome := Checked(rows, actor, id);
      (if outcome.Ok? then Without(rows, id) else rows, nextId, One(outcome))
    case LosePage(_) => (rows, nextId, Nothing)
  }

  function Announced(c: Call, reply: Reply): seq<BookEvent> {
    if !(reply.One? && reply.outcome.Ok?) then []
    else
      var b := Snapshot(reply.outcome.book);
      match c
      case CreateBook(_, _, _) => [Created(b)]
      case DeleteBook(_, _) => [Deleted(b)]
      case GetBook(_) => []
      case _ => [Updated(b)]
  }

  method ServeBoth(cached: Service, plain: Service, calls: seq<Call>, times: seq<nat>)
      returns (left: seq<Reply>, right: seq<Reply>)
    requires cached != plain && cached.store != plain.store && cached.loc == plain.loc
    requires cached.Valid() && plain.Valid() && |times| == |calls|
    requires cached.store.rows == plain.store.rows && cached.store.nextId == plain.store.nextId
    requires forall i :: 0 <= i < |calls| ==> Servable(calls[i])
    modifies cached, cached.store, plain, plain.store
    ensures |left| == |calls| && left == right
    ensures cached.store.rows == plain.store.rows && cached.Valid() && plain.Valid()
    ensures old(cached.published) == old(plain.published) ==> cached.published == plain.published
  {
    left, right := [], [];
    for i := 0 to |calls|
      invariant |left| == i && left == right
      invariant cached.Valid() && plain.Valid()
      invariant cached.store.rows == plain.store.rows && cached.store.nextId == plain.store.nextId
      invariant old(cached.published) == old(plain.published) ==> cached.published == plain.published
    {
      var a := Serve(cached, calls[i], times[i]);
      var b := Serve(plain, calls[i], times[i]);
      left, right := left + [a], right + [b];
    }
  }
}
