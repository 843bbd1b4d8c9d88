/** The four book mutations interleaved (pkg/service/book_service.go:161-230): ownership
    is checked on a row read earlier than the row that is written, and events are
    published after the commit, best-effort. */
module BookMutations {
  import opened Wrappers
  import opened BookList
  import opened BookStore
  import opened BookService

  type Id = nat

  datatype Request =
    | Creating(owner: nat, title: string, author: string)
    | Editing(actor: nat, id: nat, newTitle: Option<string>, newAuthor: Option<string>)  // PUT and PATCH
    | MayEdit(actor: nat, id: nat, newTitle: Option<string>, newAuthor: Option<string>)  // the row read had this owner
    | Deleting(actor: nat, id: nat)
    | MayDelete(actor: nat, id: nat, read: Book)
    | Committed(event: BookEvent)
    | Published(event: BookEvent)
    | Ended                             // refused, failed or unpublished

  datatype State = State(
    rows: seq<Book>, nextId: nat,
    creators: map<nat, nat>,            // history: the owner each id was created with
    requests: map<Id, Request>,
    events: seq<(Id, BookEvent)>)       // published, with the request that published

  datatype Event = Begin(r: Id, request: Request) | Advance(r: Id, now: nat) | Fail(r: Id)

  function Init(): State { State([], 1, map[], map[], []) }

  predicate Fresh(request: Request) { request.Creating? || request.Editing? || request.Deleting? }

  function Goto(s: State, r: Id, request: Request): State {
    s.(requests := s.requests[r := request])
  }

  /** The next store call of a request, or its publication. */
  function Proceed(s: State, r: Id, request: Request, now: nat): State {
    match request
    case Creating(owner, title, author) =>
      var b := Book(s.nextId, owner, title, author, now, now);
      Goto(s.(rows := s.rows + [b], nextId := s.nextId + 1, creators := s.creators[b.id := owner]),
           r, Committed(Created(Snapshot(b))))
    case Editing(actor, id, title, author) =>
      if Checked(s.rows, actor, id).Ok? then Goto(s, r, MayEdit(actor, id, title, author)) else Goto(s, r, Ended)
    case MayEdit(actor, id, title, author) =>
      if !Has(s.rows, id) then Goto(s, r, Ended)
      else if title.None? && author.None? then Goto(s, r, Committed(Updated(Snapshot(Row(s.rows, id)))))
      else
        var b := Patched(Row(s.rows, id), title, author, now);
        Goto(s.(rows := WithPatch(s.rows, id, title, author, now)), r, Committed(Updated(Snapshot(b))))
    case Deleting(actor, id) =>
      if Checked(s.rows, actor, id).Ok? then Goto(s, r, MayDelete(actor, id, Row(s.rows, id))) else Goto(s, r, Ended)
    case MayDelete(actor, id, read) =>
      if !Has(s.rows, id) then Goto(s, r, Ended)
      else Goto(s.(rows := Without(s.rows, id)), r, Committed(Deleted(Snapshot(read))))
    case Committed(event) => Goto(s.(events := s.events + [(r, event)]), r, Published(event))
    case _ => s
  }

  function Step(s: State, e: Event): State {
    match e
    case Begin(r, request) => if r !in s.requests && Fresh(request) then Goto(s, r, request) else s
    case Advance(r, now) => if r in s.requests then Proceed(s, r, s.requests[r], now) else s
    case Fail(r) => if r in s.requests && !s.requests[r].Published? then Goto(s, r, Ended) else s
  }

  function Run(s: State, es: seq<Event>): State
    decreases |es|
  {
    if es == [] then s else Run(Step(s, es[0]), es[1..])
  }

  // Ownership

  predicate Owned(rows: seq<Book>, creators: map<nat, nat>) {
    forall i :: 0 <= i < |rows| ==> rows[i].id in creators && rows[i].owner == creators[rows[i].id]
  }

  /** A request past its check acts for the owner the id was created with. */
  predicate Cleared(creators: map<nat, nat>, request: Request) {
    match request
    case MayEdit(actor, id, _, _) => id in creators && creators[id] == actor
    case MayDelete(actor, id, read) => id in creators && creators[id] == actor && read.id == id
    case _ => true
  }

  ghost predicate OwnersOk(s: State) {
    && TableOk(s.rows, s.nextId)
    && (forall id :: id in s.creators ==> id < s.nextId)
    && Owned(s.rows, s.creators)
    && (forall r :: r in s.requests ==> Cleared(s.creators, s.requests[r]))
  }

  /** What one step does to the table, seen at one id that was handed out before. */
  ghost predicate Local(s: State, s': State, id: nat) {
    && TableOk(s'.rows, s'.nextId) && Owned(s'.rows, s'.creators)
    && (id < s.nextId ==> (Has(s'.rows, id) ==> Has(s.rows, id)))
  }

  lemma CreateIsLocal(s: State, r: Id, now: nat, id: nat)
    requires OwnersOk(s) && r in s.requests && s.requests[r].Creating?
    ensures var s' := Proceed(s, r, s.requests[r], now);
            Local(s, s', id) && (id < s.nextId ==> SameRow(s.rows, s'.rows, id))
  {
    var q := s.requests[r];
    InsertLocal(s.rows, s.nextId, Book(s.nextId, q.owner, q.title, q.author, now, now), id);
  }

  lemma EditIsLocal(s: State, r: Id, now: nat, id: nat)
    requires OwnersOk(s) && r in s.requests && s.requests[r].MayEdit?
    ensures var s' := Proceed(s, r, s.requests[r], now);
            Local(s, s', id) && (id != s.requests[r].id ==> SameRow(s.rows, s'.rows, id))
  {
    var q := s.requests[r];
    if Has(s.rows, q.id) {
      PatchLocal(s.rows, s.nextId, q.id, q.newTitle, q.newAuthor, now, id);
    }
  }

  lemma DeleteIsLocal(s: State, r: Id, now: nat, id: nat)
    requires OwnersOk(s) && r in s.requests && s.requests[r].MayDelete?
    ensures var s' := Proceed(s, r, s.requests[r], now);
            && Local(s, s', id) && !Has(s'.rows, s.requests[r].id)
            && (id != s.requests[r].id ==> SameRow(s.rows, s'.rows, id))
  {
    var q := s.requests[r];
    if Has(s.rows, q.id) {
      DeleteLocal(s.rows, s.nextId, q.id, id);
    }
  }

  /** A step changes rows only for the creator of the row. */
  lemma ProceedLocal(s: State, r: Id, now: nat, id: nat)
    requires OwnersOk(s) && r in s.requests
    ensures var s' := Proceed(s, r, s.requests[r], now);
            && Local(s, s', id)
            && (id < s.nextId ==> SameRow(s.rows, s'.rows, id)
                                  || (id in s.creators && ActorOf(s.requests[r]) == Some(s.creators[id])))
  {
    assert Cleared(s.creators, s.requests[r]);
    match s.requests[r]
    case Creating(_, _, _) => CreateIsLocal(s, r, now, id);
    case MayEdit(_, _, _, _) => EditIsLocal(s, r, now, id);
    case MayDelete(_, _, _) => DeleteIsLocal(s, r, now, id);
    case _ =>
  }

  lemma CreatorsGrow(s: State, r: Id, now: nat, id: nat)
    requires OwnersOk(s) && r in s.requests
    ensures var s' := Proceed(s, r, s.requests[r], now);
            && (id in s'.creators ==> id < s'.nextId)
            && (id in s.creators ==> id in s'.creators && s'.creators[id] == s.creators[id])
  {
  }

  lemma ProceedCleared(s: State, r: Id, now: nat)
    requires OwnersOk(s) && r in s.requests
    ensures var s' := Proceed(s, r, s.requests[r], now); r in s'.requests && Cleared(s'.creators, s'.requests[r])
  {
    assert Cleared(s.creators, s.requests[r]);
  }

  lemma OthersCleared(s: State, s': State, r: Id)
    requires OwnersOk(s) && r in s'.requests && s'.requests == s.requests[r := s'.requests[r]]
    requires Cleared(s'.creators, s'.requests[r])
    requires forall id :: id in s.creators ==> id in s'.creators && s'.creators[id] == s.creators[id]
    ensures forall o :: o in s'.requests ==> Cleared(s'.creators, s'.requests[o])
  {
    forall o | o in s'.requests ensures Cleared(s'.creators, s'.requests[o]) {
      if o != r {
        assert Cleared(s.creators, s.requests[o]);
      }
    }
  }

  lemma ProceedKeepsOwners(s: State, r: Id, now: nat)
    requires OwnersOk(s) && r in s.requests
    ensures OwnersOk(Proceed(s, r, s.requests[r], now))
  {
    var s' := Proceed(s, r, s.requests[r], now);
    ProceedLocal(s, r, now, 0);
    ProceedCleared(s, r, now);
    ProceedShape(s, r, now);
    forall id | id in s'.creators ensures id < s'.nextId {
      CreatorsGrow(s, r, now, id);
    }
    forall id | id in s.creators ensures id in s'.creators && s'.creators[id] == s.creators[id] {
      CreatorsGrow(s, r, now, id);
    }
    OthersCleared(s, s', r);
  }

  lemma StepKeepsOwners(s: State, e: Event)
    requires OwnersOk(s)
    ensures OwnersOk(Step(s, e))
  {
    if e.Advance? {
      if e.r in s.requests {
        ProceedKeepsOwners(s, e.r, e.now);
      }
    } else if e.r in Step(s, e).requests && Step(s, e) != s {
      OthersCleared(s, Step(s, e), e.r);
    }
  }

  lemma {:induction false} RunKeepsOwners(s: State, es: seq<Event>)
    requires OwnersOk(s)
    ensures OwnersOk(Run(s, es))
    decreases |es|
  {
    if es != [] {
      StepKeepsOwners(s, es[0]);
      RunKeepsOwners(Step(s, es[0]), es[1..]);
    }
  }

  function ActorOf(request: Request): Option<nat> {
    match request
    case MayEdit(actor, _, _, _) => Some(actor)
    case MayDelete(actor, _, _) => Some(actor)
    case _ => None
  }

  /** Checking first and writing later is safe: in every run, a step that changes or
      removes a row is taken by a request of the user who created the row, and the owner
      the row shows never differs from that user. */
  lemma OnlyOwnersWrite(es: seq<Event>, e: Event, id: nat)
    requires Has(Run(Init(), es).rows, id)
    ensures var s := Run(Init(), es);
            && id in s.creators && Row(s.rows, id).owner == s.creators[id]
            && (!SameRow(s.rows, Step(s, e).rows, id) ==>
                  e.Advance? && e.r in s.requests && ActorOf(s.requests[e.r]) == Some(s.creators[id]))
            && id in Step(s, e).creators && Step(s, e).creators[id] == s.creators[id]
  {
    var s := Run(Init(), es);
    RunKeepsOwners(Init(), es);
    if e.Advance? && e.r in s.requests {
      ProceedLocal(s, e.r, e.now, id);
      CreatorsGrow(s, e.r, e.now, id);
    }
  }

  // Events

  /** The id a request has created, or deleted, once committed. */
  function CreatedBy(request: Request): Option<nat> {
    if (request.Committed? || request.Published?) && request.event.Created? then Some(request.event.book.id) else None
  }

  function DeletedBy(request: Request): Option<nat> {
    if (request.Committed? || request.Published?) && request.event.Deleted? then Some(request.event.book.id) else None
  }

  /** What one step of a request does to the requests, the ids and the events. */
  lemma ProceedShape(s: State, r: Id, now: nat)
    requires r in s.requests
    ensures var (q, s') := (s.requests[r], Proceed(s, r, s.requests[r], now));
            && r in s'.requests && s'.requests == s.requests[r := s'.requests[r]]
            && s.nextId <= s'.nextId
            && (CreatedBy(s'.requests[r]) == CreatedBy(q)
                || (CreatedBy(s'.requests[r]) == Some(s.nextId) && s'.nextId == s.nextId + 1))
            && (DeletedBy(s'.requests[r]) == DeletedBy(q)
                || (q.MayDelete? && Has(s.rows, q.id) && DeletedBy(s'.requests[r]) == Some(q.read.id)))
            && (if q.Committed? then s'.events == s.events + [(r, q.event)] && s'.requests[r] == Published(q.event)
                else s'.events == s.events && (q.Published? ==> s'.requests[r] == q))
  {
  }

  ghost predicate OneCreator(s: State) {
    && (forall r :: r in s.requests && CreatedBy(s.requests[r]).Some? ==> CreatedBy(s.requests[r]).value < s.nextId)
    && (forall r1, r2 ::
          r1 in s.requests && r2 in s.requests && CreatedBy(s.requests[r1]).Some?
          && CreatedBy(s.requests[r1]) == CreatedBy(s.requests[r2])
          ==> r1 == r2)
  }

  ghost predicate OneDeleter(s: State) {
    && (forall r :: r in s.requests && DeletedBy(s.requests[r]).Some? ==> Gone(s, DeletedBy(s.requests[r]).value))
    && (forall r1, r2 ::
          r1 in s.requests && r2 in s.requests && DeletedBy(s.requests[r1]).Some?
          && DeletedBy(s.requests[r1]) == DeletedBy(s.requests[r2])
          ==> r1 == r2)
  }

  predicate Gone(s: State, id: nat) { id < s.nextId && !Has(s.rows, id) }

  /** Every published event is the one of its request, and a request publishes once. */
  ghost predicate EventsOk(s: State) {
    && (forall i :: 0 <= i < |s.events| ==>
          s.events[i].0 in s.requests && s.requests[s.events[i].0] == Published(s.events[i].1))
    && (forall i, j :: 0 <= i < j < |s.events| ==> s.events[i].0 != s.events[j].0)
  }

  ghost predicate Inv(s: State) { OwnersOk(s) && OneCreator(s) && OneDeleter(s) && EventsOk(s) }

  lemma CreatorsKept(s: State, s': State, r: Id)
    requires OneCreator(s) && r in s'.requests && s'.requests == s.requests[r := s'.requests[r]]
    requires s.nextId <= s'.nextId
    requires || CreatedBy(s'.requests[r]).None?
             || (r in s.requests && CreatedBy(s'.requests[r]) == CreatedBy(s.requests[r]))
             || (CreatedBy(s'.requests[r]) == Some(s.nextId) && s'.nextId == s.nextId + 1)
    ensures OneCreator(s')
  {
  }

  lemma DeletersKept(s: State, s': State, r: Id)
    requires OneDeleter(s) && r in s'.requests && s'.requests == s.requests[r := s'.requests[r]]
    requires forall o :: o in s'.requests && DeletedBy(s'.requests[o]).Some? ==>
               Gone(s', DeletedBy(s'.requests[o]).value)
    requires || DeletedBy(s'.requests[r]).None?
             || (r in s.requests && DeletedBy(s'.requests[r]) == DeletedBy(s.requests[r]))
             || Has(s.rows, DeletedBy(s'.requests[r]).value)
    ensures OneDeleter(s')
  {
  }

  lemma ProceedKeepsHistory(s: State, r: Id, now: nat)
    requires Inv(s) && r in s.requests
    ensures var s' := Proceed(s, r, s.requests[r], now); OneCreator(s') && EventsOk(s')
  {
    var s' := Proceed(s, r, s.requests[r], now);
    ProceedShape(s, r, now);
    CreatorsKept(s, s', r);
  }

  lemma ProceedKeepsDeleter(s: State, r: Id, now: nat)
    requires Inv(s) && r in s.requests
    ensures OneDeleter(Proceed(s, r, s.requests[r], now))
  {
    var s' := Proceed(s, r, s.requests[r], now);
    ProceedShape(s, r, now);
    assert Cleared(s.creators, s.requests[r]);
    forall o | o in s'.requests && DeletedBy(s'.requests[o]).Some? ensures Gone(s', DeletedBy(s'.requests[o]).value) {
      GoneStaysGone(s, r, now, o);
    }
    DeletersKept(s, s', r);
  }

  lemma StepKeepsInv(s: State, e: Event)
    requires Inv(s)
    ensures Inv(Step(s, e))
  {
    var s' := Step(s, e);
    StepKeepsOwners(s, e);
    if e.Advance? {
      if e.r in s.requests {
        ProceedKeepsHistory(s, e.r, e.now);
        ProceedKeepsDeleter(s, e.r, e.now);
      }
    } else if s' != s {
      CreatorsKept(s, s', e.r);
      DeletersKept(s, s', e.r);
    }
  }

  lemma GoneStaysGone(s: State, mover: Id, now: nat, r: Id)
    requires Inv(s) && mover in s.requests
    requires var s' := Proceed(s, mover, s.requests[mover], now); r in s'.requests && DeletedBy(s'.requests[r]).Some?
    ensures var s' := Proceed(s, mover, s.requests[mover], now); Gone(s', DeletedBy(s'.requests[r]).value)
  {
    var id := DeletedBy(Proceed(s, mover, s.requests[mover], now).requests[r]).value;
    assert Cleared(s.creators, s.requests[mover]);
    ProceedShape(s, mover, now);
    ProceedLocal(s, mover, now, id);
    if s.requests[mover].MayDelete? {
      DeleteIsLocal(s, mover, now, id);
    }
  }

  lemma {:induction false} RunKeeps(s: State, es: seq<Event>)
    requires Inv(s)
    ensures Inv(Run(s, es))
    decreases |es|
  {
    if es != [] {
      StepKeepsInv(s, es[0]);
      RunKeeps(Step(s, es[0]), es[1..]);
    }
  }

  /** In any interleaving a book id gets at most one created and at most one deleted
      event. */
  lemma EventsAtMostOnce(es: seq<Event>, i: nat, j: nat)
    requires i < j < |Run(Init(), es).events|
    ensures var (a, b) := (Run(Init(), es).events[i].1, Run(Init(), es).events[j].1);
            a.book.id == b.book.id ==> !(a.Created? && b.Created?) && !(a.Deleted? && b.Deleted?)
  {
    var s := Run(Init(), es);
    RunKeeps(Init(), es);
    var (a, b) := (s.events[i], s.events[j]);
    assert s.requests[a.0] == Published(a.1) && s.requests[b.0] == Published(b.1);
    assert CreatedBy(s.requests[a.0]) == CreatedBy(s.requests[b.0]) && CreatedBy(s.requests[a.0]).Some? ==> a.0 == b.0;
    assert DeletedBy(s.requests[a.0]) == DeletedBy(s.requests[b.0]) && DeletedBy(s.requests[a.0]).Some? ==> a.0 == b.0;
  }

  // What a request does, field by field

  /** A creation stores the given fields under a new id and announces them. */
  lemma CreationWrites(es: seq<Event>, r: Id, now: nat)
    requires r in Run(Init(), es).requests && Run(Init(), es).requests[r].Creating?
    ensures var (s, s') := (Run(Init(), es), Step(Run(Init(), es), Advance(r, now)));
            var (q, id) := (s.requests[r], s.nextId);
            && !Has(s.rows, id) && Has(s'.rows, id)
            && Row(s'.rows, id) == Book(id, q.owner, q.title, q.author, now, now)
            && s'.requests[r] == Committed(Created(Payload(id, q.owner, q.title, q.author)))
  {
    var s := Run(Init(), es);
    RunKeepsOwners(Init(), es);
    var s' := Step(s, Advance(r, now));
    CreateIsLocal(s, r, now, s.nextId);
    RowAt(s'.rows, |s.rows|);
  }

  /** An edit is let through exactly for the owner of the row that is read. */
  lemma EditChecks(s: State, r: Id, now: nat)
    requires r in s.requests && s.requests[r].Editing?
    ensures var (q, s') := (s.requests[r], Step(s, Advance(r, now)));
            && s'.rows == s.rows && s'.events == s.events
            && s'.requests[r] == if Has(s.rows, q.id) && Row(s.rows, q.id).owner == q.actor
                                 then MayEdit(q.actor, q.id, q.newTitle, q.newAuthor) else Ended
  {
  }

  lemma DeleteChecks(s: State, r: Id, now: nat)
    requires r in s.requests && s.requests[r].Deleting?
    ensures var (q, s') := (s.requests[r], Step(s, Advance(r, now)));
            && s'.rows == s.rows && s'.events == s.events
            && s'.requests[r] == if Has(s.rows, q.id) && Row(s.rows, q.id).owner == q.actor
                                 then MayDelete(q.actor, q.id, Row(s.rows, q.id)) else Ended
  {
  }

  /** An edit that was let through gives the row the new fields, keeps the others, and
      announces the row it made; on a row that has gone it does nothing. */
  lemma EditWrites(es: seq<Event>, r: Id, now: nat)
    requires r in Run(Init(), es).requests && Run(Init(), es).requests[r].MayEdit?
    ensures var (s, s') := (Run(Init(), es), Step(Run(Init(), es), Advance(r, now)));
            var (q, after) := (s.requests[r], s'.requests[r]);
            if !Has(s.rows, q.id) then s'.rows == s.rows && after == Ended
            else
              && Has(s'.rows, q.id)
              && var (was, row) := (Row(s.rows, q.id), Row(s'.rows, q.id));
                 && row.title == (if q.newTitle.Some? then q.newTitle.value else was.title)
                 && row.author == (if q.newAuthor.Some? then q.newAuthor.value else was.author)
                 && row.updated == (if q.newTitle.Some? || q.newAuthor.Some? then now else was.updated)
                 && row.id == q.id && row.owner == q.actor && row.created == was.created
                 && after == Committed(Updated(Payload(q.id, q.actor, row.title, row.author)))
  {
    var s := Run(Init(), es);
    RunKeepsOwners(Init(), es);
    var q := s.requests[r];
    assert Cleared(s.creators, q);
    if Has(s.rows, q.id) {
      PatchLocal(s.rows, s.nextId, q.id, q.newTitle, q.newAuthor, now, q.id);
    }
  }

  /** A delete that was let through removes the row and announces it as it was read; on a
      row that has gone it does nothing. */
  lemma DeleteWrites(es: seq<Event>, r: Id, now: nat)
    requires r in Run(Init(), es).requests && Run(Init(), es).requests[r].MayDelete?
    ensures var (s, s') := (Run(Init(), es), Step(Run(Init(), es), Advance(r, now)));
            var (q, after) := (s.requests[r], s'.requests[r]);
            && !Has(s'.rows, q.id)
            && (!Has(s.rows, q.id) ==> s'.rows == s.rows && after == Ended)
            && (Has(s.rows, q.id) ==>
                  after == Committed(Deleted(Payload(q.id, q.read.owner, q.read.title, q.read.author))))
  {
    var s := Run(Init(), es);
    RunKeepsOwners(Init(), es);
    var q := s.requests[r];
    assert Cleared(s.creators, q);
    DeleteIsLocal(s, r, now, q.id);
  }

  /** What was committed is published as it is. */
  lemma CommittedIsPublished(s: State, r: Id, now: nat)
    requires r in s.requests && s.requests[r].Committed?
    ensures Step(s, Advance(r, now)).events == s.events + [(r, s.requests[r].event)]
    ensures Step(s, Advance(r, now)).rows == s.rows
  {
  }
}
