/** The book-list cache as an interleaving machine (pkg/service/book_service.go:99-230):
    any number of replicas read the generation, look up, join or lead flights, load and
    write back late, while mutations commit first and bump the generation later. Cached
    pages may vanish at any time; the counter does not, and Redis calls succeed. */
module BookCache {
  import opened Wrappers
  import opened BookList

  type Id = nat
  type Replica = nat

  /** What the machine is run for: the text of a key, the list the store answers without a
      cache, and the queries that the handler lets through. */
  datatype Site = Site(
    key: (nat, Query) -> string, list: (Query, seq<Book>) -> seq<Book>, admits: Query -> bool)

  /** One ListBooks call. */
  datatype Call =
    | Asked                       // not yet read the generation
    | Knows(gen: nat)             // generation read, cache not yet read
    | Missed(gen: nat)            // cache miss, about to enter singleflight
    | Waiting(gen: nat, flight: Id)
    | Returned(gen: nat, books: seq<Book>)
    | Broken

  datatype Reader = Reader(replica: Replica, q: Query, call: Call)

  /** One execution of the singleflight function. */
  datatype Stage = Opened | Loaded(books: seq<Book>) | Stored(books: seq<Book>) | Landed(books: seq<Book>) | Crashed

  datatype Flight = Flight(replica: Replica, gen: nat, q: Query, stage: Stage)

  /** One mutation: the version its commit made, then its bump. */
  datatype Writer = Committed(version: nat) | Bumped(version: nat)

  datatype State = State(
    site: Site,
    versions: seq<seq<Book>>,                       // every state of the books table so far
    gen: nat,                                       // the counter in Redis
    bumped: seq<nat>,                               // history: the version behind each bump
    pages: map<string, seq<Book>>,                  // cached pages in Redis
    open: map<(Replica, string), Id>,               // registered flights of each replica
    flights: map<Id, Flight>,
    readers: map<Id, Reader>,
    writers: map<Id, Writer>)

  datatype Event =
    | Commit(w: Id, rows: seq<Book>)
    | Bump(w: Id)
    | Evict(key: string)
    | Ask(r: Id, replica: Replica, q: Query)
    | ReadGeneration(r: Id)
    | LookUp(r: Id)
    | Enter(r: Id, flight: Id)     // Do: join the registered flight, or register this one
    | Load(flight: Id)
    | StorePage(flight: Id)
    | Land(flight: Id)
    | Crash(flight: Id)
    | Return(r: Id)
    | GiveUp(r: Id)

  function Init(site: Site, rows: seq<Book>): State {
    State(site, [rows], 0, [], map[], map[], map[], map[], map[])
  }

  function SetCall(s: State, r: Id, call: Call): State
    requires r in s.readers
  {
    s.(readers := s.readers[r := s.readers[r].(call := call)])
  }

  function SetStage(s: State, f: Id, stage: Stage): State
    requires f in s.flights
  {
    s.(flights := s.flights[f := s.flights[f].(stage := stage)])
  }

  function FlightKey(site: Site, f: Flight): string { site.key(f.gen, f.q) }

  /** The flight no longer stands for its key. */
  function Unregister(s: State, f: Id): State
    requires f in s.flights
  {
    var at := (s.flights[f].replica, FlightKey(s.site, s.flights[f]));
    if at in s.open && s.open[at] == f then s.(open := s.open - {at}) else s
  }

  /** A new flight stands for its key. */
  function Register(s: State, f: Id, replica: Replica, gen: nat, q: Query): State {
    s.(open := s.open[(replica, s.site.key(gen, q)) := f], flights := s.flights[f := Flight(replica, gen, q, Opened)])
  }

  function MutationStep(s: State, e: Event): State {
    match e
    case Commit(w, rows) =>
      if w in s.writers then s
      else s.(versions := s.versions + [rows], writers := s.writers[w := Committed(|s.versions|)])
    case Bump(w) =>
      if w in s.writers && s.writers[w].Committed? then
        s.(gen := s.gen + 1, bumped := s.bumped + [s.writers[w].version],
           writers := s.writers[w := Bumped(s.writers[w].version)])
      else s
    case Evict(key) => s.(pages := s.pages - {key})
    case _ => s
  }

  function ReaderStep(s: State, e: Event): State {
    match e
    case Ask(r, replica, q) =>
      if r in s.readers || !s.site.admits(q) then s else s.(readers := s.readers[r := Reader(replica, q, Asked)])
    case ReadGeneration(r) =>
      if r in s.readers && s.readers[r].call.Asked? then SetCall(s, r, Knows(s.gen)) else s
    case LookUp(r) =>
      if r in s.readers && s.readers[r].call.Knows? then
        var gen := s.readers[r].call.gen;
        var key := s.site.key(gen, s.readers[r].q);
        SetCall(s, r, if key in s.pages then Returned(gen, s.pages[key]) else Missed(gen))
      else s
    case Enter(r, f) =>
      if r in s.readers && s.readers[r].call.Missed? then
        var gen := s.readers[r].call.gen;
        var at := (s.readers[r].replica, s.site.key(gen, s.readers[r].q));
        if at in s.open then SetCall(s, r, Waiting(gen, s.open[at]))
        else if f in s.flights then s
        else SetCall(Register(s, f, at.0, gen, s.readers[r].q), r, Waiting(gen, f))
      else s
    case Return(r) =>
      if r in s.readers && s.readers[r].call.Waiting? && s.readers[r].call.flight in s.flights then
        match s.flights[s.readers[r].call.flight].stage
        case Landed(books) => SetCall(s, r, Returned(s.readers[r].call.gen, books))
        case Crashed => SetCall(s, r, Broken)
        case _ => s
      else s
    case GiveUp(r) =>
      if r in s.readers && !s.readers[r].call.Returned? then SetCall(s, r, Broken) else s
    case _ => s
  }

  function Newest(versions: seq<seq<Book>>): seq<Book> {
    if versions == [] then [] else versions[|versions| - 1]
  }

  function FlightStep(s: State, e: Event): State {
    match e
    case Load(f) =>
      if f in s.flights && s.flights[f].stage.Opened?
      then SetStage(s, f, Loaded(s.site.list(s.flights[f].q, Newest(s.versions))))
      else s
    case StorePage(f) =>
      if f in s.flights && s.flights[f].stage.Loaded? then
        var books := s.flights[f].stage.books;
        SetStage(s.(pages := s.pages[FlightKey(s.site, s.flights[f]) := books]), f, Stored(books))
      else s
    case Land(f) =>
      if f in s.flights && s.flights[f].stage.Stored?
      then Unregister(SetStage(s, f, Landed(s.flights[f].stage.books)), f)
      else s
    case Crash(f) =>
      if f in s.flights && !s.flights[f].stage.Landed? then Unregister(SetStage(s, f, Crashed), f) else s
    case _ => s
  }

  predicate IsMutation(e: Event) { e.Commit? || e.Bump? || e.Evict? }

  predicate IsFlight(e: Event) { e.Load? || e.StorePage? || e.Land? || e.Crash? }

  function Step(s: State, e: Event): State {
    if IsMutation(e) then MutationStep(s, e) else if IsFlight(e) then FlightStep(s, e) else ReaderStep(s, e)
  }

  function Run(s: State, es: seq<Event>): State
    decreases |es|
  {
    if es == [] then s else Run(Step(s, es[0]), es[1..])
  }

  // The invariant

  ghost predicate ListedAt(s: State, gen: nat, q: Query, books: seq<Book>, v: nat) {
    && v < |s.versions|
    && (forall i :: 0 <= i < gen && i < |s.bumped| ==> s.bumped[i] <= v)
    && books == s.site.list(q, s.versions[v])
  }

  /** books list some version that has every mutation bumped before generation gen. */
  ghost predicate Fresh(s: State, gen: nat, q: Query, books: seq<Book>) {
    gen <= |s.bumped| && exists v :: ListedAt(s, gen, q, books, v)
  }

  ghost predicate FlightOk(s: State, f: Flight) {
    f.gen <= s.gen && s.site.admits(f.q)
    && match f.stage
       case Loaded(books) => Fresh(s, f.gen, f.q, books)
       case Stored(books) => Fresh(s, f.gen, f.q, books)
       case Landed(books) => Fresh(s, f.gen, f.q, books)
       case _ => true
  }

  ghost predicate ReaderOk(s: State, r: Reader) {
    s.site.admits(r.q)
    && match r.call
    case Knows(gen) => gen <= s.gen
    case Missed(gen) => gen <= s.gen
    case Waiting(gen, f) => gen <= s.gen && f in s.flights && FlightKey(s.site, s.flights[f]) == s.site.key(gen, r.q)
    case Returned(gen, books) => Fresh(s, gen, r.q, books)
    case _ => true
  }

  ghost predicate HistoryOk(s: State) {
    && s.versions != []
    && s.gen == |s.bumped|
    && (forall i :: 0 <= i < |s.bumped| ==> s.bumped[i] < |s.versions|)
    && (forall w :: w in s.writers ==> s.writers[w].version < |s.versions|)
    && (forall w :: w in s.writers && s.writers[w].Bumped? ==> s.writers[w].version in s.bumped)
  }

  /** A page is fresh for every admitted query that has its key. */
  ghost predicate PagesOk(s: State) {
    forall gen, q :: s.site.admits(q) && s.site.key(gen, q) in s.pages ==> Fresh(s, gen, q, s.pages[s.site.key(gen, q)])
  }

  ghost predicate Inv(s: State) {
    && HistoryOk(s) && PagesOk(s)
    && (forall at :: at in s.open ==> s.open[at] in s.flights && FlightKey(s.site, s.flights[s.open[at]]) == at.1)
    && (forall f :: f in s.flights ==> FlightOk(s, s.flights[f]))
    && (forall r :: r in s.readers ==> ReaderOk(s, s.readers[r]))
  }

  /** Nothing of the history is ever taken back. */
  ghost predicate Later(s: State, s': State) {
    && s'.site == s.site && s.versions <= s'.versions && s.bumped <= s'.bumped
    && (forall f :: f in s.flights ==>
          f in s'.flights && FlightKey(s.site, s'.flights[f]) == FlightKey(s.site, s.flights[f]))
  }

  lemma FreshLater(s: State, s': State, gen: nat, q: Query, books: seq<Book>)
    requires Later(s, s') && Fresh(s, gen, q, books)
    ensures Fresh(s', gen, q, books)
  {
    var v :| ListedAt(s, gen, q, books, v);
    assert ListedAt(s', gen, q, books, v);
  }

  lemma ReaderLater(s: State, s': State, r: Reader)
    requires Later(s, s') && s.gen <= s'.gen && ReaderOk(s, r)
    ensures ReaderOk(s', r)
  {
    if r.call.Returned? {
      FreshLater(s, s', r.call.gen, r.q, r.call.books);
    }
  }

  lemma FlightLater(s: State, s': State, f: Flight)
    requires Later(s, s') && s.gen <= s'.gen && FlightOk(s, f)
    ensures FlightOk(s', f)
  {
    if f.stage.Loaded? || f.stage.Stored? || f.stage.Landed? {
      FreshLater(s, s', f.gen, f.q, f.stage.books);
    }
  }

  /** Loading now is fresh for any generation read so far. */
  lemma LoadIsFresh(s: State, gen: nat, q: Query)
    requires HistoryOk(s) && gen <= s.gen
    ensures Fresh(s, gen, q, s.site.list(q, Newest(s.versions)))
  {
    assert ListedAt(s, gen, q, s.site.list(q, Newest(s.versions)), |s.versions| - 1);
  }

  // Mutations change the history only

  lemma MutationIsLater(s: State, e: Event)
    requires HistoryOk(s) && IsMutation(e)
    ensures HistoryOk(MutationStep(s, e)) && Later(s, MutationStep(s, e)) && s.gen <= MutationStep(s, e).gen
  {
    if e.Bump? && e.w in s.writers && s.writers[e.w].Committed? {
      var bumped := s.bumped + [s.writers[e.w].version];
      assert bumped[|s.bumped|] == s.writers[e.w].version;
    }
  }

  lemma MutationKeepsInv(s: State, e: Event)
    requires Inv(s) && IsMutation(e)
    ensures Inv(MutationStep(s, e))
  {
    var s' := MutationStep(s, e);
    MutationIsLater(s, e);
    EverythingLater(s, s');
    PagesLater(s, s');
    assert s'.flights == s.flights && s'.readers == s.readers && s'.open == s.open;
  }

  /** What was fresh stays fresh. */
  lemma EverythingLater(s: State, s': State)
    requires Inv(s) && Later(s, s') && s.gen <= s'.gen
    ensures forall f :: f in s.flights ==> FlightOk(s', s.flights[f])
    ensures forall r :: r in s.readers ==> ReaderOk(s', s.readers[r])
  {
    forall f | f in s.flights ensures FlightOk(s', s.flights[f]) {
      FlightLater(s, s', s.flights[f]);
    }
    forall r | r in s.readers ensures ReaderOk(s', s.readers[r]) {
      ReaderLater(s, s', s.readers[r]);
    }
  }

  lemma PagesLater(s: State, s': State)
    requires PagesOk(s) && Later(s, s')
    requires forall key :: key in s'.pages ==> key in s.pages && s'.pages[key] == s.pages[key]
    ensures PagesOk(s')
  {
    forall gen, q | s.site.admits(q) && s.site.key(gen, q) in s'.pages
      ensures Fresh(s', gen, q, s'.pages[s.site.key(gen, q)])
    {
      FreshLater(s, s', gen, q, s.pages[s.site.key(gen, q)]);
    }
  }

  // Keys

  /** Admitted queries that share a key share the generation and the answers. */
  ghost predicate Sound(site: Site) {
    forall gen, q, gen', q' :: site.admits(q) && site.admits(q') && site.key(gen, q) == site.key(gen', q') ==>
      gen == gen' && forall rows :: site.list(q, rows) == site.list(q', rows)
  }

  lemma SharedFresh(s: State, gen: nat, q: Query, gen': nat, q': Query, books: seq<Book>)
    requires Sound(s.site) && s.site.admits(q) && s.site.admits(q') && s.site.key(gen, q) == s.site.key(gen', q')
    requires Fresh(s, gen, q, books)
    ensures Fresh(s, gen', q', books)
  {
    var v :| ListedAt(s, gen, q, books, v);
    assert ListedAt(s, gen', q', books, v);
  }

  lemma StoredPageOk(s: State, gen: nat, q: Query, books: seq<Book>)
    requires Sound(s.site) && PagesOk(s) && s.site.admits(q) && Fresh(s, gen, q, books)
    ensures PagesOk(s.(pages := s.pages[s.site.key(gen, q) := books]))
  {
    var s' := s.(pages := s.pages[s.site.key(gen, q) := books]);
    forall gen', q' | s.site.admits(q') && s.site.key(gen', q') in s'.pages
      ensures Fresh(s', gen', q', s'.pages[s.site.key(gen', q')])
    {
      if s.site.key(gen', q') == s.site.key(gen, q) {
        SharedFresh(s, gen, q, gen', q', books);
      }
      FreshLater(s, s', gen', q', s'.pages[s.site.key(gen', q')]);
    }
  }

  // Flights

  /** Replacing one flight's stage by a sound one, caching a sound page, and dropping a
      registration keep the invariant. */
  lemma StageKeepsInv(s: State, s': State, f: Id, stage: Stage)
    requires Inv(s) && f in s.flights
    requires s' == s.(flights := s'.flights, open := s'.open, pages := s'.pages)
    requires s'.flights == s.flights[f := s.flights[f].(stage := stage)]
    requires FlightOk(s, s'.flights[f])
    requires forall at :: at in s'.open ==> at in s.open && s'.open[at] == s.open[at]
    requires PagesOk(s.(pages := s'.pages))
    ensures Inv(s') && Later(s, s')
  {
    EverythingLater(s, s');
    FlightLater(s, s', s'.flights[f]);
    PagesLater(s.(pages := s'.pages), s');
  }

  lemma LoadKeepsInv(s: State, f: Id)
    requires Inv(s) && f in s.flights && s.flights[f].stage.Opened?
    ensures Inv(FlightStep(s, Load(f))) && Later(s, FlightStep(s, Load(f)))
  {
    var flight := s.flights[f];
    assert FlightOk(s, flight);
    LoadIsFresh(s, flight.gen, flight.q);
    PagesLater(s, s.(pages := s.pages));
    StageKeepsInv(s, FlightStep(s, Load(f)), f, Loaded(s.site.list(flight.q, Newest(s.versions))));
  }

  lemma StorePageKeepsInv(s: State, f: Id)
    requires Inv(s) && Sound(s.site) && f in s.flights && s.flights[f].stage.Loaded?
    ensures Inv(FlightStep(s, StorePage(f))) && Later(s, FlightStep(s, StorePage(f)))
  {
    var flight := s.flights[f];
    assert FlightOk(s, flight);
    StoredPageOk(s, flight.gen, flight.q, flight.stage.books);
    StageKeepsInv(s, FlightStep(s, StorePage(f)), f, Stored(flight.stage.books));
  }

  lemma EndKeepsInv(s: State, f: Id, stage: Stage)
    requires Inv(s) && f in s.flights && FlightOk(s, s.flights[f].(stage := stage))
    ensures var s' := Unregister(SetStage(s, f, stage), f); Inv(s') && Later(s, s')
  {
    PagesLater(s, s.(pages := s.pages));
    StageKeepsInv(s, Unregister(SetStage(s, f, stage), f), f, stage);
  }

  lemma FlightKeepsInv(s: State, e: Event)
    requires Inv(s) && Sound(s.site) && IsFlight(e)
    ensures Inv(FlightStep(s, e)) && Later(s, FlightStep(s, e))
  {
    var f := e.flight;
    if f in s.flights {
      assert FlightOk(s, s.flights[f]);
      match (e, s.flights[f].stage)
      case (Load(_), Opened) => LoadKeepsInv(s, f);
      case (StorePage(_), Loaded(_)) => StorePageKeepsInv(s, f);
      case (Land(_), Stored(books)) => EndKeepsInv(s, f, Landed(books));
      case (Crash(_), _) => if !s.flights[f].stage.Landed? { EndKeepsInv(s, f, Crashed); }
      case _ =>
    }
  }

  // Readers

  /** Adding a reader at a sound point, or moving it to one, keeps the invariant. */
  lemma ReaderSetKeepsInv(s: State, r: Id, reader: Reader)
    requires Inv(s) && ReaderOk(s, reader)
    ensures var s' := s.(readers := s.readers[r := reader]); Inv(s') && Later(s, s')
  {
    var s' := s.(readers := s.readers[r := reader]);
    EverythingLater(s, s');
    PagesLater(s, s');
    ReaderLater(s, s', reader);
  }

  lemma CallKeepsInv(s: State, r: Id, call: Call)
    requires Inv(s) && r in s.readers && ReaderOk(s, s.readers[r].(call := call))
    ensures Inv(SetCall(s, r, call)) && Later(s, SetCall(s, r, call))
  {
    ReaderSetKeepsInv(s, r, s.readers[r].(call := call));
  }

  lemma RegisterKeepsInv(s: State, f: Id, replica: Replica, gen: nat, q: Query)
    requires Inv(s) && f !in s.flights && gen <= s.gen && s.site.admits(q)
    ensures Inv(Register(s, f, replica, gen, q)) && Later(s, Register(s, f, replica, gen, q))
  {
    var s' := Register(s, f, replica, gen, q);
    EverythingLater(s, s');
    PagesLater(s, s');
  }

  /** The first caller of a key on a replica opens the flight the others will share. */
  lemma LeadKeepsInv(s: State, r: Id, f: Id)
    requires Inv(s) && r in s.readers && s.readers[r].call.Missed? && f !in s.flights
    requires (s.readers[r].replica, s.site.key(s.readers[r].call.gen, s.readers[r].q)) !in s.open
    ensures Inv(ReaderStep(s, Enter(r, f))) && Later(s, ReaderStep(s, Enter(r, f)))
  {
    var reader := s.readers[r];
    assert ReaderOk(s, reader);
    RegisterKeepsInv(s, f, reader.replica, reader.call.gen, reader.q);
    CallKeepsInv(Register(s, f, reader.replica, reader.call.gen, reader.q), r, Waiting(reader.call.gen, f));
  }

  lemma EnterKeepsInv(s: State, r: Id, f: Id)
    requires Inv(s)
    ensures Inv(ReaderStep(s, Enter(r, f))) && Later(s, ReaderStep(s, Enter(r, f)))
  {
    if r in s.readers && s.readers[r].call.Missed? {
      var gen := s.readers[r].call.gen;
      var at := (s.readers[r].replica, s.site.key(gen, s.readers[r].q));
      if at in s.open {
        assert ReaderOk(s, s.readers[r]);
        CallKeepsInv(s, r, Waiting(gen, s.open[at]));
      } else if f !in s.flights {
        LeadKeepsInv(s, r, f);
      }
    }
  }

  lemma AskKeepsInv(s: State, e: Event)
    requires Inv(s) && e.Ask? && ReaderStep(s, e) != s
    ensures Inv(ReaderStep(s, e)) && Later(s, ReaderStep(s, e))
  {
    ReaderSetKeepsInv(s, e.r, Reader(e.replica, e.q, Asked));
  }

  lemma ReaderKeepsInv(s: State, e: Event)
    requires Inv(s) && Sound(s.site) && !IsMutation(e) && !IsFlight(e)
    ensures Inv(ReaderStep(s, e)) && Later(s, ReaderStep(s, e))
  {
    if e.Enter? {
      EnterKeepsInv(s, e.r, e.flight);
    } else if e.Ask? && ReaderStep(s, e) != s {
      AskKeepsInv(s, e);
    } else if e.r in s.readers && ReaderStep(s, e) != s {
      MovedReaderOk(s, e);
      CallKeepsInv(s, e.r, ReaderStep(s, e).readers[e.r].call);
    }
  }

  lemma MovedReaderOk(s: State, e: Event)
    requires Inv(s) && Sound(s.site) && (e.ReadGeneration? || e.LookUp? || e.Return? || e.GiveUp?)
    requires e.r in s.readers && ReaderStep(s, e) != s
    ensures var call := ReaderStep(s, e).readers[e.r].call;
            ReaderStep(s, e) == SetCall(s, e.r, call) && ReaderOk(s, s.readers[e.r].(call := call))
  {
    assert ReaderOk(s, s.readers[e.r]);
    if e.Return? {
      var (reader, flight) := (s.readers[e.r], s.flights[s.readers[e.r].call.flight]);
      assert FlightOk(s, flight);
      if flight.stage.Landed? {
        SharedFresh(s, flight.gen, flight.q, reader.call.gen, reader.q, flight.stage.books);
      }
    }
  }

  lemma StepKeepsInv(s: State, e: Event)
    requires Inv(s) && Sound(s.site)
    ensures Inv(Step(s, e)) && Later(s, Step(s, e))
  {
    if IsMutation(e) {
      MutationKeepsInv(s, e);
      MutationIsLater(s, e);
    } else if IsFlight(e) {
      FlightKeepsInv(s, e);
    } else {
      ReaderKeepsInv(s, e);
    }
  }

  lemma {:induction false} RunKeeps(s: State, es: seq<Event>)
    requires Inv(s) && Sound(s.site)
    ensures Inv(Run(s, es)) && Later(s, Run(s, es))
    decreases |es|
  {
    if es != [] {
      StepKeepsInv(s, es[0]);
      RunKeeps(Step(s, es[0]), es[1..]);
    }
  }

  /** A call keeps the generation it read and its query. */
  predicate ReadAt(s: State, r: Id, gen: nat, q: Query) {
    r in s.readers && s.readers[r].q == q
    && match s.readers[r].call
       case Knows(g) => g == gen
       case Missed(g) => g == gen
       case Waiting(g, _) => g == gen
       case Returned(g, _) => g == gen
       case Asked => false
       case Broken => true
  }

  lemma ReaderKeepsGeneration(s: State, e: Event, r: Id, gen: nat, q: Query)
    requires ReadAt(s, r, gen, q) && !IsMutation(e) && !IsFlight(e) && e.r == r
    ensures ReadAt(ReaderStep(s, e), r, gen, q)
  {
  }

  lemma OnlyReadersMove(s: State, e: Event)
    requires IsMutation(e) || IsFlight(e)
    ensures Step(s, e).readers == s.readers
  {
  }

  lemma StepKeepsGeneration(s: State, e: Event, r: Id, gen: nat, q: Query)
    requires ReadAt(s, r, gen, q)
    ensures ReadAt(Step(s, e), r, gen, q)
  {
    if IsMutation(e) || IsFlight(e) {
      OnlyReadersMove(s, e);
    } else if e.r == r {
      ReaderKeepsGeneration(s, e, r, gen, q);
    } else {
      assert r in ReaderStep(s, e).readers && ReaderStep(s, e).readers[r] == s.readers[r];
    }
  }

  lemma {:induction false} RunKeepsGeneration(s: State, es: seq<Event>, r: Id, gen: nat, q: Query)
    requires ReadAt(s, r, gen, q)
    ensures ReadAt(Run(s, es), r, gen, q)
    decreases |es|
  {
    if es != [] {
      StepKeepsGeneration(s, es[0], r, gen, q);
      RunKeepsGeneration(Step(s, es[0]), es[1..], r, gen, q);
    }
  }

  // What readers get

  /** A call that has yet to read the generation in s has returned in s'. */
  predicate Served(s: State, s': State, r: Id) {
    r in s.readers && s.readers[r].call.Asked? && r in s'.readers && s'.readers[r].call.Returned?
  }

  /** The call's result is what the store without a cache answers in a version that has
      every mutation whose bump was finished in s, and that is no newer than s'. */
  ghost predicate Current(s: State, s': State, r: Id)
    requires Served(s, s', r)
  {
    exists v ::
      && 0 <= v < |s'.versions|
      && s'.readers[r].call.books == s.site.list(s.readers[r].q, s'.versions[v])
      && forall w :: w in s.writers && s.writers[w].Bumped? ==> s.writers[w].version <= v
  }

  function Before(site: Site, rows: seq<Book>, es: seq<Event>): State { Run(Init(site, rows), es) }

  /** Later, the call having read the generation first of all. */
  function After(site: Site, rows: seq<Book>, es: seq<Event>, r: Id, more: seq<Event>): State {
    Run(Before(site, rows, es), [ReadGeneration(r)] + more)
  }

  lemma ServedCurrent(site: Site, rows: seq<Book>, es: seq<Event>, r: Id, more: seq<Event>)
    requires Sound(site) && Served(Before(site, rows, es), After(site, rows, es, r, more), r)
    ensures Current(Before(site, rows, es), After(site, rows, es, r, more), r)
  {
    var s0 := Init(site, rows);
    var s := Before(site, rows, es);
    RunKeeps(s0, es);
    var s1 := Step(s, ReadGeneration(r));
    var s2 := Run(s1, more);
    assert ([ReadGeneration(r)] + more)[1..] == more;
    StepKeepsInv(s, ReadGeneration(r));
    RunKeeps(s1, more);
    RunKeepsGeneration(s1, more, r, s.gen, s.readers[r].q);
    assert ReaderOk(s2, s2.readers[r]);
    var v :| ListedAt(s2, s.gen, s.readers[r].q, s2.readers[r].call.books, v);
    forall w | w in s.writers && s.writers[w].Bumped? ensures s.writers[w].version <= v {
      var i :| 0 <= i < |s.bumped| && s.bumped[i] == s.writers[w].version;
      assert s2.bumped[i] == s.bumped[i];
    }
  }

  /** In every run every call that returns is served a current list. */
  ghost predicate Coherent(site: Site) {
    forall rows, es, r, more :: Served(Before(site, rows, es), After(site, rows, es, r, more), r) ==>
      Current(Before(site, rows, es), After(site, rows, es, r, more), r)
  }

  lemma SoundIsCoherent(site: Site)
    requires Sound(site)
    ensures Coherent(site)
  {
    forall rows, es, r, more | Served(Before(site, rows, es), After(site, rows, es, r, more), r)
      ensures Current(Before(site, rows, es), After(site, rows, es, r, more), r)
    {
      ServedCurrent(site, rows, es, r, more);
    }
  }
}
