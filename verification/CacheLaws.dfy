/** What the cached ListBooks of the program returns: the machine of BookCache with the
    key text of the program and the list its compiled query answers. */
module CacheLaws {
  import opened Wrappers
  import opened Like
  import opened Ordering
  import opened BookList
  import opened CacheKey
  import opened BookCache
  import ListCompiler
  import ListParams

  /** The program behind a handler that lets some queries through. */
  function Program(loc: Locale, admits: Query -> bool): Site {
    Site((gen: nat, q: Query) => Key(gen, q), (q: Query, rows: seq<Book>) => ListCompiler.Listed(loc, q, rows), admits)
  }

  /** Cache coherence. Whatever happens around it, a ListBooks call for a query of the
      parser that returns, from a cached page, its own load or a shared flight, returns
      what the store without a cache answers in a version that has every mutation whose
      bump was finished when the call read the generation, and that is not newer than the
      store when it returns. */
  lemma Coherence(loc: Locale)
    ensures Coherent(Program(loc, q => Allowlisted(q)))
  {
    forall gen, q, gen', q' | Allowlisted(q) && Allowlisted(q') && Key(gen, q) == Key(gen', q')
      ensures gen == gen' && q == q'
    {
      KeyInjective(gen, q, gen', q');
    }
    SoundIsCoherent(Program(loc, q => Allowlisted(q)));
  }

  /** Admitted queries whose sort and order read the same in a key get the same lists. */
  ghost predicate SameAnswers(loc: Locale, admits: Query -> bool) {
    forall q, q' :: admits(q) && admits(q') && SameText(q, q') ==>
      forall rows :: ListCompiler.Listed(loc, q, rows) == ListCompiler.Listed(loc, q', rows)
  }

  /** For any handler, sort and order being free text: the cache is coherent exactly when
      queries with the same key text are the same to the store. */
  lemma CoherentIff(loc: Locale, admits: Query -> bool)
    ensures Coherent(Program(loc, admits)) <==> SameAnswers(loc, admits)
  {
    var site := Program(loc, admits);
    if SameAnswers(loc, admits) {
      forall gen, q, gen', q' | site.admits(q) && site.admits(q') && site.key(gen, q) == site.key(gen', q')
        ensures gen == gen' && forall rows :: site.list(q, rows) == site.list(q', rows)
      {
        KeyEqualIff(gen, q, gen', q');
      }
      SoundIsCoherent(site);
    } else {
      var q, q', rows :| admits(q) && admits(q') && SameText(q, q')
                         && ListCompiler.Listed(loc, q, rows) != ListCompiler.Listed(loc, q', rows);
      KeyEqualIff(0, q, 0, q');
      SharedPageBreaks(site, q, q', rows);
    }
  }

  // The run in which a page is served to the wrong query

  /** Reader 0 has loaded and cached the page of q. */
  function Filled(site: Site, q: Query, rows: seq<Book>): State {
    var (key, books) := (site.key(0, q), site.list(q, rows));
    State(site, [rows], 0, [], map[key := books], map[(0, key) := 0], map[0 := Flight(0, 0, q, Stored(books))],
          map[0 := Reader(0, q, Waiting(0, 0))], map[])
  }

  function Fill(q: Query): seq<Event> {
    [Ask(0, 0, q), ReadGeneration(0), LookUp(0)] + [Enter(0, 0), Load(0), StorePage(0)]
  }

  lemma Run1(s: State, e: Event)
    ensures Run(s, [e]) == Step(s, e)
  {
    assert [e][1..] == [] && Run(Step(s, e), []) == Step(s, e);
  }

  lemma Run3(s: State, e1: Event, e2: Event, e3: Event)
    ensures Run(s, [e1, e2, e3]) == Step(Step(Step(s, e1), e2), e3)
  {
    assert [e1, e2, e3][1..] == [e2, e3] && [e2, e3][1..] == [e3];
    assert Run(s, [e1, e2, e3]) == Run(Step(s, e1), [e2, e3]);
    assert Run(Step(s, e1), [e2, e3]) == Run(Step(Step(s, e1), e2), [e3]);
    Run1(Step(Step(s, e1), e2), e3);
  }

  lemma {:induction false} RunAppend(s: State, es: seq<Event>, more: seq<Event>)
    ensures Run(s, es + more) == Run(Run(s, es), more)
    decreases |es|
  {
    if es == [] {
      assert es + more == more;
    } else {
      RunAppend(Step(s, es[0]), es[1..], more);
      assert (es + more)[1..] == es[1..] + more;
    }
  }

  /** Reader 0 has found no page. */
  function Empty(site: Site, q: Query, rows: seq<Book>): State {
    Init(site, rows).(readers := map[0 := Reader(0, q, Missed(0))])
  }

  lemma MissRuns(site: Site, q: Query, rows: seq<Book>)
    requires site.admits(q)
    ensures Run(Init(site, rows), [Ask(0, 0, q), ReadGeneration(0), LookUp(0)]) == Empty(site, q, rows)
  {
    Run3(Init(site, rows), Ask(0, 0, q), ReadGeneration(0), LookUp(0));
  }

  lemma FillRuns(site: Site, q: Query, rows: seq<Book>)
    requires site.admits(q)
    ensures Run(Init(site, rows), Fill(q)) == Filled(site, q, rows)
  {
    MissRuns(site, q, rows);
    Run3(Empty(site, q, rows), Enter(0, 0), Load(0), StorePage(0));
    RunAppend(
      Init(site, rows), [Ask(0, 0, q), ReadGeneration(0), LookUp(0)], [Enter(0, 0), Load(0), StorePage(0)]);
  }

  /** Reader 1 asks for q', finds the page of q and returns it. */
  lemma SecondReader(s: State, q': Query, books: seq<Book>)
    requires 1 !in s.readers && s.site.admits(q')
    requires s.site.key(s.gen, q') in s.pages && s.pages[s.site.key(s.gen, q')] == books
    ensures Run(s, [Ask(1, 0, q')]) == s.(readers := s.readers[1 := Reader(0, q', Asked)])
    ensures var asked := s.(readers := s.readers[1 := Reader(0, q', Asked)]);
            Run(asked, [ReadGeneration(1)] + [LookUp(1)]) == SetCall(asked, 1, Returned(s.gen, books))
  {
    var asked := s.(readers := s.readers[1 := Reader(0, q', Asked)]);
    Run1(s, Ask(1, 0, q'));
    var known := SetCall(asked, 1, Knows(s.gen));
    assert Step(asked, ReadGeneration(1)) == known;
    assert Step(known, LookUp(1)) == SetCall(known, 1, Returned(s.gen, books));
    assert ([ReadGeneration(1)] + [LookUp(1)])[1..] == [LookUp(1)];
    Run1(known, LookUp(1));
  }

  lemma SharedPageBreaks(site: Site, q: Query, q': Query, rows: seq<Book>)
    requires site.admits(q) && site.admits(q') && site.key(0, q) == site.key(0, q')
    requires site.list(q, rows) != site.list(q', rows)
    ensures !Coherent(site)
  {
    var s := Filled(site, q, rows);
    var es := Fill(q) + [Ask(1, 0, q')];
    FillRuns(site, q, rows);
    RunAppend(Init(site, rows), Fill(q), [Ask(1, 0, q')]);
    SecondReader(s, q', site.list(q, rows));
    var (asked, served) := (Before(site, rows, es), After(site, rows, es, 1, [LookUp(1)]));
    assert served.versions == [rows] && served.readers[1].call == Returned(0, site.list(q, rows));
    assert Served(asked, served, 1) && !Current(asked, served, 1);
  }

  // A handler without the allowlist

  /** Lower-casing keeps lower-case letters and the underscore. */
  ghost predicate KeepsNames(lower: char -> char) {
    forall c :: 'a' <= c <= 'z' || c == '_' ==> lower(c) == c
  }

  predicate NameText(s: string) { forall i :: 0 <= i < |s| ==> 'a' <= s[i] <= 'z' || s[i] == '_' }

  lemma {:induction false} LowerKeeps(lower: char -> char, s: string)
    requires KeepsNames(lower) && NameText(s)
    ensures Lower(lower, s) == s
  {
    if s != "" {
      LowerKeeps(lower, s[1..]);
    }
  }

  lemma PlainName(lower: char -> char, s: string)
    requires KeepsNames(lower) && s != "" && NameText(s)
    ensures Lower(lower, Trim(s)) == s
  {
    ListParams.TrimClean(s);
    LowerKeeps(lower, s);
  }

  lemma PlainSort(loc: Locale, q: Query)
    requires KeepsNames(loc.lower)
    requires q.sort != "" && q.order != "" && NameText(q.sort) && NameText(q.order)
    ensures SortField(loc, q) == if FieldNamed(q.sort).Some? then FieldNamed(q.sort).value else Id
    ensures Descending(loc, q) <==> q.order == "desc"
  {
    PlainName(loc.lower, q.sort);
    PlainName(loc.lower, q.order);
  }

  const FIRST := Book(1, 1, "", "", 0, 0)
  const SECOND := Book(2, 1, "", "", 0, 0)

  /** Any ten books, in an order given as free text. */
  function Ten(sort: string, order: string): Query { Query(0, 10, "", "", None, sort, order) }

  lemma {:induction false} FilterKeepsAll(p: Book -> bool, rows: seq<Book>)
    requires forall i :: 0 <= i < |rows| ==> p(rows[i])
    ensures Filter(p, rows) == rows
  {
    if rows != [] {
      FilterKeepsAll(p, rows[1..]);
    }
  }

  lemma TenOfTwo(loc: Locale, q: Query)
    requires loc.Ok() && q == Ten(q.sort, q.order) && SortField(loc, q) == Id
    ensures ListCompiler.Listed(loc, q, [FIRST, SECOND])
            == if Descending(loc, q) then [SECOND, FIRST] else [FIRST, SECOND]
  {
    ListCompiler.ListedIsListing(loc, q, [FIRST, SECOND]);
    AllOfTwo(loc, q);
  }

  lemma BothSelected(loc: Locale, q: Query)
    requires q == Ten(q.sort, q.order)
    ensures Selected(loc, q, [FIRST, SECOND]) == [FIRST, SECOND]
  {
    forall b: Book | b in [FIRST, SECOND] ensures Matches(loc, q, b) {
      assert OccursAt("", "", 0);
    }
    FilterKeepsAll(b => Matches(loc, q, b), [FIRST, SECOND]);
  }

  lemma TwoSorted(leq: (Book, Book) -> bool, a: Book, b: Book)
    requires leq(a, b)
    ensures SortedBy(leq, [a, b]) && Permutation([a, b], [b, a])
  {
    assert multiset([a, b]) == multiset{a, b} == multiset([b, a]);
  }

  lemma AllOfTwo(loc: Locale, q: Query)
    requires loc.Ok() && q == Ten(q.sort, q.order) && SortField(loc, q) == Id
    ensures FullListing(loc, q, [FIRST, SECOND])
            == if Descending(loc, q) then [SECOND, FIRST] else [FIRST, SECOND]
  {
    BothSelected(loc, q);
    if Descending(loc, q) {
      TwoSorted(RowOrder(loc, q), SECOND, FIRST);
      FullListingUnique(loc, q, [FIRST, SECOND], [SECOND, FIRST]);
    } else {
      TwoSorted(RowOrder(loc, q), FIRST, SECOND);
      FullListingUnique(loc, q, [FIRST, SECOND], [FIRST, SECOND]);
    }
  }

  lemma FreeName()
    ensures NameText("id_order_x") && FieldNamed("id_order_x").None?
  {
    assert "id_order_x"[0] == 'i' && "created_at"[0] == 'c' && "updated_at"[0] == 'u';
  }

  lemma FreeTextDescends(loc: Locale)
    requires loc.Ok() && KeepsNames(loc.lower)
    ensures ListCompiler.Listed(loc, Ten("id_order_x", "desc"), [FIRST, SECOND]) == [SECOND, FIRST]
  {
    FreeName();
    PlainSort(loc, Ten("id_order_x", "desc"));
    TenOfTwo(loc, Ten("id_order_x", "desc"));
  }

  lemma FreeTextAscends(loc: Locale)
    requires loc.Ok() && KeepsNames(loc.lower)
    ensures ListCompiler.Listed(loc, Ten("id", "x_order_desc"), [FIRST, SECOND]) == [FIRST, SECOND]
  {
    PlainSort(loc, Ten("id", "x_order_desc"));
    TenOfTwo(loc, Ten("id", "x_order_desc"));
  }

  /** A handler that let all sort text through would have one client served the page of
      another, in the opposite order. */
  lemma FreeSortServesWrongPage(loc: Locale)
    requires loc.Ok() && KeepsNames(loc.lower)
    ensures !Coherent(Program(loc, q => true))
  {
    var rows := [FIRST, SECOND];
    FreeTextDescends(loc);
    FreeTextAscends(loc);
    FreeSortTextCollides(0, Ten("id", "asc"));
    SharedPageBreaks(Program(loc, q => true), Ten("id_order_x", "desc"), Ten("id", "x_order_desc"), rows);
  }
}
