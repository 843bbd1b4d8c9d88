/** What a book listing is meant to be: filter, sort, skip, take. The reference that
    the query compiler, the list cache and the paging laws are measured against. */
module BookList {
  import opened Wrappers
  import opened Like
  import opened Ordering

  datatype Book = Book(id: nat, owner: nat, title: string, author: string, created: nat, updated: nat)

  datatype Field = Id | Title | Author | CreatedAt | UpdatedAt | OwnerId

  /** repository.BookListQuery; sort and order are free text until List reads them. */
  datatype Query = Query(
    offset: int, limit: int, titleLike: string, authorLike: string,
    owner: Option<nat>, sort: string, order: string)

  /** The case map and the text collation of the database. */
  datatype Locale = Locale(lower: char -> char, textLeq: (string, string) -> bool) {
    ghost predicate Ok() {
      CaseMap(lower) && TotalPreorder(textLeq)
    }
  }

  // Sort field and direction

  /** Go's unicode.IsSpace. */
  predicate IsSpace(c: char) {
    var n := c as int;
    9 <= n <= 13 || n in {0x20, 0x85, 0xA0, 0x1680, 0x2028, 0x2029, 0x202F, 0x205F, 0x3000} || 0x2000 <= n <= 0x200A
  }

  function Trim(s: string): (r: string)
    ensures r != "" ==> !IsSpace(r[0]) && !IsSpace(r[|r| - 1])
  {
    if s == "" then s
    else if IsSpace(s[0]) then Trim(s[1..])
    else if IsSpace(s[|s| - 1]) then Trim(s[..|s| - 1])
    else s
  }

  function FieldNamed(name: string): Option<Field> {
    if name == "id" then Some(Id)
    else if name == "title" then Some(Title)
    else if name == "author" then Some(Author)
    else if name == "created_at" then Some(CreatedAt)
    else if name == "updated_at" then Some(UpdatedAt)
    else if name == "owner_id" then Some(OwnerId)
    else None
  }

  function SortField(loc: Locale, q: Query): Field {
    match FieldNamed(Lower(loc.lower, Trim(q.sort)))
    case Some(f) => f
    case None => Id
  }

  predicate Descending(loc: Locale, q: Query) {
    Lower(loc.lower, Trim(q.order)) == "desc"
  }

  // Row order

  predicate FieldLeq(loc: Locale, f: Field, a: Book, b: Book) {
    match f
    case Id => a.id <= b.id
    case Title => loc.textLeq(a.title, b.title)
    case Author => loc.textLeq(a.author, b.author)
    case CreatedAt => a.created <= b.created
    case UpdatedAt => a.updated <= b.updated
    case OwnerId => a.owner <= b.owner
  }

  predicate FieldBefore(loc: Locale, f: Field, desc: bool, a: Book, b: Book) {
    if desc then FieldLeq(loc, f, b, a) else FieldLeq(loc, f, a, b)
  }

  /** Strictly earlier by the field, or tied there and the smaller id. */
  predicate RowLeq(loc: Locale, f: Field, desc: bool, a: Book, b: Book) {
    FieldBefore(loc, f, desc, a, b) && (FieldBefore(loc, f, desc, b, a) ==> a.id <= b.id)
  }

  function RowOrder(loc: Locale, q: Query): (Book, Book) -> bool {
    (a, b) => RowLeq(loc, SortField(loc, q), Descending(loc, q), a, b)
  }

  ghost predicate UniqueIds(rows: seq<Book>) {
    forall i, j :: 0 <= i < j < |rows| ==> rows[i].id != rows[j].id
  }

  // The listing

  predicate Matches(loc: Locale, q: Query, b: Book) {
    && Contains(Lower(loc.lower, b.title), Lower(loc.lower, q.titleLike))
    && Contains(Lower(loc.lower, b.author), Lower(loc.lower, q.authorLike))
    && (q.owner.Some? ==> b.owner == q.owner.value)
  }

  function Filter<T>(p: T -> bool, xs: seq<T>): seq<T> {
    if xs == [] then [] else (if p(xs[0]) then [xs[0]] else []) + Filter(p, xs[1..])
  }

  function Drop<T>(xs: seq<T>, n: int): seq<T> {
    if n <= 0 then xs else if n >= |xs| then [] else xs[n..]
  }

  function Take<T>(xs: seq<T>, n: nat): seq<T> {
    if n >= |xs| then xs else xs[..n]
  }

  function Selected(loc: Locale, q: Query, rows: seq<Book>): seq<Book> {
    Filter(b => Matches(loc, q, b), rows)
  }

  /** Every matching row, in order. */
  function FullListing(loc: Locale, q: Query, rows: seq<Book>): seq<Book> {
    Sort(RowOrder(loc, q), Selected(loc, q, rows))
  }

  /** A negative limit means no limit. */
  function Listing(loc: Locale, q: Query, rows: seq<Book>): seq<Book> {
    var rest := Drop(FullListing(loc, q, rows), q.offset);
    if q.limit >= 0 then Take(rest, q.limit) else rest
  }

  // Order and membership of the full listing

  lemma RowOrderTotal(loc: Locale, q: Query)
    requires loc.Ok()
    ensures TotalPreorder(RowOrder(loc, q))
  {
    var f, desc := SortField(loc, q), Descending(loc, q);
    forall a, b, c | FieldBefore(loc, f, desc, a, b) && FieldBefore(loc, f, desc, b, c)
      ensures FieldBefore(loc, f, desc, a, c)
    {
    }
  }

  lemma {:induction false} FilterMember<T>(p: T -> bool, xs: seq<T>, x: T)
    ensures x in Filter(p, xs) <==> x in xs && p(x)
  {
    if xs != [] {
      FilterMember(p, xs[1..], x);
    }
  }

  lemma {:induction false} FilterKeepsUnique(p: Book -> bool, rows: seq<Book>)
    requires UniqueIds(rows)
    ensures UniqueIds(Filter(p, rows))
  {
    if rows != [] {
      var rest := Filter(p, rows[1..]);
      FilterKeepsUnique(p, rows[1..]);
      forall i | 0 <= i < |rest| ensures rest[i].id != rows[0].id {
        FilterMember(p, rows[1..], rest[i]);
      }
    }
  }

  lemma UniqueRowsUntied(loc: Locale, q: Query, rows: seq<Book>)
    requires UniqueIds(rows)
    ensures NoTies(RowOrder(loc, q), rows)
  {
    forall a, b | a in rows && b in rows && RowOrder(loc, q)(a, b) && RowOrder(loc, q)(b, a)
      ensures a == b
    {
      assert a.id == b.id;
    }
  }

  /** Whatever order the table holds its rows in, a sorted arrangement of the matching
      rows is the full listing. */
  lemma FullListingUnique(loc: Locale, q: Query, rows: seq<Book>, out: seq<Book>)
    requires loc.Ok() && UniqueIds(rows)
    ensures Permutation(out, Selected(loc, q, rows)) && SortedBy(RowOrder(loc, q), out)
            <==> out == FullListing(loc, q, rows)
  {
    var selected := Selected(loc, q, rows);
    RowOrderTotal(loc, q);
    SortSorts(RowOrder(loc, q), selected);
    if Permutation(out, selected) && SortedBy(RowOrder(loc, q), out) {
      FilterKeepsUnique(b => Matches(loc, q, b), rows);
      UniqueRowsUntied(loc, q, selected);
      NoTiesPermuted(RowOrder(loc, q), FullListing(loc, q, rows), selected);
      SortedUnique(RowOrder(loc, q), FullListing(loc, q, rows), out);
    }
  }

  lemma {:induction false} UniqueByElement(rows: seq<Book>, multiplicity: multiset<Book>)
    requires multiplicity == multiset(rows)
    ensures UniqueIds(rows) ==> forall b :: multiplicity[b] <= 1
  {
    if rows != [] {
      assert rows == [rows[0]] + rows[1..];
      UniqueByElement(rows[1..], multiset(rows[1..]));
      if UniqueIds(rows) {
        assert rows[0] !in rows[1..];
      }
    }
  }

  /** The full listing holds every matching row, no other, and each once. */
  lemma FullListingComplete(loc: Locale, q: Query, rows: seq<Book>, b: Book)
    requires loc.Ok() && UniqueIds(rows)
    ensures multiset(FullListing(loc, q, rows))[b] == if b in rows && Matches(loc, q, b) then 1 else 0
  {
    var selected := Selected(loc, q, rows);
    FullListingUnique(loc, q, rows, FullListing(loc, q, rows));
    FilterMember(r => Matches(loc, q, r), rows, b);
    FilterKeepsUnique(r => Matches(loc, q, r), rows);
    UniqueByElement(selected, multiset(selected));
  }

  // Pages

  /** Where page n starts: n times the page size. */
  function PageStart(size: nat, n: nat): nat { if n == 0 then 0 else PageStart(size, n - 1) + size }

  lemma {:induction false} PageStartIs(size: nat, n: nat)
    ensures PageStart(size, n) == n * size
  {
    if n != 0 {
      PageStartIs(size, n - 1);
    }
  }

  /** The first pages, each request finding the table in an arrangement of its own. */
  function Pages(loc: Locale, q: Query, tables: seq<seq<Book>>, size: nat): seq<seq<Book>> {
    seq(|tables|, k requires 0 <= k < |tables| =>
      Listing(loc, q.(offset := PageStart(size, k), limit := size), tables[k]))
  }

  /** The table at each request: the same rows, in any arrangement. */
  ghost predicate Rearranged(rows: seq<Book>, tables: seq<seq<Book>>) {
    forall k :: 0 <= k < |tables| ==> Permutation(rows, tables[k])
  }

  function Concat<T>(pages: seq<seq<T>>): seq<T> {
    if pages == [] then [] else Concat(pages[..|pages| - 1]) + pages[|pages| - 1]
  }

  lemma {:induction false} FilterCounts(p: Book -> bool, rows: seq<Book>, b: Book)
    ensures multiset(Filter(p, rows))[b] == if p(b) then multiset(rows)[b] else 0
  {
    if rows != [] {
      FilterCounts(p, rows[1..], b);
      assert rows == [rows[0]] + rows[1..];
    }
  }

  lemma SelectedPermuted(loc: Locale, q: Query, rows: seq<Book>, rows': seq<Book>)
    requires Permutation(rows, rows')
    ensures Permutation(Selected(loc, q, rows), Selected(loc, q, rows'))
  {
    forall b ensures multiset(Selected(loc, q, rows))[b] == multiset(Selected(loc, q, rows'))[b] {
      FilterCounts(r => Matches(loc, q, r), rows, b);
      FilterCounts(r => Matches(loc, q, r), rows', b);
    }
  }

  lemma CountedTwice(rows: seq<Book>, i: nat, j: nat)
    requires i < j < |rows| && rows[i] == rows[j]
    ensures multiset(rows)[rows[i]] >= 2
  {
    assert rows == rows[..i] + [rows[i]] + rows[i + 1..j] + [rows[j]] + rows[j + 1..];
  }

  lemma UniquePermuted(rows: seq<Book>, rows': seq<Book>)
    requires Permutation(rows, rows') && UniqueIds(rows)
    ensures UniqueIds(rows')
  {
    UniqueByElement(rows, multiset(rows));
    forall i, j | 0 <= i < j < |rows'| ensures rows'[i].id != rows'[j].id {
      if rows'[i] == rows'[j] {
        CountedTwice(rows', i, j);
      }
      InPermutation(rows', rows, rows'[i]);
      InPermutation(rows', rows, rows'[j]);
    }
  }

  /** The full listing does not depend on how the table arranges its rows. */
  lemma ListingPermuted(loc: Locale, q: Query, rows: seq<Book>, rows': seq<Book>)
    requires loc.Ok() && UniqueIds(rows) && Permutation(rows, rows')
    ensures FullListing(loc, q, rows') == FullListing(loc, q, rows) && Listing(loc, q, rows') == Listing(loc, q, rows)
  {
    UniquePermuted(rows, rows');
    SelectedPermuted(loc, q, rows, rows');
    FullListingUnique(loc, q, rows', FullListing(loc, q, rows'));
    FullListingUnique(loc, q, rows, FullListing(loc, q, rows'));
  }

  lemma SamePlan(loc: Locale, q: Query, offset: int, limit: int, rows: seq<Book>)
    ensures FullListing(loc, q.(offset := offset, limit := limit), rows) == FullListing(loc, q, rows)
  {
    var q' := q.(offset := offset, limit := limit);
    SameFilter(b => Matches(loc, q, b), b => Matches(loc, q', b), rows);
    SameSort(RowOrder(loc, q), RowOrder(loc, q'), Selected(loc, q, rows));
  }

  lemma {:induction false} SameFilter(p: Book -> bool, p': Book -> bool, rows: seq<Book>)
    requires forall b :: p(b) == p'(b)
    ensures Filter(p, rows) == Filter(p', rows)
  {
    if rows != [] {
      SameFilter(p, p', rows[1..]);
    }
  }

  lemma {:induction false} SameInsert(leq: (Book, Book) -> bool, leq': (Book, Book) -> bool, x: Book, xs: seq<Book>)
    requires forall a, b :: leq(a, b) == leq'(a, b)
    ensures Insert(leq, x, xs) == Insert(leq', x, xs)
  {
    if xs != [] {
      SameInsert(leq, leq', x, xs[1..]);
    }
  }

  lemma {:induction false} SameSort(leq: (Book, Book) -> bool, leq': (Book, Book) -> bool, xs: seq<Book>)
    requires forall a, b :: leq(a, b) == leq'(a, b)
    ensures Sort(leq, xs) == Sort(leq', xs)
  {
    if xs != [] {
      SameSort(leq, leq', xs[1..]);
      SameInsert(leq, leq', xs[0], Sort(leq, xs[1..]));
    }
  }

  lemma TakeMore<T>(xs: seq<T>, from: nat, size: nat)
    ensures Take(xs, from) + Take(Drop(xs, from), size) == Take(xs, from + size)
  {
  }

  lemma ConcatOneMore<T>(pages: seq<seq<T>>, n: nat)
    requires n < |pages|
    ensures Concat(pages[..n + 1]) == Concat(pages[..n]) + pages[n]
  {
    assert pages[..n + 1][..n] == pages[..n];
  }

  ghost predicate IsChunk<T>(xs: seq<T>, size: nat, k: nat, page: seq<T>) {
    page == Take(Drop(xs, PageStart(size, k)), size)
  }

  lemma {:induction false} ChunksConcatenate<T>(xs: seq<T>, size: nat, pages: seq<seq<T>>, n: nat)
    requires n <= |pages| && forall k :: 0 <= k < |pages| ==> IsChunk(xs, size, k, pages[k])
    ensures Concat(pages[..n]) == Take(xs, PageStart(size, n))
  {
    if n == 0 {
      assert pages[..0] == [];
    } else {
      ChunksConcatenate(xs, size, pages, n - 1);
      ConcatOneMore(pages, n - 1);
      assert IsChunk(xs, size, n - 1, pages[n - 1]);
      TakeMore(xs, PageStart(size, n - 1), size);
    }
  }

  lemma PageIsChunk(loc: Locale, q: Query, rows: seq<Book>, rows': seq<Book>, from: nat, size: nat)
    requires loc.Ok() && UniqueIds(rows) && Permutation(rows, rows')
    ensures Listing(loc, q.(offset := from, limit := size), rows') == Take(Drop(FullListing(loc, q, rows), from), size)
  {
    SamePlan(loc, q, from, size, rows');
    ListingPermuted(loc, q, rows, rows');
  }

  /** Consecutive pages of any size concatenate to the full listing, even when the
      table is rearranged between the requests. */
  lemma PagesConcatenate(loc: Locale, q: Query, rows: seq<Book>, tables: seq<seq<Book>>, size: nat)
    requires loc.Ok() && UniqueIds(rows) && Rearranged(rows, tables)
    ensures var (full, read) := (FullListing(loc, q, rows), Concat(Pages(loc, q, tables, size)));
            read == Take(full, |tables| * size) && (|full| <= |tables| * size ==> read == full)
  {
    var (full, pages) := (FullListing(loc, q, rows), Pages(loc, q, tables, size));
    forall k | 0 <= k < |tables| ensures IsChunk(full, size, k, pages[k]) {
      PageIsChunk(loc, q, rows, tables[k], PageStart(size, k), size);
    }
    ChunksConcatenate(full, size, pages, |pages|);
    assert pages[..|pages|] == pages;
    PageStartIs(size, |tables|);
  }
}
