/** What SQLCBookStore.List answers, column by column: which rows, in which order, and
    which part of them (pkg/repository/book_sqlc.go:65-136). */
module ListLaws {
  import opened Wrappers
  import opened Like
  import opened Ordering
  import opened BookList
  import opened ListCompiler

  /** The sort name and direction as List reads them. */
  function SortName(loc: Locale, q: Query): string { Lower(loc.lower, Trim(q.sort)) }

  predicate Falling(loc: Locale, q: Query) { Lower(loc.lower, Trim(q.order)) == "desc" }

  /** One row comes before another by a column: `upward` says that the first value is at
      most the second, `downward` the reverse. Equal values come by ascending id. */
  predicate InOrder(falling: bool, upward: bool, downward: bool, first: nat, second: nat) {
    if falling then downward && (upward ==> first < second) else upward && (downward ==> first < second)
  }

  lemma FullSorted(loc: Locale, q: Query, rows: seq<Book>)
    requires loc.Ok() && UniqueIds(rows)
    ensures SortedBy(RowOrder(loc, q), FullListing(loc, q, rows)) && UniqueIds(FullListing(loc, q, rows))
  {
    FullListingUnique(loc, q, rows, FullListing(loc, q, rows));
    FilterKeepsUnique(b => Matches(loc, q, b), rows);
    UniquePermuted(Selected(loc, q, rows), FullListing(loc, q, rows));
  }

  /** A page is a stretch of the full listing. */
  lemma ListedAt(loc: Locale, q: Query, rows: seq<Book>, k: nat)
    requires loc.Ok() && Storable(q, rows)
    ensures var (full, page) := (FullListing(loc, q, rows), Listed(loc, q, rows));
            var from := if q.offset < 0 then 0 else q.offset;
            && (k < |page| <==> from + k < |full| && (q.limit < 0 || k < q.limit))
            && (k < |page| ==> page[k] == full[from + k])
  {
    ListedIsListing(loc, q, rows);
  }

  lemma ListedSorted(loc: Locale, q: Query, rows: seq<Book>, i: nat, j: nat)
    requires loc.Ok() && Storable(q, rows) && i < j < |Listed(loc, q, rows)|
    ensures var out := Listed(loc, q, rows); RowOrder(loc, q)(out[i], out[j]) && out[i].id != out[j].id
  {
    FullSorted(loc, q, rows);
    ListedAt(loc, q, rows, i);
    ListedAt(loc, q, rows, j);
  }

  /** The allowlisted names order by their own columns, in the direction asked for, and
      any other text orders by id. */
  lemma ListedOrder(loc: Locale, q: Query, rows: seq<Book>, i: nat, j: nat)
    requires loc.Ok() && Storable(q, rows) && i < j < |Listed(loc, q, rows)|
    ensures var (a, b) := (Listed(loc, q, rows)[i], Listed(loc, q, rows)[j]);
            var (name, falling) := (SortName(loc, q), Falling(loc, q));
            if name == "title" then
              InOrder(falling, loc.textLeq(a.title, b.title), loc.textLeq(b.title, a.title), a.id, b.id)
            else if name == "author" then
              InOrder(falling, loc.textLeq(a.author, b.author), loc.textLeq(b.author, a.author), a.id, b.id)
            else if name == "created_at" then
              InOrder(falling, a.created <= b.created, b.created <= a.created, a.id, b.id)
            else if name == "updated_at" then
              InOrder(falling, a.updated <= b.updated, b.updated <= a.updated, a.id, b.id)
            else if name == "owner_id" then
              InOrder(falling, a.owner <= b.owner, b.owner <= a.owner, a.id, b.id)
            else if falling then b.id < a.id
            else a.id < b.id
  {
    ListedSorted(loc, q, rows, i, j);
  }

  /** Without a page, every row whose title and author contain the filters, and whose
      owner is the one asked for, is listed once, and no other row. */
  lemma ListedRows(loc: Locale, q: Query, rows: seq<Book>, b: Book)
    requires loc.Ok() && Storable(q, rows) && q.limit < 0 && q.offset <= 0
    ensures multiset(Listed(loc, q, rows))[b] ==
            if b in rows
               && Contains(Lower(loc.lower, b.title), Lower(loc.lower, q.titleLike))
               && Contains(Lower(loc.lower, b.author), Lower(loc.lower, q.authorLike))
               && (q.owner.Some? ==> b.owner == q.owner.value)
            then 1 else 0
  {
    ListedIsListing(loc, q, rows);
    FullListingComplete(loc, q, rows, b);
  }

  /** A page is the stretch of the whole list that starts at the offset and has as many
      rows as the limit allows; a negative limit allows all. */
  lemma ListedPage(loc: Locale, q: Query, rows: seq<Book>, k: nat)
    requires loc.Ok() && Storable(q, rows)
    ensures var (whole, page) := (Listed(loc, q.(offset := 0, limit := -1), rows), Listed(loc, q, rows));
            var from := if q.offset < 0 then 0 else q.offset;
            && (k < |page| <==> from + k < |whole| && (q.limit < 0 || k < q.limit))
            && (k < |page| ==> page[k] == whole[from + k])
  {
    ListedAt(loc, q, rows, k);
    ListedIsListing(loc, q.(offset := 0, limit := -1), rows);
    SamePlan(loc, q, 0, -1, rows);
  }
}
