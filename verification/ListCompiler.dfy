/** SQLCBookStore.List: a query record compiled into WHERE conditions, ORDER BY keys,
    LIMIT and OFFSET with numbered placeholders and an argument list
    (pkg/repository/book_sqlc.go:65-136), and what that statement returns. */
module ListCompiler {
  import opened Wrappers
  import opened Like
  import opened Ordering
  import opened BookList

  datatype TextColumn = TitleColumn | AuthorColumn

  /** `LOWER(column) LIKE $n ESCAPE '\'` or `owner_id = $n`. */
  datatype Condition = LowerLike(column: TextColumn, placeholder: nat) | OwnerEquals(placeholder: nat)

  datatype Key = Key(field: Field, desc: bool)

  datatype Statement = Statement(where: seq<Condition>, orderBy: seq<Key>, limit: Option<nat>, offset: Option<nat>)

  datatype Argument = TextArg(text: string) | IntArg(n: int)

  const MAX_INT64: nat := 0x7FFF_FFFF_FFFF_FFFF

  /** A uint narrowed for a BIGINT column, clamped instead of wrapping. */
  function ToInt64(v: nat): nat { if v > MAX_INT64 then MAX_INT64 else v }

  // What a statement returns

  /** The value bound to $n. */
  function Bound(args: seq<Argument>, n: nat): Option<Argument> {
    if 1 <= n <= |args| then Some(args[n - 1]) else None
  }

  predicate Holds(loc: Locale, c: Condition, args: seq<Argument>, b: Book) {
    match c
    case LowerLike(column, n) =>
      var text := if column.TitleColumn? then b.title else b.author;
      Bound(args, n).Some? && Bound(args, n).value.TextArg?
      && Match(Bound(args, n).value.text, Lower(loc.lower, text))
    case OwnerEquals(n) =>
      Bound(args, n).Some? && Bound(args, n).value.IntArg? && b.owner == Bound(args, n).value.n
  }

  predicate AllHold(loc: Locale, where: seq<Condition>, args: seq<Argument>, b: Book) {
    forall i :: 0 <= i < |where| ==> Holds(loc, where[i], args, b)
  }

  predicate KeysLeq(loc: Locale, keys: seq<Key>, a: Book, b: Book) {
    keys == []
    || (FieldBefore(loc, keys[0].field, keys[0].desc, a, b)
        && (FieldBefore(loc, keys[0].field, keys[0].desc, b, a) ==> KeysLeq(loc, keys[1..], a, b)))
  }

  /** The integer bound to an optional LIMIT or OFFSET placeholder. */
  function IntBound(args: seq<Argument>, placeholder: Option<nat>): Option<int> {
    if placeholder.Some? && Bound(args, placeholder.value).Some? && Bound(args, placeholder.value).value.IntArg?
    then Some(Bound(args, placeholder.value).value.n)
    else None
  }

  /** OFFSET skips first, then LIMIT takes; LIMIT is never given a negative number. */
  function Slice(rows: seq<Book>, limit: Option<int>, offset: Option<int>): seq<Book> {
    var rest := if offset.Some? then Drop(rows, offset.value) else rows;
    if limit.Some? && limit.value >= 0 then Take(rest, limit.value) else rest
  }

  /** SQL leaves the arrangement of tied rows open: out is some slice of some sorted
      arrangement of the rows that satisfy every condition. */
  ghost predicate Returns(loc: Locale, st: Statement, args: seq<Argument>, rows: seq<Book>, out: seq<Book>) {
    exists sorted ::
      && Permutation(sorted, Filter(b => AllHold(loc, st.where, args, b), rows))
      && SortedBy((a, b) => KeysLeq(loc, st.orderBy, a, b), sorted)
      && out == Slice(sorted, IntBound(args, st.limit), IntBound(args, st.offset))
  }

  /** The result with ties left in table order. */
  function Execute(loc: Locale, st: Statement, args: seq<Argument>, rows: seq<Book>): seq<Book> {
    Slice(Sort((a, b) => KeysLeq(loc, st.orderBy, a, b), Filter(b => AllHold(loc, st.where, args, b), rows)),
          IntBound(args, st.limit), IntBound(args, st.offset))
  }

  /** The placeholders in the order the text mentions them. */
  function Placeholders(st: Statement): seq<nat> {
    seq(|st.where|, i requires 0 <= i < |st.where| => st.where[i].placeholder)
    + (if st.limit.Some? then [st.limit.value] else [])
    + (if st.offset.Some? then [st.offset.value] else [])
  }

  // Compilation

  datatype Where = Where(conds: seq<Condition>, args: seq<Argument>)

  function AddLike(loc: Locale, w: Where, column: TextColumn, text: string): Where {
    if text == "" then w
    else Where(w.conds + [LowerLike(column, |w.args| + 1)], w.args + [TextArg(Pattern(loc.lower, text))])
  }

  function AddOwner(w: Where, owner: Option<nat>): Where {
    match owner
    case None => w
    case Some(id) => Where(w.conds + [OwnerEquals(|w.args| + 1)], w.args + [IntArg(ToInt64(id))])
  }

  function CompiledWhere(loc: Locale, q: Query): Where {
    AddOwner(AddLike(loc, AddLike(loc, Where([], []), TitleColumn, q.titleLike), AuthorColumn, q.authorLike), q.owner)
  }

  function CompiledKeys(loc: Locale, q: Query): seq<Key> {
    var f := SortField(loc, q);
    [Key(f, Descending(loc, q))] + (if f == Id then [] else [Key(Id, false)])
  }

  function PageArgs(q: Query): seq<Argument> {
    (if q.limit >= 0 then [IntArg(q.limit)] else []) + (if q.offset > 0 then [IntArg(q.offset)] else [])
  }

  function Compiled(loc: Locale, q: Query): (Statement, seq<Argument>) {
    var w := CompiledWhere(loc, q);
    var limit := if q.limit >= 0 then Some(|w.args| + 1) else None;
    var offset := if q.offset > 0 then Some(|w.args| + |PageArgs(q)|) else None;
    (Statement(w.conds, CompiledKeys(loc, q), limit, offset), w.args + PageArgs(q))
  }

  /** What List answers on a table. */
  function Listed(loc: Locale, q: Query, rows: seq<Book>): seq<Book> {
    var (st, args) := Compiled(loc, q);
    Execute(loc, st, args, rows)
  }

  /** List, up to the point where the statement is sent. */
  method BuildListQuery(loc: Locale, q: Query) returns (st: Statement, args: seq<Argument>)
    ensures (st, args) == Compiled(loc, q)
  {
    var conds;
    conds, args := BuildWhere(loc, q);
    var keys := BuildOrder(loc, q);
    var limit, offset := None, None;
    if q.limit >= 0 {
      args := args + [IntArg(q.limit)];
      limit := Some(|args|);
    }
    if q.offset > 0 {
      args := args + [IntArg(q.offset)];
      offset := Some(|args|);
    }
    assert args == CompiledWhere(loc, q).args + PageArgs(q);
    st := Statement(conds, keys, limit, offset);
  }

  method BuildWhere(loc: Locale, q: Query) returns (conds: seq<Condition>, args: seq<Argument>)
    ensures Where(conds, args) == CompiledWhere(loc, q)
  {
    conds, args := [], [];
    if q.titleLike != "" {
      args := args + [TextArg(Pattern(loc.lower, q.titleLike))];
      conds := conds + [LowerLike(TitleColumn, |args|)];
    }
    if q.authorLike != "" {
      args := args + [TextArg(Pattern(loc.lower, q.authorLike))];
      conds := conds + [LowerLike(AuthorColumn, |args|)];
    }
    if q.owner.Some? {
      args := args + [IntArg(ToInt64(q.owner.value))];
      conds := conds + [OwnerEquals(|args|)];
    }
  }

  /** The allowlisted field and direction, then the id when the field can tie. */
  method BuildOrder(loc: Locale, q: Query) returns (keys: seq<Key>)
    ensures keys == CompiledKeys(loc, q)
  {
    var sort := Lower(loc.lower, Trim(q.sort));
    if FieldNamed(sort).None? {
      sort := "id";
    }
    var order := Lower(loc.lower, Trim(q.order));
    if order != "desc" {
      order := "asc";
    }
    keys := [Key(FieldNamed(sort).value, order == "desc")];
    if sort != "id" {
      keys := keys + [Key(Id, false)];
    }
  }

  /** For every query and table: the placeholders are 1, 2, ... up to the number of
      arguments, each once, and the statement has one result, the listing. */
  lemma CompiledCorrect(loc: Locale, q: Query)
    requires loc.Ok()
    ensures var (st, args) := Compiled(loc, q);
            && |Placeholders(st)| == |args|
            && (forall i :: 0 <= i < |args| ==> Placeholders(st)[i] == i + 1)
            && (forall rows, out | Storable(q, rows) ::
                  Returns(loc, st, args, rows, out) <==> out == Listing(loc, q, rows))
  {
    var (st, args) := Compiled(loc, q);
    CompiledPlaceholders(loc, q);
    forall rows, out | Storable(q, rows)
      ensures Returns(loc, st, args, rows, out) <==> out == Listing(loc, q, rows)
    {
      CompiledMeaning(loc, q, rows, out);
    }
  }

  lemma WherePlaceholders(loc: Locale, q: Query)
    ensures var w := CompiledWhere(loc, q);
            |w.conds| == |w.args| && forall i :: 0 <= i < |w.conds| ==> w.conds[i].placeholder == i + 1
  {
  }

  lemma CompiledPlaceholders(loc: Locale, q: Query)
    ensures var (st, args) := Compiled(loc, q);
            |Placeholders(st)| == |args| && forall i :: 0 <= i < |args| ==> Placeholders(st)[i] == i + 1
  {
    WherePlaceholders(loc, q);
  }

  // Meaning of the conditions

  ghost predicate WithinArgs(w: Where) {
    forall i :: 0 <= i < |w.conds| ==> 1 <= w.conds[i].placeholder <= |w.args|
  }

  /** Arguments added later do not change conditions that are already bound. */
  lemma MoreArgs(loc: Locale, w: Where, more: seq<Argument>, b: Book)
    requires WithinArgs(w)
    ensures AllHold(loc, w.conds, w.args + more, b) <==> AllHold(loc, w.conds, w.args, b)
  {
    forall i | 0 <= i < |w.conds|
      ensures Holds(loc, w.conds[i], w.args + more, b) <==> Holds(loc, w.conds[i], w.args, b)
    {
      assert Bound(w.args + more, w.conds[i].placeholder) == Bound(w.args, w.conds[i].placeholder);
    }
  }

  lemma OneMore(loc: Locale, w: Where, c: Condition, arg: Argument, b: Book)
    requires WithinArgs(w) && c.placeholder == |w.args| + 1
    ensures WithinArgs(Where(w.conds + [c], w.args + [arg]))
    ensures AllHold(loc, w.conds + [c], w.args + [arg], b)
            <==> AllHold(loc, w.conds, w.args, b) && Holds(loc, c, w.args + [arg], b)
  {
    MoreArgs(loc, w, [arg], b);
    var conds := w.conds + [c];
    assert conds[|w.conds|] == c && forall i :: 0 <= i < |w.conds| ==> conds[i] == w.conds[i];
  }

  lemma AddLikeMeaning(loc: Locale, w: Where, column: TextColumn, text: string, b: Book)
    requires loc.Ok() && WithinArgs(w)
    ensures var w' := AddLike(loc, w, column, text);
            WithinArgs(w')
            && (AllHold(loc, w'.conds, w'.args, b) <==>
                AllHold(loc, w.conds, w.args, b)
                && Contains(
                     Lower(loc.lower, if column.TitleColumn? then b.title else b.author), Lower(loc.lower, text)))
  {
    var value := if column.TitleColumn? then b.title else b.author;
    if text == "" {
      assert OccursAt(Lower(loc.lower, value), "", 0);
    } else {
      LikeIsContains(loc.lower, text, value);
      OneMore(loc, w, LowerLike(column, |w.args| + 1), TextArg(Pattern(loc.lower, text)), b);
    }
  }

  /** Owner ids above the BIGINT range are clamped, so they select the rows of the
      largest id instead of none. */
  predicate OwnerFits(q: Query, b: Book) {
    q.owner.Some? && q.owner.value > MAX_INT64 ==> b.owner < MAX_INT64
  }

  /** A books table: unique ids, BIGINT owners, none of them at the clamp when q asks
      for an id beyond it. */
  ghost predicate Storable(q: Query, rows: seq<Book>) {
    UniqueIds(rows) && forall i :: 0 <= i < |rows| ==> rows[i].owner <= MAX_INT64 && OwnerFits(q, rows[i])
  }

  /** The conditions select exactly the matching rows, except that a clamped owner id
      also selects an owner at the top of the BIGINT range. */
  lemma WhereMeaning(loc: Locale, q: Query, b: Book)
    requires loc.Ok() && b.owner <= MAX_INT64
    ensures var w := CompiledWhere(loc, q);
            WithinArgs(w)
            && (AllHold(loc, w.conds, w.args, b) <==>
                Matches(loc, q, b) || (!OwnerFits(q, b) && Matches(loc, q.(owner := None), b)))
  {
    var w0 := Where([], []);
    var w1 := AddLike(loc, w0, TitleColumn, q.titleLike);
    var w2 := AddLike(loc, w1, AuthorColumn, q.authorLike);
    AddLikeMeaning(loc, w0, TitleColumn, q.titleLike, b);
    AddLikeMeaning(loc, w1, AuthorColumn, q.authorLike, b);
    if q.owner.Some? {
      OneMore(loc, w2, OwnerEquals(|w2.args| + 1), IntArg(ToInt64(q.owner.value)), b);
    }
  }

  /** The owner clause means equality with the requested id exactly when the row is not
      at the clamp. */
  lemma OwnerClampExact(loc: Locale, q: Query, b: Book)
    requires loc.Ok() && b.owner <= MAX_INT64 && Matches(loc, q.(owner := None), b)
    ensures var w := CompiledWhere(loc, q);
            (AllHold(loc, w.conds, w.args, b) <==> Matches(loc, q, b)) <==> OwnerFits(q, b)
  {
    WhereMeaning(loc, q, b);
  }

  lemma OneSorted(leq: (Book, Book) -> bool, p: Book -> bool, b: Book)
    ensures Sort(leq, Filter(p, [b])) == if p(b) then [b] else []
  {
    assert Filter(p, [b]) == if p(b) then [b] else [];
    assert Sort(leq, [b]) == Insert(leq, b, Sort(leq, [])) == [b];
  }

  lemma OneRow(loc: Locale, q: Query, b: Book)
    requires q.offset == 0 && q.limit >= 1
    ensures var (st, args) := Compiled(loc, q);
            Listed(loc, q, [b]) == if AllHold(loc, st.where, args, b) then [b] else []
    ensures Listing(loc, q, [b]) == if Matches(loc, q, b) then [b] else []
  {
    var (st, args) := Compiled(loc, q);
    OneSorted((x, y) => KeysLeq(loc, st.orderBy, x, y), x => AllHold(loc, st.where, args, x), b);
    OneSorted(RowOrder(loc, q), x => Matches(loc, q, x), b);
    CompiledSlice(loc, q, [b]);
    CompiledSlice(loc, q, []);
  }

  /** An owner id beyond the range selects the rows of the largest id, not none. */
  lemma ClampedOwnerSelected(loc: Locale)
    requires loc.Ok()
    ensures var q := Query(0, 10, "", "", Some(MAX_INT64 + 1), "id", "asc");
            var rows := [Book(1, MAX_INT64, "", "", 0, 0)];
            Listed(loc, q, rows) == rows && Listing(loc, q, rows) == []
  {
    var q := Query(0, 10, "", "", Some(MAX_INT64 + 1), "id", "asc");
    var b := Book(1, MAX_INT64, "", "", 0, 0);
    assert OccursAt("", "", 0);
    assert Matches(loc, q.(owner := None), b) && !Matches(loc, q, b) && !OwnerFits(q, b);
    WhereMeaning(loc, q, b);
    OneRow(loc, q, b);
    MoreArgs(loc, CompiledWhere(loc, q), PageArgs(q), b);
  }

  // Meaning of the whole statement

  lemma KeysMeaning(loc: Locale, q: Query, a: Book, b: Book)
    ensures KeysLeq(loc, CompiledKeys(loc, q), a, b) <==> RowOrder(loc, q)(a, b)
  {
    var keys := CompiledKeys(loc, q);
    if SortField(loc, q) != Id {
      assert keys[1..] == [Key(Id, false)];
      assert KeysLeq(loc, [Key(Id, false)], a, b) <==> a.id <= b.id;
    } else {
      assert keys[1..] == [];
    }
  }

  lemma {:induction false} FilterAgrees(p: Book -> bool, p': Book -> bool, rows: seq<Book>)
    requires forall i :: 0 <= i < |rows| ==> p(rows[i]) == p'(rows[i])
    ensures Filter(p, rows) == Filter(p', rows)
  {
    if rows != [] {
      FilterAgrees(p, p', rows[1..]);
    }
  }

  lemma CompiledSelects(loc: Locale, q: Query, b: Book)
    requires loc.Ok() && b.owner <= MAX_INT64 && OwnerFits(q, b)
    ensures var (st, args) := Compiled(loc, q);
            AllHold(loc, st.where, args, b) == Matches(loc, q, b)
  {
    WhereMeaning(loc, q, b);
    MoreArgs(loc, CompiledWhere(loc, q), PageArgs(q), b);
  }

  lemma CompiledFilter(loc: Locale, q: Query, rows: seq<Book>)
    requires loc.Ok() && Storable(q, rows)
    ensures var (st, args) := Compiled(loc, q);
            Filter(b => AllHold(loc, st.where, args, b), rows) == Selected(loc, q, rows)
  {
    var (st, args) := Compiled(loc, q);
    forall i | 0 <= i < |rows|
      ensures AllHold(loc, st.where, args, rows[i]) == Matches(loc, q, rows[i])
    {
      CompiledSelects(loc, q, rows[i]);
    }
    FilterAgrees(b => AllHold(loc, st.where, args, b), b => Matches(loc, q, b), rows);
  }

  lemma CompiledSlice(loc: Locale, q: Query, full: seq<Book>)
    ensures var (st, args) := Compiled(loc, q);
            Slice(full, IntBound(args, st.limit), IntBound(args, st.offset))
            == var rest := Drop(full, q.offset); if q.limit >= 0 then Take(rest, q.limit) else rest
  {
  }

  /** The statement returns one result, and it is the listing. */
  lemma CompiledMeaning(loc: Locale, q: Query, rows: seq<Book>, out: seq<Book>)
    requires loc.Ok() && Storable(q, rows)
    ensures var (st, args) := Compiled(loc, q);
            Returns(loc, st, args, rows, out) <==> out == Listing(loc, q, rows)
  {
    var (st, args) := Compiled(loc, q);
    var full := FullListing(loc, q, rows);
    var leq := (a, b) => KeysLeq(loc, st.orderBy, a, b);
    CompiledFilter(loc, q, rows);
    forall a, b ensures leq(a, b) <==> RowOrder(loc, q)(a, b) {
      KeysMeaning(loc, q, a, b);
    }
    forall sorted
      ensures Permutation(sorted, Selected(loc, q, rows)) && SortedBy(leq, sorted) <==> sorted == full
    {
      FullListingUnique(loc, q, rows, sorted);
    }
    CompiledSlice(loc, q, full);
  }

  /** What List answers is the listing. */
  lemma ListedIsListing(loc: Locale, q: Query, rows: seq<Book>)
    requires loc.Ok() && Storable(q, rows)
    ensures Listed(loc, q, rows) == Listing(loc, q, rows)
  {
    var (st, args) := Compiled(loc, q);
    var leq := (a, b) => KeysLeq(loc, st.orderBy, a, b);
    var selected := Filter(b => AllHold(loc, st.where, args, b), rows);
    KeysTotal(loc, q);
    SortSorts(leq, selected);
    assert Permutation(Sort(leq, selected), selected) && SortedBy(leq, Sort(leq, selected));
    assert Returns(loc, st, args, rows, Listed(loc, q, rows));
    CompiledMeaning(loc, q, rows, Listed(loc, q, rows));
  }

  lemma KeysTotal(loc: Locale, q: Query)
    requires loc.Ok()
    ensures TotalPreorder((a, b) => KeysLeq(loc, CompiledKeys(loc, q), a, b))
  {
    RowOrderTotal(loc, q);
    forall a, b ensures KeysLeq(loc, CompiledKeys(loc, q), a, b) <==> RowOrder(loc, q)(a, b) {
      KeysMeaning(loc, q, a, b);
    }
    assert TotalPreorder(RowOrder(loc, q));
  }
}
