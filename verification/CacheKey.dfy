/** The Redis key of a cached list page, and the queries that reach it
    (pkg/service/book_service.go:32-47, pkg/api/books.go:61-126). */
module CacheKey {
  import opened Wrappers
  import opened Like
  import opened BookList
  import opened Text

  // The key text

  function DecimalInt(n: int): string {
    if n < 0 then "-" + Decimal(-n) else Decimal(n)
  }

  function OwnerText(owner: Option<nat>): string {
    match owner
    case None => "_"
    case Some(id) => Decimal(id)
  }

  function HexText(s: string): string { HexEncode(Utf8(s)) }

  /** A value and what follows the underscore after it. */
  function Part(value: string, rest: string): string { value + "_" + rest }

  function Tail(q: Query): string { q.sort + "_order_" + q.order }

  function Key(gen: nat, q: Query): string {
    "books_g" + Part(Decimal(gen),
    "offset_" + Part(DecimalInt(q.offset),
    "limit_" + Part(DecimalInt(q.limit),
    "title_" + Part(HexText(q.titleLike),
    "author_" + Part(HexText(q.authorLike),
    "owner_" + Part(OwnerText(q.owner),
    "sort_" + Tail(q)))))))
  }

  predicate Allowlisted(q: Query) {
    FieldNamed(q.sort).Some? && q.order in {"asc", "desc"}
  }

  // Reading a key back

  predicate NoUnderscore(s: string) { '_' !in s }

  lemma DropPrefix(p: string, x: string, y: string)
    requires p + x == p + y
    ensures x == y
  {
    assert x == (p + x)[|p|..] && y == (p + y)[|p|..];
  }

  /** The text before the first underscore. */
  function Cut(s: string): string {
    if s == "" || s[0] == '_' then "" else [s[0]] + Cut(s[1..])
  }

  lemma {:induction false} CutPart(x: string, rest: string)
    requires NoUnderscore(x)
    ensures Cut(Part(x, rest)) == x
  {
    if x != "" {
      CutPart(x[1..], rest);
      assert Part(x, rest)[1..] == Part(x[1..], rest);
    }
  }

  lemma CutPrefixedPart(p: string, x: string, rest: string, y: string, rest': string)
    requires p + Part(x, rest) == p + Part(y, rest') && NoUnderscore(x) && NoUnderscore(y)
    ensures x == y && rest == rest'
  {
    DropPrefix(p, Part(x, rest), Part(y, rest'));
    CutPart(x, rest);
    CutPart(y, rest');
    DropPrefix(x + "_", rest, rest');
  }

  lemma DecimalInjective(m: nat, n: nat)
    requires Decimal(m) == Decimal(n)
    ensures m == n
  {
    ParseDecimal(m);
    ParseDecimal(n);
  }

  lemma DecimalIntCut(n: int)
    ensures NoUnderscore(DecimalInt(n)) && (DecimalInt(n)[0] == '-' <==> n < 0)
  {
    DecimalDigits(if n < 0 then -n else n);
  }

  lemma DecimalIntInjective(m: int, n: int)
    requires DecimalInt(m) == DecimalInt(n)
    ensures m == n
  {
    DecimalIntCut(m);
    DecimalIntCut(n);
    if m < 0 {
      DropPrefix("-", Decimal(-m), Decimal(-n));
      DecimalInjective(-m, -n);
    } else {
      DecimalInjective(m, n);
    }
  }

  lemma HexTextInjective(s: string, t: string)
    requires HexText(s) == HexText(t)
    ensures s == t
  {
    HexRoundTrip(Utf8(s));
    HexRoundTrip(Utf8(t));
    Utf8Injective(s, t);
  }

  lemma HexTextCut(s: string)
    ensures NoUnderscore(HexText(s))
  {
    HexEncodeDigits(Utf8(s));
  }

  /** The `_` of "no owner" is told from digits by its first character. */
  lemma OwnerCut(a: Option<nat>, rest: string, b: Option<nat>, rest': string)
    requires Part(OwnerText(a), rest) == Part(OwnerText(b), rest')
    ensures a == b && rest == rest'
  {
    var s := Part(OwnerText(a), rest);
    if a.Some? {
      DecimalDigits(a.value);
      assert s[0] == Decimal(a.value)[0];
    }
    if b.Some? {
      DecimalDigits(b.value);
      assert s[0] == Decimal(b.value)[0];
    }
    if a.Some? && b.Some? {
      CutPrefixedPart("", Decimal(a.value), rest, Decimal(b.value), rest');
      DecimalInjective(a.value, b.value);
    } else {
      assert a.None? && b.None? by {
        assert a.None? ==> s[0] == '_';
        assert b.None? ==> s[0] == '_';
      }
      assert "__" + rest == Part("_", rest) && "__" + rest' == Part("_", rest');
      DropPrefix("__", rest, rest');
    }
  }

  lemma TailOrder(q: Query)
    requires Allowlisted(q)
    ensures |Tail(q)| >= 4
    ensures Tail(q)[|Tail(q)| - 4] == if q.order == "asc" then '_' else 'd'
  {
  }

  /** Sort names contain underscores, but the order names tell where they end. */
  lemma TailCut(q: Query, q': Query)
    requires Allowlisted(q) && Allowlisted(q') && Tail(q) == Tail(q')
    ensures q.sort == q'.sort && q.order == q'.order
  {
    TailOrder(q);
    TailOrder(q');
    assert q.order == q'.order;
    assert q.sort == Tail(q)[..|Tail(q)| - |"_order_" + q.order|];
    assert q'.sort == Tail(q')[..|Tail(q')| - |"_order_" + q'.order|];
  }

  /** What a key tells of a query: everything but where the sort text ends. */
  predicate SameText(q: Query, q': Query) {
    q' == q.(sort := q'.sort, order := q'.order) && Tail(q) == Tail(q')
  }

  /** For all queries, sort and order being free text: equal keys mean equal generations
      and queries that differ at most in how their sort and order text is divided. */
  lemma KeyEqualIff(gen: nat, q: Query, gen': nat, q': Query)
    ensures Key(gen, q) == Key(gen', q') <==> gen == gen' && SameText(q, q')
  {
    if Key(gen, q) == Key(gen', q') {
      DecimalIntCut(gen); DecimalIntCut(gen');
      DecimalIntCut(q.offset); DecimalIntCut(q'.offset);
      DecimalIntCut(q.limit); DecimalIntCut(q'.limit);
      HexTextCut(q.titleLike); HexTextCut(q'.titleLike);
      HexTextCut(q.authorLike); HexTextCut(q'.authorLike);
      KeyParts(gen, q, gen', q');
      DecimalInjective(gen, gen');
      DecimalIntInjective(q.offset, q'.offset);
      DecimalIntInjective(q.limit, q'.limit);
      HexTextInjective(q.titleLike, q'.titleLike);
      HexTextInjective(q.authorLike, q'.authorLike);
    }
  }

  /** On allowlisted queries, equal keys, equal generation and equal query. */
  lemma KeyInjective(gen: nat, q: Query, gen': nat, q': Query)
    requires Allowlisted(q) && Allowlisted(q') && Key(gen, q) == Key(gen', q')
    ensures gen == gen' && q == q'
  {
    KeyEqualIff(gen, q, gen', q');
    TailCut(q, q');
  }

  lemma KeyParts(gen: nat, q: Query, gen': nat, q': Query)
    requires Key(gen, q) == Key(gen', q')
    requires NoUnderscore(Decimal(gen)) && NoUnderscore(Decimal(gen'))
    requires NoUnderscore(DecimalInt(q.offset)) && NoUnderscore(DecimalInt(q'.offset))
    requires NoUnderscore(DecimalInt(q.limit)) && NoUnderscore(DecimalInt(q'.limit))
    requires NoUnderscore(HexText(q.titleLike)) && NoUnderscore(HexText(q'.titleLike))
    requires NoUnderscore(HexText(q.authorLike)) && NoUnderscore(HexText(q'.authorLike))
    ensures Decimal(gen) == Decimal(gen')
    ensures DecimalInt(q.offset) == DecimalInt(q'.offset) && DecimalInt(q.limit) == DecimalInt(q'.limit)
    ensures HexText(q.titleLike) == HexText(q'.titleLike) && HexText(q.authorLike) == HexText(q'.authorLike)
    ensures q.owner == q'.owner && Tail(q) == Tail(q')
  {
    var r6, r6' := "sort_" + Tail(q), "sort_" + Tail(q');
    var r5, r5' := "owner_" + Part(OwnerText(q.owner), r6), "owner_" + Part(OwnerText(q'.owner), r6');
    var r4, r4' := "author_" + Part(HexText(q.authorLike), r5), "author_" + Part(HexText(q'.authorLike), r5');
    var r3, r3' := "title_" + Part(HexText(q.titleLike), r4), "title_" + Part(HexText(q'.titleLike), r4');
    var r2, r2' := "limit_" + Part(DecimalInt(q.limit), r3), "limit_" + Part(DecimalInt(q'.limit), r3');
    var r1, r1' := "offset_" + Part(DecimalInt(q.offset), r2), "offset_" + Part(DecimalInt(q'.offset), r2');
    CutPrefixedPart("books_g", Decimal(gen), r1, Decimal(gen'), r1');
    CutPrefixedPart("offset_", DecimalInt(q.offset), r2, DecimalInt(q'.offset), r2');
    CutPrefixedPart("limit_", DecimalInt(q.limit), r3, DecimalInt(q'.limit), r3');
    CutPrefixedPart("title_", HexText(q.titleLike), r4, HexText(q'.titleLike), r4');
    CutPrefixedPart("author_", HexText(q.authorLike), r5, HexText(q'.authorLike), r5');
    DropPrefix("owner_", Part(OwnerText(q.owner), r6), Part(OwnerText(q'.owner), r6'));
    OwnerCut(q.owner, r6, q'.owner, r6');
    DropPrefix("sort_", Tail(q), Tail(q'));
  }

  /** Free sort and order text is not encoded: two different queries with one key. */
  lemma FreeSortTextCollides(gen: nat, q: Query)
    ensures var a, b := q.(sort := "id_order_x", order := "desc"), q.(sort := "id", order := "x_order_desc");
            a != b && Key(gen, a) == Key(gen, b)
  {
    var a, b := q.(sort := "id_order_x", order := "desc"), q.(sort := "id", order := "x_order_desc");
    assert Tail(a) == Tail(b);
  }

  lemma SmallNumbers()
    ensures Decimal(2) == "2" && DecimalInt(5) == "5" && DecimalInt(10) == "10" && Decimal(7) == "7"
  {
    assert Decimal(10) == Decimal(1) + "0" && Decimal(1) == "1";
  }

  /** The text of a key, spelled out. */
  lemma KeyText(owner: Option<nat>)
    ensures Key(2, Query(5, 10, "go", "ann", owner, "title", "desc"))
            == "books_g" + ("2" + "_"
               + ("offset_" + ("5" + "_"
               + ("limit_" + ("10" + "_"
               + ("title_" + ("676f" + "_"
               + ("author_" + ("616e6e" + "_"
               + ("owner_" + (OwnerText(owner) + "_"
               + ("sort_" + ("title" + "_order_" + "desc")))))))))))))
    ensures OwnerText(None) == "_" && OwnerText(Some(7)) == "7"
  {
    SmallNumbers();
    HexOfTwo();
    HexOfThree();
  }

  /** An ASCII character is two digits of the text. */
  lemma HexCons(c: char, s: string)
    requires c as int < 0x80
    ensures HexText([c] + s) == [HEX[c as int / 16], HEX[c as int % 16]] + HexText(s)
  {
    assert ([c] + s)[1..] == s;
    assert Utf8([c] + s) == [c as int] + Utf8(s);
    assert ([c as int] + Utf8(s))[1..] == Utf8(s);
  }

  lemma HexOfTwo()
    ensures HexText("go") == "676f"
  {
    HexCons('o', "");
    HexCons('g', "o");
    assert ['o'] + "" == "o" && ['g'] + "o" == "go";
  }

  lemma HexOfThree()
    ensures HexText("ann") == "616e6e"
  {
    HexCons('n', "");
    HexCons('n', "n");
    HexCons('a', "nn");
    assert ['n'] + "" == "n" && ['n'] + "n" == "nn" && ['a'] + "nn" == "ann";
  }
}
