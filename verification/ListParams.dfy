/** Reading GET /books parameters into a query (pkg/api/books.go:61-126). */
module ListParams {
  import opened Wrappers
  import opened Like
  import opened BookList
  import opened Text

  /** The raw query string values; an absent parameter is None where it has a default. */
  datatype Params = Params(
    offset: Option<string>, limit: Option<string>, titleLike: string, authorLike: string,
    ownerId: string, sort: Option<string>, order: Option<string>)

  const MIN_LIMIT := 1
  const MAX_LIMIT := 100
  const MAX_INT: int := 0x7FFF_FFFF_FFFF_FFFF
  const MAX_UINT: int := 0xFFFF_FFFF_FFFF_FFFF

  function OrDefault(v: Option<string>, default: string): string {
    if v.Some? then v.value else default
  }

  /** strconv.Atoi on 64 bits: an optional sign, digits, in range. */
  function Atoi(s: string): Option<int> {
    var signed := s != "" && s[0] in {'+', '-'};
    match ParseNat(if signed then s[1..] else s)
    case None => None
    case Some(n) =>
      var m: int := n;
      var v := if signed && s[0] == '-' then -m else m;
      if -MAX_INT - 1 <= v <= MAX_INT then Some(v) else None
  }

  /** strconv.ParseUint in base 10 on 64 bits. */
  function ParseUint(s: string): Option<nat> {
    match ParseNat(s)
    case None => None
    case Some(n) => if n <= MAX_UINT then Some(n) else None
  }

  /** What the parser can hand to the service. */
  predicate Canonical(q: Query) {
    && 0 <= q.offset <= MAX_INT
    && MIN_LIMIT <= q.limit <= MAX_LIMIT
    && Trim(q.titleLike) == q.titleLike && Trim(q.authorLike) == q.authorLike
    && (q.owner.Some? ==> q.owner.value <= MAX_UINT)
    && FieldNamed(q.sort).Some?
    && q.order in {"asc", "desc"}
  }

  /** An integer parameter, None for a format error. */
  function ReadInt(v: Option<string>, default: string): Option<int> { Atoi(Trim(OrDefault(v, default))) }

  method ParseOffsetLimit(p: Params) returns (offset: int, limit: int, ok: bool)
    ensures var (o, l) := (ReadInt(p.offset, "0"), ReadInt(p.limit, "10"));
            && (ok <==> o.Some? && l.Some? && o.value >= 0 && l.value >= MIN_LIMIT)
            && (ok ==> offset == o.value && limit == if l.value > MAX_LIMIT then MAX_LIMIT else l.value)
  {
    var o := ReadInt(p.offset, "0");
    if o.None? { return 0, 0, false; }
    var l := ReadInt(p.limit, "10");
    if l.None? { return 0, 0, false; }
    if o.value < 0 { return 0, 0, false; }
    if l.value < MIN_LIMIT { return 0, 0, false; }
    offset, limit, ok := o.value, l.value, true;
    if limit > MAX_LIMIT {
      limit := MAX_LIMIT;
    }
  }

  /** The query the parameters stand for, None for a 400 response. */
  function Parsed(lower: char -> char, p: Params): Option<Query> {
    var (o, l) := (ReadInt(p.offset, "0"), ReadInt(p.limit, "10"));
    var ownerRaw := Trim(p.ownerId);
    var owner := if ownerRaw == "" then None else ParseUint(ownerRaw);
    var sort, order := Lower(lower, Trim(OrDefault(p.sort, "id"))), Lower(lower, Trim(OrDefault(p.order, "asc")));
    if o.None? || l.None? || o.value < 0 || l.value < MIN_LIMIT || (ownerRaw != "" && owner.None?)
       || FieldNamed(sort).None? || order !in {"asc", "desc"}
    then None
    else Some(Query(o.value, if l.value > MAX_LIMIT then MAX_LIMIT else l.value,
                    Trim(p.titleLike), Trim(p.authorLike), owner, sort, order))
  }

  method ParseBookListQuery(lower: char -> char, p: Params) returns (q: Option<Query>)
    ensures q == Parsed(lower, p)
    ensures q.Some? ==> Canonical(q.value)
  {
    var offset, limit, ok := ParseOffsetLimit(p);
    if !ok { return None; }
    var parsed := Query(offset, limit, Trim(p.titleLike), Trim(p.authorLike), None, "", "");
    TrimTwice(p.titleLike);
    TrimTwice(p.authorLike);
    var ownerRaw := Trim(p.ownerId);
    if ownerRaw != "" {
      var id := ParseUint(ownerRaw);
      if id.None? { return None; }
      parsed := parsed.(owner := Some(id.value));
    }
    var sort := Lower(lower, Trim(OrDefault(p.sort, "id")));
    if FieldNamed(sort).None? { return None; }
    parsed := parsed.(sort := sort);
    var order := Lower(lower, Trim(OrDefault(p.order, "asc")));
    if order != "asc" && order != "desc" { return None; }
    parsed := parsed.(order := order);
    return Some(parsed);
  }

  lemma TrimTwice(s: string)
    ensures Trim(Trim(s)) == Trim(s)
  {
  }

  // Writing a query back as parameters

  predicate Blank(s: string) { forall i :: 0 <= i < |s| ==> IsSpace(s[i]) }

  function Zeros(n: nat): string { seq(n, _ => '0') }

  function Number(zeros: nat, n: int): string { Zeros(zeros) + Decimal(if n < 0 then 0 else n) }

  function Padded(before: string, s: string, after: string): string { before + s + after }

  /** The parameters of q with zeros before its numbers and blanks around every value. */
  function Written(q: Query, zeros: nat, before: string, after: string): Params {
    Params(
      Some(Padded(before, Number(zeros, q.offset), after)),
      Some(Padded(before, Number(zeros, q.limit), after)),
      Padded(before, q.titleLike, after),
      Padded(before, q.authorLike, after),
      if q.owner.Some? then Padded(before, Number(zeros, q.owner.value), after) else before,
      Some(Padded(before, q.sort, after)),
      Some(Padded(before, q.order, after)))
  }

  lemma {:induction false} TrimBlank(w: string)
    requires Blank(w)
    ensures Trim(w) == ""
  {
    if w != "" {
      TrimBlank(w[1..]);
    }
  }

  lemma {:induction false} TrimPadded(before: string, s: string, after: string)
    requires Blank(before) && Blank(after) && Trim(s) == s
    ensures Trim(Padded(before, s, after)) == s
    decreases |before| + |after|
  {
    var p := before + s + after;
    if before != "" {
      assert p[0] == before[0] && p[1..] == before[1..] + s + after;
      TrimPadded(before[1..], s, after);
    } else if s == "" {
      assert p == after;
      TrimBlank(after);
    } else if after != "" {
      assert p[0] == s[0] && p[|p| - 1] == after[|after| - 1];
      assert p[..|p| - 1] == before + s + after[..|after| - 1];
      TrimPadded(before, s, after[..|after| - 1]);
    } else {
      assert p == s;
    }
  }

  lemma {:induction false} LeadingZeros(zeros: nat, s: string)
    requires ParseNat(s).Some?
    ensures ParseNat(Zeros(zeros) + s) == ParseNat(s)
    decreases |s|
  {
    var p := Zeros(zeros) + s;
    assert p[|p| - 1] == s[|s| - 1];
    assert p[..|p| - 1] == Zeros(zeros) + s[..|s| - 1];
    if |s| > 1 {
      LeadingZeros(zeros, s[..|s| - 1]);
    } else if zeros > 0 {
      OnlyZeros(zeros);
      assert p[..|p| - 1] == Zeros(zeros);
    }
  }

  lemma {:induction false} OnlyZeros(zeros: nat)
    requires zeros > 0
    ensures ParseNat(Zeros(zeros)) == Some(0)
  {
    if zeros > 1 {
      OnlyZeros(zeros - 1);
      assert Zeros(zeros)[..zeros - 1] == Zeros(zeros - 1);
    }
  }

  lemma DigitsRead(n: nat, zeros: nat)
    ensures var s := Number(zeros, n);
            s != "" && IsDigit(s[0]) && IsDigit(s[|s| - 1]) && ParseNat(s) == Some(n)
  {
    DecimalDigits(n);
    ParseDecimal(n);
    LeadingZeros(zeros, Decimal(n));
  }

  lemma DigitsParse(s: string, n: nat)
    requires s != "" && IsDigit(s[0]) && ParseNat(s) == Some(n)
    ensures n <= MAX_INT ==> Atoi(s) == Some(n)
    ensures n <= MAX_UINT ==> ParseUint(s) == Some(n)
  {
  }

  lemma PaddedDigits(before: string, s: string, after: string)
    requires s != "" && IsDigit(s[0]) && IsDigit(s[|s| - 1]) && Blank(before) && Blank(after)
    ensures Trim(Padded(before, s, after)) == s
  {
    TrimClean(s);
    TrimPadded(before, s, after);
  }

  lemma PaddedNumber(n: nat, zeros: nat, before: string, after: string)
    requires Blank(before) && Blank(after)
    ensures var s := Trim(Padded(before, Number(zeros, n), after));
            && (n <= MAX_INT ==> Atoi(s) == Some(n))
            && (n <= MAX_UINT ==> s != "" && ParseUint(s) == Some(n))
  {
    DigitsRead(n, zeros);
    PaddedDigits(before, Number(zeros, n), after);
    DigitsParse(Number(zeros, n), n);
  }

  lemma ParsedFrom(lower: char -> char, p: Params, q: Query)
    requires Canonical(q)
    requires ReadInt(p.offset, "0") == Some(q.offset)
    requires ReadInt(p.limit, "10") == Some(q.limit)
    requires Trim(p.titleLike) == q.titleLike && Trim(p.authorLike) == q.authorLike
    requires q.owner.None? ==> Trim(p.ownerId) == ""
    requires q.owner.Some? ==> Trim(p.ownerId) != "" && ParseUint(Trim(p.ownerId)) == q.owner
    requires Lower(lower, Trim(OrDefault(p.sort, "id"))) == q.sort
    requires Lower(lower, Trim(OrDefault(p.order, "asc"))) == q.order
    ensures Parsed(lower, p) == Some(q)
  {
  }

  /** Leading zeros and surrounding blanks do not fragment the cache: every canonical
      query is what all its spellings parse to. Lower-casing fixes the allowlisted names. */
  lemma WrittenParses(lower: char -> char, q: Query, zeros: nat, before: string, after: string)
    requires Canonical(q) && Blank(before) && Blank(after)
    requires Lower(lower, q.sort) == q.sort && Lower(lower, q.order) == q.order
    ensures Parsed(lower, Written(q, zeros, before, after)) == Some(q)
  {
    PaddedNumber(q.offset, zeros, before, after);
    PaddedNumber(q.limit, zeros, before, after);
    TrimPadded(before, q.titleLike, after);
    TrimPadded(before, q.authorLike, after);
    if q.owner.Some? {
      PaddedNumber(q.owner.value, zeros, before, after);
    } else {
      TrimBlank(before);
    }
    TrimNames(q);
    TrimPadded(before, q.sort, after);
    TrimPadded(before, q.order, after);
    ParsedFrom(lower, Written(q, zeros, before, after), q);
  }

  lemma TrimClean(s: string)
    requires s != "" && !IsSpace(s[0]) && !IsSpace(s[|s| - 1])
    ensures Trim(s) == s
  {
  }

  lemma TrimNames(q: Query)
    requires FieldNamed(q.sort).Some? && q.order in {"asc", "desc"}
    ensures Trim(q.sort) == q.sort && Trim(q.order) == q.order
  {
    TrimClean(q.sort);
    TrimClean(q.order);
  }

  // What is accepted

  lemma DefaultsRead()
    ensures ReadInt(None, "0") == Some(0) && ReadInt(None, "10") == Some(10)
  {
    TrimClean("0");
    TrimClean("10");
    assert Decimal(0) == "0" && Decimal(10) == "10";
    ParseDecimal(0);
    ParseDecimal(10);
  }

  /** Without parameters: the first ten books by ascending id. */
  lemma DefaultsParse(lower: char -> char, p: Params)
    requires Lower(lower, "id") == "id" && Lower(lower, "asc") == "asc"
    requires p.offset.None? && p.limit.None? && p.sort.None? && p.order.None? && Blank(p.ownerId)
    ensures Parsed(lower, p) == Some(Query(0, 10, Trim(p.titleLike), Trim(p.authorLike), None, "id", "asc"))
  {
    DefaultsRead();
    TrimBlank(p.ownerId);
    TrimClean("id");
    TrimClean("asc");
  }

  /** A number is read exactly from its decimal digits after any zeros. */
  lemma {:induction false} ParseNatIff(s: string, n: nat)
    ensures ParseNat(s) == Some(n) <==> exists zeros: nat :: s == Zeros(zeros) + Decimal(n)
  {
    if ParseNat(s) == Some(n) {
      WrittenNumber(s, n);
    }
    if zeros: nat :| s == Zeros(zeros) + Decimal(n) {
      ParseDecimal(n);
      LeadingZeros(zeros, Decimal(n));
    }
  }

  /** One more digit after a number that is already spelled out. */
  lemma OneMoreDigit(zeros: nat, m: nat, d: nat)
    requires d < 10
    ensures exists z: nat :: Zeros(zeros) + Decimal(m) + [Digit(d)] == Zeros(z) + Decimal(10 * m + d)
  {
    if m == 0 {
      assert Decimal(0) == "0" && Decimal(d) == [Digit(d)];
      assert Zeros(zeros) + "0" == Zeros(zeros + 1);
      assert Zeros(zeros) + Decimal(m) + [Digit(d)] == Zeros(zeros + 1) + Decimal(10 * m + d);
    } else {
      assert Decimal(10 * m + d) == Decimal(m) + [Digit(d)];
      assert Zeros(zeros) + Decimal(m) + [Digit(d)] == Zeros(zeros) + Decimal(10 * m + d);
    }
  }

  lemma {:induction false} WrittenNumber(s: string, n: nat)
    requires ParseNat(s) == Some(n)
    ensures exists zeros: nat :: s == Zeros(zeros) + Decimal(n)
  {
    var init := s[..|s| - 1];
    var d := s[|s| - 1] as int - '0' as int;
    assert s == init + [Digit(d)];
    if |s| == 1 {
      assert s == Zeros(0) + Decimal(n);
    } else {
      var m := ParseNat(init).value;
      WrittenNumber(init, m);
      var zeros: nat :| init == Zeros(zeros) + Decimal(m);
      OneMoreDigit(zeros, m, d);
    }
  }

  /** s is v in decimal, after any zeros and a sign that fits. */
  predicate Spells(s: string, zeros: nat, v: int) {
    var digits := Zeros(zeros) + Decimal(if v < 0 then -v else v);
    (v >= 0 && s == digits) || (v >= 0 && s == "+" + digits) || (v <= 0 && s == "-" + digits)
  }

  /** Reading digits with each of the signs. */
  lemma AtoiSigned(digits: string, n: nat, v: int)
    requires digits != "" && IsDigit(digits[0]) && ParseNat(digits) == Some(n)
    requires -MAX_INT - 1 <= v <= MAX_INT
    ensures v == n ==> Atoi(digits) == Some(v) && Atoi("+" + digits) == Some(v)
    ensures v + n == 0 ==> Atoi("-" + digits) == Some(v)
  {
    assert ("+" + digits)[1..] == digits && ("-" + digits)[1..] == digits;
  }

  lemma AtoiSpelled(s: string, zeros: nat, v: int)
    requires Spells(s, zeros, v) && -0x8000_0000_0000_0000 <= v <= 0x7FFF_FFFF_FFFF_FFFF
    ensures Atoi(s) == Some(v)
  {
    var n: nat := if v < 0 then -v else v;
    DigitsRead(n, zeros);
    AtoiSigned(Number(zeros, n), n, v);
  }

  lemma SpelledAtoi(s: string, v: int)
    requires Atoi(s) == Some(v)
    ensures exists zeros: nat :: Spells(s, zeros, v)
  {
    var n: nat := if v < 0 then -v else v;
    if s[0] in {'+', '-'} {
      WrittenNumber(s[1..], n);
      var zeros: nat :| s[1..] == Zeros(zeros) + Decimal(n);
      assert s == [s[0]] + s[1..] && Spells(s, zeros, v);
    } else {
      WrittenNumber(s, n);
      var zeros: nat :| s == Zeros(zeros) + Decimal(n);
      assert Spells(s, zeros, v);
    }
  }

  /** Atoi reads the spellings of the 64-bit integers and nothing else. */
  lemma AtoiIff(s: string, v: int)
    ensures Atoi(s) == Some(v) <==>
            -0x8000_0000_0000_0000 <= v <= 0x7FFF_FFFF_FFFF_FFFF && exists zeros: nat :: Spells(s, zeros, v)
  {
    if Atoi(s) == Some(v) {
      SpelledAtoi(s, v);
    }
    if zeros: nat :| Spells(s, zeros, v) && -0x8000_0000_0000_0000 <= v <= 0x7FFF_FFFF_FFFF_FFFF {
      AtoiSpelled(s, zeros, v);
    }
  }

  /** What is answered with 400: a broken number, a negative offset, a limit below 1, and
      sort and order names off their lists. */
  lemma AcceptedIff(lower: char -> char, p: Params)
    ensures Parsed(lower, p).Some? <==>
            && ReadInt(p.offset, "0").Some? && ReadInt(p.offset, "0").value >= 0
            && ReadInt(p.limit, "10").Some? && ReadInt(p.limit, "10").value >= 1
            && (Trim(p.ownerId) == "" || ParseUint(Trim(p.ownerId)).Some?)
            && Lower(lower, Trim(OrDefault(p.sort, "id")))
               in {"id", "title", "author", "created_at", "updated_at", "owner_id"}
            && Lower(lower, Trim(OrDefault(p.order, "asc"))) in {"asc", "desc"}
    ensures Parsed(lower, p).Some? && ReadInt(p.limit, "10").value > 100 ==> Parsed(lower, p).value.limit == 100
  {
    NamedIff(Lower(lower, Trim(OrDefault(p.sort, "id"))));
  }

  lemma NamedIff(name: string)
    ensures FieldNamed(name).Some? <==> name in {"id", "title", "author", "created_at", "updated_at", "owner_id"}
  {
  }
}
