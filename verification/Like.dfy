/** SQL LIKE with an escape character, and the escaping that the list query
    applies to free-form filters (pkg/repository/book_sqlc.go:46-49, 73-80). */
module Like {
  const ESC := '\\'

  predicate Special(c: char) { c == ESC || c == '%' || c == '_' }

  function EscapeOne(c: char): string { if Special(c) then [ESC, c] else [c] }

  function Escape(s: string): string {
    if s == "" then "" else EscapeOne(s[0]) + Escape(s[1..])
  }

  /** Reads an escaped text back: an escape character stands for the one after it. */
  function Unescape(p: string): string {
    if p == "" then ""
    else if p[0] == ESC && |p| > 1 then [p[1]] + Unescape(p[2..])
    else [p[0]] + Unescape(p[1..])
  }

  /** LIKE ... ESCAPE '\': `%` any run, `_` any one character, `\c` the character c. */
  predicate Match(p: string, t: string)
    decreases |p| + |t|
  {
    if p == "" then t == ""
    else if p[0] == '%' then Match(p[1..], t) || (t != "" && Match(p, t[1..]))
    else if p[0] == '_' then t != "" && Match(p[1..], t[1..])
    else if p[0] == ESC then |p| > 1 && t != "" && t[0] == p[1] && Match(p[2..], t[1..])
    else t != "" && t[0] == p[0] && Match(p[1..], t[1..])
  }

  /** No escape character is left without a character to escape. */
  predicate WellFormed(p: string) {
    p == "" || (if p[0] == ESC then |p| > 1 && WellFormed(p[2..]) else WellFormed(p[1..]))
  }

  /** u occurs in t as a contiguous substring. */
  predicate Contains(t: string, u: string) {
    exists k :: 0 <= k <= |t| - |u| && OccursAt(t, u, k)
  }

  predicate OccursAt(t: string, u: string, k: nat) {
    k + |u| <= |t| && t[k..k + |u|] == u
  }

  function Lower(lower: char -> char, s: string): string {
    if s == "" then "" else [lower(s[0])] + Lower(lower, s[1..])
  }

  /** A per-character case map that fixes the three special characters and reaches
      them from nowhere else. */
  ghost predicate CaseMap(lower: char -> char) {
    && (forall c :: Special(c) ==> lower(c) == c)
    && (forall c :: Special(lower(c)) ==> lower(c) == c)
  }

  function Pattern(lower: char -> char, s: string): string {
    "%" + Lower(lower, Escape(s)) + "%"
  }

  lemma {:induction false} LowerAppend(lower: char -> char, a: string, b: string)
    ensures Lower(lower, a + b) == Lower(lower, a) + Lower(lower, b)
  {
    if a == "" {
      assert a + b == b;
    } else {
      assert (a + b)[0] == a[0] && (a + b)[1..] == a[1..] + b;
      LowerAppend(lower, a[1..], b);
    }
  }

  lemma LowerEscapeOne(lower: char -> char, c: char)
    requires CaseMap(lower)
    ensures Lower(lower, EscapeOne(c)) == EscapeOne(lower(c))
  {
    assert Special(ESC) && (Special(c) <==> Special(lower(c)));
    assert [ESC, c][1..] == [c] && [c][1..] == [];
    assert Lower(lower, [c]) == [lower(c)];
  }

  /** Lower-casing after escaping is escaping after lower-casing. */
  lemma {:induction false} LowerEscape(lower: char -> char, s: string)
    requires CaseMap(lower)
    ensures Lower(lower, Escape(s)) == Escape(Lower(lower, s))
  {
    if s != "" {
      LowerAppend(lower, EscapeOne(s[0]), Escape(s[1..]));
      LowerEscapeOne(lower, s[0]);
      LowerEscape(lower, s[1..]);
      assert Lower(lower, s)[0] == lower(s[0]) && Lower(lower, s)[1..] == Lower(lower, s[1..]);
    }
  }

  lemma {:induction false} UnescapeEscape(s: string)
    ensures Unescape(Escape(s)) == s
  {
    if s != "" {
      UnescapeEscape(s[1..]);
      var e := Escape(s);
      if Special(s[0]) {
        assert e[2..] == Escape(s[1..]);
      } else {
        assert e[1..] == Escape(s[1..]);
      }
    }
  }

  /** An escaped prefix matches exactly its own text. */
  lemma {:induction false} MatchEscaped(s: string, tail: string, t: string)
    ensures Match(Escape(s) + tail, t) <==> |s| <= |t| && t[..|s|] == s && Match(tail, t[|s|..])
  {
    var p := Escape(s) + tail;
    if s == "" {
      assert p == tail && t[0..] == t && t[..0] == "";
    } else {
      var rest := Escape(s[1..]) + tail;
      if Special(s[0]) {
        assert p[0] == ESC && p[1] == s[0] && p[2..] == rest;
      } else {
        assert p[0] == s[0] && p[1..] == rest;
      }
      if t != "" {
        MatchEscaped(s[1..], tail, t[1..]);
        if |s| <= |t| {
          assert t[1..][|s| - 1..] == t[|s|..];
          assert t[..|s|] == [t[0]] + t[1..][..|s| - 1];
          assert s == [s[0]] + s[1..];
        }
      }
    }
  }

  /** A leading `%` skips any prefix. */
  lemma {:induction false} MatchAny(p: string, t: string)
    ensures Match("%" + p, t) <==> exists k :: 0 <= k <= |t| && Match(p, t[k..])
    decreases |t|
  {
    assert ("%" + p)[1..] == p && t[0..] == t;
    if t != "" {
      MatchAny(p, t[1..]);
      if Match("%" + p, t[1..]) {
        var k :| 0 <= k <= |t[1..]| && Match(p, t[1..][k..]);
        assert t[1..][k..] == t[k + 1..];
      }
      if k :| 0 < k <= |t| && Match(p, t[k..]) {
        assert t[1..][k - 1..] == t[k..];
      }
    }
  }

  lemma {:induction false} MatchTrailingAny(t: string)
    ensures Match("%", t)
  {
    MatchAny("", t);
    assert "%" + "" == "%";
    assert t[|t|..] == "";
  }

  lemma MatchEscapedThenAny(u: string, t: string, k: nat)
    requires k <= |t|
    ensures Match(Escape(u) + "%", t[k..]) <==> OccursAt(t, u, k)
  {
    MatchEscaped(u, "%", t[k..]);
    if |u| <= |t[k..]| {
      MatchTrailingAny(t[k..][|u|..]);
      assert t[k..][..|u|] == t[k..k + |u|];
    }
  }

  /** Escaping is exact: the built pattern matches a lower-cased text exactly when the
      lower-cased filter occurs in it. */
  lemma LikeIsContains(lower: char -> char, s: string, t: string)
    requires CaseMap(lower)
    ensures Match(Pattern(lower, s), Lower(lower, t)) <==> Contains(Lower(lower, t), Lower(lower, s))
  {
    var u, text := Lower(lower, s), Lower(lower, t);
    LowerEscape(lower, s);
    var body := Escape(u) + "%";
    assert Pattern(lower, s) == "%" + body;
    MatchAny(body, text);
    forall k | 0 <= k <= |text|
      ensures Match(body, text[k..]) <==> OccursAt(text, u, k)
    {
      MatchEscapedThenAny(u, text, k);
    }
  }

  /** No filter text makes a pattern that ends in a dangling escape. */
  lemma PatternWellFormed(lower: char -> char, s: string)
    requires CaseMap(lower)
    ensures WellFormed(Pattern(lower, s))
  {
    LowerEscape(lower, s);
    EscapeWellFormed(Lower(lower, s), "%");
    assert Pattern(lower, s)[1..] == Escape(Lower(lower, s)) + "%";
  }

  lemma {:induction false} EscapeWellFormed(s: string, tail: string)
    requires WellFormed(tail)
    ensures WellFormed(Escape(s) + tail)
  {
    var p := Escape(s) + tail;
    if s == "" {
      assert p == tail;
    } else {
      EscapeWellFormed(s[1..], tail);
      var rest := Escape(s[1..]) + tail;
      assert if Special(s[0]) then p[2..] == rest else p[1..] == rest;
    }
  }
}
