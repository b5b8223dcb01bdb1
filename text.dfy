/**
 * String operations the persistence layer and the UI rely on: case folding,
 * substring search, SQL LIKE patterns, trimming and splitting on a separator.
 */
module Text {

  // ---------------------------------------------------------------------------
  // Case folding

  /** Folds an ASCII upper-case letter to lower case and leaves every other character alone. */
  function LowerChar(c: char): char {
    if 'A' <= c <= 'Z' then (c as int + 32) as char else c
  }

  /** SQLite's built-in `LOWER()`: only the ASCII letters are folded. */
  function Lower(s: string): (r: string)
    ensures |r| == |s|
    ensures forall i :: 0 <= i < |s| ==> r[i] == LowerChar(s[i])
  {
    if s == [] then [] else [LowerChar(s[0])] + Lower(s[1..])
  }

  /** Folding twice folds nothing more. */
  lemma LowerIdempotent(s: string)
    ensures Lower(Lower(s)) == Lower(s)
  {
    assert forall i :: 0 <= i < |s| ==> Lower(Lower(s))[i] == Lower(s)[i];
  }

  /**
   * An upper-case letter whose lower-case form is 32 code points further: the ASCII capitals
   * and the Latin-1 capitals U+00C0 to U+00DE, the multiplication sign U+00D7 excepted.
   */
  predicate IsCapital(c: char) {
    'A' <= c <= 'Z' || ('\U{C0}' <= c <= '\U{DE}' && c != '\U{D7}')
  }

  function FoldChar(c: char): char {
    if IsCapital(c) then (c as int + 32) as char else c
  }

  /**
   * JavaScript's `toLowerCase()`, which folds every capital SQLite's `LOWER()` folds and more;
   * the Latin-1 capitals stand for the non-ASCII ones.
   */
  function Fold(s: string): (r: string)
    ensures |r| == |s|
    ensures forall i :: 0 <= i < |s| ==> r[i] == FoldChar(s[i])
  {
    if s == [] then [] else [FoldChar(s[0])] + Fold(s[1..])
  }

  /** Folding twice folds nothing more. */
  lemma FoldIdempotent(s: string)
    ensures Fold(Fold(s)) == Fold(s)
  {
    assert forall i :: 0 <= i < |s| ==> Fold(Fold(s))[i] == Fold(s)[i];
  }

  /** `LOWER()` leaves a text that `toLowerCase()` has folded as it is. */
  lemma LowerOfFold(s: string)
    ensures Lower(Fold(s)) == Fold(s)
  {
    assert forall i :: 0 <= i < |s| ==> Lower(Fold(s))[i] == Fold(s)[i];
  }

  /** s holds no capital that `toLowerCase()` folds and `LOWER()` does not. */
  predicate AsciiCapitalsOnly(s: string) {
    forall i :: 0 <= i < |s| ==> LowerChar(s[i]) == FoldChar(s[i])
  }

  /** The two folds agree exactly on such texts. */
  lemma FoldsAgree(s: string)
    ensures AsciiCapitalsOnly(s) <==> Lower(s) == Fold(s)
  {
    if Lower(s) == Fold(s) {
      assert forall i :: 0 <= i < |s| ==> Lower(s)[i] == Fold(s)[i];
    }
  }

  /** Folding never makes or removes one of the given non-letters. */
  lemma FoldKeepsChar(q: string, c: char)
    requires !IsCapital(c) && c < 'a'
    ensures c in Fold(q) <==> c in q
  {
    if c in Fold(q) {
      var i :| 0 <= i < |q| && Fold(q)[i] == c;
      assert q[i] == c;
    }
    if c in q {
      var i :| 0 <= i < |q| && q[i] == c;
      assert Fold(q)[i] == c;
    }
  }

  // ---------------------------------------------------------------------------
  // Substrings and prefixes

  /** `s.startsWith(p)`. */
  predicate StartsWith(s: string, p: string) {
    p <= s
  }

  /** `s.includes(q)`: q occurs in s as a contiguous run of characters. */
  predicate Contains(s: string, q: string)
    decreases |s|
  {
    q <= s || (s != [] && Contains(s[1..], q))
  }

  /** q occurs in s starting at position i. */
  predicate OccursAt(s: string, q: string, i: int) {
    0 <= i <= |s| - |q| && s[i..i + |q|] == q
  }

  /** Contains says exactly that q occurs at some position of s. */
  lemma {:induction false} ContainsIffOccurs(s: string, q: string)
    ensures Contains(s, q) <==> exists i :: OccursAt(s, q, i)
  {
    if s == [] {
      if Contains(s, q) {
        assert OccursAt(s, q, 0);
      }
    } else {
      ContainsIffOccurs(s[1..], q);
      if Contains(s, q) {
        if q <= s {
          assert OccursAt(s, q, 0);
        } else {
          var j :| OccursAt(s[1..], q, j);
          assert s[j + 1..j + 1 + |q|] == s[1..][j..j + |q|];
          assert OccursAt(s, q, j + 1);
        }
      }
      if exists i :: OccursAt(s, q, i) {
        var i :| OccursAt(s, q, i);
        if i == 0 {
          assert q <= s;
        } else {
          assert s[1..][i - 1..i - 1 + |q|] == s[i..i + |q|];
          assert OccursAt(s[1..], q, i - 1);
        }
      }
    }
  }

  /** The empty query occurs in every string, so `includes("")` is always true. */
  lemma ContainsEmpty(s: string)
    ensures Contains(s, "")
  {
  }

  // ---------------------------------------------------------------------------
  // SQL LIKE / ILIKE patterns

  /**
   * SQLite's `LIKE`: '%' matches any run of characters, '_' any single character, and any other
   * character itself up to the case of an ASCII letter; SQLite knows no escape unless asked for one.
   */
  predicate Like(s: string, p: string)
    decreases |s| + |p|
  {
    if p == [] then s == []
    else if p[0] == '%' then Like(s, p[1..]) || (s != [] && Like(s[1..], p))
    else s != [] && (p[0] == '_' || LowerChar(p[0]) == LowerChar(s[0])) && Like(s[1..], p[1..])
  }

  /** A pattern fragment free of LIKE's wildcard characters. */
  predicate NoWildcards(q: string) {
    forall i :: 0 <= i < |q| ==> q[i] != '%' && q[i] != '_'
  }

  /** The pattern `q%` without wildcards in q matches exactly the strings that start with q, up to ASCII case. */
  lemma {:induction false} LikePrefix(s: string, q: string)
    requires NoWildcards(q)
    ensures Like(s, q + "%") <==> Lower(q) <= Lower(s)
  {
    if q == [] {
      LikeAnyRun(s);
      assert q + "%" == "%";
    } else {
      assert (q + "%")[0] == q[0];
      assert (q + "%")[1..] == q[1..] + "%";
      assert Lower(q) == [LowerChar(q[0])] + Lower(q[1..]);
      if s != [] {
        assert Lower(s) == [LowerChar(s[0])] + Lower(s[1..]);
        LikePrefix(s[1..], q[1..]);
      }
    }
  }

  /** The pattern `%` matches every string. */
  lemma {:induction false} LikeAnyRun(s: string)
    ensures Like(s, "%")
  {
    if s != [] {
      LikeAnyRun(s[1..]);
    }
  }

  /**
   * The pattern `%q%`, for q free of wildcards, matches exactly the strings that contain q up to
   * ASCII case: LIKE with the query between two '%' is a substring test on the `LOWER()` texts.
   */
  lemma {:induction false} LikeSubstring(s: string, q: string)
    requires NoWildcards(q)
    ensures Like(s, "%" + q + "%") <==> Contains(Lower(s), Lower(q))
  {
    var p := "%" + q + "%";
    assert p[0] == '%' && p[1..] == q + "%";
    LikePrefix(s, q);
    if s != [] {
      assert Lower(s)[1..] == Lower(s[1..]);
      LikeSubstring(s[1..], q);
    }
  }

  /** A query holding '_' is not a substring test: `%_%` matches "a", which does not contain "_". */
  lemma UnderscoreIsWildcard()
    ensures Like("a", "%_%") && !Contains("a", "_")
  {
    assert "%_%"[1..] == "_%";
    assert "_%"[1..] == "%";
    LikeAnyRun("");
    assert Like("a", "_%");
    assert "a"[1..] == "";
  }

  /**
   * PostgreSQL's `LIKE`: '%' matches any run, '_' any single character, a backslash makes the
   * character after it stand for itself, and any other character matches itself exactly. A
   * pattern ending in a lone backslash matches nothing (the server rejects it).
   */
  predicate PgLike(s: string, p: string)
    decreases |s| + |p|
  {
    if p == [] then s == []
    else if p[0] == '%' then PgLike(s, p[1..]) || (s != [] && PgLike(s[1..], p))
    else if p[0] == '\\' then |p| >= 2 && s != [] && s[0] == p[1] && PgLike(s[1..], p[2..])
    else s != [] && (p[0] == '_' || p[0] == s[0]) && PgLike(s[1..], p[1..])
  }

  /** A pattern fragment in which PostgreSQL's LIKE sees no special character. */
  predicate Literal(q: string) {
    NoWildcards(q) && '\\' !in q
  }

  /** The pattern `%` matches every string. */
  lemma {:induction false} PgLikeAnyRun(s: string)
    ensures PgLike(s, "%")
  {
    if s != [] {
      PgLikeAnyRun(s[1..]);
    }
  }

  /** The pattern `q%` with q literal matches exactly the strings that start with q. */
  lemma {:induction false} PgLikePrefix(s: string, q: string)
    requires Literal(q)
    ensures PgLike(s, q + "%") <==> q <= s
  {
    if q == [] {
      PgLikeAnyRun(s);
      assert q + "%" == "%";
    } else {
      assert (q + "%")[0] == q[0];
      assert (q + "%")[1..] == q[1..] + "%";
      assert forall c :: c in q[1..] ==> c in q;
      if s != [] {
        PgLikePrefix(s[1..], q[1..]);
      }
    }
  }

  /** The pattern `%q%` with q literal is an exact substring test. */
  lemma {:induction false} PgLikeSubstring(s: string, q: string)
    requires Literal(q)
    ensures PgLike(s, "%" + q + "%") <==> Contains(s, q)
  {
    var p := "%" + q + "%";
    assert p[0] == '%' && p[1..] == q + "%";
    PgLikePrefix(s, q);
    if s != [] {
      PgLikeSubstring(s[1..], q);
    }
  }

  /** PostgreSQL's `ILIKE`: LIKE after folding both sides. */
  predicate ILike(s: string, p: string) {
    PgLike(Fold(s), Fold(p))
  }

  /** Folding keeps the pattern's '%' signs and never makes or removes a special character. */
  lemma FoldKeepsPattern(q: string)
    ensures Fold("%" + q + "%") == "%" + Fold(q) + "%"
    ensures NoWildcards(q) <==> NoWildcards(Fold(q))
    ensures Literal(q) <==> Literal(Fold(q))
  {
    var p := "%" + q + "%";
    assert forall i :: 0 <= i < |p| ==> Fold(p)[i] == ("%" + Fold(q) + "%")[i];
    FoldKeepsChar(q, '\\');
  }

  /** `ILIKE '%q%'`, for a literal q, is a substring test on the folded texts. */
  lemma ILikeSubstring(s: string, q: string)
    requires Literal(q)
    ensures ILike(s, "%" + q + "%") <==> Contains(Fold(s), Fold(q))
  {
    FoldKeepsPattern(q);
    PgLikeSubstring(Fold(s), Fold(q));
  }

  /** A query holding a backslash is not a substring test: `%a\b%` matches "ab", which does not contain it. */
  lemma BackslashEscapes()
    ensures PgLike("ab", "%a\\b%") && !Contains("ab", "a\\b")
  {
    var p := "%a\\b%";
    assert p[1..] == "a\\b%";
    assert p[1..][1..] == "\\b%";
    assert p[1..][1..][2..] == "%";
    PgLikeAnyRun("");
    assert PgLike("b", "\\b%");
    assert PgLike("ab", "a\\b%");
    ContainsIffOccurs("ab", "a\\b");
  }

  // ---------------------------------------------------------------------------
  // Trimming

  /** The characters `String.prototype.trim` strips: white space and line terminators. */
  const Spaces: set<char> := {
    ' ', '\t', '\n', '\r', '\U{B}', '\U{C}', '\U{A0}', '\U{1680}',
    '\U{2000}', '\U{2001}', '\U{2002}', '\U{2003}', '\U{2004}', '\U{2005}',
    '\U{2006}', '\U{2007}', '\U{2008}', '\U{2009}', '\U{200A}',
    '\U{2028}', '\U{2029}', '\U{202F}', '\U{205F}', '\U{3000}', '\U{FEFF}'
  }

  predicate IsSpace(c: char) {
    c in Spaces
  }

  /** Every character of s is white space (the empty string included). */
  predicate IsBlank(s: string) {
    forall i :: 0 <= i < |s| ==> IsSpace(s[i])
  }

  /** Drops leading white space: nothing is left exactly when s is blank, else it starts with a non-space. */
  function TrimStart(s: string): (r: string)
    ensures |r| <= |s|
    ensures r == [] <==> IsBlank(s)
    ensures r == [] || !IsSpace(r[0])
  {
    if s != [] && IsSpace(s[0]) then
      assert IsBlank(s) <==> IsBlank(s[1..]) by {
        assert forall i :: 0 <= i < |s[1..]| ==> s[1..][i] == s[i + 1];
      }
      TrimStart(s[1..])
    else s
  }

  /** Drops trailing white space: nothing is left exactly when s is blank, else it ends with a non-space. */
  function TrimEnd(s: string): (r: string)
    ensures r == [] <==> IsBlank(s)
    ensures r == [] || (r[0] == s[0] && !IsSpace(r[|r| - 1]))
  {
    if s != [] && IsSpace(s[|s| - 1]) then
      var init := s[..|s| - 1];
      assert IsBlank(s) <==> IsBlank(init) by {
        assert forall i :: 0 <= i < |init| ==> init[i] == s[i];
      }
      TrimEnd(init)
    else s
  }

  /** What `TrimStart` keeps is a suffix of s, and what it drops is blank. */
  lemma {:induction false} TrimStartDropsBlankHead(s: string)
    ensures var r := TrimStart(s);
      |r| <= |s| && r == s[|s| - |r|..] && IsBlank(s[..|s| - |r|])
  {
    if s != [] && IsSpace(s[0]) {
      TrimStartDropsBlankHead(s[1..]);
      var r := TrimStart(s[1..]);
      assert s[1..][|s| - 1 - |r|..] == s[|s| - |r|..];
      assert s[..|s| - |r|] == [s[0]] + s[1..][..|s| - 1 - |r|];
    } else {
      assert s[..0] == [];
    }
  }

  /** What `TrimEnd` keeps is a prefix of s, and what it drops is blank. */
  lemma {:induction false} TrimEndDropsBlankTail(s: string)
    ensures var r := TrimEnd(s);
      |r| <= |s| && r == s[..|r|] && IsBlank(s[|r|..])
  {
    if s != [] && IsSpace(s[|s| - 1]) {
      var init := s[..|s| - 1];
      TrimEndDropsBlankTail(init);
      var r := TrimEnd(init);
      assert init[..|r|] == s[..|r|];
      assert s[|r|..] == init[|r|..] + [s[|s| - 1]];
    } else {
      assert s[|s|..] == [];
    }
  }

  /** `s.trim()`: empty exactly when s is blank, and otherwise free of white space at both ends. */
  function Trim(s: string): (r: string)
    ensures r == [] <==> IsBlank(s)
    ensures r == [] || (!IsSpace(r[0]) && !IsSpace(r[|r| - 1]))
  {
    var t := TrimStart(s);
    assert t != [] ==> !IsBlank(t);
    TrimEnd(t)
  }

  /** What `trim()` keeps is the run of s between a blank head of k characters and a blank tail. */
  lemma TrimStrips(s: string)
    ensures var r, k := Trim(s), |s| - |TrimStart(s)|;
      k + |r| <= |s| && r == s[k..k + |r|] && IsBlank(s[..k]) && IsBlank(s[k + |r|..])
  {
    var t := TrimStart(s);
    TrimStartDropsBlankHead(s);
    TrimEndDropsBlankTail(t);
    BlankAround(s, t, TrimEnd(t));
  }

  /** A blank-headed suffix t of s whose prefix r leaves a blank tail sits inside s between blanks. */
  lemma BlankAround(s: string, t: string, r: string)
    requires |t| <= |s| && t == s[|s| - |t|..] && IsBlank(s[..|s| - |t|])
    requires |r| <= |t| && r == t[..|r|] && IsBlank(t[|r|..])
    ensures var k := |s| - |t|; r == s[k..k + |r|] && IsBlank(s[k + |r|..])
  {
    var k := |s| - |t|;
    assert t[|r|..] == s[k + |r|..];
  }

  // ---------------------------------------------------------------------------
  // Splitting on a separator

  /** `s.split(c)` for a one-character separator: the runs between separators, at least one. */
  function Split(s: string, c: char): (parts: seq<string>)
    ensures |parts| >= 1
    ensures forall i :: 0 <= i < |parts| ==> c !in parts[i]
    decreases |s|
  {
    if s == [] then [""]
    else
      var rest := Split(s[1..], c);
      if s[0] == c then [""] + rest
      else [[s[0]] + rest[0]] + rest[1..]
  }

  /** `parts.join(c)`. */
  function Join(parts: seq<string>, c: char): string
    requires |parts| >= 1
    decreases |parts|
  {
    if |parts| == 1 then parts[0] else parts[0] + [c] + Join(parts[1..], c)
  }

  /** Joining the parts of a split gives back the original string. */
  lemma {:induction false} JoinSplit(s: string, c: char)
    ensures Join(Split(s, c), c) == s
    decreases |s|
  {
    if s != [] {
      var rest := Split(s[1..], c);
      JoinSplit(s[1..], c);
      if s[0] != c {
        var parts := Split(s, c);
        if |rest| == 1 {
          assert parts == [[s[0]] + rest[0]];
        } else {
          assert parts[1..] == rest[1..];
          assert Join(rest, c) == rest[0] + [c] + Join(rest[1..], c);
        }
      }
    }
  }

  /** Splitting a join of separator-free parts gives back the parts. */
  lemma {:induction false} SplitJoin(parts: seq<string>, c: char)
    requires |parts| >= 1
    requires forall i :: 0 <= i < |parts| ==> c !in parts[i]
    ensures Split(Join(parts, c), c) == parts
    decreases |parts|, |parts[0]|
  {
    if |parts| == 1 {
      SplitFree(parts[0], c);
    } else if parts[0] == [] {
      var s := Join(parts, c);
      assert s == [c] + Join(parts[1..], c);
      assert s[1..] == Join(parts[1..], c);
      SplitJoin(parts[1..], c);
      assert [""] + parts[1..] == parts;
    } else {
      var s := Join(parts, c);
      var p0 := parts[0];
      var shorter := [p0[1..]] + parts[1..];
      assert p0[1..] == [] || c !in p0[1..] by {
        assert forall k :: 0 <= k < |p0[1..]| ==> p0[1..][k] == p0[k + 1];
      }
      assert forall i :: 0 <= i < |shorter| ==> c !in shorter[i] by {
        forall i | 0 <= i < |shorter| ensures c !in shorter[i] {
          if i > 0 { assert shorter[i] == parts[i]; }
        }
      }
      assert Join(shorter, c) == p0[1..] + [c] + Join(parts[1..], c);
      assert s == [p0[0]] + Join(shorter, c);
      assert s[1..] == Join(shorter, c);
      assert p0[0] != c by { assert p0[0] == parts[0][0]; }
      SplitJoin(shorter, c);
      assert [p0[0]] + p0[1..] == p0;
      assert [[p0[0]] + p0[1..]] + parts[1..] == parts;
    }
  }

  /** A string without the separator splits into itself alone. */
  lemma {:induction false} SplitFree(s: string, c: char)
    requires c !in s
    ensures Split(s, c) == [s]
    decreases |s|
  {
    if s != [] {
      assert c !in s[1..] by {
        assert forall k :: 0 <= k < |s[1..]| ==> s[1..][k] == s[k + 1];
      }
      SplitFree(s[1..], c);
      assert [s[0]] + s[1..] == s;
    }
  }

  /** `s.split(c).pop()`: the text after the last separator, or all of s when it has none. */
  function LastSegment(s: string, c: char): (r: string)
    ensures c !in r
    ensures |r| <= |s| && r == s[|s| - |r|..]
    ensures |r| < |s| ==> s[|s| - |r| - 1] == c
    ensures |r| == |s| <==> c !in s
  {
    var parts := Split(s, c);
    LastPartIsTail(s, c);
    parts[|parts| - 1]
  }

  /** The last part of a split is the tail of s after its last separator. */
  lemma {:induction false} LastPartIsTail(s: string, c: char)
    ensures var parts := Split(s, c); var r := parts[|parts| - 1];
      |r| <= |s| && r == s[|s| - |r|..] && (|r| < |s| ==> s[|s| - |r| - 1] == c)
    decreases |s|
  {
    if s != [] {
      var s' := s[1..];
      LastPartIsTail(s', c);
      var rest := Split(s', c);
      var t := rest[|rest| - 1];
      var parts := Split(s, c);
      assert s'[|s'| - |t|..] == s[|s| - |t|..];
      assert |t| < |s'| ==> s'[|s'| - |t| - 1] == s[|s| - |t| - 1];
      if s[0] == c {
        assert parts[|parts| - 1] == t;
      } else if |rest| > 1 {
        assert parts[|parts| - 1] == t;
        if |t| == |s'| {
          assert t == s';
          SplitFree(s', c);
          assert false;
        }
      } else {
        JoinSplit(s', c);
        assert t == s';
        assert parts == [[s[0]] + t];
        assert [s[0]] + t == s;
      }
    }
  }
}
