/**
 * The pattern matching behind SQLAlchemy's `ilike` on MySQL, which renders as
 * `lower(column) LIKE lower(pattern)`.  In a LIKE pattern `%` matches any run
 * of characters, `_` matches exactly one, and `\` (MySQL's default escape
 * character) makes the character after it literal.
 */
module SqlLike {
  import opened Text

  /**
   * Case-sensitive `s LIKE p`.  A pattern with no metacharacter matches
   * exactly the string it spells.
   */
  function Like(p: string, s: string): (r: bool)
    ensures NoLikeMeta(p) ==> (r <==> p == s)
    decreases |p| + |s|
  {
    if p == [] then s == []
    else if p[0] == '%' then Like(p[1..], s) || (s != [] && Like(p, s[1..]))
    else if p[0] == '_' then s != [] && Like(p[1..], s[1..])
    else if p[0] == '\\' && |p| >= 2 then s != [] && s[0] == p[1] && Like(p[2..], s[1..])
    else
      assert NoLikeMeta(p) ==> NoLikeMeta(p[1..]);
      assert s != [] ==> (p == s <==> s[0] == p[0] && p[1..] == s[1..]);
      s != [] && s[0] == p[0] && Like(p[1..], s[1..])
  }

  /**
   * `s ILIKE p`: both sides folded to lower case first.  A pattern with no
   * metacharacter matches exactly the strings equal to it up to case.
   */
  function ILike(s: string, p: string): (r: bool)
    ensures NoLikeMeta(p) ==> (r <==> Lower(p) == Lower(s))
  {
    NoLikeMetaLower(p);
    Like(Lower(p), Lower(s))
  }

  /** The characters LIKE does not take literally. */
  predicate IsLikeMeta(c: char) {
    c == '%' || c == '_' || c == '\\'
  }

  predicate NoLikeMeta(p: string) {
    forall i :: 0 <= i < |p| ==> !IsLikeMeta(p[i])
  }

  lemma NoLikeMetaLower(p: string)
    ensures NoLikeMeta(p) ==> NoLikeMeta(Lower(p))
  {
  }

  /** A lone `%` matches every string. */
  lemma {:induction false} PercentMatchesAll(s: string)
    ensures Like("%", s)
    decreases |s|
  {
    assert "%"[1..] == [];
    if s != [] {
      PercentMatchesAll(s[1..]);
    }
  }

  /** For a pattern free of metacharacters, `s LIKE p%` says exactly that p is a prefix of s. */
  lemma {:induction false} LikeLiteralPrefix(p: string, s: string)
    ensures NoLikeMeta(p) ==> (Like(p + "%", s) <==> p <= s)
    decreases |p|
  {
    if p == [] {
      assert p + "%" == "%";
      PercentMatchesAll(s);
    } else if NoLikeMeta(p) {
      var pp := p + "%";
      assert pp[0] == p[0] && pp[1..] == p[1..] + "%";
      assert !IsLikeMeta(p[0]);
      assert NoLikeMeta(p[1..]);
      if s != [] {
        LikeLiteralPrefix(p[1..], s[1..]);
        assert p <= s <==> (s[0] == p[0] && p[1..] <= s[1..]);
      }
    }
  }


  /**
   * Cutting a pattern short and ending it with `%` can only widen what it
   * matches, provided the kept part has no escape character that the cut
   * would separate from the character it escapes.
   */
  lemma {:induction false} LikeWidens(p: string, r: string, s: string)
    requires '\\' !in p
    requires Like(p + r, s)
    ensures Like(p + "%", s)
    decreases |p| + |s|
  {
    if p == [] {
      PercentMatchesAll(s);
      assert p + "%" == "%";
    } else {
      var pr, pp := p + r, p + "%";
      assert pr[0] == p[0] && pr[1..] == p[1..] + r;
      assert pp[0] == p[0] && pp[1..] == p[1..] + "%";
      assert p[0] != '\\';
      if p[0] == '%' {
        if Like(p[1..] + r, s) {
          LikeWidens(p[1..], r, s);
        } else {
          LikeWidens(p, r, s[1..]);
        }
      } else {
        LikeWidens(p[1..], r, s[1..]);
      }
    }
  }
}
