/**
 * `highlight` of the SearchBar (src/components/SearchBar.tsx): a result name
 * is split around every occurrence of the query, found left to right without
 * overlap and ignoring case, and the occurrences are marked.  The query's
 * regular-expression metacharacters are escaped before use, so it is matched
 * as literal text.  The split alternates unmarked and marked parts, as
 * `text.split(/(query)/ig)` does, beginning and ending with an unmarked part
 * that may be empty.
 */
module Highlight {
  import opened Text

  datatype Segment = Plain(text: string) | Marked(text: string)

  function Concat(segs: seq<Segment>): string {
    if segs == [] then [] else segs[0].text + Concat(segs[1..])
  }

  lemma ConcatSingle(segs: seq<Segment>)
    ensures |segs| == 1 ==> Concat(segs) == segs[0].text
  {
    if |segs| == 1 {
      assert segs[1..] == [];
    }
  }

  /** Unmarked and marked parts alternate, starting and ending unmarked. */
  predicate Alternating(segs: seq<Segment>) {
    |segs| % 2 == 1 && forall i :: 0 <= i < |segs| ==> (segs[i].Plain? <==> i % 2 == 0)
  }

  /** The query occurs in s at position i, ignoring case. */
  predicate OccursAt(s: string, q: string, i: int) {
    0 <= i && i + |q| <= |s| && FoldEq(s[i..i + |q|], q)
  }

  predicate NoOccurrence(s: string, q: string) {
    forall i :: 0 <= i <= |s| ==> !OccursAt(s, q, i)
  }

  /**
   * No occurrence of q in `s + after` starts inside s.  Applied to an unmarked
   * part and the text that follows it, this is what makes the split take the
   * leftmost occurrence first: an occurrence may not start in an unmarked part
   * even when it runs on into the next marked one.
   */
  predicate NoMatchStartsIn(s: string, after: string, q: string) {
    forall j :: 0 <= j < |s| ==> !OccursAt(s + after, q, j)
  }

  /**
   * r is a split of t around q: the parts join back to t, unmarked and marked
   * parts alternate, each marked part is q up to case, and no occurrence of q
   * starts inside an unmarked part.
   */
  predicate SplitsAround(q: string, t: string, r: seq<Segment>) {
    && Concat(r) == t
    && Alternating(r)
    && (forall i :: 0 <= i < |r| && r[i].Marked? ==> FoldEq(r[i].text, q))
    && (forall i :: 0 <= i < |r| && r[i].Plain? ==> NoMatchStartsIn(r[i].text, Concat(r[i + 1..]), q))
  }

  lemma ConcatCons(segs: seq<Segment>)
    requires segs != []
    ensures Concat(segs) == segs[0].text + Concat(segs[1..])
  {
  }

  /** An occurrence past the first character of t is one in t[1..], one position earlier. */
  lemma OccursAtShift(t: string, q: string, j: int)
    requires 1 <= j && t != []
    ensures OccursAt(t, q, j) <==> OccursAt(t[1..], q, j - 1)
  {
    if j + |q| <= |t| {
      var a, b := t[j..j + |q|], t[1..][j - 1..j - 1 + |q|];
      forall i | 0 <= i < |q| ensures a[i] == b[i] { }
      assert a == b;
    }
  }

  /** The step of Split that finds q at the front of t. */
  lemma SplitAtMatch(q: string, t: string, rest: seq<Segment>)
    requires q != [] && |q| <= |t| && FoldEq(t[..|q|], q)
    requires SplitsAround(q, t[|q|..], rest)
    ensures SplitsAround(q, t, [Plain([]), Marked(t[..|q|])] + rest)
  {
    var r := [Plain([]), Marked(t[..|q|])] + rest;
    assert r[1..] == [Marked(t[..|q|])] + rest && r[1..][1..] == rest;
    assert Concat(r) == t[..|q|] + Concat(rest);
    assert t == t[..|q|] + t[|q|..];
    forall i | 2 <= i < |r| ensures r[i] == rest[i - 2] && (i % 2 == 0 <==> (i - 2) % 2 == 0) { }
    forall k | 3 <= k <= |r| ensures r[k..] == rest[k - 2..] { }
  }

  /** A split keeps its shape when its first unmarked part is replaced by another clean one. */
  lemma NewHead(q: string, t: string, r: seq<Segment>, h: string)
    requires SplitsAround(q, t, r) && NoMatchStartsIn(h, Concat(r[1..]), q)
    ensures SplitsAround(q, h + Concat(r[1..]), [Plain(h)] + r[1..])
  {
    var r' := [Plain(h)] + r[1..];
    ConcatCons(r');
    assert r'[1..] == r[1..];
    forall i | 1 <= i < |r'| ensures r'[i] == r[i] { }
    forall k | 1 <= k <= |r'| ensures r'[k..] == r[k..] { }
  }

  /** Putting one more character in front of a clean unmarked part keeps it clean if no match starts there. */
  lemma CleanCons(c: char, s: string, after: string, q: string)
    requires NoMatchStartsIn(s, after, q) && !OccursAt([c] + s + after, q, 0)
    ensures NoMatchStartsIn([c] + s, after, q)
  {
    var u := [c] + s + after;
    assert ([c] + s) + after == u && u[1..] == s + after;
    forall j | 1 <= j < |s| + 1 ensures !OccursAt(u, q, j) {
      OccursAtShift(u, q, j);
    }
  }

  /** Dropping the first character of a clean unmarked part keeps it clean. */
  lemma CleanTail(s: string, after: string, q: string)
    requires s != [] && NoMatchStartsIn(s, after, q)
    ensures NoMatchStartsIn(s[1..], after, q)
  {
    var u := s + after;
    assert u[1..] == s[1..] + after;
    forall j | 0 <= j < |s| - 1 ensures !OccursAt(s[1..] + after, q, j) {
      OccursAtShift(u, q, j + 1);
    }
  }

  /** The step of Split that finds no q at the front of t. */
  lemma SplitPastMiss(q: string, t: string, rest: seq<Segment>)
    requires q != [] && |q| <= |t| && !FoldEq(t[..|q|], q)
    requires SplitsAround(q, t[1..], rest)
    ensures SplitsAround(q, t, [Plain([t[0]] + rest[0].text)] + rest[1..])
  {
    var head, after := rest[0].text, Concat(rest[1..]);
    ConcatCons(rest);
    assert [t[0]] + head + after == t;
    CleanCons(t[0], head, after, q);
    NewHead(q, t[1..], rest, [t[0]] + head);
  }

  /** An unmarked part of a split holds no occurrence of q, not even one ending inside it. */
  lemma PlainPartsHoldNoOccurrence(q: string, t: string, r: seq<Segment>)
    requires q != [] && SplitsAround(q, t, r)
    ensures forall i :: 0 <= i < |r| && r[i].Plain? ==> NoOccurrence(r[i].text, q)
  {
    forall i, k | 0 <= i < |r| && r[i].Plain? && 0 <= k <= |r[i].text| ensures !OccursAt(r[i].text, q, k) {
      var s, after := r[i].text, Concat(r[i + 1..]);
      if OccursAt(s, q, k) {
        assert (s + after)[k..k + |q|] == s[k..k + |q|];
        assert OccursAt(s + after, q, k);
      }
    }
  }

  /** `text.split(regex)` for a non-empty query, with each part tagged as marked or not. */
  function Split(q: string, t: string): (r: seq<Segment>)
    requires q != []
    ensures SplitsAround(q, t, r)
    decreases |t|
  {
    if |t| < |q| then
      assert Concat([Plain(t)]) == t + Concat([]);
      assert [Plain(t)][1..] == [];
      [Plain(t)]
    else if FoldEq(t[..|q|], q) then
      var rest := Split(q, t[|q|..]);
      SplitAtMatch(q, t, rest);
      [Plain([]), Marked(t[..|q|])] + rest
    else
      var rest := Split(q, t[1..]);
      SplitPastMiss(q, t, rest);
      [Plain([t[0]] + rest[0].text)] + rest[1..]
  }

  /** What SplitsAround says about the first two parts of a split. */
  lemma SplitShape(q: string, t: string, r: seq<Segment>)
    requires q != [] && SplitsAround(q, t, r)
    ensures r[0].Plain? && t == r[0].text + Concat(r[1..])
    ensures OccursAt(t, q, 0) ==> r[0].text == []
    ensures |r| == 1 || |r| >= 3
    ensures |r| == 1 ==> r == [Plain(t)]
    ensures |r| >= 3 ==>
      && r[1].Marked? && |r[1].text| == |q| && |r[0].text| + |q| <= |t|
      && r[1].text == t[|r[0].text|..|r[0].text| + |q|]
      && Concat(r[2..]) == t[|r[0].text| + |q|..]
  {
    ConcatCons(r);
    if |r| == 1 {
      assert r[1..] == [] && Concat(r[1..]) == [];
      assert t == r[0].text;
      assert r[0] == Plain(r[0].text);
      assert r == [Plain(r[0].text)];
    } else {
      ConcatCons(r[1..]);
      assert r[1..][1..] == r[2..];
      ThreeParts(t, r[0].text, r[1].text, Concat(r[2..]));
    }
  }

  lemma ThreeParts(t: string, a: string, b: string, c: string)
    requires t == a + (b + c)
    ensures |a| + |b| <= |t| && t[|a|..|a| + |b|] == b && t[|a| + |b|..] == c
  {
  }

  /** A split whose first part is empty continues, after its first match, with a split of the rest. */
  lemma SplitAfterMatch(q: string, t: string, r: seq<Segment>)
    requires q != [] && SplitsAround(q, t, r) && |r| >= 3 && r[0].text == []
    ensures |q| <= |t| && r[1].text == t[..|q|] && SplitsAround(q, t[|q|..], r[2..])
  {
    SplitShape(q, t, r);
    var r2 := r[2..];
    forall i | 0 <= i < |r2| ensures r2[i] == r[i + 2] && (i % 2 == 0 <==> (i + 2) % 2 == 0) { }
    forall k | 0 <= k <= |r2| ensures r2[k..] == r[k + 2..] { }
  }

  /** A split whose first part is not empty, less its first character, is a split of t[1..]. */
  lemma SplitAfterMiss(q: string, t: string, r: seq<Segment>)
    requires q != [] && SplitsAround(q, t, r) && r[0].text != []
    ensures t != [] && r[0].text[0] == t[0]
    ensures SplitsAround(q, t[1..], [Plain(r[0].text[1..])] + r[1..])
  {
    var s, after := r[0].text, Concat(r[1..]);
    ConcatCons(r);
    assert t[1..] == s[1..] + after;
    CleanTail(s, after, q);
    NewHead(q, t, r, s[1..]);
  }

  lemma SplitAtFront(q: string, t: string)
    requires q != [] && |q| <= |t| && FoldEq(t[..|q|], q)
    ensures Split(q, t) == [Plain([]), Marked(t[..|q|])] + Split(q, t[|q|..])
  {
  }

  lemma SplitPastFront(q: string, t: string)
    requires q != [] && |q| <= |t| && !FoldEq(t[..|q|], q)
    ensures Split(q, t) == [Plain([t[0]] + Split(q, t[1..])[0].text)] + Split(q, t[1..])[1..]
  {
  }

  lemma SplitOffTwo(r: seq<Segment>)
    requires |r| >= 2
    ensures r == [r[0], r[1]] + r[2..]
  {
  }

  lemma SplitOffOne(r: seq<Segment>)
    requires |r| >= 1
    ensures r == [r[0]] + r[1..]
  {
  }

  /** Split is the only split of t around q: SplitsAround determines it completely. */
  lemma {:induction false} SplitUnique(q: string, t: string, r: seq<Segment>)
    requires q != [] && SplitsAround(q, t, r)
    ensures r == Split(q, t)
    decreases |t|
  {
    SplitShape(q, t, r);
    if |t| < |q| {
    } else if FoldEq(t[..|q|], q) {
      assert OccursAt(t, q, 0);
      SplitAfterMatch(q, t, r);
      SplitUnique(q, t[|q|..], r[2..]);
      SplitAtFront(q, t);
      SplitOffTwo(r);
    } else {
      SplitAfterMiss(q, t, r);
      var tail := [Plain(r[0].text[1..])] + r[1..];
      SplitUnique(q, t[1..], tail);
      SplitPastFront(q, t);
      SplitOffOne(r);
      assert [t[0]] + tail[0].text == r[0].text;
      assert tail[1..] == r[1..];
    }
  }

  /**
   * `highlight(text)`: the text itself when the query is empty; otherwise
   * parts that join back to the text, every marked part equal to the query
   * up to case, and no occurrence of the query starting in an unmarked part,
   * so occurrences are taken leftmost first and never overlap.
   */
  function HighlightParts(query: string, text: string): (r: seq<Segment>)
    ensures query == [] ==> r == [Plain(text)]
    ensures Concat(r) == text
    ensures Alternating(r)
    ensures query != [] ==> forall i :: 0 <= i < |r| && r[i].Marked? ==> FoldEq(r[i].text, query)
    ensures query != [] ==> forall i :: 0 <= i < |r| && r[i].Plain? ==> NoOccurrence(r[i].text, query)
    ensures query != [] ==> forall i :: 0 <= i < |r| && r[i].Plain? ==> NoMatchStartsIn(r[i].text, Concat(r[i + 1..]), query)
  {
    if query == [] then [Plain(text)]
    else
      var r := Split(query, text);
      PlainPartsHoldNoOccurrence(query, text, r);
      r
  }

  /** A name in which the query occurs gets at least one marked part. */
  lemma OccurrenceIsMarked(query: string, text: string, i: int)
    requires query != [] && OccursAt(text, query, i)
    ensures |HighlightParts(query, text)| >= 3 && HighlightParts(query, text)[1].Marked?
  {
    var r := HighlightParts(query, text);
    assert r[0].Plain? && NoOccurrence(r[0].text, query);
    assert 0 <= i <= |text| && !NoOccurrence(text, query);
    ConcatSingle(r);
    assert |r| != 1;
  }
}
