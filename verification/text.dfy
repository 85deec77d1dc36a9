/**
 * String helpers shared by the backend and the frontend: whitespace trimming
 * (Python's `str.strip()` and JavaScript's `String.prototype.trim()`, which
 * disagree on a few characters, so each takes its whitespace set), ASCII
 * case folding, and Python's `s.split(sep)[-1]`.
 */
module Text {

  /**
   * Whitespace to both runtimes: tab, line feed, vertical tab, form feed,
   * carriage return, the Unicode space separators (U+0020, U+00A0, U+1680,
   * U+2000 to U+200A, U+202F, U+205F, U+3000) and the line and paragraph
   * separators U+2028 and U+2029.
   */
  const CommonSpaces: set<char> :=
    {'\t', '\n', '\U{B}', '\U{C}', '\r', ' ', '\U{A0}', '\U{1680}',
     '\U{2000}', '\U{2001}', '\U{2002}', '\U{2003}', '\U{2004}', '\U{2005}',
     '\U{2006}', '\U{2007}', '\U{2008}', '\U{2009}', '\U{200A}',
     '\U{2028}', '\U{2029}', '\U{202F}', '\U{205F}', '\U{3000}'}

  /** Python's `str.isspace`: also the information separators U+001C to U+001F and next line U+0085. */
  const PythonSpaces: set<char> := CommonSpaces + {'\U{1C}', '\U{1D}', '\U{1E}', '\U{1F}', '\U{85}'}

  /** What JavaScript's `trim` removes: also the byte order mark U+FEFF. */
  const JavaScriptSpaces: set<char> := CommonSpaces + {'\U{FEFF}'}

  /** The trimming functions take the set of characters that count as whitespace. */
  predicate IsSpace(ws: set<char>, c: char) {
    c in ws
  }

  predicate AllSpace(ws: set<char>, s: string) {
    forall i :: 0 <= i < |s| ==> IsSpace(ws, s[i])
  }

  /** Drops the leading whitespace of s. */
  function TrimStart(ws: set<char>, s: string): (r: string)
    ensures |r| <= |s| && r == s[|s| - |r|..]
    ensures AllSpace(ws, s[..|s| - |r|])
    ensures r == [] || !IsSpace(ws, r[0])
  {
    if s != [] && IsSpace(ws, s[0]) then TrimStart(ws, s[1..]) else s
  }

  /** Drops the trailing whitespace of s. */
  function TrimEnd(ws: set<char>, s: string): (r: string)
    ensures |r| <= |s| && r == s[..|r|]
    ensures AllSpace(ws, s[|r|..])
    ensures r == [] || !IsSpace(ws, r[|r| - 1])
  {
    if s != [] && IsSpace(ws, s[|s| - 1]) then TrimEnd(ws, s[..|s| - 1]) else s
  }

  /**
   * Drops leading and trailing whitespace: the result is the slice of s left
   * between a blank prefix and a blank suffix, it begins and ends with a
   * non-space, and it is empty exactly for blank strings.
   */
  function Trim(ws: set<char>, s: string): (r: string)
    ensures |r| <= |s|
    ensures BlankFrame(ws, s, |s| - |TrimStart(ws, s)|, r)
    ensures r == [] <==> AllSpace(ws, s)
    ensures r == [] || (!IsSpace(ws, r[0]) && !IsSpace(ws, r[|r| - 1]))
    ensures forall c :: c in r ==> c in s
  {
    TrimBlank(ws, s);
    TrimIsSlice(ws, s);
    TrimKeepsCharacters(ws, s);
    TrimEnd(ws, TrimStart(ws, s))
  }

  lemma {:induction false} TrimStartBlank(ws: set<char>, s: string)
    ensures TrimStart(ws, s) == [] <==> AllSpace(ws, s)
  {
    if s != [] && IsSpace(ws, s[0]) {
      TrimStartBlank(ws, s[1..]);
      assert AllSpace(ws, s) <==> AllSpace(ws, s[1..]) by {
        assert forall i :: 0 < i < |s| ==> s[i] == s[1..][i - 1];
      }
    }
  }

  lemma TrimBlank(ws: set<char>, s: string)
    ensures TrimEnd(ws, TrimStart(ws, s)) == [] <==> AllSpace(ws, s)
  {
    var t := TrimStart(ws, s);
    TrimStartBlank(ws, s);
    assert t[0..] == t;
  }

  /** r is the slice of s starting at k, with only whitespace before and after it. */
  predicate BlankFrame(ws: set<char>, s: string, k: int, r: string) {
    && 0 <= k && k + |r| <= |s| && r == s[k..k + |r|]
    && AllSpace(ws, s[..k]) && AllSpace(ws, s[k + |r|..])
  }

  /**
   * Cutting a blank prefix of length k off s and then a blank suffix off the
   * rest leaves a slice of s framed by the two blank pieces.
   */
  lemma BlankFramed(ws: set<char>, s: string, t: string, r: string, k: int)
    requires 0 <= k <= |s| && t == s[k..] && AllSpace(ws, s[..k])
    requires |r| <= |t| && r == t[..|r|] && AllSpace(ws, t[|r|..])
    ensures BlankFrame(ws, s, k, r)
  {
    assert s[k + |r|..] == t[|r|..];
  }

  lemma TrimIsSlice(ws: set<char>, s: string)
    ensures BlankFrame(ws, s, |s| - |TrimStart(ws, s)|, TrimEnd(ws, TrimStart(ws, s)))
  {
    var t := TrimStart(ws, s);
    BlankFramed(ws, s, t, TrimEnd(ws, t), |s| - |t|);
  }

  lemma TrimKeepsCharacters(ws: set<char>, s: string)
    ensures forall c :: c in TrimEnd(ws, TrimStart(ws, s)) ==> c in s
  {
    var t := TrimStart(ws, s);
    var r := TrimEnd(ws, t);
    var k := |s| - |t|;
    forall c | c in r ensures c in s {
      var i :| 0 <= i < |r| && r[i] == c;
      assert r[i] == t[i] == s[k + i];
    }
  }

  lemma {:induction false} TrimStartAppend(ws: set<char>, a: string, b: string)
    ensures TrimStart(ws, a + b) == if TrimStart(ws, a) == [] then TrimStart(ws, b) else TrimStart(ws, a) + b
  {
    if a != [] {
      assert (a + b)[0] == a[0];
      if IsSpace(ws, a[0]) {
        assert (a + b)[1..] == a[1..] + b;
        TrimStartAppend(ws, a[1..], b);
      }
    } else {
      assert a + b == b;
    }
  }

  lemma {:induction false} TrimEndAppendSpace(ws: set<char>, a: string, b: string)
    requires AllSpace(ws, b)
    ensures TrimEnd(ws, a + b) == TrimEnd(ws, a)
    decreases |b|
  {
    if b == [] {
      assert a + b == a;
    } else {
      var ab := a + b;
      assert ab[|ab| - 1] == b[|b| - 1];
      assert ab[..|ab| - 1] == a + b[..|b| - 1];
      TrimEndAppendSpace(ws, a, b[..|b| - 1]);
    }
  }

  /** Surrounding whitespace never changes the trimmed value. */
  lemma TrimIgnoresPadding(ws: set<char>, pre: string, s: string, post: string)
    requires AllSpace(ws, pre) && AllSpace(ws, post)
    ensures Trim(ws, pre + s + post) == Trim(ws, s)
  {
    assert pre + s + post == pre + (s + post);
    TrimStartAppend(ws, pre, s + post);
    assert TrimStart(ws, pre) == [];
    TrimStartAppend(ws, s, post);
    if TrimStart(ws, s) == [] {
      assert TrimStart(ws, post) == [];
    } else {
      TrimEndAppendSpace(ws, TrimStart(ws, s), post);
    }
  }

  lemma TrimEndSnoc(ws: set<char>, s: string, c: char)
    ensures TrimEnd(ws, s + [c]) == if IsSpace(ws, c) then TrimEnd(ws, s) else s + [c]
  {
    var sc := s + [c];
    assert sc[..|sc| - 1] == s;
  }

  /** Appending one character to a non-blank string only extends its trimmed value. */
  lemma TrimGrows(ws: set<char>, s: string, c: char)
    requires Trim(ws, s) != []
    ensures Trim(ws, s) <= Trim(ws, s + [c])
  {
    var t := TrimStart(ws, s);
    assert Trim(ws, s) == TrimEnd(ws, t);
    TrimStartAppend(ws, s, [c]);
    assert Trim(ws, s + [c]) == TrimEnd(ws, t + [c]);
    TrimEndSnoc(ws, t, c);
  }

  /** Maps 'A'..'Z' to 'a'..'z' and leaves every other character alone. */
  function LowerChar(c: char): char {
    if 'A' <= c <= 'Z' then (c as int + 32) as char else c
  }

  function Lower(s: string): (r: string)
    ensures |r| == |s|
    ensures forall i :: 0 <= i < |s| ==> r[i] == LowerChar(s[i])
  {
    seq(|s|, i requires 0 <= i < |s| => LowerChar(s[i]))
  }

  lemma LowerAppend(a: string, b: string)
    ensures Lower(a + b) == Lower(a) + Lower(b)
  {
  }

  /** Equality ignoring ASCII case. */
  predicate FoldEq(a: string, b: string) {
    Lower(a) == Lower(b)
  }

  /** Python's `s.split(sep)[-1]`: the part of s after its last sep, or s itself. */
  function LastField(s: string, sep: char): (r: string)
    ensures sep !in r
    ensures |r| <= |s| && r == s[|s| - |r|..]
    ensures |r| < |s| ==> s[|s| - |r| - 1] == sep
  {
    if s == [] || s[|s| - 1] == sep then [] else LastField(s[..|s| - 1], sep) + [s[|s| - 1]]
  }

  /** Whatever precedes the last separator, the last field is what follows it. */
  lemma {:induction false} LastFieldAfter(a: string, sep: char, b: string)
    ensures sep !in b ==> LastField(a + [sep] + b, sep) == b
    decreases |b|
  {
    var s := a + [sep] + b;
    if sep !in b && b != [] {
      assert s[|s| - 1] == b[|b| - 1];
      assert s[..|s| - 1] == a + [sep] + b[..|b| - 1];
      LastFieldAfter(a, sep, b[..|b| - 1]);
    }
  }
}
