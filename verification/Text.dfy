/** Trimming, as `str::trim` and `str::trim_matches` do it. */
module Text {

  /** The characters with the Unicode White_Space property. */
  predicate IsWhitespace(c: char) {
    || '\t' <= c <= '\r' || c == ' ' || c == '\U{0085}' || c == '\U{00A0}' || c == '\U{1680}'
    || '\U{2000}' <= c <= '\U{200A}' || c == '\U{2028}' || c == '\U{2029}' || c == '\U{202F}'
    || c == '\U{205F}' || c == '\U{3000}'
  }

  predicate IsQuote(c: char) { c == '"' }

  /** Blanks beyond ASCII count, the zero-width space and everything a tag or a key list is made of do
      not. */
  lemma WhitespaceByExample(c: char)
    ensures c in {' ', '\t', '\n', '\r', '\U{0085}', '\U{00A0}', '\U{1680}'} ==> IsWhitespace(c)
    ensures c in {'\U{2003}', '\U{2028}', '\U{202F}', '\U{205F}', '\U{3000}'} ==> IsWhitespace(c)
    ensures c == '\U{200B}' || '!' <= c <= '~' ==> !IsWhitespace(c)
  {
  }

  ghost predicate All(s: string, p: char -> bool) {
    forall i | 0 <= i < |s| :: p(s[i])
  }

  function TrimStart(s: string, p: char -> bool): string {
    if s != [] && p(s[0]) then TrimStart(s[1..], p) else s
  }

  function TrimEnd(s: string, p: char -> bool): string {
    if s != [] && p(s[|s| - 1]) then TrimEnd(s[..|s| - 1], p) else s
  }

  /** Drops every leading and every trailing character satisfying `p`. */
  function Trim(s: string, p: char -> bool): string {
    TrimEnd(TrimStart(s, p), p)
  }

  ghost predicate Trimmed(s: string, p: char -> bool) {
    s == [] || (!p(s[0]) && !p(s[|s| - 1]))
  }

  lemma {:induction false} TrimStartSplits(s: string, p: char -> bool) returns (a: string)
    ensures s == a + TrimStart(s, p) && All(a, p)
    ensures TrimStart(s, p) == [] || !p(TrimStart(s, p)[0])
  {
    if s != [] && p(s[0]) {
      var a' := TrimStartSplits(s[1..], p);
      a := [s[0]] + a';
    } else {
      a := [];
    }
  }

  lemma {:induction false} TrimEndSplits(s: string, p: char -> bool) returns (b: string)
    ensures s == TrimEnd(s, p) + b && All(b, p)
    ensures TrimEnd(s, p) == [] || !p(TrimEnd(s, p)[|TrimEnd(s, p)| - 1])
  {
    if s != [] && p(s[|s| - 1]) {
      var b' := TrimEndSplits(s[..|s| - 1], p);
      b := b' + [s[|s| - 1]];
    } else {
      b := [];
    }
  }

  /** What is cut off at either end satisfies `p`, and what is left neither starts nor ends so. */
  lemma TrimSplits(s: string, p: char -> bool) returns (a: string, b: string)
    ensures s == a + Trim(s, p) + b && All(a, p) && All(b, p) && Trimmed(Trim(s, p), p)
  {
    a := TrimStartSplits(s, p);
    var middle := TrimStart(s, p);
    b := TrimEndSplits(middle, p);
    if Trim(s, p) != [] {
      assert Trim(s, p)[0] == middle[0];
    }
  }

  lemma {:induction false} TrimStartOf(a: string, middle: string, p: char -> bool)
    requires All(a, p) && (middle == [] || !p(middle[0]))
    ensures TrimStart(a + middle, p) == middle
  {
    if a == [] {
      assert a + middle == middle;
    } else {
      assert (a + middle)[1..] == a[1..] + middle;
      TrimStartOf(a[1..], middle, p);
    }
  }

  lemma {:induction false} TrimEndOf(middle: string, b: string, p: char -> bool)
    requires All(b, p) && (middle == [] || !p(middle[|middle| - 1]))
    ensures TrimEnd(middle + b, p) == middle
  {
    if b == [] {
      assert middle + b == middle;
    } else {
      assert (middle + b)[..|middle + b| - 1] == middle + b[..|b| - 1];
      TrimEndOf(middle, b[..|b| - 1], p);
    }
  }

  /** And nothing else is cut off. */
  lemma TrimOf(a: string, middle: string, b: string, p: char -> bool)
    requires All(a, p) && All(b, p) && middle != [] && Trimmed(middle, p)
    ensures Trim(a + middle + b, p) == middle
  {
    assert a + middle + b == a + (middle + b);
    TrimStartOf(a, middle + b, p);
    TrimEndOf(middle, b, p);
  }
}
