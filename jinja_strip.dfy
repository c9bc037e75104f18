/**
 * The removal of Jinja statement delimiters from file text before it is
 * placed in a ConfigMap: `StringUtils.removeAll(text, "\\{\\%")` followed
 * by `StringUtils.removeAll(result, "\\%\\}")`. Each pass is one
 * left-to-right scan that deletes non-overlapping matches of a
 * two-character literal; the passes are not repeated, so deleting can
 * bring new delimiters together (see `StripNotIdempotent`).
 */
module JinjaStrip {

  const OpenDelimiter: string := "{%"
  const CloseDelimiter: string := "%}"

  /** True when p (two characters) starts at index i of s. */
  predicate MatchAt(s: string, i: int, p: string)
    requires |p| == 2
  {
    0 <= i && i + 1 < |s| && s[i] == p[0] && s[i + 1] == p[1]
  }

  /** True when s contains p (two characters) anywhere. */
  predicate Contains(s: string, p: string)
    requires |p| == 2
  {
    exists i :: 0 <= i < |s| && MatchAt(s, i, p)
  }

  /** One regular-expression `replaceAll(p, "")` pass for a two-character literal p. */
  function RemoveAll(s: string, p: string): string
    requires |p| == 2
    decreases |s|
  {
    if s == [] then []
    else if MatchAt(s, 0, p) then RemoveAll(s[2..], p)
    else [s[0]] + RemoveAll(s[1..], p)
  }

  /** The text put into a ConfigMap for a file: `{%` removed, then `%}` removed. */
  function Strip(s: string): string
  {
    RemoveAll(RemoveAll(s, OpenDelimiter), CloseDelimiter)
  }

  /** a can be obtained from b by deleting characters. */
  predicate IsSubsequence(a: string, b: string)
    decreases |b|
  {
    if a == [] then true
    else if b == [] then false
    else (a[0] == b[0] && IsSubsequence(a[1..], b[1..])) || IsSubsequence(a, b[1..])
  }

  // ---------------------------------------------------------------------
  // Subsequences
  // ---------------------------------------------------------------------

  lemma {:induction false} SubsequenceLength(a: string, b: string)
    requires IsSubsequence(a, b)
    ensures |a| <= |b|
    decreases |b|
  {
    if a != [] {
      if a[0] == b[0] && IsSubsequence(a[1..], b[1..]) {
        SubsequenceLength(a[1..], b[1..]);
      } else {
        SubsequenceLength(a, b[1..]);
      }
    }
  }

  lemma {:induction false} SubsequenceTransitive(a: string, b: string, c: string)
    requires IsSubsequence(a, b) && IsSubsequence(b, c)
    ensures IsSubsequence(a, c)
    decreases |c|
  {
    if a != [] {
      assert b != [] && c != [];
      if IsSubsequence(b, c[1..]) {
        SubsequenceTransitive(a, b, c[1..]);
      } else if a[0] == b[0] && IsSubsequence(a[1..], b[1..]) {
        SubsequenceTransitive(a[1..], b[1..], c[1..]);
      } else {
        SubsequenceTransitive(a, b[1..], c[1..]);
      }
    }
  }

  // ---------------------------------------------------------------------
  // One pass
  // ---------------------------------------------------------------------

  /** A pass only deletes characters: its output is a subsequence of its input. */
  lemma {:induction false} RemoveAllIsSubsequence(s: string, p: string)
    requires |p| == 2
    ensures IsSubsequence(RemoveAll(s, p), s)
    decreases |s|
  {
    var r := RemoveAll(s, p);
    if s == [] {
    } else if MatchAt(s, 0, p) {
      RemoveAllIsSubsequence(s[2..], p);
      assert s[1..][1..] == s[2..];
      assert IsSubsequence(r, s[1..]);
    } else {
      RemoveAllIsSubsequence(s[1..], p);
      assert r[0] == s[0] && r[1..] == RemoveAll(s[1..], p);
    }
  }

  /** A pass leaves the text unchanged exactly when the text does not contain the delimiter. */
  lemma {:induction false} RemoveAllUnchanged(s: string, p: string)
    requires |p| == 2
    ensures RemoveAll(s, p) == s <==> !Contains(s, p)
    decreases |s|
  {
    if s == [] {
    } else if MatchAt(s, 0, p) {
      RemoveAllIsSubsequence(s[2..], p);
      SubsequenceLength(RemoveAll(s[2..], p), s[2..]);
      assert |RemoveAll(s, p)| < |s|;
    } else {
      RemoveAllUnchanged(s[1..], p);
      if Contains(s, p) {
        var i :| 0 <= i < |s| && MatchAt(s, i, p);
        assert MatchAt(s[1..], i - 1, p);
      }
      if Contains(s[1..], p) {
        var i :| 0 <= i < |s[1..]| && MatchAt(s[1..], i, p);
        assert MatchAt(s, i + 1, p);
      }
      assert RemoveAll(s, p) == s <==> RemoveAll(s[1..], p) == s[1..];
    }
  }

  /**
   * A pass works piecewise: text split at a point where no delimiter
   * straddles the cut is processed as its two halves.
   */
  lemma {:induction false} RemoveAllAppend(a: string, b: string, p: string)
    requires |p| == 2
    requires a == [] || b == [] || !(a[|a| - 1] == p[0] && b[0] == p[1])
    ensures RemoveAll(a + b, p) == RemoveAll(a, p) + RemoveAll(b, p)
    decreases |a|
  {
    if a == [] {
      assert a + b == b;
    } else if MatchAt(a, 0, p) {
      assert MatchAt(a + b, 0, p);
      assert (a + b)[2..] == a[2..] + b;
      RemoveAllAppend(a[2..], b, p);
    } else if |a| == 1 {
      assert (a + b)[1..] == b;
      assert !MatchAt(a + b, 0, p);
    } else {
      assert !MatchAt(a + b, 0, p);
      assert (a + b)[1..] == a[1..] + b;
      RemoveAllAppend(a[1..], b, p);
    }
  }

  /** A pass deletes the delimiter itself. */
  lemma RemoveAllDelimiter(p: string)
    requires |p| == 2
    ensures RemoveAll(p, p) == []
  {
    assert MatchAt(p, 0, p);
    assert p[2..] == [];
  }

  // ---------------------------------------------------------------------
  // Both passes
  // ---------------------------------------------------------------------

  /** Stripping only deletes characters, so it never lengthens the text. */
  lemma StripIsSubsequence(s: string)
    ensures IsSubsequence(Strip(s), s)
    ensures |Strip(s)| <= |s|
  {
    var once := RemoveAll(s, OpenDelimiter);
    RemoveAllIsSubsequence(s, OpenDelimiter);
    RemoveAllIsSubsequence(once, CloseDelimiter);
    SubsequenceTransitive(Strip(s), once, s);
    SubsequenceLength(Strip(s), s);
  }

  /** Text that contains neither delimiter is left exactly as it is. */
  lemma StripUnchanged(s: string)
    requires !Contains(s, OpenDelimiter) && !Contains(s, CloseDelimiter)
    ensures Strip(s) == s
  {
    RemoveAllUnchanged(s, OpenDelimiter);
    RemoveAllUnchanged(s, CloseDelimiter);
  }

  /** Text in which the delimiter's first character never occurs is left alone by a pass. */
  lemma {:induction false} RemoveAllPlain(s: string, p: string)
    requires |p| == 2
    requires forall i :: 0 <= i < |s| ==> s[i] != p[0]
    ensures RemoveAll(s, p) == s
    decreases |s|
  {
    if s != [] {
      assert !MatchAt(s, 0, p);
      RemoveAllPlain(s[1..], p);
      assert [s[0]] + s[1..] == s;
    }
  }

  /** Text with neither `{` nor `%`, which no pass can touch. */
  predicate Plain(s: string)
  {
    forall i :: 0 <= i < |s| ==> s[i] != '{' && s[i] != '%'
  }

  /** The first pass on a block: only the two `{%` go. */
  lemma {:induction false} RemoveOpenOfBlock(a: string, b: string, d: string)
    requires Plain(a) && Plain(b) && Plain(d)
    ensures RemoveAll(OpenDelimiter + (a + (CloseDelimiter + (b + (OpenDelimiter + (d + CloseDelimiter))))), OpenDelimiter)
      == a + (CloseDelimiter + (b + (d + CloseDelimiter)))
  {
    var o, c := OpenDelimiter, CloseDelimiter;
    RemoveAllDelimiter(o);
    RemoveAllPlain(c, o);
    var t1 := d + c;
    RemoveAllPlain(d, o);
    RemoveAllAppend(d, c, o);
    assert RemoveAll(t1, o) == t1;
    var t2 := o + t1;
    RemoveAllAppend(o, t1, o);
    assert RemoveAll(t2, o) == t1;
    var t3 := b + t2;
    RemoveAllPlain(b, o);
    RemoveAllAppend(b, t2, o);
    assert RemoveAll(t3, o) == b + t1;
    var t4 := c + t3;
    RemoveAllAppend(c, t3, o);
    assert RemoveAll(t4, o) == c + (b + t1);
    var t5 := a + t4;
    RemoveAllPlain(a, o);
    RemoveAllAppend(a, t4, o);
    assert RemoveAll(t5, o) == a + (c + (b + t1));
    RemoveAllAppend(o, t5, o);
    assert RemoveAll(o + t5, o) == a + (c + (b + t1));
  }

  /** The second pass on what the first left: only the two `%}` go. */
  lemma {:induction false} RemoveCloseOfBlock(a: string, b: string, d: string)
    requires Plain(a) && Plain(b) && Plain(d)
    ensures RemoveAll(a + (CloseDelimiter + (b + (d + CloseDelimiter))), CloseDelimiter) == a + (b + d)
  {
    var c := CloseDelimiter;
    RemoveAllDelimiter(c);
    RemoveAllPlain(a, c);
    RemoveAllPlain(b, c);
    RemoveAllPlain(d, c);
    RemoveAllAppend(d, c, c);
    RemoveAllAppend(b, d + c, c);
    RemoveAllAppend(c, b + (d + c), c);
    RemoveAllAppend(a, c + (b + (d + c)), c);
  }

  /**
   * A statement block around literal text loses both pairs of delimiters;
   * the text between them, spaces included, stays.
   */
  lemma StripBlock(a: string, b: string, d: string)
    requires Plain(a) && Plain(b) && Plain(d)
    ensures Strip(OpenDelimiter + (a + (CloseDelimiter + (b + (OpenDelimiter + (d + CloseDelimiter)))))) == a + (b + d)
  {
    RemoveOpenOfBlock(a, b, d);
    RemoveCloseOfBlock(a, b, d);
  }

  /** A block with one character on each side of each delimiter. */
  lemma StripExample()
    ensures Strip("a{%b%}c") == "abc"
  {
    var o, c := OpenDelimiter, CloseDelimiter;
    assert RemoveAll("c", o) == "c";
    assert RemoveAll("}c", o) == "}c";
    assert RemoveAll("%}c", o) == "%}c";
    assert RemoveAll("b%}c", o) == "b%}c";
    assert MatchAt("{%b%}c", 0, o) && "{%b%}c"[2..] == "b%}c";
    assert RemoveAll("{%b%}c", o) == "b%}c";
    assert RemoveAll("a{%b%}c", o) == "ab%}c";
    assert RemoveAll("c", c) == "c";
    assert MatchAt("%}c", 0, c) && "%}c"[2..] == "c";
    assert RemoveAll("%}c", c) == "c";
    assert RemoveAll("b%}c", c) == "bc";
    assert RemoveAll("ab%}c", c) == "abc";
  }

  /**
   * The two single passes are not idempotent: deleting the inner `{%` of
   * "{{%%" joins the outer characters into a new `{%`, which survives and
   * would be stripped by a second application.
   */
  lemma StripNotIdempotent()
    ensures Strip("{{%%") == "{%"
    ensures Strip(Strip("{{%%")) == ""
    ensures Contains(Strip("{{%%"), OpenDelimiter)
  {
    assert !MatchAt("{{%%", 0, OpenDelimiter);
    assert MatchAt("{%%", 0, OpenDelimiter);
    assert RemoveAll("{{%%", OpenDelimiter) == "{%";
    assert !MatchAt("{%", 0, CloseDelimiter);
    assert RemoveAll("{%", CloseDelimiter) == "{%";
    RemoveAllDelimiter(OpenDelimiter);
    assert MatchAt("{%", 0, OpenDelimiter);
  }
}
