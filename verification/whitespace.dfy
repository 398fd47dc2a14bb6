/** White space as JavaScript understands it. `String.prototype.trim` and the
    regular-expression class `\s` both use the union of the WhiteSpace and
    LineTerminator productions of the ECMAScript language specification, so one
    predicate serves both. */
module Whitespace {

  /** TAB, VT, FF, ZWNBSP, every Space_Separator (Zs) code point, and the four
      line terminators LF, CR, LS and PS. */
  predicate IsWhitespace(c: char)
  {
    || c == '\t' || c == '\U{000B}' || c == '\U{000C}' || c == '\U{FEFF}'
    // Space_Separator
    || c == ' ' || c == '\U{00A0}' || c == '\U{1680}'
    || ('\U{2000}' <= c <= '\U{200A}')
    || c == '\U{202F}' || c == '\U{205F}' || c == '\U{3000}'
    // LineTerminator
    || c == '\n' || c == '\r' || c == '\U{2028}' || c == '\U{2029}'
  }

  /** The predicate holds for exactly these 25 characters, listed one by one. */
  lemma WhitespaceListed(c: char)
    ensures IsWhitespace(c) <==> c in {
      '\t', '\U{000B}', '\U{000C}', '\U{FEFF}',
      ' ', '\U{00A0}', '\U{1680}',
      '\U{2000}', '\U{2001}', '\U{2002}', '\U{2003}', '\U{2004}', '\U{2005}',
      '\U{2006}', '\U{2007}', '\U{2008}', '\U{2009}', '\U{200A}',
      '\U{202F}', '\U{205F}', '\U{3000}',
      '\n', '\r', '\U{2028}', '\U{2029}'}
  {
  }

  predicate AllWhitespace(s: string)
  {
    forall i :: 0 <= i < |s| ==> IsWhitespace(s[i])
  }

  predicate StartsWithWhitespace(s: string)
  {
    |s| > 0 && IsWhitespace(s[0])
  }

  predicate EndsWithWhitespace(s: string)
  {
    |s| > 0 && IsWhitespace(s[|s| - 1])
  }

  /** A string with no white space at either end, as `trim` leaves it. */
  predicate Trimmed(s: string)
  {
    !StartsWithWhitespace(s) && !EndsWithWhitespace(s)
  }

  /** The length of the longest white-space prefix of `s`: what a greedy `\s*`
      consumes, and what `trim` removes at the start. */
  function LeadingWhitespace(s: string): (n: nat)
    ensures n <= |s|
    ensures AllWhitespace(s[..n])
    ensures n < |s| ==> !IsWhitespace(s[n])
  {
    if |s| > 0 && IsWhitespace(s[0]) then 1 + LeadingWhitespace(s[1..]) else 0
  }

  /** The length of the longest white-space suffix of `s`. */
  function TrailingWhitespace(s: string): (n: nat)
    ensures n <= |s|
    ensures AllWhitespace(s[|s| - n..])
    ensures n < |s| ==> !IsWhitespace(s[|s| - n - 1])
  {
    if |s| > 0 && IsWhitespace(s[|s| - 1]) then 1 + TrailingWhitespace(s[..|s| - 1]) else 0
  }

  /** `String.prototype.trim`: drop the white space at both ends. */
  function Trim(s: string): (r: string)
    ensures |r| <= |s|
    ensures Trimmed(r)
    ensures r == [] <==> AllWhitespace(s)
  {
    var start := LeadingWhitespace(s);
    var rest := s[start..];
    assert AllWhitespace(s) ==> start == |s|;
    rest[..|rest| - TrailingWhitespace(rest)]
  }

  /** Trimming keeps a contiguous middle part and removes only white space. */
  lemma TrimDecomposes(s: string)
    ensures exists a, b :: AllWhitespace(a) && AllWhitespace(b) && s == a + Trim(s) + b
  {
    var a, b := TrimmedParts(s);
  }

  /** The white space `trim` removes at each end. */
  lemma TrimmedParts(s: string) returns (a: string, b: string)
    ensures AllWhitespace(a) && AllWhitespace(b)
    ensures s == a + Trim(s) + b
  {
    var i := LeadingWhitespace(s);
    var rest := s[i..];
    var j := i + |rest| - TrailingWhitespace(rest);
    assert Trim(s) == s[i..j] by {
      assert rest[..j - i] == s[i..j];
    }
    a, b := s[..i], s[j..];
    assert AllWhitespace(b) by {
      assert b == rest[j - i..];
    }
    ThreeParts(s, i, j);
  }

  lemma ThreeParts(s: string, i: nat, j: nat)
    requires i <= j <= |s|
    ensures s == s[..i] + s[i..j] + s[j..]
  {
  }

  lemma {:induction false} LeadingWhitespaceOf(w: string, t: string)
    requires AllWhitespace(w)
    requires !StartsWithWhitespace(t)
    ensures LeadingWhitespace(w + t) == |w|
    decreases |w|
  {
    if |w| > 0 {
      assert (w + t)[1..] == w[1..] + t;
      LeadingWhitespaceOf(w[1..], t);
    } else {
      assert w + t == t;
    }
  }

  lemma {:induction false} TrailingWhitespaceOf(t: string, w: string)
    requires AllWhitespace(w)
    requires !EndsWithWhitespace(t)
    ensures TrailingWhitespace(t + w) == |w|
    decreases |w|
  {
    if |w| > 0 {
      assert (t + w)[..|t + w| - 1] == t + w[..|w| - 1];
      TrailingWhitespaceOf(t, w[..|w| - 1]);
    } else {
      assert t + w == t;
    }
  }

  /** Trim is fully determined: whatever white space surrounds a trimmed
      middle part, trimming returns exactly that part. */
  lemma TrimUnique(a: string, m: string, b: string)
    requires AllWhitespace(a) && AllWhitespace(b) && Trimmed(m)
    ensures Trim(a + m + b) == m
  {
    var s := a + m + b;
    if m == [] {
      assert AllWhitespace(s) by {
        forall i | 0 <= i < |s| ensures IsWhitespace(s[i]) {
          if i < |a| { assert s[i] == a[i]; } else { assert s[i] == b[i - |a|]; }
        }
      }
    } else {
      LeadingWhitespaceOf(a, m + b);
      assert s == a + (m + b);
      assert s[|a|..] == m + b;
      TrailingWhitespaceOf(m, b);
    }
  }

  lemma TrimIdempotent(s: string)
    ensures Trim(Trim(s)) == Trim(s)
  {
    TrimUnique([], Trim(s), []);
    assert [] + Trim(s) + [] == Trim(s);
  }

}
