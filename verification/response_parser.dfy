/** The parser `fetchOpenAIRecommendations` applies to the model's reply:
    `content.trim().split(/,\s*|\n/)`. */
module ResponseParser {

  import opened Wrappers
  import opened Whitespace
  import opened Interleaving

  /** The characters that start a match of the delimiter pattern. */
  predicate IsBreak(c: char)
  {
    c == ',' || c == '\n'
  }

  /** No delimiter can start anywhere inside `s`. */
  predicate Unbroken(s: string)
  {
    forall i :: 0 <= i < |s| ==> !IsBreak(s[i])
  }

  predicate IsCommaDelimiter(d: string)
  {
    |d| >= 1 && d[0] == ',' && AllWhitespace(d[1..])
  }

  /** One match of `/,\s*|\n/`: a line feed, or a comma followed by white space. */
  predicate IsDelimiter(d: string)
  {
    d == "\n" || IsCommaDelimiter(d)
  }

  /** The length of the delimiter match at the start of `s`: a line feed on
      its own, or a comma together with all the white space after it. */
  function DelimiterLength(s: string): (n: nat)
    requires |s| > 0 && IsBreak(s[0])
    ensures 1 <= n <= |s|
    ensures IsDelimiter(s[..n])
    ensures s[0] == ',' ==> !StartsWithWhitespace(s[n..])
  {
    if s[0] == '\n' then 1
    else
      var t := s[1..];
      var m := LeadingWhitespace(t);
      assert s[..1 + m][1..] == t[..m];
      assert 1 + m < |s| ==> s[1 + m..][0] == t[m];
      1 + m
  }

  /** A delimiter is exactly a string the pattern matches in full, starting
      at its first character. */
  lemma DelimiterIsWholeMatch(d: string)
    ensures IsDelimiter(d) <==> |d| > 0 && IsBreak(d[0]) && DelimiterLength(d) == |d|
  {
    if IsCommaDelimiter(d) {
      assert d[1..] + "" == d[1..];
      LeadingWhitespaceOf(d[1..], "");
    }
    if |d| > 0 && IsBreak(d[0]) && DelimiterLength(d) == |d| {
      assert d[..|d|] == d;
    }
  }

  /** Splitting `s` on the delimiter pattern (the reference definition, one
      character at a time). A line feed closes the current item; a comma closes
      it and swallows all the white space after it. */
  function Split(s: string): (items: seq<string>)
    ensures |items| >= 1
    ensures forall i :: 0 <= i < |items| ==> Unbroken(items[i])
    decreases |s|
  {
    if |s| == 0 then [""]
    else if IsBreak(s[0]) then [""] + Split(s[DelimiterLength(s)..])
    else
      var rest := Split(s[1..]);
      [[s[0]] + rest[0]] + rest[1..]
  }

  /** The delimiters the pattern matches in `s`, left to right. */
  function Delimiters(s: string): (delims: seq<string>)
    ensures forall i :: 0 <= i < |delims| ==> IsDelimiter(delims[i])
    ensures |delims| + 1 == |Split(s)|
    decreases |s|
  {
    if |s| == 0 then []
    else if IsBreak(s[0]) then
      var n := DelimiterLength(s);
      [s[..n]] + Delimiters(s[n..])
    else Delimiters(s[1..])
  }

  /** `items` and `delims` are a splitting the pattern can produce: items hold
      no delimiter character, every delimiter is a match, and each comma match
      is as long as greedy `\s*` makes it, so the text after it does not begin
      with white space. */
  predicate IsSplitting(items: seq<string>, delims: seq<string>)
  {
    && |items| == |delims| + 1
    && (forall i :: 0 <= i < |items| ==> Unbroken(items[i]))
    && (forall i :: 0 <= i < |delims| ==> IsDelimiter(delims[i]))
    && (forall i :: 0 <= i < |delims| && IsCommaDelimiter(delims[i]) ==>
          !StartsWithWhitespace(Interleave(items[i + 1..], delims[i + 1..])))
  }

  lemma SplittingTail(items: seq<string>, delims: seq<string>)
    requires IsSplitting(items, delims) && |delims| > 0
    ensures IsSplitting(items[1..], delims[1..])
  {
    var items', delims' := items[1..], delims[1..];
    forall i | 0 <= i < |delims'| && IsCommaDelimiter(delims'[i])
      ensures !StartsWithWhitespace(Interleave(items'[i + 1..], delims'[i + 1..]))
    {
      assert delims'[i] == delims[i + 1];
      assert items'[i + 1..] == items[i + 2..] && delims'[i + 1..] == delims[i + 2..];
    }
  }

  /** Extending the first item with a non-delimiter character keeps a splitting. */
  lemma SplittingCons(c: char, items: seq<string>, delims: seq<string>)
    requires IsSplitting(items, delims) && !IsBreak(c)
    ensures IsSplitting([[c] + items[0]] + items[1..], delims)
  {
    var items' := [[c] + items[0]] + items[1..];
    forall i | 0 <= i < |delims| && IsCommaDelimiter(delims[i])
      ensures !StartsWithWhitespace(Interleave(items'[i + 1..], delims[i + 1..]))
    {
      assert items'[i + 1..] == items[i + 1..];
    }
  }

  lemma InterleaveCons(c: char, items: seq<string>, delims: seq<string>)
    requires |items| == |delims| + 1
    ensures Interleave([[c] + items[0]] + items[1..], delims) == [c] + Interleave(items, delims)
  {
    var items' := [[c] + items[0]] + items[1..];
    if |delims| > 0 {
      assert items'[1..] == items[1..];
    }
  }

  /** Split and Delimiters always produce a splitting, and putting the
      delimiters back between the items gives the input exactly. */
  lemma {:induction false} SplitReconstructs(s: string)
    ensures IsSplitting(Split(s), Delimiters(s))
    ensures Interleave(Split(s), Delimiters(s)) == s
    decreases |s|, 1
  {
    if |s| == 0 {
    } else if IsBreak(s[0]) {
      ReconstructsAfterDelimiter(s);
    } else {
      ReconstructsAfterCharacter(s);
    }
  }

  lemma {:induction false} ReconstructsAfterDelimiter(s: string)
    requires |s| > 0 && IsBreak(s[0])
    ensures IsSplitting(Split(s), Delimiters(s))
    ensures Interleave(Split(s), Delimiters(s)) == s
    decreases |s|, 0
  {
    var n := DelimiterLength(s);
    SplitReconstructs(s[n..]);
    var items, delims := Split(s[n..]), Delimiters(s[n..]);
    SplitAtBreak(s);
    DelimitersAtBreak(s);
    var d, rest := s[..n], s[n..];
    assert IsCommaDelimiter(d) ==> s[0] == ',';
    PrependDelimiter(d, rest, items, delims);
    TwoParts(s, n);
  }

  lemma TwoParts(s: string, n: nat)
    requires n <= |s|
    ensures s[..n] + s[n..] == s
  {
  }

  /** A delimiter in front of a reconstructed splitting gives a splitting
      whose first item is empty. */
  lemma PrependDelimiter(d: string, rest: string, items: seq<string>, delims: seq<string>)
    requires IsSplitting(items, delims) && Interleave(items, delims) == rest
    requires IsDelimiter(d) && (IsCommaDelimiter(d) ==> !StartsWithWhitespace(rest))
    ensures IsSplitting([""] + items, [d] + delims)
    ensures Interleave([""] + items, [d] + delims) == d + rest
  {
    SplittingPrepend("", d, items, delims);
    InterleavePrepend("", d, items, delims);
    assert "" + d + rest == d + rest;
  }

  lemma SplitAtBreak(s: string)
    requires |s| > 0 && IsBreak(s[0])
    ensures Split(s) == [""] + Split(s[DelimiterLength(s)..])
  {
  }

  lemma DelimitersAtBreak(s: string)
    requires |s| > 0 && IsBreak(s[0])
    ensures Delimiters(s) == [s[..DelimiterLength(s)]] + Delimiters(s[DelimiterLength(s)..])
  {
  }

  lemma {:induction false} ReconstructsAfterCharacter(s: string)
    requires |s| > 0 && !IsBreak(s[0])
    ensures IsSplitting(Split(s), Delimiters(s))
    ensures Interleave(Split(s), Delimiters(s)) == s
    decreases |s|, 0
  {
    SplitReconstructs(s[1..]);
    var items, delims := Split(s[1..]), Delimiters(s[1..]);
    assert Split(s) == [[s[0]] + items[0]] + items[1..];
    assert Delimiters(s) == delims;
    SplittingCons(s[0], items, delims);
    InterleaveCons(s[0], items, delims);
    assert s == [s[0]] + s[1..];
  }

  lemma SplittingPrepend(item: string, d: string, items: seq<string>, delims: seq<string>)
    requires IsSplitting(items, delims) && Unbroken(item) && IsDelimiter(d)
    requires IsCommaDelimiter(d) ==> !StartsWithWhitespace(Interleave(items, delims))
    ensures IsSplitting([item] + items, [d] + delims)
  {
    var items', delims' := [item] + items, [d] + delims;
    assert items'[1..] == items && delims'[1..] == delims;
    forall i | 0 <= i < |delims'| && IsCommaDelimiter(delims'[i])
      ensures !StartsWithWhitespace(Interleave(items'[i + 1..], delims'[i + 1..]))
    {
      if i > 0 {
        assert items'[i + 1..] == items[i..] && delims'[i + 1..] == delims[i..];
      }
    }
  }

  /** Split is the only splitting of its input: any items and delimiters that
      form a splitting and reassemble to `s` are exactly Split(s) and
      Delimiters(s). */
  lemma {:induction false} SplitUnique(s: string, items: seq<string>, delims: seq<string>)
    requires IsSplitting(items, delims)
    requires Interleave(items, delims) == s
    ensures items == Split(s) && delims == Delimiters(s)
    decreases |s|, 1
  {
    if |items[0]| > 0 {
      UniqueAfterCharacter(s, items, delims);
    } else if |delims| > 0 {
      UniqueAfterDelimiter(s, items, delims);
    }
  }

  /** The first item starts with a character: it is the first character of `s`. */
  lemma {:induction false} UniqueAfterCharacter(s: string, items: seq<string>, delims: seq<string>)
    requires IsSplitting(items, delims) && |items[0]| > 0
    requires Interleave(items, delims) == s
    ensures items == Split(s) && delims == Delimiters(s)
    decreases |s|, 0
  {
    var c := items[0][0];
    var items' := SplittingUncons(items, delims);
    InterleaveCons(c, items', delims);
    assert !IsBreak(s[0]);
    assert s[1..] == Interleave(items', delims);
    SplitUnique(s[1..], items', delims);
  }

  /** Removing the first character of the first item keeps a splitting. */
  lemma SplittingUncons(items: seq<string>, delims: seq<string>) returns (items': seq<string>)
    requires IsSplitting(items, delims) && |items[0]| > 0
    ensures items' == [items[0][1..]] + items[1..]
    ensures items == [[items[0][0]] + items'[0]] + items'[1..]
    ensures IsSplitting(items', delims)
  {
    items' := [items[0][1..]] + items[1..];
    assert Unbroken(items[0][1..]) by {
      assert forall i :: 0 <= i < |items[0]| - 1 ==> items[0][1..][i] == items[0][i + 1];
    }
    assert [items[0][0]] + items'[0] == items[0];
    assert items'[1..] == items[1..];
    forall i | 0 <= i < |delims| && IsCommaDelimiter(delims[i])
      ensures !StartsWithWhitespace(Interleave(items'[i + 1..], delims[i + 1..]))
    {
      assert items'[i + 1..] == items[i + 1..];
    }
  }

  /** The first item is empty: `s` starts with the first delimiter, which is
      the whole match there. */
  lemma {:induction false} UniqueAfterDelimiter(s: string, items: seq<string>, delims: seq<string>)
    requires IsSplitting(items, delims) && |items[0]| == 0 && |delims| > 0
    requires Interleave(items, delims) == s
    ensures items == Split(s) && delims == Delimiters(s)
    decreases |s|, 0
  {
    var rest := Interleave(items[1..], delims[1..]);
    SplittingTail(items, delims);
    assert s == delims[0] + rest;
    var n := |delims[0]|;
    DelimiterAtStart(delims[0], rest);
    assert s[n..] == rest && s[..n] == delims[0];
    SplitUnique(rest, items[1..], delims[1..]);
  }

  /** A delimiter followed by text that a comma match cannot extend is
      exactly the match at the start. */
  lemma DelimiterAtStart(d: string, rest: string)
    requires IsDelimiter(d)
    requires IsCommaDelimiter(d) ==> !StartsWithWhitespace(rest)
    ensures |d + rest| > 0 && IsBreak((d + rest)[0])
    ensures DelimiterLength(d + rest) == |d|
  {
    var s := d + rest;
    if d != "\n" {
      var w := d[1..];
      assert s[1..] == w + rest;
      LeadingWhitespaceOf(w, rest);
    }
  }

  /** If the pattern matches at index `q` of `s`, the index just past the match. */
  function MatchAt(s: string, q: nat): (e: Option<nat>)
    requires q < |s|
    ensures e.Some? <==> IsBreak(s[q])
    ensures e.Some? ==> q < e.value <= |s| && IsDelimiter(s[q..e.value])
    ensures e.Some? && s[q] == ',' ==> !StartsWithWhitespace(s[e.value..])
  {
    if IsBreak(s[q]) then
      var n := DelimiterLength(s[q..]);
      assert s[q..][..n] == s[q..q + n] && s[q..][n..] == s[q + n..];
      Some(q + n)
    else None
  }

  lemma {:induction false} SplitUnbrokenPrefix(u: string, t: string)
    requires Unbroken(u)
    ensures Split(u + t) == [u + Split(t)[0]] + Split(t)[1..]
    decreases |u|
  {
    if |u| > 0 {
      assert (u + t)[0] == u[0] && (u + t)[1..] == u[1..] + t;
      SplitUnbrokenPrefix(u[1..], t);
      var rest := Split(u[1..] + t);
      assert Split(u + t) == [[u[0]] + rest[0]] + rest[1..];
      assert [u[0]] + (u[1..] + Split(t)[0]) == u + Split(t)[0];
    } else {
      assert u + t == t;
      assert u + Split(t)[0] == Split(t)[0];
      assert Split(t) == [Split(t)[0]] + Split(t)[1..];
    }
  }

  /** Text without a delimiter character is a single item. */
  lemma SplitUnbroken(u: string)
    requires Unbroken(u)
    ensures Split(u) == [u]
  {
    SplitUnbrokenPrefix(u, []);
    assert u + [] == u;
    assert Split([]) == [""];
    assert u + "" == u;
  }

  lemma UnbrokenExtend(s: string, p: nat, q: nat)
    requires p <= q < |s| && Unbroken(s[p..q]) && !IsBreak(s[q])
    ensures Unbroken(s[p..q + 1])
  {
    assert s[p..q + 1] == s[p..q] + [s[q]];
  }

  /** Closing the item `s[p..q]` at a match that ends at `e`. */
  lemma SplitAtMatch(s: string, p: nat, q: nat, e: nat)
    requires p <= q < |s| && Unbroken(s[p..q])
    requires MatchAt(s, q) == Some(e)
    ensures Split(s[p..]) == [s[p..q]] + Split(s[e..])
  {
    assert s[p..] == s[p..q] + s[q..];
    SplitUnbrokenPrefix(s[p..q], s[q..]);
    SplitAtDelimiter(s, q, e);
    assert s[p..q] + "" == s[p..q];
  }

  lemma SplitAtDelimiter(s: string, q: nat, e: nat)
    requires q < |s| && MatchAt(s, q) == Some(e)
    ensures Split(s[q..]) == [""] + Split(s[e..])
  {
    var t := s[q..];
    assert t[DelimiterLength(t)..] == s[e..];
  }

  /** `s.split(/,\s*|\n/)` as the ECMAScript RegExp.prototype[@@split]
      algorithm runs it: scan the index `q`, try the pattern at `q`, and on a
      match close the item `s[p..q]` and resume after the match. */
  method SplitByPattern(s: string) returns (items: seq<string>)
    ensures items == Split(s)
  {
    // The pattern cannot match the empty string, so splitting "" gives [""].
    if |s| == 0 {
      return [""];
    }
    items := [];
    var p, q := 0, 0;
    while q < |s|
      invariant 0 <= p <= q <= |s|
      invariant Unbroken(s[p..q])
      invariant items + Split(s[p..]) == Split(s)
      decreases |s| - q
    {
      var m := MatchAt(s, q);
      if m.None? {
        UnbrokenExtend(s, p, q);
        q := q + 1;
      } else {
        // The pattern never matches the empty string, so e > q >= p.
        var e := m.value;
        CloseItemAtMatch(s, items, p, q, e);
        items := items + [s[p..q]];
        p, q := e, e;
      }
    }
    CloseLastItem(s, items, p, q);
    items := items + [s[p..]];
  }

  /** Closing the current item at a match keeps the loop invariant. */
  lemma CloseItemAtMatch(s: string, items: seq<string>, p: nat, q: nat, e: nat)
    requires p <= q < |s| && Unbroken(s[p..q])
    requires MatchAt(s, q) == Some(e)
    requires items + Split(s[p..]) == Split(s)
    ensures (items + [s[p..q]]) + Split(s[e..]) == Split(s)
  {
    SplitAtMatch(s, p, q, e);
    assert (items + [s[p..q]]) + Split(s[e..]) == items + ([s[p..q]] + Split(s[e..]));
  }

  /** When no match is left, the rest of the input is the last item. */
  lemma CloseLastItem(s: string, items: seq<string>, p: nat, q: nat)
    requires p <= q == |s| && Unbroken(s[p..q])
    requires items + Split(s[p..]) == Split(s)
    ensures items + [s[p..]] == Split(s)
  {
    var rest := s[p..];
    assert rest == s[p..q];
    SplitUnbroken(rest);
    assert Split(rest) == [rest];
  }

  /** The whole parser: trim the reply, then split it. */
  function ParseRecommendations(content: string): (items: seq<string>)
    ensures |items| >= 1
    ensures forall i :: 0 <= i < |items| ==> Unbroken(items[i])
    ensures items == [""] <==> AllWhitespace(content)
  {
    var text := Trim(content);
    SplitReconstructs(text);
    Split(text)
  }

  /** The parse, read back: the trimmed reply is the items with the matched
      delimiters between them, in order, one delimiter fewer than items. */
  lemma ParseReconstructs(content: string)
    ensures var items, delims := ParseRecommendations(content), Delimiters(Trim(content));
      && |items| == |delims| + 1
      && IsSplitting(items, delims)
      && Interleave(items, delims) == Trim(content)
  {
    SplitReconstructs(Trim(content));
  }

  /** The parse of a reply is exactly the splitting of the trimmed reply:
      a list of items is what the parser returns if and only if some
      delimiters, put between those items, rebuild the trimmed reply under
      the rules of the pattern. */
  lemma ParseCharacterised(content: string, items: seq<string>)
    ensures ParseRecommendations(content) == items <==>
      exists delims :: IsSplitting(items, delims) && Interleave(items, delims) == Trim(content)
  {
    var text := Trim(content);
    SplitReconstructs(text);
    if exists delims :: IsSplitting(items, delims) && Interleave(items, delims) == text {
      var delims :| IsSplitting(items, delims) && Interleave(items, delims) == text;
      SplitUnique(text, items, delims);
    }
  }

  /** White space survives only inside the reply: the first item never starts
      with it, the last never ends with it, and an item that follows a comma
      never starts with it (an item that follows a line feed may). */
  lemma ParseItemEdges(content: string)
    ensures var items, delims := ParseRecommendations(content), Delimiters(Trim(content));
      && !StartsWithWhitespace(items[0])
      && !EndsWithWhitespace(items[|items| - 1])
      && forall i :: 0 <= i < |delims| && IsCommaDelimiter(delims[i]) ==> !StartsWithWhitespace(items[i + 1])
  {
    var text := Trim(content);
    SplitReconstructs(text);
    OuterItemEdges(text);
    ItemsAfterCommas(Split(text), Delimiters(text));
  }

  lemma OuterItemEdges(text: string)
    requires Trimmed(text)
    ensures !StartsWithWhitespace(Split(text)[0])
    ensures !EndsWithWhitespace(Split(text)[|Split(text)| - 1])
  {
    var items, delims := Split(text), Delimiters(text);
    SplitReconstructs(text);
    InterleaveStartsWithFirst(items, delims);
    InterleaveEndsWithLast(items, delims);
    var first, last := items[0], items[|items| - 1];
    if |first| > 0 {
      assert first[0] == text[0];
    }
    if |last| > 0 {
      assert last[|last| - 1] == text[|text| - 1];
    }
  }

  lemma ItemsAfterCommas(items: seq<string>, delims: seq<string>)
    requires IsSplitting(items, delims)
    ensures forall i :: 0 <= i < |delims| && IsCommaDelimiter(delims[i]) ==> !StartsWithWhitespace(items[i + 1])
  {
    forall i | 0 <= i < |delims| && IsCommaDelimiter(delims[i])
      ensures !StartsWithWhitespace(items[i + 1])
    {
      InterleaveStartsWithFirst(items[i + 1..], delims[i + 1..]);
      assert items[i + 1..][0] == items[i + 1];
    }
  }

  /** An item the prompt asks for: non-empty, free of delimiter characters and
      without white space at either end. */
  predicate CleanItem(item: string)
  {
    |item| > 0 && Unbroken(item) && Trimmed(item)
  }

  /** Items written one after another with the same separator between them. */
  function Join(items: seq<string>, sep: string): string
    requires |items| >= 1
  {
    Interleave(items, seq(|items| - 1, _ => sep))
  }

  /** A reply that lists clean items separated by any one delimiter (", " as
      the prompt requests, ",", a line feed, ...) parses back to exactly those
      items, in order. */
  lemma JoinRoundTrip(items: seq<string>, sep: string)
    requires |items| >= 1
    requires forall i :: 0 <= i < |items| ==> CleanItem(items[i])
    requires IsDelimiter(sep)
    ensures ParseRecommendations(Join(items, sep)) == items
  {
    var delims := seq(|items| - 1, _ => sep);
    var text := Interleave(items, delims);
    JoinIsSplitting(items, delims);
    JoinIsTrimmed(items, delims);
    TrimUnique([], text, []);
    assert [] + text + [] == text;
    SplitUnique(text, items, delims);
  }

  lemma JoinIsSplitting(items: seq<string>, delims: seq<string>)
    requires |items| == |delims| + 1
    requires forall i :: 0 <= i < |items| ==> CleanItem(items[i])
    requires forall i :: 0 <= i < |delims| ==> IsDelimiter(delims[i])
    ensures IsSplitting(items, delims)
  {
    forall i | 0 <= i < |delims| && IsCommaDelimiter(delims[i])
      ensures !StartsWithWhitespace(Interleave(items[i + 1..], delims[i + 1..]))
    {
      InterleaveStartsWithFirst(items[i + 1..], delims[i + 1..]);
      assert items[i + 1..][0] == items[i + 1];
    }
  }

  lemma JoinIsTrimmed(items: seq<string>, delims: seq<string>)
    requires |items| == |delims| + 1
    requires CleanItem(items[0]) && CleanItem(items[|items| - 1])
    ensures Trimmed(Interleave(items, delims))
  {
    var text := Interleave(items, delims);
    InterleaveStartsWithFirst(items, delims);
    InterleaveEndsWithLast(items, delims);
    var first, last := items[0], items[|items| - 1];
    assert text[0] == first[0];
    assert text[|text| - 1] == last[|last| - 1];
  }

}
