/** Text pieces with other text between them. A JavaScript template literal
    is its fixed pieces interleaved with its interpolated values, and a split
    string is its items interleaved with the delimiters that separated them. */
module Interleaving {

  /** `outer[0] + inner[0] + outer[1] + ... + inner[k-1] + outer[k]`. */
  function Interleave(outer: seq<string>, inner: seq<string>): string
    requires |outer| == |inner| + 1
    decreases |inner|
  {
    if |inner| == 0 then outer[0]
    else outer[0] + inner[0] + Interleave(outer[1..], inner[1..])
  }

  lemma InterleavePrepend(x: string, y: string, outer: seq<string>, inner: seq<string>)
    requires |outer| == |inner| + 1
    ensures Interleave([x] + outer, [y] + inner) == x + y + Interleave(outer, inner)
  {
    assert ([x] + outer)[1..] == outer && ([y] + inner)[1..] == inner;
  }

  lemma InterleaveStartsWithFirst(outer: seq<string>, inner: seq<string>)
    requires |outer| == |inner| + 1
    ensures outer[0] <= Interleave(outer, inner)
  {
    if |inner| > 0 {
      assert Interleave(outer, inner) == outer[0] + (inner[0] + Interleave(outer[1..], inner[1..]));
    }
  }

  lemma {:induction false} InterleaveEndsWithLast(outer: seq<string>, inner: seq<string>)
    requires |outer| == |inner| + 1
    ensures var text, last := Interleave(outer, inner), outer[|outer| - 1];
      |last| <= |text| && text[|text| - |last|..] == last
    decreases |inner|
  {
    if |inner| > 0 {
      InterleaveEndsWithLast(outer[1..], inner[1..]);
      var rest := Interleave(outer[1..], inner[1..]);
      var head := outer[0] + inner[0];
      var text := Interleave(outer, inner);
      var last := outer[|outer| - 1];
      assert last == outer[1..][|outer[1..]| - 1];
      assert text == head + rest;
      assert text[|text| - |last|..] == rest[|rest| - |last|..];
    }
  }

  /** `w` appears somewhere in `p` as a contiguous piece. */
  ghost predicate Occurs(w: string, p: string)
  {
    exists i :: OccursAt(w, p, i)
  }

  predicate OccursAt(w: string, p: string, i: int)
  {
    0 <= i <= |p| - |w| && p[i..i + |w|] == w
  }

  /** Whatever occurs within an occurring piece occurs in the whole. */
  lemma OccursInside(a: string, w: string, b: string, p: string)
    requires Occurs(a + w + b, p)
    ensures Occurs(w, p)
  {
    var i :| OccursAt(a + w + b, p, i);
    var v := a + w + b;
    forall j | 0 <= j < |w| ensures p[i + |a| + j] == w[j] {
      assert p[i + |a| + j] == p[i..i + |v|][|a| + j];
      assert v[|a| + j] == w[j];
    }
    assert p[i + |a|..i + |a| + |w|] == w;
    assert OccursAt(w, p, i + |a|);
  }

  /** Each value appears in the interleaving between the two pieces that
      surround it. */
  lemma {:induction false} HoleOccurs(outer: seq<string>, inner: seq<string>, k: nat)
    requires |outer| == |inner| + 1 && k < |inner|
    ensures Occurs(outer[k] + inner[k] + outer[k + 1], Interleave(outer, inner))
    decreases k
  {
    var p := Interleave(outer, inner);
    var head := outer[0] + inner[0];
    var rest := Interleave(outer[1..], inner[1..]);
    assert p == head + rest;
    if k == 0 {
      InterleaveStartsWithFirst(outer[1..], inner[1..]);
      var w := outer[0] + inner[0] + outer[1];
      assert p[..|w|] == w;
      assert OccursAt(w, p, 0);
    } else {
      HoleOccurs(outer[1..], inner[1..], k - 1);
      var w := outer[k] + inner[k] + outer[k + 1];
      assert w == outer[1..][k - 1] + inner[1..][k - 1] + outer[1..][k];
      var i :| OccursAt(w, rest, i);
      assert p[|head| + i..|head| + i + |w|] == rest[i..i + |w|];
      assert OccursAt(w, p, |head| + i);
    }
  }

}
