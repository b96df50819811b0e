/** Replacing several stretches of one line. Offsets are all into the line as it
    was, so the program applies the edits from the last to the first. */
module Edits {

  datatype Edit = Edit(lo: int, hi: int, text: string)

  /** The edits are in order, do not overlap, and lie in from..len. */
  predicate Ordered(edits: seq<Edit>, from: int, len: int) {
    if edits == [] then from <= len
    else from <= edits[0].lo <= edits[0].hi && Ordered(edits[1..], edits[0].hi, len)
  }

  /** All stretches replaced at once: what lies between them is copied. */
  function Substituted(s: string, edits: seq<Edit>, from: nat): string
    requires Ordered(edits, from, |s|)
  {
    if edits == [] then s[from..]
    else
      OrderedFits(edits, from, |s|);
      s[from..edits[0].lo] + edits[0].text + Substituted(s, edits[1..], edits[0].hi)
  }

  lemma {:induction false} OrderedFits(edits: seq<Edit>, from: int, len: int)
    requires Ordered(edits, from, len)
    ensures from <= len
    ensures edits != [] ==> edits[0].lo <= edits[0].hi <= len
  {
    if edits != [] {
      OrderedFits(edits[1..], edits[0].hi, len);
    }
  }

  /** Up to its first edit the line is as it was. */
  lemma {:induction false} SubstitutedAfter(s: string, edits: seq<Edit>, from: nat, to: nat)
    requires Ordered(edits, from, |s|) && from <= to <= |s| && (edits != [] ==> to <= edits[0].lo)
    ensures Ordered(edits, to, |s|)
    ensures Substituted(s, edits, from) == s[from..to] + Substituted(s, edits, to)
  {
    if edits == [] {
      assert s[from..] == s[from..to] + s[to..];
    } else {
      OrderedFits(edits, from, |s|);
      var a, b, c := s[from..to], s[to..edits[0].lo], edits[0].text;
      var tail := Substituted(s, edits[1..], edits[0].hi);
      assert s[from..edits[0].lo] == a + b;
      assert (a + b) + c + tail == a + (b + c + tail);
    }
  }

  lemma {:induction false} OrderedSuffix(edits: seq<Edit>, from: nat, len: nat, k: nat)
    requires Ordered(edits, from, len) && k < |edits|
    ensures from <= edits[k].lo <= edits[k].hi <= len
    ensures Ordered(edits[k..], from, len) && Ordered(edits[k + 1..], edits[k].hi, len)
            && Ordered(edits[k + 1..], from, len)
  {
    if k == 0 {
      assert edits[0..] == edits;
      OrderedFits(edits, from, len);
      OrderedEarlier(edits[1..], edits[0].hi, from, len);
    } else {
      OrderedSuffix(edits[1..], edits[0].hi, len, k - 1);
      assert edits[1..][k - 1..] == edits[k..] && edits[1..][k..] == edits[k + 1..];
      OrderedEarlier(edits[k..], edits[0].hi, from, len);
      OrderedEarlier(edits[k + 1..], edits[0].hi, from, len);
    }
  }

  lemma {:induction false} OrderedEarlier(edits: seq<Edit>, from: int, from': int, len: int)
    requires Ordered(edits, from, len) && from' <= from
    ensures Ordered(edits, from', len)
  {
  }

  /** One more edit to the left of those already made. */
  lemma {:induction false} OneMore(s: string, edits: seq<Edit>)
    requires edits != [] && Ordered(edits, 0, |s|)
    ensures 0 <= edits[0].lo <= edits[0].hi <= |s| && Ordered(edits[1..], 0, |s|)
    ensures var line := Substituted(s, edits[1..], 0);
            && edits[0].hi <= |line| && line[..edits[0].hi] == s[..edits[0].hi]
            && Substituted(s, edits, 0) == line[..edits[0].lo] + edits[0].text + line[edits[0].hi..]
  {
    var e := edits[0];
    OrderedFits(edits, 0, |s|);
    OrderedEarlier(edits[1..], e.hi, 0, |s|);
    if |edits| > 1 {
      OrderedFits(edits[1..], e.hi, |s|);
    }
    SubstitutedAfter(s, edits[1..], 0, e.hi);
    var line, after := Substituted(s, edits[1..], 0), Substituted(s, edits[1..], e.hi);
    assert line == s[0..e.hi] + after;
    assert line[..e.lo] == s[0..e.lo];
    assert line[e.hi..] == after;
  }

  /** Applying edits from the last to the first replaces them all at once. */
  method ApplyBackward(s: string, edits: seq<Edit>) returns (line: string)
    requires Ordered(edits, 0, |s|)
    ensures line == Substituted(s, edits, 0)
  {
    line := s;
    var k := |edits|;
    assert edits[k..] == [];
    while k > 0
      invariant 0 <= k <= |edits|
      invariant Ordered(edits[k..], 0, |s|) && line == Substituted(s, edits[k..], 0)
    {
      k := k - 1;
      OrderedSuffix(edits, 0, |s|, k);
      assert edits[k..][1..] == edits[k + 1..];
      OneMore(s, edits[k..]);
      line := line[..edits[k].lo] + edits[k].text + line[edits[k].hi..];
    }
    assert edits[0..] == edits;
  }
}
