/** Rewriting the link targets of one line of prose (rewriteLine of
    internal/domain/links.go), and what a reader then finds on the line. */
module LinkRewrite {
  import opened Text
  import opened Edits
  import opened LinkScan
  import opened LinkEdit
  import opened LinkApart
  import opened LinkRead

  type Rewriter = string -> string

  // ------------------------------------------------------------------
  // The program

  /** The target of a match. */
  function Target(s: string, m: Match): string {
    if 0 <= m.lo <= m.hi <= |s| then s[m.lo..m.hi] else ""
  }

  /** Images and links inside code are left alone. */
  predicate Rewrites(s: string, m: Match) {
    !m.image && !InCode(Spans(s, 0), m.start, m.end)
  }

  function EditOf(s: string, m: Match, f: Rewriter): seq<Edits.Edit> {
    if Rewrites(s, m) && f(Target(s, m)) != Target(s, m) then [Edits.Edit(m.lo, m.hi, f(Target(s, m)))] else []
  }

  /** The edits of the k-th match and those after it. */
  function EditsFrom(s: string, ms: seq<Match>, f: Rewriter, k: nat): seq<Edits.Edit>
    requires k <= |ms|
    decreases |ms| - k
  {
    if k == |ms| then [] else EditOf(s, ms[k], f) + EditsFrom(s, ms, f, k + 1)
  }

  lemma {:induction false} EditsOrdered(s: string, f: Rewriter, k: nat, from: nat)
    requires k <= |Scan(s, 0)| && from <= |s|
    requires k < |Scan(s, 0)| ==> from <= Scan(s, 0)[k].start
    ensures Ordered(EditsFrom(s, Scan(s, 0), f, k), from, |s|)
    decreases |Scan(s, 0)| - k
  {
    hide Scan, Rewrites, Target, MatchAt;
    var ms := Scan(s, 0);
    if k < |ms| {
      var m := ms[k];
      ScanMatches(s, 0, k);
      ScanSteps(s, k);
      EditsOrdered(s, f, k + 1, m.hi);
      var rest := EditsFrom(s, ms, f, k + 1);
      OrderedEarlier(rest, m.hi, from, |s|);
      assert ([] + rest) == rest;
      assert forall e :: ([e] + rest)[1..] == rest;
    }
  }

  lemma {:induction false} ScanSteps(s: string, k: nat)
    requires k < |Scan(s, 0)|
    ensures k + 1 < |Scan(s, 0)| ==> Scan(s, 0)[k].end <= Scan(s, 0)[k + 1].start
  {
    ScanMatches(s, 0, k);
    var m := Scan(s, 0)[k];
    if k + 1 < |Scan(s, 0)| {
      assert Scan(s, 0)[k + 1..][0] == Scan(s, 0)[k + 1];
      ScanMatches(s, m.end, 0);
    }
  }

  lemma {:induction false} AllEditsOrdered(s: string, f: Rewriter)
    ensures Ordered(EditsFrom(s, Scan(s, 0), f, 0), 0, |s|)
  {
    if Scan(s, 0) != [] {
      ScanMatches(s, 0, 0);
    }
    EditsOrdered(s, f, 0, 0);
  }

  function Rewritten(s: string, f: Rewriter): string {
    AllEditsOrdered(s, f);
    Substituted(s, EditsFrom(s, Scan(s, 0), f, 0), 0)
  }

  method InAnyCode(code: seq<Span>, lo: int, hi: int) returns (found: bool)
    ensures found == InCode(code, lo, hi)
  {
    for i := 0 to |code|
      invariant !InCode(code[..i], lo, hi)
    {
      if code[i].lo <= lo && hi <= code[i].hi {
        return true;
      }
    }
    assert code[..|code|] == code;
    return false;
  }

  lemma {:induction false} EditsStep(s: string, ms: seq<Match>, f: Rewriter, k: nat, edits: seq<Edits.Edit>)
    requires k < |ms|
    ensures edits + EditsFrom(s, ms, f, k) == edits + EditOf(s, ms[k], f) + EditsFrom(s, ms, f, k + 1)
    ensures edits + [] == edits
  {
    hide EditOf;
  }

  method CollectEdits(line: string, f: Rewriter) returns (edits: seq<Edits.Edit>)
    ensures edits == EditsFrom(line, Scan(line, 0), f, 0)
  {
    hide Scan, Spans, MatchAt, InCode, EditsFrom;
    var code := Spans(line, 0);
    var matches := Scan(line, 0);
    edits := [];
    for i := 0 to |matches|
      invariant edits + EditsFrom(line, matches, f, i) == EditsFrom(line, matches, f, 0)
    {
      var m := matches[i];
      ScanMatches(line, 0, i);
      EditsStep(line, matches, f, i, edits);
      var inCode := InAnyCode(code, m.start, m.end);
      if !m.image && !inCode {
        var target := f(line[m.lo..m.hi]);
        if target != line[m.lo..m.hi] {
          edits := edits + [Edits.Edit(m.lo, m.hi, target)];
        }
      }
    }
    NoEditsLeft(line, matches, f, edits);
  }

  lemma {:induction false} NoEditsLeft(s: string, ms: seq<Match>, f: Rewriter, edits: seq<Edits.Edit>)
    ensures edits + EditsFrom(s, ms, f, |ms|) == edits
  {
  }

  /** The program collects its edits from left to right and applies them from
      right to left. */
  method RewriteLine(line: string, f: Rewriter) returns (r: string)
    ensures r == Rewritten(line, f)
  {
    var edits := CollectEdits(line, f);
    AllEditsOrdered(line, f);
    r := ApplyBackward(line, edits);
  }

  // ------------------------------------------------------------------
  // What one link says

  /** What a reader of the blanked line is told by a match: nothing inside code. */
  function Says(s: string, m: Match): Option<Found> {
    if InCode(Spans(s, 0), m.start, m.end) || !(0 <= m.Bracket() && m.Bracket() + 1 <= m.lo - 2 <= |s|) then None
    else Some(Found(m.image, Blanked(s, m.Bracket() + 1, m.lo - 2), Target(s, m)))
  }

  function RetoldOne(found: Found, f: Rewriter): Found {
    if found.image then found else found.(target := f(found.target))
  }

  /** What it is told once its target is rewritten. */
  function Retold(said: Option<Found>, f: Rewriter): Option<Found> {
    match said
    case Some(found) => Some(RetoldOne(found, f))
    case None => None
  }

  lemma {:induction false} BlankedBefore(s: string, t: string, i: nat, end: nat, lo: nat, hi: nat, v: string)
    requires Replaced(s, t, lo, hi, v) && Printable(v) && Bound(s, i) && i <= end <= lo - 2
    requires lo <= hi < |s| && Disjoint(Spans(s, 0), lo - 2, hi + 1)
    ensures end <= |t| && Blanked(t, i, end) == Blanked(s, i, end)
    decreases lo - i
  {
    hide Spans, SpanAt, Bound, Disjoint;
    if i < end {
      BoundNext(s, i);
      match SpanAt(s, i)
      case Some(e) =>
        SpanEndsApart(s, Span(i, e), lo - 2, hi + 1);
        SpanBefore(s, t, i, lo, hi, v);
        if e <= end {
          BlankedBefore(s, t, e, end, lo, hi, v);
        }
      case None =>
        SpanBefore(s, t, i, lo, hi, v);
        BlankedBefore(s, t, i + 1, end, lo, hi, v);
    }
  }

  lemma {:induction false} SpanEndsApart(s: string, span: Span, a: int, b: int)
    requires span in Spans(s, 0) && Disjoint(Spans(s, 0), a, b) && span.lo < b
    ensures span.hi <= a
  {
    var c :| 0 <= c < |Spans(s, 0)| && Spans(s, 0)[c] == span;
  }

  lemma {:induction false} BlankedShift(s: string, t: string, i: nat, end: nat, d: int)
    requires SameFrom(s, t, i, d) && i <= end <= |s|
    ensures Blanked(t, i + d, end + d) == Blanked(s, i, end)
    decreases |s| - i
  {
    hide SpanAt;
    if i < end {
      SpanAtShift(s, t, i, d);
      match SpanAt(s, i)
      case Some(e) =>
        assert Blanked(t, i + d, end + d) == " " + Blanked(t, e + d, end + d);
        if e <= end {
          BlankedShift(s, t, e, end, d);
        }
      case None =>
        assert t[i + d] == s[i];
        assert Blanked(t, i + d, end + d) == [s[i]] + Blanked(t, i + 1 + d, end + d);
        BlankedShift(s, t, i + 1, end, d);
    }
  }

  /** Code that holds a stretch holds its first character. */
  lemma {:induction false} InCodeStart(spans: seq<Span>, lo: int, hi: int)
    requires InCode(spans, lo, hi) && lo < hi
    ensures CodeAt(spans, lo)
  {
  }

  /** A position outside code is past the end of every span before it. */
  lemma {:induction false} BoundOutside(s: string, p: nat)
    requires p <= |s| && (p < |s| ==> !CodeAt(Spans(s, 0), p))
    ensures Bound(s, p)
  {
    hide Bound, CodeAt;
    BoundStart(s);
    BlankedSplit(s, 0, p);
  }

  lemma {:induction false} BoundAfter(s: string, p: nat)
    requires p < |s| && !CodeAt(Spans(s, 0), p)
    ensures Bound(s, p + 1)
  {
    hide Bound, CodeAt;
    BoundOutside(s, p);
    BlankedHead(s, p);
  }
}
