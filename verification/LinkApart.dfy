/** When the two readers of links in internal/domain/links.go agree: the one that blanks code
    spans before it looks for links, and the one that finds links first and
    leaves out those inside a span. */
module LinkApart {
  import opened Text
  import opened LinkScan
  import opened LinkEdit

  /** A link that is inside one code span, or outside every span from its
      bracket on, apart from what its text quotes. */
  predicate StandsApart(s: string, spans: seq<Span>, m: Match) {
    || InCode(spans, m.start, m.end)
    || (&& 0 < m.lo - 2 < m.end <= |s|
        && !CodeAt(spans, m.start) && !CodeAt(spans, m.Bracket())
        && NoTicks(s, m.lo - 2, m.end) && Disjoint(spans, m.lo - 2, m.end))
  }

  /** Where no link opens: if a bracket opens outside code, the first bracket
      that could close it is outside code too. */
  predicate BracketApart(s: string, spans: seq<Span>, i: nat)
    requires i < |s|
  {
    var q := if s[i] == '!' then i + 1 else i;
    q < |s| && s[q] == '[' && !CodeAt(spans, q) ==>
      var j := First(s, ']', q + 1);
      j < |s| ==> !CodeAt(spans, j)
  }

  /** No code span on the line overlaps a link without holding all of it or
      standing in its text. A caller can check this before asking for a rewrite. */
  predicate ApartFrom(s: string, spans: seq<Span>, i: nat)
    requires i <= |s|
    decreases |s| - i
  {
    i == |s| ||
    match MatchAt(s, i)
    case Some(m) => StandsApart(s, spans, m) && ApartFrom(s, spans, m.end)
    case None => BracketApart(s, spans, i) && ApartFrom(s, spans, i + 1)
  }

  predicate Apart(s: string) {
    ApartFrom(s, Spans(s, 0), 0)
  }

  // ------------------------------------------------------------------
  // The condition survives an edit

  lemma {:induction false} MovedCodeAt(spans: seq<Span>, a: int, lo: int, end: int, d: int, p: int)
    requires a <= lo <= end && lo <= end + d && Disjoint(spans, a, end)
    requires forall c | 0 <= c < |spans| :: spans[c].lo < spans[c].hi
    ensures p < lo ==> (CodeAt(MoveSpans(spans, lo, d), p) <==> CodeAt(spans, p))
    ensures end <= p ==> (CodeAt(MoveSpans(spans, lo, d), p + d) <==> CodeAt(spans, p))
  {
    var r := MoveSpans(spans, lo, d);
    if p < lo {
      if CodeAt(spans, p) {
        var c :| 0 <= c < |spans| && spans[c].lo <= p < spans[c].hi;
        assert r[c] == spans[c];
      }
      if CodeAt(r, p) {
        var c :| 0 <= c < |r| && r[c].lo <= p < r[c].hi;
        assert spans[c].hi <= a || end <= spans[c].lo;
      }
    }
    if end <= p {
      if CodeAt(spans, p) {
        var c :| 0 <= c < |spans| && spans[c].lo <= p < spans[c].hi;
        assert r[c] == spans[c].Shift(d);
      }
      if CodeAt(r, p + d) {
        var c :| 0 <= c < |r| && r[c].lo <= p + d < r[c].hi;
        assert spans[c].hi <= a || end <= spans[c].lo;
      }
    }
  }

  lemma {:induction false} MovedInCode(spans: seq<Span>, a: int, lo: int, end: int, d: int, x: int, y: int)
    requires a <= lo <= end && lo <= end + d && Disjoint(spans, a, end) && InCode(spans, x, y) && x < y
    requires y <= lo || end <= x
    ensures y <= lo ==> InCode(MoveSpans(spans, lo, d), x, y)
    ensures end <= x ==> InCode(MoveSpans(spans, lo, d), x + d, y + d)
  {
    var r := MoveSpans(spans, lo, d);
    var c :| 0 <= c < |spans| && spans[c].lo <= x && y <= spans[c].hi;
    assert r[c] == if spans[c].lo < lo then spans[c] else spans[c].Shift(d);
  }

  lemma {:induction false} MovedDisjoint(spans: seq<Span>, a: int, lo: int, end: int, d: int, x: int, y: int)
    requires a < lo < end && lo < end + d && Disjoint(spans, a, end) && Disjoint(spans, x, y) && x <= y
    requires y <= lo || end <= x
    requires forall c | 0 <= c < |spans| :: spans[c].lo < spans[c].hi
    ensures y <= lo ==> Disjoint(MoveSpans(spans, lo, d), x, y)
    ensures end <= x ==> Disjoint(MoveSpans(spans, lo, d), x + d, y + d)
  {
    var r := MoveSpans(spans, lo, d);
    forall c | 0 <= c < |r|
      ensures y <= lo ==> r[c].hi <= x || y <= r[c].lo
      ensures end <= x ==> r[c].hi <= x + d || y + d <= r[c].lo
    {
      assert spans[c].hi <= a || end <= spans[c].lo;
      assert spans[c].hi <= x || y <= spans[c].lo;
    }
  }

  /** The edit of one link outside code: the target's front lo..hi becomes v. */
  ghost predicate Edit(s: string, t: string, m: Match, hi: nat, v: string) {
    && 0 <= m.start && m.start + 2 < m.lo <= hi <= m.hi < m.end <= |s| && m.end == m.hi + 1
    && Replaced(s, t, m.lo, hi, v) && Printable(v) && (v != "" || hi < m.hi)
    && (forall c | 0 <= c < |Spans(s, 0)| :: Spans(s, 0)[c].lo < Spans(s, 0)[c].hi)
    && !InCode(Spans(s, 0), m.start, m.end)
    && StandsApart(s, Spans(s, 0), m)
  }

  function Delta(m: Match, hi: int, v: string): int {
    |v| - (hi - m.lo)
  }

  lemma {:induction false} ApartAfter(s: string, t: string, m: Match, hi: nat, v: string, i: nat)
    requires Edit(s, t, m, hi, v) && m.end <= i <= |s| && ApartFrom(s, Spans(s, 0), i)
    ensures var d := Delta(m, hi, v);
            0 <= i + d <= |t| && ApartFrom(t, MoveSpans(Spans(s, 0), m.lo, d), i + d)
    decreases |s| - i
  {
    hide Spans, MatchAt, MoveSpans, StandsApart, BracketApart;
    var d, spans := Delta(m, hi, v), Spans(s, 0);
    if i < |s| {
      assert SameFrom(s, t, i, d);
      MatchAtShift(s, t, i, d);
      match MatchAt(s, i)
      case Some(n) =>
        LinkApartAfter(s, t, m, hi, v, i);
        ApartAfter(s, t, m, hi, v, n.end);
      case None =>
        BracketApartAfter(s, t, m, hi, v, i);
        ApartAfter(s, t, m, hi, v, i + 1);
    }
  }

  lemma {:induction false} LinkApartAfter(s: string, t: string, m: Match, hi: nat, v: string, i: nat)
    requires Edit(s, t, m, hi, v) && m.end <= i < |s| && MatchAt(s, i).Some?
    requires StandsApart(s, Spans(s, 0), MatchAt(s, i).value)
    ensures var d := Delta(m, hi, v);
            StandsApart(t, MoveSpans(Spans(s, 0), m.lo, d), MatchAt(s, i).value.Shift(d))
  {
    hide Spans, MatchAt, MoveSpans, CodeAt, InCode, Disjoint;
    var d, spans, n := Delta(m, hi, v), Spans(s, 0), MatchAt(s, i).value;
    assert Disjoint(spans, m.lo - 2, m.end);
    if InCode(spans, n.start, n.end) {
      MovedInCode(spans, m.lo - 2, m.lo, m.end, d, n.start, n.end);
    } else {
      MovedCodeAt(spans, m.lo - 2, m.lo, m.end, d, n.start);
      MovedCodeAt(spans, m.lo - 2, m.lo, m.end, d, n.Bracket());
      MovedDisjoint(spans, m.lo - 2, m.lo, m.end, d, n.lo - 2, n.end);
      forall j | n.lo - 2 + d <= j < n.end + d
        ensures t[j] != '`'
      {
        assert t[j - d + d] == s[j - d];
      }
    }
  }

  lemma {:induction false} BracketApartAfter(s: string, t: string, m: Match, hi: nat, v: string, i: nat)
    requires Edit(s, t, m, hi, v) && m.end <= i < |s|
    requires BracketApart(s, Spans(s, 0), i)
    ensures var d := Delta(m, hi, v);
            0 <= i + d < |t| && BracketApart(t, MoveSpans(Spans(s, 0), m.lo, d), i + d)
  {
    hide Spans, MoveSpans, CodeAt, InCode, Disjoint;
    var d, spans := Delta(m, hi, v), Spans(s, 0);
    var q := if s[i] == '!' then i + 1 else i;
    assert t[i + d] == s[i];
    if q < |s| && s[q] == '[' {
      assert t[q + d] == s[q];
      FirstShift(s, t, ']', q + 1, d);
      assert Disjoint(spans, m.lo - 2, m.end);
      MovedCodeAt(spans, m.lo - 2, m.lo, m.end, d, q);
      MovedCodeAt(spans, m.lo - 2, m.lo, m.end, d, First(s, ']', q + 1));
    }
  }

  lemma {:induction false} LinkApartBefore(s: string, t: string, m: Match, hi: nat, v: string, i: nat)
    requires Edit(s, t, m, hi, v) && i < |s| && MatchAt(s, i).Some? && MatchAt(s, i).value.end <= m.start
    requires StandsApart(s, Spans(s, 0), MatchAt(s, i).value)
    ensures StandsApart(t, MoveSpans(Spans(s, 0), m.lo, Delta(m, hi, v)), MatchAt(s, i).value)
  {
    hide Spans, MatchAt, MoveSpans, CodeAt, InCode, Disjoint;
    var d, spans, n := Delta(m, hi, v), Spans(s, 0), MatchAt(s, i).value;
    assert Disjoint(spans, m.lo - 2, m.end);
    if InCode(spans, n.start, n.end) {
      MovedInCode(spans, m.lo - 2, m.lo, m.end, d, n.start, n.end);
    } else {
      MovedCodeAt(spans, m.lo - 2, m.lo, m.end, d, n.start);
      MovedCodeAt(spans, m.lo - 2, m.lo, m.end, d, n.Bracket());
      MovedDisjoint(spans, m.lo - 2, m.lo, m.end, d, n.lo - 2, n.end);
      forall j | n.lo - 2 <= j < n.end
        ensures t[j] != '`'
      {
        assert t[j] == s[j];
      }
    }
  }

  /** A bracket before the edited link keeps the bracket that would close it. */
  lemma {:induction false} ClosesAsBefore(s: string, t: string, q: nat, lo: nat)
    requires SameUpTo(s, t, lo) && q + 1 <= lo - 2 && s[lo - 2] == ']'
    ensures First(t, ']', q + 1) == First(s, ']', q + 1) <= lo - 2
  {
    FirstFound(s, ']', q + 1, lo - 2);
    FirstBefore(s, t, ']', q + 1, lo);
  }

  lemma {:induction false} MatchCloses(s: string, i: nat)
    requires i < |s| && MatchAt(s, i).Some?
    ensures s[MatchAt(s, i).value.lo - 2] == ']'
  {
    MatchIsLink(s, i);
    LinkParts(s, MatchAt(s, i).value.Bracket());
  }

  /** Nothing opened before the edited link, and nothing does. */
  lemma {:induction false} BracketApartBefore(s: string, t: string, m: Match, hi: nat, v: string, i: nat)
    requires Edit(s, t, m, hi, v) && i < m.start && MatchAt(s, m.start) == Some(m) && MatchAt(s, i) == None
    requires BracketApart(s, Spans(s, 0), i)
    ensures i < |t| && BracketApart(t, MoveSpans(Spans(s, 0), m.lo, Delta(m, hi, v)), i)
  {
    hide Spans, MoveSpans, CodeAt, InCode, Disjoint, MatchAt, First, NoTicks, Printable;
    var d, spans := Delta(m, hi, v), Spans(s, 0);
    var q := if s[i] == '!' then i + 1 else i;
    MatchCloses(s, m.start);
    assert t[i] == s[i] && t[q] == s[q];
    assert SameUpTo(s, t, m.lo);
    assert Disjoint(spans, m.lo - 2, m.end);
    ClosesAsBefore(s, t, q, m.lo);
    MovedCodeAt(spans, m.lo - 2, m.lo, m.end, d, q);
    MovedCodeAt(spans, m.lo - 2, m.lo, m.end, d, First(s, ']', q + 1));
  }

  lemma {:induction false} LinkApartSelf(s: string, t: string, m: Match, hi: nat, v: string)
    requires Edit(s, t, m, hi, v)
    ensures var d := Delta(m, hi, v);
            StandsApart(t, MoveSpans(Spans(s, 0), m.lo, d), m.(hi := m.hi + d, end := m.end + d))
  {
    hide Spans, CodeAt, InCode;
    var d, spans := Delta(m, hi, v), Spans(s, 0);
    var r := MoveSpans(spans, m.lo, d);
    MovedCodeAt(spans, m.lo - 2, m.lo, m.end, d, m.start);
    MovedCodeAt(spans, m.lo - 2, m.lo, m.end, d, m.Bracket());
    forall j | m.lo - 2 <= j < m.end + d
      ensures t[j] != '`'
    {
      if j < m.lo {
        assert t[j] == s[j];
      } else if j < m.lo + |v| {
        assert t[m.lo + (j - m.lo)] == v[j - m.lo];
      } else {
        assert t[j - d + d] == s[j - d];
      }
    }
    forall c | 0 <= c < |r|
      ensures r[c].hi <= m.lo - 2 || m.end + d <= r[c].lo
    {
      assert spans[c].hi <= m.lo - 2 || m.end <= spans[c].lo;
    }
  }

  lemma {:induction false} ApartEdited(s: string, t: string, i: nat, k: nat, hi: nat, v: string)
    requires i <= |s| && k < |Scan(s, i)| && Edit(s, t, Scan(s, i)[k], hi, v) && ApartFrom(s, Spans(s, 0), i)
    ensures i <= |t|
    ensures ApartFrom(t, MoveSpans(Spans(s, 0), Scan(s, i)[k].lo, Delta(Scan(s, i)[k], hi, v)), i)
    decreases |s| - i
  {
    hide Spans, MatchAt, MoveSpans, StandsApart, BracketApart;
    var m := Scan(s, i)[k];
    assert SameUpTo(s, t, m.lo);
    ScanMatches(s, i, k);
    match MatchAt(s, i)
    case Some(m0) =>
      assert Scan(s, i)[1..] == Scan(s, m0.end);
      if k == 0 {
        MatchEdited(s, t, i, hi, v);
        LinkApartSelf(s, t, m, hi, v);
        ApartAfter(s, t, m, hi, v, m.end);
      } else {
        ScanMatches(s, m0.end, k - 1);
        MatchBefore(s, t, i, m.lo);
        LinkApartBefore(s, t, m, hi, v, i);
        ApartEdited(s, t, m0.end, k - 1, hi, v);
      }
    case None =>
      ScanMatches(s, i + 1, k);
      NoMatchBefore(s, t, i, m.start);
      BracketApartBefore(s, t, m, hi, v, i);
      ApartEdited(s, t, i + 1, k, hi, v);
  }
}
