/** Replacing the front of one link's target, and scanning the result again. */
module LinkEdit {
  import opened Text
  import opened LinkScan

  /** What may be written into a target without ending it or opening a code span. */
  predicate Printable(v: string) {
    forall i | 0 <= i < |v| :: !Stops(v[i]) && v[i] != '`'
  }

  /** t is s with lo..hi replaced by v. */
  ghost predicate Replaced(s: string, t: string, lo: nat, hi: nat, v: string) {
    && lo <= hi <= |s|
    && SameFrom(s, t, hi, |v| - (hi - lo))
    && (forall j {:trigger s[j]} | 0 <= j < lo :: t[j] == s[j])
    && (forall j {:trigger v[j]} | 0 <= j < |v| :: t[lo + j] == v[j])
  }

  lemma {:induction false} ReplacedByConcat(s: string, lo: nat, hi: nat, v: string)
    requires lo <= hi <= |s|
    ensures Replaced(s, s[..lo] + v + s[hi..], lo, hi, v)
  {
  }

  /** The two strings agree before lo. */
  ghost predicate SameUpTo(s: string, t: string, lo: nat) {
    lo <= |s| && lo <= |t| && forall j {:trigger s[j]} | 0 <= j < lo :: t[j] == s[j]
  }

  lemma {:induction false} FirstBefore(s: string, t: string, c: char, i: nat, lo: nat)
    requires SameUpTo(s, t, lo) && i <= lo && First(s, c, i) < lo
    ensures First(t, c, i) == First(s, c, i)
    decreases lo - i
  {
    if s[i] != c {
      FirstBefore(s, t, c, i + 1, lo);
    }
  }

  lemma {:induction false} RunEndBefore(s: string, t: string, i: nat, lo: nat)
    requires SameUpTo(s, t, lo) && i <= lo && RunEnd(s, i) < lo
    ensures RunEnd(t, i) == RunEnd(s, i)
    decreases lo - i
  {
    if !Stops(s[i]) {
      RunEndBefore(s, t, i + 1, lo);
    }
  }

  /** A run that reaches lo ends where the run from lo does. */
  lemma {:induction false} RunEndThrough(s: string, i: nat, lo: nat)
    requires i <= lo <= |s| && lo <= RunEnd(s, i)
    ensures RunEnd(s, i) == RunEnd(s, lo)
    decreases lo - i
  {
    if i < lo {
      RunEndThrough(s, i + 1, lo);
    }
  }

  lemma {:induction false} RunEndOver(s: string, i: nat, k: nat)
    requires i <= k <= |s| && forall j | i <= j < k :: !Stops(s[j])
    ensures RunEnd(s, i) == RunEnd(s, k)
    decreases k - i
  {
    if i < k {
      RunEndOver(s, i + 1, k);
    }
  }

  lemma {:induction false} LinkBefore(s: string, t: string, i: nat, lo: nat)
    requires SameUpTo(s, t, lo) && i <= |s| && i <= |t| && LinkAt(s, i).Some? && LinkAt(s, i).value.end <= lo
    ensures LinkAt(t, i) == LinkAt(s, i)
  {
    FirstBefore(s, t, ']', i + 1, lo);
    RunEndBefore(s, t, First(s, ']', i + 1) + 2, lo);
  }

  lemma {:induction false} MatchBefore(s: string, t: string, i: nat, lo: nat)
    requires SameUpTo(s, t, lo) && i < |s| && MatchAt(s, i).Some? && MatchAt(s, i).value.end <= lo
    ensures i < |t| && MatchAt(t, i) == MatchAt(s, i)
  {
    hide LinkAt;
    if s[i] == '!' {
      LinkBefore(s, t, i + 1, lo);
    } else {
      LinkBefore(s, t, i, lo);
    }
  }

  /** What LinkAt found. */
  lemma {:induction false} LinkParts(s: string, i: nat)
    requires i <= |s| && LinkAt(s, i).Some?
    ensures var m := LinkAt(s, i).value;
            && i < |s| && s[i] == '[' && First(s, ']', i + 1) == m.lo - 2 && s[m.lo - 1] == '('
            && RunEnd(s, m.lo) == m.hi && m.hi < |s| && s[m.hi] == ')' && m.end == m.hi + 1
  {
  }

  /** No link opens before one that is found, and what hides the link that
      would have is to the left of the found one's target. */
  lemma {:induction false} NoLinkBefore(s: string, t: string, i: nat, q: nat)
    requires i < q <= |s| && LinkAt(s, q).Some? && LinkAt(s, i) == None
    requires SameUpTo(s, t, LinkAt(s, q).value.lo)
    ensures LinkAt(t, i) == None
  {
    var m := LinkAt(s, q).value;
    LinkParts(s, q);
    if s[i] == '[' {
      FirstFound(s, ']', i + 1, m.lo - 2);
      var j := First(s, ']', i + 1);
      FirstBefore(s, t, ']', i + 1, m.lo);
      if j < m.lo - 2 && s[j + 1] == '(' {
        if m.lo <= RunEnd(s, j + 2) {
          RunEndThrough(s, j + 2, m.lo);
        } else {
          RunEndBefore(s, t, j + 2, m.lo);
        }
      }
    }
  }

  lemma {:induction false} FirstFound(s: string, c: char, i: nat, j: nat)
    requires i <= j < |s| && s[j] == c
    ensures First(s, c, i) <= j
    decreases j - i
  {
    if s[i] != c {
      FirstFound(s, c, i + 1, j);
    }
  }

  lemma {:induction false} MatchIsLink(s: string, i: nat)
    requires i < |s| && MatchAt(s, i).Some?
    ensures var m := MatchAt(s, i).value;
            && m.image == (s[i] == '!') && m.Bracket() < |s| && LinkAt(s, m.Bracket()).Some?
            && LinkAt(s, m.Bracket()).value == m.(start := m.Bracket(), image := false)
  {
  }

  lemma {:induction false} NoMatchBefore(s: string, t: string, i: nat, p: nat)
    requires i < p < |s| && MatchAt(s, p).Some? && MatchAt(s, i) == None
    requires SameUpTo(s, t, MatchAt(s, p).value.lo)
    ensures i < |t| && MatchAt(t, i) == None
  {
    hide LinkAt;
    MatchIsLink(s, p);
    var q := MatchAt(s, p).value.Bracket();
    if s[i] != '!' {
      NoLinkBefore(s, t, i, q);
    } else if i + 1 < q {
      NoLinkBefore(s, t, i + 1, q);
    }
  }

  /** The edited match itself. */
  lemma {:induction false} RunEndEdited(s: string, t: string, lo: nat, end: nat, hi: nat, v: string)
    requires lo <= hi <= end <= |s| && RunEnd(s, lo) == end && Replaced(s, t, lo, hi, v) && Printable(v)
    ensures lo <= |t| && RunEnd(t, lo) == end + |v| - (hi - lo)
  {
    forall j | lo <= j < lo + |v|
      ensures !Stops(t[j])
    {
      assert t[lo + (j - lo)] == v[j - lo];
    }
    RunEndOver(t, lo, lo + |v|);
    RunEndThrough(s, lo, hi);
    RunEndShift(s, t, hi, |v| - (hi - lo));
  }

  lemma {:induction false} LinkEdited(s: string, t: string, i: nat, hi: nat, v: string)
    requires i <= |s| && LinkAt(s, i).Some?
    requires var m := LinkAt(s, i).value;
             m.lo <= hi <= m.hi && Replaced(s, t, m.lo, hi, v) && Printable(v) && (v != "" || hi < m.hi)
    ensures var m, d := LinkAt(s, i).value, |v| - (hi - LinkAt(s, i).value.lo);
            LinkAt(t, i) == Some(m.(hi := m.hi + d, end := m.end + d))
  {
    var m := LinkAt(s, i).value;
    var d := |v| - (hi - m.lo);
    LinkParts(s, i);
    FirstBefore(s, t, ']', i + 1, m.lo);
    RunEndEdited(s, t, m.lo, m.hi, hi, v);
    hide First, RunEnd;
    assert t[m.lo - 1] == s[m.lo - 1];
    assert t[m.hi + d] == s[m.hi];
  }

  lemma {:induction false} MatchEdited(s: string, t: string, i: nat, hi: nat, v: string)
    requires i < |s| && MatchAt(s, i).Some?
    requires var m := MatchAt(s, i).value;
             m.lo <= hi <= m.hi && Replaced(s, t, m.lo, hi, v) && Printable(v) && (v != "" || hi < m.hi)
    ensures var m, d := MatchAt(s, i).value, |v| - (hi - MatchAt(s, i).value.lo);
            i < |t| && MatchAt(t, i) == Some(m.(hi := m.hi + d, end := m.end + d))
  {
    hide LinkAt;
    MatchIsLink(s, i);
    LinkEdited(s, t, MatchAt(s, i).value.Bracket(), hi, v);
    assert t[i] == s[i];
  }

  /** Each match of a scan is one at its own place, in order. */
  lemma {:induction false} ScanMatches(s: string, i: nat, k: nat)
    requires i <= |s| && k < |Scan(s, i)|
    ensures var m := Scan(s, i)[k];
            && i <= m.start && m.start + 2 < m.lo < m.hi < m.end <= |s| && MatchAt(s, m.start) == Some(m)
            && Scan(s, i)[k + 1..] == Scan(s, m.end)
    decreases |s| - i
  {
    hide MatchAt;
    match MatchAt(s, i)
    case Some(m) =>
      assert Scan(s, i)[1..] == Scan(s, m.end);
      if k > 0 {
        ScanMatches(s, m.end, k - 1);
        assert Scan(s, i)[k + 1..] == Scan(s, m.end)[k..];
      }
    case None =>
      ScanMatches(s, i + 1, k);
  }

  /** A scan from i on starts with the match at i, or goes on to the next position. */
  lemma {:induction false} ScanStep(s: string, i: nat)
    requires i < |s|
    ensures MatchAt(s, i).Some? ==> Scan(s, i) == [MatchAt(s, i).value] + Scan(s, MatchAt(s, i).value.end)
    ensures MatchAt(s, i).None? ==> Scan(s, i) == Scan(s, i + 1)
  {
    hide MatchAt;
  }

  /** What a scan finds once its k-th link has a target longer by d. */
  function Widened(ms: seq<Match>, k: nat, d: int): seq<Match>
    requires k < |ms|
  {
    ms[..k] + [ms[k].(hi := ms[k].hi + d, end := ms[k].end + d)] + ShiftAll(ms[k + 1..], d)
  }

  lemma {:induction false} WidenedStep(m: Match, ms: seq<Match>, k: nat, d: int)
    requires k < |ms|
    ensures Widened([m] + ms, k + 1, d) == [m] + Widened(ms, k, d)
  {
    hide ShiftAll;
    var all := [m] + ms;
    assert all[..k + 1] == [m] + ms[..k] && all[k + 2..] == ms[k + 1..] && all[k + 1] == ms[k];
  }

  lemma {:induction false} WidenedHead(m: Match, ms: seq<Match>, d: int)
    ensures Widened([m] + ms, 0, d) == [m.(hi := m.hi + d, end := m.end + d)] + ShiftAll(ms, d)
  {
    hide ShiftAll;
    assert ([m] + ms)[1..] == ms;
  }

  lemma {:induction false} ReplacedParts(s: string, t: string, lo: nat, hi: nat, v: string, end: nat)
    requires Replaced(s, t, lo, hi, v) && hi <= end <= |s|
    ensures lo <= |t| && SameUpTo(s, t, lo) && SameFrom(s, t, end, |v| - (hi - lo))
  {
  }

  /** Scanning again after an edit finds the same links, the edited one with its
      new target and those after it moved. */
  lemma {:induction false} ScanEdited(s: string, t: string, i: nat, k: nat, m: Match, hi: nat, v: string)
    requires i <= |s| && k < |Scan(s, i)| && Scan(s, i)[k] == m
    requires 0 <= m.lo <= hi <= m.hi && Replaced(s, t, m.lo, hi, v) && Printable(v) && (v != "" || hi < m.hi)
    ensures i <= |t|
    ensures Scan(t, i) == Widened(Scan(s, i), k, |v| - (hi - m.lo))
    decreases |s| - i
  {
    hide MatchAt, ShiftAll, Printable, Scan, Widened, Replaced, SameUpTo, SameFrom;
    var d := |v| - (hi - m.lo);
    ScanMatches(s, i, k);
    ReplacedParts(s, t, m.lo, hi, v, m.end);
    ScanStep(s, i);
    ScanStep(t, i);
    match MatchAt(s, i)
    case Some(m0) =>
      if k == 0 {
        MatchEdited(s, t, i, hi, v);
        ScanShift(s, t, m.end, d);
        WidenedHead(m, Scan(s, m.end), d);
      } else {
        ScanMatches(s, m0.end, k - 1);
        MatchBefore(s, t, i, m.lo);
        ScanEdited(s, t, m0.end, k - 1, m, hi, v);
        WidenedStep(m0, Scan(s, m0.end), k - 1, d);
      }
    case None =>
      ScanMatches(s, i + 1, k);
      NoMatchBefore(s, t, i, m.start);
      ScanEdited(s, t, i + 1, k, m, hi, v);
  }

  // ------------------------------------------------------------------
  // The code spans after an edit outside them

  predicate NoTicks(s: string, a: nat, b: nat)
    requires a <= b <= |s|
  {
    forall j | a <= j < b :: s[j] != '`'
  }

  /** A position inside a code span. */
  predicate CodeAt(spans: seq<Span>, p: int) {
    exists c | 0 <= c < |spans| :: spans[c].lo <= p < spans[c].hi
  }

  /** A stretch inside one code span. */
  predicate InCode(spans: seq<Span>, lo: int, hi: int) {
    exists c | 0 <= c < |spans| :: spans[c].lo <= lo && hi <= spans[c].hi
  }

  /** No code span reaches into a..b. */
  predicate Disjoint(spans: seq<Span>, a: int, b: int) {
    forall c | 0 <= c < |spans| :: spans[c].hi <= a || b <= spans[c].lo
  }

  function MoveSpans(spans: seq<Span>, at: int, d: int): (r: seq<Span>)
    ensures |r| == |spans|
  {
    seq(|spans|, c requires 0 <= c < |spans| => if spans[c].lo < at then spans[c] else spans[c].Shift(d))
  }

  lemma {:induction false} FirstNone(s: string, i: nat)
    requires i <= |s|
    ensures First(s, '`', i) == |s| <==> NoTicks(s, i, |s|)
    decreases |s| - i
  {
    if i < |s| && s[i] != '`' {
      FirstNone(s, i + 1);
    }
  }

  lemma {:induction false} TickEndBefore(s: string, t: string, i: nat, lo: nat)
    requires SameUpTo(s, t, lo) && i <= lo && TickEnd(s, i) < lo
    ensures TickEnd(t, i) == TickEnd(s, i)
    decreases lo - i
  {
    if s[i] == '`' {
      TickEndBefore(s, t, i + 1, lo);
    }
  }

  /** Text without backticks after i stays so. */
  lemma {:induction false} NoTicksAfter(s: string, t: string, i: nat, lo: nat, hi: nat, v: string)
    requires Replaced(s, t, lo, hi, v) && Printable(v) && i <= lo && NoTicks(s, i, |s|)
    ensures NoTicks(t, i, |t|)
  {
    var d := |v| - (hi - lo);
    forall j | i <= j < |t|
      ensures t[j] != '`'
    {
      if j < lo {
        assert t[j] == s[j];
      } else if j < lo + |v| {
        assert t[lo + (j - lo)] == v[j - lo];
      } else {
        assert t[j - d + d] == s[j - d];
      }
    }
  }

  lemma {:induction false} SpanBefore(s: string, t: string, i: nat, lo: nat, hi: nat, v: string)
    requires Replaced(s, t, lo, hi, v) && Printable(v) && i < lo
    requires SpanAt(s, i).Some? ==> SpanAt(s, i).value < lo
    ensures i < |t| && SpanAt(t, i) == SpanAt(s, i)
  {
    assert SameUpTo(s, t, lo);
    if s[i] == '`' {
      var a := TickEnd(s, i + 1);
      FirstNone(s, a);
      if First(s, '`', a) < |s| {
        TickEndBefore(s, t, i + 1, lo);
        FirstBefore(s, t, '`', a, lo);
        TickEndBefore(s, t, First(s, '`', a) + 1, lo);
      } else {
        if a < lo {
          TickEndBefore(s, t, i + 1, lo);
        }
        NoTicksAfter(s, t, a, lo, hi, v);
        FirstNone(t, a);
      }
    }
  }

  lemma {:induction false} SpansOver(s: string, i: nat, j: nat)
    requires i <= j <= |s| && NoTicks(s, i, j)
    ensures Spans(s, i) == Spans(s, j)
    decreases j - i
  {
    if i < j {
      SpansOver(s, i + 1, j);
    }
  }

  lemma {:induction false} SpansStart(s: string, i: nat)
    requires i <= |s|
    ensures forall c | 0 <= c < |Spans(s, i)| :: i <= Spans(s, i)[c].lo < Spans(s, i)[c].hi <= |s|
    decreases |s| - i
  {
    hide SpanAt;
    if i < |s| {
      match SpanAt(s, i)
      case Some(e) =>
        SpansStart(s, e);
      case None =>
        SpansStart(s, i + 1);
    }
  }

  lemma {:induction false} MoveAll(spans: seq<Span>, at: int, d: int)
    requires forall c | 0 <= c < |spans| :: at <= spans[c].lo
    ensures MoveSpans(spans, at, d) == ShiftSpans(spans, d)
  {
    if spans != [] {
      MoveAll(spans[1..], at, d);
      assert MoveSpans(spans, at, d) == [spans[0].Shift(d)] + MoveSpans(spans[1..], at, d);
    }
  }

  /** An edit that is outside every code span, and where no backtick is or comes,
      moves the spans to its right and changes none. */
  lemma {:induction false} SpansEdited(s: string, t: string, i: nat, lo: nat, hi: nat, v: string)
    requires 0 < lo && Replaced(s, t, lo, hi, v) && Printable(v) && hi < |s| && i <= lo
    requires NoTicks(s, lo - 1, hi + 1) && Disjoint(Spans(s, i), lo - 1, hi + 1)
    ensures i <= |t| && Spans(t, i) == MoveSpans(Spans(s, i), lo, |v| - (hi - lo))
    decreases lo - i
  {
    hide SpanAt;
    var d := |v| - (hi - lo);
    if i == lo {
      SpansOver(s, lo, hi);
      forall j | lo <= j < lo + |v|
        ensures t[j] != '`'
      {
        assert t[lo + (j - lo)] == v[j - lo];
      }
      SpansOver(t, lo, lo + |v|);
      SpansShift(s, t, hi, d);
      SpansStart(s, hi);
      MoveAll(Spans(s, hi), lo, d);
    } else {
      match SpanAt(s, i)
      case Some(e) =>
        assert Spans(s, i)[0] == Span(i, e);
        assert s[i] == '`' by { SpanOpens(s, i); }
        SpanBefore(s, t, i, lo, hi, v);
        assert Spans(s, i)[1..] == Spans(s, e);
        SpansEdited(s, t, e, lo, hi, v);
        assert MoveSpans(Spans(s, i), lo, d) == [Span(i, e)] + MoveSpans(Spans(s, e), lo, d);
      case None =>
        SpanBefore(s, t, i, lo, hi, v);
        SpansEdited(s, t, i + 1, lo, hi, v);
    }
  }

  lemma {:induction false} SpanOpens(s: string, i: nat)
    requires i < |s| && SpanAt(s, i).Some?
    ensures s[i] == '`'
  {
  }
}
