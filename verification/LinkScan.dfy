/** The two scanners of internal/domain/links.go: inline markdown links
    (mdLinkRe) and backtick code spans (inlineCodeRe). Neither expression needs
    backtracking, so each is a walk over characters. */
module LinkScan {
  import opened Text

  /** One inline link: `[` or `![` at start, its target at lo..hi, past its `)` at end. */
  datatype Match = Match(start: int, lo: int, hi: int, end: int, image: bool) {
    function Shift(d: int): Match {
      Match(start + d, lo + d, hi + d, end + d, image)
    }
    /** Where the `[` is. */
    function Bracket(): int {
      if image then start + 1 else start
    }
  }

  /** The first c at or after i. */
  function First(s: string, c: char, i: nat): (j: nat)
    requires i <= |s|
    ensures i <= j <= |s|
    ensures j < |s| ==> s[j] == c
    decreases |s| - i
  {
    if i == |s| || s[i] == c then i else First(s, c, i + 1)
  }

  /** What ends a target: white space as the expression's `\s` knows it, or `)`. */
  predicate Stops(c: char) {
    c == ')' || c == ' ' || c == '\t' || c == '\n' || c == '\r' || c == '\U{000C}'
  }

  /** The end of the run of target characters from i. */
  function RunEnd(s: string, i: nat): (k: nat)
    requires i <= |s|
    ensures i <= k <= |s|
    ensures k < |s| ==> Stops(s[k])
    decreases |s| - i
  {
    if i == |s| || Stops(s[i]) then i else RunEnd(s, i + 1)
  }

  function LinkAt(s: string, i: nat): (m: Option<Match>)
    requires i <= |s|
    ensures m.Some? ==> m.value.start == i && i + 2 < m.value.lo < m.value.hi < m.value.end <= |s| && !m.value.image
  {
    if i == |s| || s[i] != '[' then None
    else
      var j := First(s, ']', i + 1);
      if j + 1 >= |s| || s[j + 1] != '(' then None
      else
        var k := RunEnd(s, j + 2);
        if k == j + 2 || k == |s| || s[k] != ')' then None
        else Some(Match(i, j + 2, k, k + 1, false))
  }

  function MatchAt(s: string, i: nat): (m: Option<Match>)
    requires i < |s|
    ensures m.Some? ==> m.value.start == i && i + 2 < m.value.lo < m.value.hi < m.value.end <= |s|
  {
    if s[i] != '!' then LinkAt(s, i)
    else
      match LinkAt(s, i + 1)
      case Some(m) => Some(Match(i, m.lo, m.hi, m.end, true))
      case None => None
  }

  /** FindAll: leftmost matches that do not overlap, from i on. */
  function Scan(s: string, i: nat): seq<Match>
    requires i <= |s|
    decreases |s| - i
  {
    if i == |s| then []
    else
      match MatchAt(s, i)
      case Some(m) => [m] + Scan(s, m.end)
      case None => Scan(s, i + 1)
  }

  // ------------------------------------------------------------------
  // Code spans

  function TickEnd(s: string, i: nat): (j: nat)
    requires i <= |s|
    ensures i <= j <= |s|
    ensures j < |s| ==> s[j] != '`'
    decreases |s| - i
  {
    if i == |s| || s[i] != '`' then i else TickEnd(s, i + 1)
  }

  /** The end of the code span that opens at i: a run of backticks up to the end
      of the next run, or two or more that nothing closes. */
  function SpanAt(s: string, i: nat): (e: Option<nat>)
    requires i < |s|
    ensures e.Some? ==> i + 1 < e.value <= |s| && s[i] == '`'
  {
    if s[i] != '`' then None
    else
      var a := TickEnd(s, i + 1);
      var b := First(s, '`', a);
      if b < |s| then Some(TickEnd(s, b + 1))
      else if a > i + 1 then Some(a)
      else None
  }

  datatype Span = Span(lo: int, hi: int) {
    function Shift(d: int): Span {
      Span(lo + d, hi + d)
    }
  }

  function Spans(s: string, i: nat): seq<Span>
    requires i <= |s|
    decreases |s| - i
  {
    if i == |s| then []
    else
      match SpanAt(s, i)
      case Some(e) => [Span(i, e)] + Spans(s, e)
      case None => Spans(s, i + 1)
  }

  // ------------------------------------------------------------------
  // A scan sees only what is to its right

  /** From i on, t is s moved right by d. */
  ghost predicate SameFrom(s: string, t: string, i: nat, d: int) {
    i <= |s| && |t| == |s| + d && i + d >= 0 && forall j {:trigger s[j]} | i <= j < |s| :: t[j + d] == s[j]
  }

  lemma {:induction false} FirstShift(s: string, t: string, c: char, i: nat, d: int)
    requires SameFrom(s, t, i, d)
    ensures First(t, c, i + d) == First(s, c, i) + d
    decreases |s| - i
  {
    if i < |s| && s[i] != c {
      FirstShift(s, t, c, i + 1, d);
    }
  }

  lemma {:induction false} RunEndShift(s: string, t: string, i: nat, d: int)
    requires SameFrom(s, t, i, d)
    ensures RunEnd(t, i + d) == RunEnd(s, i) + d
    decreases |s| - i
  {
    if i < |s| && !Stops(s[i]) {
      RunEndShift(s, t, i + 1, d);
    }
  }

  lemma {:induction false} TickEndShift(s: string, t: string, i: nat, d: int)
    requires SameFrom(s, t, i, d)
    ensures TickEnd(t, i + d) == TickEnd(s, i) + d
    decreases |s| - i
  {
    if i < |s| && s[i] == '`' {
      TickEndShift(s, t, i + 1, d);
    }
  }

  lemma {:induction false} LinkAtShift(s: string, t: string, i: nat, d: int)
    requires SameFrom(s, t, i, d)
    ensures LinkAt(s, i).Some? <==> LinkAt(t, i + d).Some?
    ensures LinkAt(s, i).Some? ==> LinkAt(t, i + d).value == LinkAt(s, i).value.Shift(d)
  {
    if i < |s| && s[i] == '[' {
      FirstShift(s, t, ']', i + 1, d);
      var j := First(s, ']', i + 1);
      if j + 1 < |s| && s[j + 1] == '(' {
        RunEndShift(s, t, j + 2, d);
      }
    }
  }

  lemma {:induction false} MatchAtShift(s: string, t: string, i: nat, d: int)
    requires SameFrom(s, t, i, d) && i < |s|
    ensures MatchAt(s, i).Some? <==> MatchAt(t, i + d).Some?
    ensures MatchAt(s, i).Some? ==> MatchAt(t, i + d).value == MatchAt(s, i).value.Shift(d)
  {
    LinkAtShift(s, t, i, d);
    LinkAtShift(s, t, i + 1, d);
  }

  function ShiftAll(ms: seq<Match>, d: int): (r: seq<Match>)
    ensures |r| == |ms|
  {
    if ms == [] then [] else [ms[0].Shift(d)] + ShiftAll(ms[1..], d)
  }

  lemma {:induction false} ScanShift(s: string, t: string, i: nat, d: int)
    requires SameFrom(s, t, i, d)
    ensures Scan(t, i + d) == ShiftAll(Scan(s, i), d)
    decreases |s| - i
  {
    hide MatchAt;
    if i < |s| {
      MatchAtShift(s, t, i, d);
      match MatchAt(s, i)
      case Some(m) =>
        ScanShift(s, t, m.end, d);
        assert Scan(s, i)[1..] == Scan(s, m.end);
      case None =>
        ScanShift(s, t, i + 1, d);
    }
  }

  lemma {:induction false} SpanAtShift(s: string, t: string, i: nat, d: int)
    requires SameFrom(s, t, i, d) && i < |s|
    ensures SpanAt(s, i).Some? <==> SpanAt(t, i + d).Some?
    ensures SpanAt(s, i).Some? ==> SpanAt(t, i + d).value == SpanAt(s, i).value + d
  {
    if s[i] == '`' {
      TickEndShift(s, t, i + 1, d);
      var a := TickEnd(s, i + 1);
      FirstShift(s, t, '`', a, d);
      var b := First(s, '`', a);
      if b < |s| {
        TickEndShift(s, t, b + 1, d);
      }
    }
  }

  function ShiftSpans(spans: seq<Span>, d: int): (r: seq<Span>)
    ensures |r| == |spans|
  {
    if spans == [] then [] else [spans[0].Shift(d)] + ShiftSpans(spans[1..], d)
  }

  lemma {:induction false} SpansStep(s: string, i: nat)
    requires i < |s|
    ensures SpanAt(s, i).Some? ==> Spans(s, i) == [Span(i, SpanAt(s, i).value)] + Spans(s, SpanAt(s, i).value)
    ensures SpanAt(s, i).None? ==> Spans(s, i) == Spans(s, i + 1)
  {
    hide SpanAt;
  }

  lemma {:induction false} ShiftSpansStep(x: Span, rest: seq<Span>, d: int)
    ensures ShiftSpans([x] + rest, d) == [x.Shift(d)] + ShiftSpans(rest, d)
  {
    assert ([x] + rest)[1..] == rest;
  }

  lemma {:induction false} SpansShift(s: string, t: string, i: nat, d: int)
    requires SameFrom(s, t, i, d)
    ensures Spans(t, i + d) == ShiftSpans(Spans(s, i), d)
    decreases |s| - i
  {
    hide SpanAt, Spans, ShiftSpans;
    if i < |s| {
      SpanAtShift(s, t, i, d);
      SpansStep(s, i);
      SpansStep(t, i + d);
      match SpanAt(s, i)
      case Some(e) =>
        SpansShift(s, t, e, d);
        ShiftSpansStep(Span(i, e), Spans(s, e), d);
      case None =>
        SpansShift(s, t, i + 1, d);
    } else {
      NoSpans(s);
      NoSpans(t);
      NoSpansShift(d);
    }
  }

  lemma {:induction false} NoSpans(s: string)
    ensures Spans(s, |s|) == []
  {
  }

  lemma {:induction false} NoSpansShift(d: int)
    ensures ShiftSpans([], d) == []
  {
  }
}
