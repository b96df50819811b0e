/** The reader that blanks code spans first (proseLines, LinksFromBody), and
    what it finds in terms of the line as it was written. */
module LinkRead {
  import opened Text
  import opened LinkScan
  import opened LinkEdit
  import opened LinkApart

  /** The characters i..end with each code span replaced by one space. */
  function Blanked(s: string, i: nat, end: nat): string
    requires i <= |s|
    decreases |s| - i
  {
    if i >= end || i == |s| then ""
    else
      match SpanAt(s, i)
      case Some(e) => " " + Blanked(s, e, end)
      case None => [s[i]] + Blanked(s, i + 1, end)
  }

  /** i is not past the opening of a span that is still open. */
  ghost predicate Bound(s: string, i: nat) {
    i <= |s| && exists k :: 0 <= k <= |Spans(s, 0)| && BoundAt(s, i, k)
  }

  ghost predicate BoundAt(s: string, i: nat, k: nat)
    requires i <= |s| && k <= |Spans(s, 0)|
  {
    Spans(s, 0)[k..] == Spans(s, i) && forall c | 0 <= c < k :: Spans(s, 0)[c].hi <= i
  }

  lemma {:induction false} BoundStart(s: string)
    ensures Bound(s, 0)
  {
    assert Spans(s, 0)[0..] == Spans(s, 0);
    assert BoundAt(s, 0, 0);
  }

  lemma {:induction false} BoundNext(s: string, i: nat)
    requires Bound(s, i) && i < |s|
    ensures SpanAt(s, i).None? ==> Bound(s, i + 1) && !CodeAt(Spans(s, 0), i)
    ensures SpanAt(s, i).Some? ==>
              && Bound(s, SpanAt(s, i).value) && (forall p | i <= p < SpanAt(s, i).value :: CodeAt(Spans(s, 0), p))
              && Span(i, SpanAt(s, i).value) in Spans(s, 0)
  {
    hide SpanAt;
    var all := Spans(s, 0);
    var k :| 0 <= k <= |all| && BoundAt(s, i, k);
    match SpanAt(s, i)
    case None =>
      assert BoundAt(s, i + 1, k);
      SpansStart(s, i + 1);
      forall c | 0 <= c < |all|
        ensures !(all[c].lo <= i < all[c].hi)
      {
        if k <= c {
          assert all[c] == all[k..][c - k];
        }
      }
    case Some(e) =>
      assert all[k..][0] == Span(i, e);
      assert all[k] == Span(i, e);
      assert all[k + 1..] == all[k..][1..] == Spans(s, e);
      assert BoundAt(s, e, k + 1);
  }

  // ------------------------------------------------------------------
  // Blanking keeps what the scanner looks for, outside code

  lemma {:induction false} CodeStarts(s: string, i: nat)
    requires Bound(s, i) && i < |s|
    ensures SpanAt(s, i).Some? <==> CodeAt(Spans(s, 0), i)
  {
    hide Spans, Bound, CodeAt, SpanAt;
    BoundNext(s, i);
    match SpanAt(s, i)
    case Some(e) =>
      assert i < e;
      assert CodeAt(Spans(s, 0), i);
    case None =>
  }

  lemma {:induction false} SpanEndsBefore(s: string, p: nat, j: nat)
    requires Bound(s, p) && p <= j <= |s| && (j < |s| ==> !CodeAt(Spans(s, 0), j))
    requires p < |s| && SpanAt(s, p).Some?
    ensures SpanAt(s, p).value <= j
  {
    hide Spans, Bound, CodeAt, SpanAt;
    BoundNext(s, p);
  }

  lemma {:induction false} BlankedSplit(s: string, p: nat, j: nat)
    requires Bound(s, p) && p <= j <= |s| && (j < |s| ==> !CodeAt(Spans(s, 0), j))
    ensures Bound(s, j) && Blanked(s, p, |s|) == Blanked(s, p, j) + Blanked(s, j, |s|)
    decreases j - p
  {
    hide Spans, SpanAt, Bound, CodeAt;
    if p < j {
      BoundNext(s, p);
      match SpanAt(s, p)
      case Some(e) =>
        SpanEndsBefore(s, p, j);
        BlankedSplit(s, e, j);
      case None =>
        BlankedSplit(s, p + 1, j);
    }
  }

  lemma {:induction false} BlankedLacks(s: string, p: nat, j: nat)
    requires p <= j <= |s| && j <= First(s, ']', p)
    ensures forall x | 0 <= x < |Blanked(s, p, j)| :: Blanked(s, p, j)[x] != ']'
    decreases |s| - p
  {
    if p < j {
      match SpanAt(s, p)
      case Some(e) =>
        if e < j {
          FirstSkips(s, p, e);
          BlankedLacks(s, e, j);
        }
      case None =>
        BlankedLacks(s, p + 1, j);
    }
  }

  lemma {:induction false} FirstSkips(s: string, p: nat, e: nat)
    requires p <= e <= |s| && e <= First(s, ']', p)
    ensures First(s, ']', e) == First(s, ']', p)
    decreases e - p
  {
    if p < e {
      FirstSkips(s, p + 1, e);
    }
  }

  lemma {:induction false} FirstIs(s: string, c: char, i: nat, j: nat)
    requires i <= j <= |s| && (forall x | i <= x < j :: s[x] != c) && (j < |s| ==> s[j] == c)
    ensures First(s, c, i) == j
    decreases j - i
  {
    if i < j {
      FirstIs(s, c, i + 1, j);
    }
  }

  /** Outside code a character stands for itself. */
  lemma {:induction false} BlankedHead(s: string, i: nat)
    requires Bound(s, i) && i < |s| && !CodeAt(Spans(s, 0), i)
    ensures SpanAt(s, i) == None && Bound(s, i + 1) && Blanked(s, i, |s|) == [s[i]] + Blanked(s, i + 1, |s|)
  {
    hide Spans, Bound;
    BoundNext(s, i);
    CodeStarts(s, i);
  }

  /** A target's run, when no code span touches it. */
  lemma {:induction false} BlankedRun(s: string, p: nat, k: nat)
    requires Bound(s, p) && p <= k <= |s| && forall x | p <= x < k :: !CodeAt(Spans(s, 0), x)
    ensures Bound(s, k) && Blanked(s, p, |s|) == s[p..k] + Blanked(s, k, |s|)
    decreases k - p
  {
    hide Spans, Bound, CodeAt, SpanAt;
    if p < k {
      BlankedHead(s, p);
      BlankedRun(s, p + 1, k);
      assert s[p..k] == [s[p]] + s[p + 1..k];
    } else {
      assert s[p..k] == "";
    }
  }

  /** A run that no `)` ends still has none after blanking. */
  lemma {:induction false} BlankedRunFails(s: string, p: nat)
    requires Bound(s, p)
    requires var k := RunEnd(s, p); k == |s| || s[k] != ')' || exists x :: p <= x < k && CodeAt(Spans(s, 0), x)
    ensures var b := Blanked(s, p, |s|); RunEnd(b, 0) == |b| || b[RunEnd(b, 0)] != ')'
    decreases |s| - p
  {
    hide Spans, Bound, CodeAt, SpanAt;
    var b := Blanked(s, p, |s|);
    if p < |s| {
      BoundNext(s, p);
      match SpanAt(s, p)
      case Some(e) =>
        assert b[0] == ' ';
      case None =>
        assert b == [s[p]] + Blanked(s, p + 1, |s|);
        if !Stops(s[p]) {
          BlankedRunFails(s, p + 1);
          assert SameFrom(Blanked(s, p + 1, |s|), b, 0, 1);
          RunEndShift(Blanked(s, p + 1, |s|), b, 0, 1);
        }
    }
  }

  // ------------------------------------------------------------------
  // What a reading finds

  datatype Found = Found(image: bool, text: string, target: string)

  function FoundIn(s: string, m: Match): Found {
    if 0 <= m.Bracket() + 1 <= m.lo - 2 && m.lo <= m.hi <= |s| then
      Found(m.image, s[m.Bracket() + 1..m.lo - 2], s[m.lo..m.hi])
    else Found(m.image, "", "")
  }

  /** What FindAllStringSubmatch reports on s from i on. */
  function Reads(s: string, i: nat): seq<Found>
    requires i <= |s|
    decreases |s| - i
  {
    if i == |s| then []
    else
      match MatchAt(s, i)
      case Some(m) => [FoundIn(s, m)] + Reads(s, m.end)
      case None => Reads(s, i + 1)
  }

  lemma {:induction false} FoundShift(s: string, t: string, i: nat, d: int)
    requires SameFrom(s, t, i, d) && i < |s| && MatchAt(s, i).Some?
    ensures var m := MatchAt(s, i).value; FoundIn(t, m.Shift(d)) == FoundIn(s, m)
  {
    hide LinkAt;
    var m := MatchAt(s, i).value;
    assert s[m.Bracket() + 1..m.lo - 2] == t[m.Bracket() + 1 + d..m.lo - 2 + d];
    assert s[m.lo..m.hi] == t[m.lo + d..m.hi + d];
  }

  lemma {:induction false} ReadsShift(s: string, t: string, i: nat, d: int)
    requires SameFrom(s, t, i, d)
    ensures Reads(t, i + d) == Reads(s, i)
    decreases |s| - i
  {
    hide MatchAt, FoundIn;
    if i < |s| {
      MatchAtShift(s, t, i, d);
      match MatchAt(s, i)
      case Some(m) =>
        ReadsShift(s, t, m.end, d);
        FoundShift(s, t, i, d);
      case None =>
        ReadsShift(s, t, i + 1, d);
    }
  }

  lemma {:induction false} ReadsOfTail(h: string, b: string)
    ensures Reads(h + b, |h|) == Reads(b, 0)
  {
    assert SameFrom(b, h + b, 0, |h|);
    ReadsShift(b, h + b, 0, |h|);
  }

  /** The links of the line as written, less those inside code, with the text
      a reader of the blanked line sees. */
  function KeptReads(s: string, i: nat): seq<Found>
    requires i <= |s|
    decreases |s| - i
  {
    if i == |s| then []
    else
      match MatchAt(s, i)
      case Some(m) =>
        (if InCode(Spans(s, 0), m.start, m.end) then []
         else [Found(m.image, Blanked(s, m.Bracket() + 1, m.lo - 2), s[m.lo..m.hi])])
        + KeptReads(s, m.end)
      case None => KeptReads(s, i + 1)
  }

  /** A link outside code is found on the blanked line, with its target. */
  lemma {:induction false} LinkBlanked(s: string, i: nat)
    requires Bound(s, i) && LinkAt(s, i).Some? && !CodeAt(Spans(s, 0), i)
    requires var m := LinkAt(s, i).value; forall x | m.lo - 2 <= x < m.end :: !CodeAt(Spans(s, 0), x)
    ensures var m, b := LinkAt(s, i).value, Blanked(s, i, |s|);
            var text := Blanked(s, i + 1, m.lo - 2);
            && Bound(s, m.end)
            && b == "[" + text + "](" + s[m.lo..m.hi] + ")" + Blanked(s, m.end, |s|)
            && LinkAt(b, 0) == Some(Match(0, |text| + 3, |text| + 3 + m.hi - m.lo, |text| + 4 + m.hi - m.lo, false))
  {
    hide Spans, Bound, CodeAt, Blanked, LinkAt, First, RunEnd;
    var m := LinkAt(s, i).value;
    var text, target, after := Blanked(s, i + 1, m.lo - 2), s[m.lo..m.hi], Blanked(s, m.end, |s|);
    LinkParts(s, i);
    BlankedHead(s, i);
    BlankedSplit(s, i + 1, m.lo - 2);
    BlankedHead(s, m.lo - 2);
    BlankedHead(s, m.lo - 1);
    BlankedRun(s, m.lo, m.hi);
    BlankedHead(s, m.hi);
    Spelled(text, target, after);
    BlankedLacks(s, i + 1, m.lo - 2);
    LinkSpelled(text, target, after, s, m.lo, m.hi);
  }

  lemma {:induction false} Spelled(text: string, target: string, after: string)
    ensures "[" + (text + ("]" + ("(" + (target + (")" + after))))) == "[" + text + "](" + target + ")" + after
  {
    var a, b := "[" + (text + ("]" + ("(" + (target + (")" + after))))), "[" + text + "](" + target + ")" + after;
    assert |a| == |b|;
    assert forall x | 0 <= x < |a| :: a[x] == b[x];
  }

  /** The scanner on a link that is spelled out. */
  lemma {:induction false} LinkSpelled(text: string, target: string, after: string, s: string, lo: nat, hi: nat)
    requires forall x | 0 <= x < |text| :: text[x] != ']'
    requires lo < hi <= |s| && target == s[lo..hi] && RunEnd(s, lo) == hi
    ensures LinkAt("[" + text + "](" + target + ")" + after, 0)
            == Some(Match(0, |text| + 3, |text| + 3 + |target|, |text| + 4 + |target|, false))
  {
    var b, j := "[" + text + "](" + target + ")" + after, |text| + 1;
    assert b[j] == ']' && b[j + 1] == '(' && b[j + 2 + |target|] == ')';
    forall x | 1 <= x < j
      ensures b[x] != ']'
    {
      assert b[x] == text[x - 1];
    }
    FirstIs(b, ']', 1, j);
    forall x | j + 2 <= x < j + 2 + |target|
      ensures !Stops(b[x])
    {
      assert b[x] == target[x - (j + 2)] == s[lo + x - (j + 2)];
      RunHasNoStop(s, lo, lo + x - (j + 2));
    }
    RunEndOver(b, j + 2, j + 2 + |target|);
  }

  lemma {:induction false} RunHasNoStop(s: string, i: nat, x: nat)
    requires i <= x <= |s| && x < RunEnd(s, i)
    ensures !Stops(s[x])
    decreases x - i
  {
    if i < x {
      RunHasNoStop(s, i + 1, x);
    }
  }

  /** Where no link opens, none does on the blanked line. */
  lemma {:induction false} NoLinkBlanked(s: string, i: nat)
    requires Bound(s, i) && i < |s| && LinkAt(s, i) == None && !CodeAt(Spans(s, 0), i)
    requires s[i] == '[' ==> var j := First(s, ']', i + 1); j < |s| ==> !CodeAt(Spans(s, 0), j)
    ensures LinkAt(Blanked(s, i, |s|), 0) == None
  {
    hide Spans, Bound, CodeAt;
    var b := Blanked(s, i, |s|);
    BlankedHead(s, i);
    assert b[0] == s[i];
    if s[i] == '[' {
      var j := First(s, ']', i + 1);
      var text := Blanked(s, i + 1, j);
      BlankedSplit(s, i + 1, j);
      BlankedLacks(s, i + 1, j);
      assert b == "[" + text + Blanked(s, j, |s|);
      forall x | 1 <= x < 1 + |text|
        ensures b[x] != ']'
      {
        assert b[x] == text[x - 1];
      }
      if j == |s| {
        assert |b| == |text| + 1;
        FirstIs(b, ']', 1, |b|);
      } else {
        BlankedHead(s, j);
        assert b[|text| + 1] == ']';
        FirstIs(b, ']', 1, |text| + 1);
        NoLinkAfter(s, i, j, b, "[" + text + "]");
      }
    }
  }

  /** The part after the closing bracket. */
  lemma {:induction false} NoLinkAfter(s: string, i: nat, j: nat, b: string, h: string)
    requires i < |s| && LinkAt(s, i) == None && s[i] == '[' && j == First(s, ']', i + 1) < |s|
    requires Bound(s, j + 1) && b == h + Blanked(s, j + 1, |s|) && h != ""
    requires First(b, ']', 1) == |h| - 1 && b[0] == '['
    ensures LinkAt(b, 0) == None
  {
    hide Spans, Bound, CodeAt, First;
    if j + 1 < |s| {
      BoundNext(s, j + 1);
      if s[j + 1] == '(' && SpanAt(s, j + 1).None? {
        var b' := Blanked(s, j + 2, |s|);
        assert b == (h + "(") + b';
        NoTarget(s, j + 2);
        RunInTail(h + "(", b');
      }
    }
  }

  lemma {:induction false} RunInTail(h: string, b: string)
    ensures RunEnd(h + b, |h|) == |h| + RunEnd(b, 0)
  {
    assert SameFrom(b, h + b, 0, |h|);
    RunEndShift(b, h + b, 0, |h|);
  }

  /** A target that is empty, or that no `)` ends, stays so. */
  lemma {:induction false} NoTarget(s: string, p: nat)
    requires Bound(s, p)
    requires var k := RunEnd(s, p); k == p || k == |s| || s[k] != ')'
    ensures var b := Blanked(s, p, |s|); var e := RunEnd(b, 0); e == 0 || e == |b| || b[e] != ')'
  {
    hide Spans, Bound, CodeAt, SpanAt;
    if RunEnd(s, p) != p {
      BlankedRunFails(s, p);
    } else if p < |s| {
      BoundNext(s, p);
    }
  }

  // ------------------------------------------------------------------
  // The two readers agree

  lemma {:induction false} SpansOrdered(s: string, i: nat, c: nat, c': nat)
    requires i <= |s| && c < c' < |Spans(s, i)|
    ensures Spans(s, i)[c].hi <= Spans(s, i)[c'].lo
    decreases |s| - i
  {
    hide SpanAt;
    match SpanAt(s, i)
    case Some(e) =>
      assert Spans(s, i)[1..] == Spans(s, e);
      if c == 0 {
        SpansStart(s, e);
        assert Spans(s, i)[c'] == Spans(s, e)[c' - 1];
      } else {
        SpansOrdered(s, e, c - 1, c' - 1);
      }
    case None =>
      SpansOrdered(s, i + 1, c, c');
  }

  /** What starts inside a span and is inside one is inside that one. */
  lemma {:induction false} SameSpan(s: string, span: Span, x: int, y: int)
    requires span in Spans(s, 0) && span.lo <= x < span.hi && x < y && InCode(Spans(s, 0), x, y)
    ensures y <= span.hi
  {
    hide Spans;
    var all := Spans(s, 0);
    var c :| 0 <= c < |all| && all[c].lo <= x && y <= all[c].hi;
    var k :| 0 <= k < |all| && all[k] == span;
    if c < k {
      SpansOrdered(s, 0, c, k);
    } else if k < c {
      SpansOrdered(s, 0, k, c);
    }
  }

  /** Scanning from inside a code span keeps nothing until the span ends. */
  lemma {:induction false} ThroughSpan(s: string, i: nat, span: Span)
    requires span in Spans(s, 0) && span.lo <= i <= span.hi <= |s| && ApartFrom(s, Spans(s, 0), i)
    ensures KeptReads(s, i) == KeptReads(s, span.hi) && ApartFrom(s, Spans(s, 0), span.hi)
    decreases |s| - i
  {
    hide Spans, MatchAt, Blanked, InCode, BracketApart;
    if i < span.hi {
      match MatchAt(s, i)
      case Some(m) =>
        assert CodeAt(Spans(s, 0), i) by {
          var k :| 0 <= k < |Spans(s, 0)| && Spans(s, 0)[k] == span;
        }
        SameSpan(s, span, i, m.end);
        ThroughSpan(s, m.end, span);
      case None =>
        ThroughSpan(s, i + 1, span);
    }
  }

  lemma {:induction false} ReadsSkip(h: string, b: string)
    requires |h| == 1 && MatchAt(h + b, 0) == None
    ensures Reads(h + b, 0) == Reads(b, 0)
  {
    hide MatchAt;
    ReadsOfTail(h, b);
  }

  /** An image is the link after its `!`. */
  lemma {:induction false} MatchOfBang(bang: string, b: string, m: Match)
    requires bang in {"", "!"} && LinkAt(b, 0) == Some(m) && b != "" && b[0] == '[' && !m.image && m.start == 0
    ensures MatchAt(bang + b, 0)
            == Some(Match(0, m.lo + |bang|, m.hi + |bang|, m.end + |bang|, bang == "!"))
  {
    hide LinkAt;
    if bang == "!" {
      assert SameFrom(b, bang + b, 0, 1);
      LinkAtShift(b, bang + b, 0, 1);
    } else {
      assert bang + b == b;
    }
  }

  lemma {:induction false} FoundSpelled(bang: string, text: string, target: string, after: string)
    requires bang in {"", "!"}
    ensures var d, n, b := |bang|, |text|, bang + ("[" + text + "](" + target + ")" + after);
            var m := Match(0, n + 3 + d, n + 3 + d + |target|, n + 4 + d + |target|, bang == "!");
            && FoundIn(b, m) == Found(bang == "!", text, target)
            && b == (bang + ("[" + text + "](" + target + ")")) + after
  {
    var d, n, b := |bang|, |text|, bang + ("[" + text + "](" + target + ")" + after);
    var m := Match(0, n + 3 + d, n + 3 + d + |target|, n + 4 + d + |target|, bang == "!");
    assert b == (bang + ("[" + text + "](" + target + ")")) + after;
    assert b[m.Bracket() + 1..m.lo - 2] == text;
    assert b[m.lo..m.hi] == target;
  }

  lemma {:induction false} ReadsLink(bang: string, text: string, target: string, after: string)
    requires bang in {"", "!"} && target != ""
    requires var b, n := "[" + text + "](" + target + ")" + after, |text|;
             LinkAt(b, 0) == Some(Match(0, n + 3, n + 3 + |target|, n + 4 + |target|, false))
    ensures Reads(bang + ("[" + text + "](" + target + ")" + after), 0)
            == [Found(bang == "!", text, target)] + Reads(after, 0)
  {
    hide LinkAt, Reads, MatchAt, FoundIn;
    var d, n := |bang|, |text|;
    var h := "[" + text + "](" + target + ")";
    var b := bang + (h + after);
    var m := Match(0, n + 3 + d, n + 3 + d + |target|, n + 4 + d + |target|, bang == "!");
    MatchOfBang(bang, h + after, Match(0, n + 3, n + 3 + |target|, n + 4 + |target|, false));
    FoundSpelled(bang, text, target, after);
    ReadsOfTail(bang + h, after);
    ReadsFirst(b, m);
  }

  lemma {:induction false} ReadsFirst(b: string, m: Match)
    requires b != "" && MatchAt(b, 0) == Some(m)
    ensures Reads(b, 0) == [FoundIn(b, m)] + Reads(b, m.end)
  {
    hide MatchAt;
  }

  /** A link outside code. */
  lemma {:induction false} AgreeAtLink(s: string, i: nat)
    requires Bound(s, i) && i < |s| && !CodeAt(Spans(s, 0), i) && MatchAt(s, i).Some?
    requires StandsApart(s, Spans(s, 0), MatchAt(s, i).value)
    ensures var m := MatchAt(s, i).value;
            && Bound(s, m.end) && !InCode(Spans(s, 0), m.start, m.end)
            && Reads(Blanked(s, i, |s|), 0)
               == [Found(m.image, Blanked(s, m.Bracket() + 1, m.lo - 2), s[m.lo..m.hi])]
                  + Reads(Blanked(s, m.end, |s|), 0)
  {
    hide Spans, Bound, LinkAt, Reads, Blanked;
    var m := MatchAt(s, i).value;
    var spans, q := Spans(s, 0), m.Bracket();
    MatchIsLink(s, i);
    forall x | m.lo - 2 <= x < m.end
      ensures !CodeAt(spans, x)
    {
    }
    if m.image {
      BlankedHead(s, i);
    }
    LinkBlanked(s, q);
    var text, target, after := Blanked(s, q + 1, m.lo - 2), s[m.lo..m.hi], Blanked(s, m.end, |s|);
    ReadsLink(if m.image then "!" else "", text, target, after);
    if !m.image {
      assert "" + ("[" + text + "](" + target + ")" + after) == Blanked(s, q, |s|);
    }
  }

  /** No link outside code. */
  lemma {:induction false} AgreeAtNone(s: string, i: nat)
    requires Bound(s, i) && i < |s| && !CodeAt(Spans(s, 0), i) && MatchAt(s, i) == None
    requires BracketApart(s, Spans(s, 0), i)
    ensures Reads(Blanked(s, i, |s|), 0) == Reads(Blanked(s, i + 1, |s|), 0)
  {
    hide Spans, Bound, CodeAt, LinkAt, Reads, Blanked, First;
    BlankedHead(s, i);
    var b := Blanked(s, i + 1, |s|);
    if s[i] == '!' {
      assert SameFrom(b, "!" + b, 0, 1);
      LinkAtShift(b, "!" + b, 0, 1);
      if i + 1 < |s| && !CodeAt(Spans(s, 0), i + 1) {
        NoLinkBlanked(s, i + 1);
      } else {
        NoLinkAtEdge(s, i + 1);
      }
    } else {
      NoLinkBlanked(s, i);
    }
    ReadsSkip([s[i]], b);
  }

  lemma {:induction false} NoLinkAtEdge(s: string, i: nat)
    requires Bound(s, i) && (i == |s| || CodeAt(Spans(s, 0), i))
    ensures LinkAt(Blanked(s, i, |s|), 0) == None
  {
    hide Spans, Bound, CodeAt;
    if i < |s| {
      CodeStarts(s, i);
    }
  }

  /** Reading the blanked line finds exactly the links of the line as written
      that are not inside code. */
  lemma {:induction false} ReadersAgree(s: string, i: nat)
    requires i <= |s| && Bound(s, i) && ApartFrom(s, Spans(s, 0), i)
    ensures Reads(Blanked(s, i, |s|), 0) == KeptReads(s, i)
    decreases |s| - i
  {
    hide Spans, Bound, MatchAt, InCode, CodeAt, StandsApart, BracketApart;
    if i < |s| {
      CodeStarts(s, i);
      BoundNext(s, i);
      match SpanAt(s, i)
      case Some(e) =>
        ThroughSpan(s, i, Span(i, e));
        ReadersAgree(s, e);
        SpaceOpensNothing(Blanked(s, e, |s|));
        ReadsSkip(" ", Blanked(s, e, |s|));
        assert KeptReads(s, i) == KeptReads(s, e);
      case None =>
        match MatchAt(s, i)
        case Some(m) =>
          AgreeAtLink(s, i);
          ReadersAgree(s, m.end);
        case None =>
          AgreeAtNone(s, i);
          ReadersAgree(s, i + 1);
    }
  }

  lemma {:induction false} SpaceOpensNothing(b: string)
    ensures MatchAt(" " + b, 0) == None
  {
  }
}
