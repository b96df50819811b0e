/** What a reader of links makes of the words and the link that LogDocument prints for a
    change (internal/okf/reserved.go:188-193), through the scanners of
    internal/domain/links.go. */
module LogRead {
  import opened Text
  import opened Paths
  import opened LinkScan
  import opened LinkEdit
  import opened LinkRead
  import opened LinkMeaning
  import opened LinkBody
  import opened LinkTarget
  import opened LinkLimits
  import opened PathFollows
  import opened LogPages
  import opened LogLinks

  /** A change on the page: its words and its link. */
  function Printed(text: string, link: string): string {
    "[" + text + "](" + link + ")"
  }

  /** The words as a reader sees them who takes code out. */
  function Shown(text: string): string {
    Blanked(text, 0, |text|)
  }

  /** No code span of the printed piece reaches past its words. */
  predicate CodeStaysInside(text: string, link: string) {
    SpansStay(text, Printed(text, link), 0)
  }

  /** None of those that open from the i-th character of the words on. */
  predicate SpansStay(text: string, s: string, i: nat)
    requires 1 + i <= |s|
  {
    EndBy(Spans(s, 1 + i), 1 + |text|)
  }

  predicate EndBy(spans: seq<Span>, end: int) {
    forall k | 0 <= k < |spans| :: spans[k].hi <= end
  }

  // ------------------------------------------------------------------
  // Code spans of the piece and of the words alone

  lemma {:induction false} PrintedAt(text: string, link: string, i: nat)
    requires i < |text|
    ensures Printed(text, link)[1 + i] == text[i]
  {
  }

  lemma {:induction false} PrintedEnds(text: string, link: string)
    ensures var s, n := Printed(text, link), |text|;
            |s| == n + |link| + 4 && s[1 + n] == ']' && s[2 + n] == '(' && s[1 + n..] == "](" + link + ")"
  {
  }

  lemma {:induction false} TickEndInside(text: string, link: string, i: nat)
    requires i <= |text|
    ensures TickEnd(Printed(text, link), 1 + i) == 1 + TickEnd(text, i)
    decreases |text| - i
  {
    PrintedEnds(text, link);
    if i < |text| {
      PrintedAt(text, link, i);
      hide Printed;
      if text[i] == '`' {
        TickEndInside(text, link, i + 1);
      }
    }
  }

  /** The next backtick is the words' own, or one of the link. */
  lemma {:induction false} FirstInside(text: string, link: string, i: nat)
    requires i <= |text|
    ensures var n, f := First(text, '`', i), First(Printed(text, link), '`', 1 + i);
            if n < |text| then f == 1 + n else f >= |text| + 3
    decreases |text| - i
  {
    PrintedEnds(text, link);
    if i < |text| {
      PrintedAt(text, link, i);
      hide Printed;
      if text[i] != '`' {
        FirstInside(text, link, i + 1);
      }
    }
  }

  /** A span that opens in the words is the words' own, or reaches into the link. */
  lemma {:induction false} SpanInside(text: string, link: string, i: nat)
    requires i < |text|
    ensures var own, all := SpanAt(text, i), SpanAt(Printed(text, link), 1 + i);
            || (all.Some? && all.value >= |text| + 4)
            || (own.None? && all.None?)
            || (own.Some? && all.Some? && all.value == 1 + own.value)
  {
    PrintedAt(text, link, i);
    PrintedEnds(text, link);
    if text[i] == '`' {
      TickEndInside(text, link, i + 1);
      var a := TickEnd(text, i + 1);
      FirstInside(text, link, a);
      var b := First(text, '`', a);
      if b < |text| {
        TickEndInside(text, link, b + 1);
      }
      hide Printed, First, TickEnd;
    }
  }

  // ------------------------------------------------------------------
  // The blanked piece

  lemma {:induction false} BlankedStep(s: string, i: nat)
    requires i < |s|
    ensures SpanAt(s, i).Some? ==> Blanked(s, i, |s|) == " " + Blanked(s, SpanAt(s, i).value, |s|)
    ensures SpanAt(s, i).None? ==> Blanked(s, i, |s|) == [s[i]] + Blanked(s, i + 1, |s|)
    ensures Blanked(s, i, |s|) != ""
  {
    hide SpanAt;
  }

  lemma {:induction false} NothingBlanked(s: string)
    ensures Blanked(s, |s|, |s|) == ""
  {
  }

  /** Without a span nothing is blanked; each span makes the text shorter. */
  lemma {:induction false} BlankedShorter(s: string, i: nat)
    requires i <= |s|
    ensures |Blanked(s, i, |s|)| <= |s| - i
    ensures Spans(s, i) == [] ==> Blanked(s, i, |s|) == s[i..]
    ensures Spans(s, i) != [] ==> |Blanked(s, i, |s|)| < |s| - i
    decreases |s| - i
  {
    hide SpanAt, Spans, Blanked;
    if i == |s| {
      NothingBlanked(s);
      NoSpans(s);
    } else {
      BlankedStep(s, i);
      SpansStep(s, i);
      if SpanAt(s, i).Some? {
        BlankedShorter(s, SpanAt(s, i).value);
      } else {
        BlankedShorter(s, i + 1);
        assert s[i..] == [s[i]] + s[i + 1..];
      }
    }
  }

  lemma {:induction false} StayStep(text: string, s: string, i: nat)
    requires 1 + i < |s|
    ensures SpanAt(s, 1 + i).None? ==> (SpansStay(text, s, i) <==> SpansStay(text, s, i + 1))
    ensures SpanAt(s, 1 + i).Some? ==>
              var e := SpanAt(s, 1 + i).value;
              SpansStay(text, s, i) <==> e <= 1 + |text| && SpansStay(text, s, e - 1)
  {
    hide SpanAt, Spans;
    SpansStep(s, 1 + i);
    if SpanAt(s, 1 + i).Some? {
      var e := SpanAt(s, 1 + i).value;
      var first, rest, all := Span(1 + i, e), Spans(s, e), Spans(s, 1 + i);
      assert all == [first] + rest;
      assert all[0] == first && forall k | 0 <= k < |rest| :: all[k + 1] == rest[k];
    }
  }

  /** From the i-th character of the words on: while code stays inside, the piece reads as
      the words do, then its brackets and link; otherwise it is shorter. */
  lemma {:induction false} PieceBlanked(text: string, link: string, i: nat)
    requires i <= |text|
    ensures var s, words := Printed(text, link), Blanked(text, i, |text|);
            && 1 + i <= |s|
            && (SpansStay(text, s, i) ==> Blanked(s, 1 + i, |s|) == words + ("](" + link + ")"))
            && (!SpansStay(text, s, i) ==> |Blanked(s, 1 + i, |s|)| < |words| + |link| + 3)
    decreases |text| - i
  {
    hide *;
    var s := Printed(text, link);
    PrintedEnds(text, link);
    if i == |text| {
      WordsOver(text, link);
    } else {
      PrintedAt(text, link, i);
      SpanInside(text, link, i);
      BlankedStep(s, 1 + i);
      BlankedStep(text, i);
      StayStep(text, s, i);
      match SpanAt(s, 1 + i)
      case None =>
        PieceBlanked(text, link, i + 1);
        Assoc([text[i]], Blanked(text, i + 1, |text|), "](" + link + ")");
      case Some(e) =>
        if e <= 1 + |text| {
          PieceBlanked(text, link, e - 1);
          Assoc(" ", Blanked(text, e - 1, |text|), "](" + link + ")");
        } else {
          BlankedShorter(s, e);
        }
    }
  }

  lemma {:induction false} Assoc(a: string, b: string, c: string)
    ensures a + (b + c) == a + b + c
  {
  }

  lemma {:induction false} WordsOver(text: string, link: string)
    ensures var s, n := Printed(text, link), |text|;
            && (SpansStay(text, s, n) ==> Blanked(s, 1 + n, |s|) == Blanked(text, n, n) + ("](" + link + ")"))
            && (!SpansStay(text, s, n) ==> |Blanked(s, 1 + n, |s|)| < |Blanked(text, n, n)| + |link| + 3)
  {
    hide Spans, Blanked, Printed;
    var s, n := Printed(text, link), |text|;
    PrintedEnds(text, link);
    NothingBlanked(text);
    BlankedShorter(s, 1 + n);
    SpansFrom(s, 1 + n);
    if Spans(s, 1 + n) != [] {
      assert Spans(s, 1 + n)[0].hi > 1 + n;
    }
  }

  lemma {:induction false} SpansFrom(s: string, i: nat)
    requires i <= |s|
    ensures Spans(s, i) != [] ==> Spans(s, i)[0].hi > i
    decreases |s| - i
  {
    hide SpanAt;
    if i < |s| && SpanAt(s, i).None? {
      SpansFrom(s, i + 1);
    }
  }

  /** The whole piece. */
  lemma {:induction false} WholeBlanked(text: string, link: string)
    ensures var s := Printed(text, link);
            && (CodeStaysInside(text, link) ==> Blanked(s, 0, |s|) == Printed(Shown(text), link))
            && (!CodeStaysInside(text, link) ==> |Blanked(s, 0, |s|)| < |Shown(text)| + |link| + 4)
  {
    var s := Printed(text, link);
    assert s[0] == '[';
    OpensNoSpan(s);
    BlankedStep(s, 0);
    PieceBlanked(text, link, 0);
    hide Blanked, Spans, SpanAt;
    assert Printed(Shown(text), link) == ['['] + (Shown(text) + ("](" + link + ")"));
  }

  lemma {:induction false} OpensNoSpan(s: string)
    requires s != "" && s[0] == '['
    ensures SpanAt(s, 0) == None
  {
  }

  // ------------------------------------------------------------------
  // What the scan of a line finds

  predicate Fits(x: Found, n: int) {
    |x.text| + |x.target| + 4 <= n && ']' !in x.text
  }

  lemma {:induction false} MatchFits(s: string, i: nat)
    requires i < |s| && MatchAt(s, i).Some?
    ensures Fits(FoundIn(s, MatchAt(s, i).value), |s|)
  {
    var m := MatchAt(s, i).value;
    var q := if s[i] == '!' then i + 1 else i;
    var j := First(s, ']', q + 1);
    NotBefore(s, ']', q + 1);
    assert m.Bracket() == q && m.lo == j + 2;
  }

  lemma {:induction false} NotBefore(s: string, c: char, i: nat)
    requires i <= |s|
    ensures c !in s[i..First(s, c, i)]
    decreases |s| - i
  {
    if i < |s| && s[i] != c {
      NotBefore(s, c, i + 1);
      assert s[i..First(s, c, i)] == [s[i]] + s[i + 1..First(s, c, i + 1)];
    }
  }

  /** A link takes up its brackets and more; its words hold no closing bracket. */
  lemma {:induction false} ReadsFit(s: string, i: nat)
    requires i <= |s|
    ensures forall x | x in Reads(s, i) :: Fits(x, |s|)
    decreases |s| - i
  {
    hide MatchAt, FoundIn, Fits;
    if i < |s| {
      match MatchAt(s, i)
      case Some(m) =>
        MatchFits(s, i);
        ReadsFit(s, m.end);
      case None =>
        ReadsFit(s, i + 1);
    }
  }

  /** The printed piece reads as exactly its link, in its own words, exactly when no code
      span reaches past the words, no bracket closes within them outside code, and nothing
      in the link ends it. */
  lemma {:induction false} PieceReadsExactlyWhen(text: string, link: string)
    requires link != ""
    ensures ReadLine(Printed(text, link)) == [Found(false, Shown(text), link)]
            <==> CodeStaysInside(text, link) && ']' !in Shown(text) && NoStops(link)
  {
    var s, words := Printed(text, link), Shown(text);
    var b := Blanked(s, 0, |s|);
    WholeBlanked(text, link);
    ReadsFit(b, 0);
    ReadsNoStops(b, 0);
    if CodeStaysInside(text, link) && ']' !in words && NoStops(link) {
      OneLinkRead(words, link, b);
    }
    hide Reads, Blanked, NoStops, Shown, Printed, CodeStaysInside;
    if ReadLine(s) == [Found(false, words, link)] {
      assert Found(false, words, link) in Reads(b, 0);
      assert Fits(Found(false, words, link), |b|);
    }
  }

  // ------------------------------------------------------------------
  // A concept on the log page

  /** What is printed for a change to the concept on the page of the directory reads as
      one link, in the words printed, and that link names the concept, exactly when code
      stays inside the words, they close no bracket, and nothing in the link ends it,
      starts a fragment or makes it a URL. */
  lemma {:induction false} ChangeNamesItsConceptExactlyWhen(dir: string, text: string, c: string)
    requires IsDirectory(dir) && IsID(c)
    ensures var link := RelativeTo(dir, c + ".md");
            (ReadLine(Printed(text, link)) == [Found(false, Shown(text), link)] && Resolve(LogID(dir), link) == c)
            <==> && CodeStaysInside(text, link) && ']' !in Shown(text)
                 && NoStops(link) && NoFrag(link) && !HasScheme(link)
  {
    hide *;
    var link := RelativeTo(dir, c + ".md");
    RelativeDoc(dir, c);
    SomeLink(RelativeTo(dir, c));
    PieceReadsExactlyWhen(text, link);
    LogLinkResolvesExactlyWhen(dir, c);
  }

  lemma {:induction false} SomeLink(rel: string)
    ensures rel + ".md" != ""
  {
  }

  /** A piece on one line is read so wherever it is the line of a page. */
  lemma {:induction false} OneLinePiece(text: string, link: string)
    requires '\n' !in Printed(text, link)
    ensures FoundInBody(Printed(text, link)) == ReadLine(Printed(text, link))
  {
    OpensNoFence(Printed(text, link));
    hide *;
    OneLine(Printed(text, link));
  }

  lemma {:induction false} OpensNoFence(s: string)
    requires s != "" && s[0] == '['
    ensures Opens(s) == ""
  {
  }

  // ------------------------------------------------------------------
  // Two changes whose links are lost

  lemma {:induction false} NothingRead(s: string, i: nat)
    requires i <= |s| && forall x | i <= x < |s| :: s[x] != '[' && s[x] != '!'
    ensures Reads(s, i) == []
    decreases |s| - i
  {
    if i < |s| {
      NoStart(s, i);
      NothingRead(s, i + 1);
    }
  }

  lemma {:induction false} NoLinkRead(s: string)
    requires s != "" && MatchAt(s, 0) == None && '`' !in s
    requires forall x | 1 <= x < |s| :: s[x] != '[' && s[x] != '!'
    ensures ReadLine(s) == []
  {
    NoTicksBlanked(s, 0);
    assert s[0..] == s;
    NothingRead(s, 1);
    hide MatchAt, Blanked;
  }

  /** An id with a space: its link resolves, but no reader finds it. */
  lemma {:induction false} SpaceIsNoLink()
    ensures IsID("a b") && RelativeTo("", "a b" + ".md") == "a b.md" && Resolve(LogID(""), "a b.md") == "a b"
    ensures ReadLine(Printed("t", "a b.md")) == []
  {
    SpaceIsID();
    SpaceResolves();
    hide *;
    SpacePiece();
  }

  lemma {:induction false} SpaceIsID()
    ensures IsID("a b")
  {
    SplitWithoutSeparator("a b", '/');
    assert "a b"[0] == 'a';
  }

  lemma {:induction false} SpaceResolves()
    ensures RelativeTo("", "a b" + ".md") == "a b.md" && Resolve(LogID(""), "a b.md") == "a b"
  {
    RootIsRelative("a b.md");
    assert "a b" + ".md" == "a b.md";
    SpaceIsID();
    SpaceIsPlain();
    hide *;
    LogLinkResolvesExactlyWhen("", "a b");
    RootIsDirectory();
  }

  lemma {:induction false} RootIsDirectory()
    ensures IsDirectory("")
  {
  }

  lemma {:induction false} SpaceIsPlain()
    ensures NoFrag("a b.md") && !HasScheme("a b.md")
  {
    assert "a b.md"[1] == ' ' && !SchemeTail("a b.md", 1);
  }

  lemma {:induction false} SpacePiece()
    ensures ReadLine(Printed("t", "a b.md")) == []
  {
    var s := Printed("t", "a b.md");
    assert s == "[t](a b.md)";
    FirstIs(s, ']', 1, 2);
    RunEndOver(s, 4, 5);
    hide First, RunEnd;
    assert s[5] == ' ';
    assert MatchAt(s, 0) == None;
    NoLinkRead(s);
  }

  /** A title with a closing bracket. */
  lemma {:induction false} BracketIsNoLink()
    ensures ReadLine(Printed("a]b", "o.md")) == []
  {
    var s := Printed("a]b", "o.md");
    assert s == "[a]b](o.md)";
    FirstIs(s, ']', 1, 2);
    hide First, RunEnd;
    assert s[3] == 'b';
    assert MatchAt(s, 0) == None;
    NoLinkRead(s);
  }
}
