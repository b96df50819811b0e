/** The keys this instance owns: taken out of what a writer sends, kept as a
    claim, and put back into what a reader gets (internal/okf/raw.go). */
module ServerKeys {
  import opened Text
  import opened Frontmatter

  /** A document as splitFrontmatter cuts it. `block` is whether the parser
      reads the frontmatter as a block mapping whose lines it counts as this
      package does; what it refuses is left alone. */
  datatype Document =
    | Plain(text: string)
    | Framed(block: bool, lines: seq<Line>, rest: string)
  {
    /** Whether mappingKeys answers: a block mapping with at least one key. */
    predicate Addressable() {
      Framed? && block && Groups(lines) != []
    }
    predicate HasKey(which: string -> bool) {
      Framed? && block && Names(lines, which)
    }
  }

  /** Whether some line is one of these keys. */
  predicate Names(lines: seq<Line>, which: string -> bool) {
    exists i | 0 <= i < |lines| :: lines[i].key.Some? && which(lines[i].key.value.name)
  }

  predicate ServerOwned(key: string) {
    key in {"generated", "verified", "created_by", "rejected_by", "rejected_at", "rejected_note",
            "timestamp", "verified_by", "verified_at"}
  }

  const CLAIM_KEY := "received"

  predicate IsClaimKey(key: string) {
    key == "received"
  }

  function StripDocument(doc: Document, owned: string -> bool): Document {
    if doc.Framed? && doc.block then doc.(lines := Strip(doc.lines, owned)) else doc
  }

  // ------------------------------------------------------------------
  // stripKeys marks lines to drop and copies the others

  ghost predicate Covered(ranges: seq<Range>, n: int) {
    exists i | 0 <= i < |ranges| :: ranges[i].from <= n <= ranges[i].to
  }

  /** What is left of the first n lines. */
  ghost function KeptUpTo(lines: seq<Line>, ranges: seq<Range>, n: nat): seq<Line>
    requires n <= |lines|
  {
    if n == 0 then []
    else KeptUpTo(lines, ranges, n - 1) + (if Covered(ranges, n) then [] else [lines[n - 1]])
  }

  lemma {:induction false} KeptRun(lines: seq<Line>, ranges: seq<Range>, a: nat, b: nat)
    requires a <= b <= |lines|
    requires forall n | a < n <= b :: !Covered(ranges, n)
    ensures KeptUpTo(lines, ranges, b) == KeptUpTo(lines, ranges, a) + lines[a..b]
  {
    if a < b {
      KeptRun(lines, ranges, a, b - 1);
      assert lines[a..b] == lines[a..b - 1] + [lines[b - 1]];
    }
  }

  lemma {:induction false} DroppedRun(lines: seq<Line>, ranges: seq<Range>, a: nat, b: nat)
    requires a <= b <= |lines|
    requires forall n | a < n <= b :: Covered(ranges, n)
    ensures KeptUpTo(lines, ranges, b) == KeptUpTo(lines, ranges, a)
  {
    if a < b {
      DroppedRun(lines, ranges, a, b - 1);
    }
  }

  /** The lines a drop array leaves (internal/okf/raw.go:190-200). */
  method CopyKept(lines: seq<Line>, drop: array<bool>, ghost ranges: seq<Range>)
    returns (kept: seq<Line>, dropped: bool)
    requires drop.Length == |lines| + 1
    requires forall n | 0 <= n <= |lines| :: drop[n] <==> Covered(ranges, n)
    ensures kept == KeptUpTo(lines, ranges, |lines|)
    ensures !dropped ==> kept == lines
  {
    kept, dropped := [], false;
    for i := 0 to |lines|
      invariant kept == KeptUpTo(lines, ranges, i)
      invariant !dropped ==> kept == lines[..i]
    {
      if drop[i + 1] {
        dropped := true;
      } else {
        kept := kept + [lines[i]];
      }
    }
  }

  lemma {:induction false} BlockBounds(lines: seq<Line>, owned: string -> bool, i: nat)
    requires i < |Groups(lines)|
    ensures var r := BlockRange(lines, owned, i);
            1 <= r.from == MappingKeys(lines)[i].line <= r.to <= MappingKeys(lines)[i].line
                + |Groups(lines)[i].tail| <= |lines|
  {
    BlockPosition(lines, i);
  }

  lemma {:induction false} CoveredByOneMore(before: seq<Range>, r: Range, n: int)
    ensures Covered(before + [r], n) <==> Covered(before, n) || r.from <= n <= r.to
  {
    var all := before + [r];
    if Covered(before, n) {
      var i :| 0 <= i < |before| && before[i].from <= n <= before[i].to;
      assert all[i] == before[i];
    }
    assert all[|before|] == r;
  }

  lemma {:induction false} CoveredStep(lines: seq<Line>, owned: string -> bool, k: nat, n: int)
    requires k < |Groups(lines)|
    ensures Covered(RangesUpTo(lines, owned, k + 1), n)
            <==> Covered(RangesUpTo(lines, owned, k), n)
                 || (owned(Groups(lines)[k].Name())
                     && BlockRange(lines, owned, k).from <= n <= BlockRange(lines, owned, k).to)
  {
    hide Groups, BlockRange, Covered;
    var before := RangesUpTo(lines, owned, k);
    if owned(Groups(lines)[k].Name()) {
      CoveredByOneMore(before, BlockRange(lines, owned, k), n);
    } else {
      assert before + [] == before;
    }
  }

  /** A line of the i-th block goes exactly when the key is owned and the line is its own. */
  lemma {:induction false} CoveredInBlock(lines: seq<Line>, owned: string -> bool, i: nat, k: nat, n: nat)
    requires i < |Groups(lines)| && k <= |Groups(lines)|
    requires MappingKeys(lines)[i].line <= n <= MappingKeys(lines)[i].line + |Groups(lines)[i].tail|
    ensures Covered(RangesUpTo(lines, owned, k), n)
            <==> i < k && owned(Groups(lines)[i].Name()) && n <= BlockRange(lines, owned, i).to
  {
    hide Groups, Preamble, MappingKeys, BlockRange;
    if k > 0 {
      CoveredInBlock(lines, owned, i, k - 1, n);
      CoveredStep(lines, owned, k - 1, n);
      BlockBounds(lines, owned, k - 1);
      if i < k - 1 {
        KeyOrder(lines, i, k - 1);
      } else if k - 1 < i {
        KeyOrder(lines, k - 1, i);
      }
    }
  }

  lemma {:induction false} LineAfterPreamble(lines: seq<Line>, j: nat)
    requires j < |Groups(lines)|
    ensures MappingKeys(lines)[j].line > |Preamble(lines)|
  {
    hide Groups, Preamble;
    KeyLine(Groups(lines), |Preamble(lines)| + 1, j);
  }

  /** The lines before the first key are in no range. */
  lemma {:induction false} PreambleUncovered(lines: seq<Line>, owned: string -> bool, k: nat, n: nat)
    requires k <= |Groups(lines)| && n <= |Preamble(lines)|
    ensures !Covered(RangesUpTo(lines, owned, k), n)
  {
    hide Groups, Preamble, MappingKeys, BlockRange;
    if k > 0 {
      PreambleUncovered(lines, owned, k - 1, n);
      CoveredStep(lines, owned, k - 1, n);
      BlockBounds(lines, owned, k - 1);
      LineAfterPreamble(lines, k - 1);
    }
  }

  lemma {:induction false} KeptSpan(lines: seq<Line>, ranges: seq<Range>, at: nat, to: nat, end: nat, goes: bool)
    requires 1 <= at <= to <= end <= |lines|
    requires forall n | at <= n <= end :: Covered(ranges, n) <==> goes && n <= to
    ensures KeptUpTo(lines, ranges, end)
            == KeptUpTo(lines, ranges, at - 1) + (if goes then lines[to..end] else lines[at - 1..end])
  {
    if goes {
      DroppedRun(lines, ranges, at - 1, to);
      KeptRun(lines, ranges, to, end);
    } else {
      KeptRun(lines, ranges, at - 1, end);
    }
  }

  /** The i-th block, copied: all of it, or what an owned key leaves behind. */
  lemma {:induction false} KeptBlock(lines: seq<Line>, owned: string -> bool, i: nat)
    requires i < |Groups(lines)|
    ensures var groups, at := Groups(lines), MappingKeys(lines)[i].line;
            var ranges := RangesUpTo(lines, owned, |groups|);
            1 <= at <= at + |groups[i].tail| <= |lines|
            && KeptUpTo(lines, ranges, at + |groups[i].tail|)
               == KeptUpTo(lines, ranges, at - 1)
                  + (if owned(groups[i].Name()) then Leftover(groups[i], groups[i + 1..], owned)
                     else [groups[i].head] + groups[i].tail)
  {
    hide Groups, Preamble, MappingKeys, RangesUpTo, KeptUpTo, Covered;
    var groups, at := Groups(lines), MappingKeys(lines)[i].line;
    var g, ranges := groups[i], RangesUpTo(lines, owned, |groups|);
    var end, to := at + |g.tail|, BlockRange(lines, owned, i).to;
    BlockBounds(lines, owned, i);
    forall n | at <= n <= end
      ensures Covered(ranges, n) <==> owned(g.Name()) && n <= to
    {
      CoveredInBlock(lines, owned, i, |groups|, n);
    }
    KeptSpan(lines, ranges, at, to, end, owned(g.Name()));
    BlockPosition(lines, i);
    assert lines[to..end] == lines[at..end][to - at..];
    assert lines[at - 1..end] == [g.head] + g.tail;
  }

  lemma {:induction false} KeptFrom(lines: seq<Line>, owned: string -> bool, i: nat)
    requires i <= |Groups(lines)|
    ensures var groups := Groups(lines);
            var ranges := RangesUpTo(lines, owned, |groups|);
            var start := if i < |groups| then MappingKeys(lines)[i].line - 1 else |lines|;
            0 <= start <= |lines|
            && KeptUpTo(lines, ranges, |lines|) == KeptUpTo(lines, ranges, start) + StripGroups(groups[i..], owned)
    decreases |Groups(lines)| - i
  {
    hide Groups, Preamble, MappingKeys, RangesUpTo, KeptUpTo, Leftover;
    var groups := Groups(lines);
    if i < |groups| {
      KeptFrom(lines, owned, i + 1);
      KeptBlock(lines, owned, i);
      if i + 1 < |groups| {
        NextPosition(lines, i);
      } else {
        BlockPosition(lines, i);
      }
      assert groups[i..][1..] == groups[i + 1..];
    }
  }

  lemma {:induction false} KeptPreamble(lines: seq<Line>, owned: string -> bool)
    ensures |Preamble(lines)| <= |lines|
    ensures KeptUpTo(lines, RangesUpTo(lines, owned, |Groups(lines)|), |Preamble(lines)|) == Preamble(lines)
    ensures Groups(lines) == [] ==> Preamble(lines) == lines
    ensures Groups(lines) != [] ==> MappingKeys(lines)[0].line == |Preamble(lines)| + 1
  {
    var pre, ranges := Preamble(lines), RangesUpTo(lines, owned, |Groups(lines)|);
    forall n | 0 < n <= |pre|
      ensures !Covered(ranges, n)
    {
      PreambleUncovered(lines, owned, |Groups(lines)|, n);
    }
    KeptRun(lines, ranges, 0, |pre|);
    GroupsAreTheLines(lines);
    assert lines[0..|pre|] == pre;
  }

  lemma {:induction false} StrippedLines(lines: seq<Line>, owned: string -> bool)
    ensures KeptUpTo(lines, RangesUpTo(lines, owned, |Groups(lines)|), |lines|) == Strip(lines, owned)
  {
    hide Groups, Preamble, RangesUpTo, KeptUpTo, Leftover;
    KeptPreamble(lines, owned);
    KeptFrom(lines, owned, 0);
    assert Groups(lines)[0..] == Groups(lines);
  }

  method MarkRange(drop: array<bool>, r: Range)
    requires r.to < drop.Length && r.from <= r.to
    modifies drop
    ensures forall n | 0 <= n < drop.Length :: drop[n] == (old(drop[n]) || r.from <= n <= r.to)
  {
    for i := r.from to r.to + 1
      invariant forall n | 0 <= n < drop.Length :: drop[n] == (old(drop[n]) || r.from <= n < i)
    {
      drop[i] := true;
    }
  }

  /** internal/okf/raw.go:179-210. */
  method StripKeys(doc: Document, owned: string -> bool) returns (out: Document)
    ensures out == StripDocument(doc, owned)
  {
    if !doc.Addressable() {
      if doc.Framed? {
        GroupsAreTheLines(doc.lines);
      }
      return doc;
    }
    var lines := doc.lines;
    var drop := new bool[|lines| + 1](_ => false);
    var ranges := OwnedKeyRanges(lines, owned);
    RangesBound(lines, owned, |Groups(lines)|);
    for k := 0 to |ranges|
      invariant forall n | 0 <= n <= |lines| :: drop[n] <==> Covered(ranges[..k], n)
    {
      label before:
      MarkRange(drop, ranges[k]);
      assert ranges[..k + 1] == ranges[..k] + [ranges[k]];
      forall n | 0 <= n <= |lines|
        ensures drop[n] <==> Covered(ranges[..k + 1], n)
      {
        CoveredByOneMore(ranges[..k], ranges[k], n);
      }
    }
    assert ranges[..|ranges|] == ranges;
    var kept, dropped := CopyKept(lines, drop, ranges);
    StrippedLines(lines, owned);
    if !dropped {
      return doc;
    }
    return doc.(lines := kept);
  }

  lemma {:induction false} RangesBound(lines: seq<Line>, owned: string -> bool, k: nat)
    requires k <= |Groups(lines)|
    ensures forall i | 0 <= i < |RangesUpTo(lines, owned, k)| ::
              var r := RangesUpTo(lines, owned, k)[i]; 1 <= r.from <= r.to <= |lines|
  {
    if k > 0 {
      RangesBound(lines, owned, k - 1);
      BlockBounds(lines, owned, k - 1);
    }
  }
}
