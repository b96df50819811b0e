/** Setting and removing frontmatter keys one block at a time
    (internal/okf/frontmatter.go:101-268). */
module Splice {
  import opened Text
  import opened Order
  import opened Frontmatter
  import opened ServerKeys

  /** The rendered lines of each key that is set. */
  type Blocks = map<string, seq<Line>>

  /** `keyRange` asks for one key at a time. */
  function Only(key: string): string -> bool {
    k => k == key
  }

  predicate Touched(key: string, replace: Blocks, remove: set<string>) {
    key in replace || key in remove
  }

  function NamesOf(groups: seq<Group>): (r: seq<string>)
    ensures |r| == |groups|
    ensures forall i | 0 <= i < |r| :: r[i] == groups[i].Name()
  {
    seq(|groups|, i requires 0 <= i < |groups| => groups[i].Name())
  }

  function SeenBefore(groups: seq<Group>, n: nat): set<string>
    requires n <= |groups|
  {
    set i | 0 <= i < n :: groups[i].Name()
  }

  /** What the i-th block becomes. The new block takes the place of the first
      occurrence; every occurrence goes. */
  function SplicedBlock(groups: seq<Group>, replace: Blocks, remove: set<string>, i: nat): seq<Line>
    requires i < |groups|
  {
    var g := groups[i];
    (if g.Name() in replace && g.Name() !in SeenBefore(groups, i) then replace[g.Name()] else [])
    + (if Touched(g.Name(), replace, remove) then Leftover(g, groups[i + 1..], Only(g.Name()))
       else [g.head] + g.tail)
  }

  /** The first n blocks, spliced. */
  function SplicedUpTo(groups: seq<Group>, replace: Blocks, remove: set<string>, n: nat): seq<Line>
    requires n <= |groups|
  {
    if n == 0 then []
    else SplicedUpTo(groups, replace, remove, n - 1) + SplicedBlock(groups, replace, remove, n - 1)
  }

  function BlocksFor(keys: seq<string>, replace: Blocks, n: nat): seq<Line>
    requires n <= |keys| && forall k | k in keys :: k in replace
  {
    if n == 0 then [] else BlocksFor(keys, replace, n - 1) + replace[keys[n - 1]]
  }

  function SetOf(names: seq<string>): set<string> {
    set x | x in names
  }

  /** The keys the document does not carry, in a stable order. */
  ghost function NewBlocks(new': Blocks): seq<Line> {
    var keys := SortedStrings(new'.Keys);
    BlocksFor(keys, new', |keys|)
  }

  /** The frontmatter spliceKeys leaves. */
  ghost function Spliced(lines: seq<Line>, replace: Blocks, remove: set<string>): seq<Line> {
    var groups := Groups(lines);
    Preamble(lines) + SplicedUpTo(groups, replace, remove, |groups|) + NewBlocks(replace - SetOf(NamesOf(groups)))
  }

  // ------------------------------------------------------------------
  // The marks: act[n] names the block to write before line n, drop[n] says
  // line n goes

  ghost function Emitted(lines: seq<Line>, act: seq<string>, drop: seq<bool>, replace: Blocks, n: nat): seq<Line>
    requires n <= |lines| && |act| == |drop| == |lines| + 2
  {
    if n == 0 then []
    else
      Emitted(lines, act, drop, replace, n - 1)
      + (if act[n] in replace then replace[act[n]] else [])
      + (if drop[n] then [] else [lines[n - 1]])
  }

  lemma {:induction false} EmittedRun(lines: seq<Line>, act: seq<string>, drop: seq<bool>, replace: Blocks, a: nat,
                                      b: nat)
    requires a <= b <= |lines| && |act| == |drop| == |lines| + 2
    requires forall n | a < n <= b :: act[n] !in replace && !drop[n]
    ensures Emitted(lines, act, drop, replace, b) == Emitted(lines, act, drop, replace, a) + lines[a..b]
  {
    if a < b {
      EmittedRun(lines, act, drop, replace, a, b - 1);
      assert lines[a..b] == lines[a..b - 1] + [lines[b - 1]];
    }
  }

  lemma {:induction false} EmittedDrop(lines: seq<Line>, act: seq<string>, drop: seq<bool>, replace: Blocks, a: nat,
                                       b: nat)
    requires a <= b <= |lines| && |act| == |drop| == |lines| + 2
    requires forall n | a < n <= b :: act[n] !in replace && drop[n]
    ensures Emitted(lines, act, drop, replace, b) == Emitted(lines, act, drop, replace, a)
  {
    if a < b {
      EmittedDrop(lines, act, drop, replace, a, b - 1);
    }
  }

  /** The marks on the i-th block, once the keys in `done` were handled. */
  ghost predicate BlockMarked(lines: seq<Line>, act: seq<string>, drop: seq<bool>, replace: Blocks,
                              remove: set<string>, done: set<string>, i: nat)
    requires i < |Groups(lines)| && |act| == |drop| == |lines| + 2
  {
    var groups, at := Groups(lines), MappingKeys(lines)[i].line;
    var k := groups[i].Name();
    var to := BlockRange(lines, Only(k), i).to;
    && 1 <= at <= to <= at + |groups[i].tail| <= |lines|
    && act[at] == (if k in replace && k in done && k !in SeenBefore(groups, i) then k else "")
    && (forall n | at < n <= at + |groups[i].tail| :: act[n] == "")
    && (forall n | at <= n <= at + |groups[i].tail| ::
          drop[n] <==> Touched(k, replace, remove) && k in done && n <= to)
  }

  ghost predicate Marked(lines: seq<Line>, act: seq<string>, drop: seq<bool>, replace: Blocks,
                         remove: set<string>, done: set<string>) {
    && |act| == |drop| == |lines| + 2
    && |Preamble(lines)| <= |lines|
    && (forall n | 0 <= n <= |Preamble(lines)| :: act[n] == "" && !drop[n])
    && (forall i | 0 <= i < |Groups(lines)| :: BlockMarked(lines, act, drop, replace, remove, done, i))
  }

  /** The first occurrence of a key heads its list of ranges. */
  lemma {:induction false} FirstRange(lines: seq<Line>, key: string, i: nat, n: nat)
    requires i < n <= |Groups(lines)| && Groups(lines)[i].Name() == key
    requires key !in SeenBefore(Groups(lines), i)
    ensures RangesUpTo(lines, Only(key), i) == []
    ensures RangesUpTo(lines, Only(key), n) != []
    ensures RangesUpTo(lines, Only(key), n)[0] == BlockRange(lines, Only(key), i)
    decreases n
  {
    hide Groups, BlockRange;
    NoRangeBefore(lines, key, i);
    if i < n - 1 {
      FirstRange(lines, key, i, n - 1);
    }
  }

  lemma {:induction false} NoRangeBefore(lines: seq<Line>, key: string, i: nat)
    requires i <= |Groups(lines)| && key !in SeenBefore(Groups(lines), i)
    ensures RangesUpTo(lines, Only(key), i) == []
  {
    if i > 0 {
      assert key !in SeenBefore(Groups(lines), i - 1);
      NoRangeBefore(lines, key, i - 1);
      assert Groups(lines)[i - 1].Name() in SeenBefore(Groups(lines), i);
    }
  }

  /** Which occurrence comes first. */
  lemma {:induction false} FirstOccurrence(groups: seq<Group>, key: string, n: nat) returns (i: nat)
    requires n <= |groups| && key in SeenBefore(groups, n)
    ensures i < n && groups[i].Name() == key && key !in SeenBefore(groups, i)
  {
    if key in SeenBefore(groups, n - 1) {
      i := FirstOccurrence(groups, key, n - 1);
    } else {
      i := n - 1;
    }
  }

  method MarkRanges(act: array<string>, drop: array<bool>, ranges: seq<Range>, key: string, replacing: bool)
    requires act.Length == drop.Length
    requires forall i | 0 <= i < |ranges| :: ranges[i].from <= ranges[i].to < drop.Length
    modifies act, drop
    ensures forall n | 0 <= n < drop.Length :: drop[n] == (old(drop[n]) || Covered(ranges, n))
    ensures forall n | 0 <= n < act.Length ::
              act[n] == if replacing && ranges != [] && n == ranges[0].from then key else old(act[n])
  {
    for i := 0 to |ranges|
      invariant forall n | 0 <= n < drop.Length :: drop[n] == (old(drop[n]) || Covered(ranges[..i], n))
      invariant forall n | 0 <= n < act.Length ::
                  act[n] == if replacing && i > 0 && n == ranges[0].from then key else old(act[n])
    {
      var r := ranges[i];
      if i == 0 && replacing {
        act[r.from] := key;
      }
      label before:
      MarkRange(drop, r);
      assert ranges[..i + 1] == ranges[..i] + [r];
      forall n | 0 <= n < drop.Length
        ensures drop[n] == (old(drop[n]) || Covered(ranges[..i + 1], n))
      {
        CoveredByOneMore(ranges[..i], r, n);
      }
    }
    assert ranges[..|ranges|] == ranges;
  }

  /** What MarkRanges does, as a relation between the marks before and after. */
  ghost predicate MarksAdded(act: seq<string>, drop: seq<bool>, act': seq<string>, drop': seq<bool>,
                             ranges: seq<Range>, key: string, replacing: bool) {
    && |act| == |drop| == |act'| == |drop'|
    && (forall n | 0 <= n < |drop| :: drop'[n] == (drop[n] || Covered(ranges, n)))
    && (forall n | 0 <= n < |act| ::
          act'[n] == if replacing && ranges != [] && n == ranges[0].from then key else act[n])
  }

  lemma {:induction false} FirstRangeAt(lines: seq<Line>, key: string) returns (j: nat)
    requires key in NamesOf(Groups(lines))
    ensures j < |Groups(lines)| && Groups(lines)[j].Name() == key && key !in SeenBefore(Groups(lines), j)
    ensures var ranges := RangesUpTo(lines, Only(key), |Groups(lines)|);
            ranges != [] && ranges[0].from == MappingKeys(lines)[j].line
  {
    hide Groups, RangesUpTo, Leftover;
    var groups := Groups(lines);
    var i :| 0 <= i < |groups| && groups[i].Name() == key;
    assert key in SeenBefore(groups, |groups|);
    j := FirstOccurrence(groups, key, |groups|);
    FirstRange(lines, key, j, |groups|);
  }

  lemma {:induction false} BlockMarkedMore(lines: seq<Line>, act: seq<string>, drop: seq<bool>, act': seq<string>,
                                           drop': seq<bool>,
                        replace: Blocks, remove: set<string>, done: set<string>, key: string, i: nat)
    requires Marked(lines, act, drop, replace, remove, done) && i < |Groups(lines)|
    requires key in NamesOf(Groups(lines)) && Touched(key, replace, remove)
    requires MarksAdded(act, drop, act', drop', RangesUpTo(lines, Only(key), |Groups(lines)|), key, key in replace)
    ensures BlockMarked(lines, act', drop', replace, remove, done + {key}, i)
  {
    hide Groups, RangesUpTo, Covered, BlockRange, MappingKeys;
    var groups, at := Groups(lines), MappingKeys(lines)[i].line;
    var k := groups[i].Name();
    var ranges := RangesUpTo(lines, Only(key), |groups|);
    assert BlockMarked(lines, act, drop, replace, remove, done, i);
    forall n | at <= n <= at + |groups[i].tail|
      ensures Covered(ranges, n) <==> k == key && n <= BlockRange(lines, Only(k), i).to
    {
      CoveredInBlock(lines, Only(key), i, |groups|, n);
    }
    var j := FirstRangeAt(lines, key);
    if i < j {
      KeyOrder(lines, i, j);
    } else if j < i {
      KeyOrder(lines, j, i);
      assert groups[j].Name() in SeenBefore(groups, i);
    }
  }

  /** The marks of one more key fall after the preamble. */
  lemma {:induction false} PreambleMarkedMore(lines: seq<Line>, act: seq<string>, drop: seq<bool>, act': seq<string>,
                                              drop': seq<bool>,
                           key: string, replacing: bool, n: nat)
    requires key in NamesOf(Groups(lines)) && n <= |Preamble(lines)| <= |lines| && |act| == |lines| + 2
    requires MarksAdded(act, drop, act', drop', RangesUpTo(lines, Only(key), |Groups(lines)|), key, replacing)
    ensures act'[n] == act[n] && drop'[n] == drop[n]
  {
    hide Groups, RangesUpTo, Covered, Preamble, MappingKeys, NamesOf;
    var j := FirstRangeAt(lines, key);
    LineAfterPreamble(lines, j);
    PreambleUncovered(lines, Only(key), |Groups(lines)|, n);
  }

  lemma {:induction false} MarkedMore(lines: seq<Line>, act: seq<string>, drop: seq<bool>, act': seq<string>,
                                      drop': seq<bool>,
                   replace: Blocks, remove: set<string>, done: set<string>, key: string)
    requires Marked(lines, act, drop, replace, remove, done)
    requires key in NamesOf(Groups(lines)) && Touched(key, replace, remove)
    requires MarksAdded(act, drop, act', drop', RangesUpTo(lines, Only(key), |Groups(lines)|), key, key in replace)
    ensures Marked(lines, act', drop', replace, remove, done + {key})
  {
    hide Groups, RangesUpTo, Preamble, BlockMarked, NamesOf;
    forall n | 0 <= n <= |Preamble(lines)|
      ensures act'[n] == "" && !drop'[n]
    {
      PreambleMarkedMore(lines, act, drop, act', drop', key, key in replace, n);
    }
    forall i | 0 <= i < |Groups(lines)|
      ensures BlockMarked(lines, act', drop', replace, remove, done + {key}, i)
    {
      BlockMarkedMore(lines, act, drop, act', drop', replace, remove, done, key, i);
    }
  }

  /** A key that is neither set nor removed leaves no mark. */
  lemma {:induction false} MarkedAnyway(lines: seq<Line>, act: seq<string>, drop: seq<bool>, replace: Blocks,
                     remove: set<string>, done: set<string>, key: string)
    requires Marked(lines, act, drop, replace, remove, done) && !Touched(key, replace, remove)
    ensures Marked(lines, act, drop, replace, remove, done + {key})
  {
    hide Groups, Preamble, MappingKeys, BlockRange;
    forall i | 0 <= i < |Groups(lines)|
      ensures BlockMarked(lines, act, drop, replace, remove, done + {key}, i)
    {
      assert BlockMarked(lines, act, drop, replace, remove, done, i);
    }
  }

  lemma {:induction false} Unmarked(lines: seq<Line>, act: seq<string>, drop: seq<bool>, replace: Blocks,
                                    remove: set<string>)
    requires |act| == |drop| == |lines| + 2
    requires forall n | 0 <= n < |act| :: act[n] == "" && !drop[n]
    ensures Marked(lines, act, drop, replace, remove, {})
  {
    hide Groups, Preamble, MappingKeys, BlockRange;
    KeptPreamble(lines, Only(""));
    forall i | 0 <= i < |Groups(lines)|
      ensures BlockMarked(lines, act, drop, replace, remove, {}, i)
    {
      BlockBounds(lines, Only(Groups(lines)[i].Name()), i);
    }
  }

  // ------------------------------------------------------------------
  // What the marked lines come to

  ghost predicate AllMarked(lines: seq<Line>, act: seq<string>, drop: seq<bool>, replace: Blocks, remove: set<string>) {
    "" !in replace && |act| == |drop| == |lines| + 2
        && Marked(lines, act, drop, replace, remove, SetOf(NamesOf(Groups(lines))))
  }

  lemma {:induction false} MarksOfBlock(lines: seq<Line>, act: seq<string>, drop: seq<bool>, replace: Blocks,
                                        remove: set<string>, i: nat)
    requires AllMarked(lines, act, drop, replace, remove) && i < |Groups(lines)|
    ensures var groups, at := Groups(lines), MappingKeys(lines)[i].line;
            var k, end := groups[i].Name(), at + |groups[i].tail|;
            var to := end - |Leftover(groups[i], groups[i + 1..], Only(k))|;
            && 1 <= at <= to <= end <= |lines|
            && (act[at] in replace <==> k in replace && k !in SeenBefore(groups, i))
            && (act[at] in replace ==> act[at] == k)
            && (forall n | at < n <= end :: act[n] !in replace)
            && (forall n | at <= n <= end :: drop[n] <==> Touched(k, replace, remove) && n <= to)
  {
    hide Groups, MappingKeys, Leftover, Preamble;
    assert BlockMarked(lines, act, drop, replace, remove, SetOf(NamesOf(Groups(lines))), i);
    assert NamesOf(Groups(lines))[i] in SetOf(NamesOf(Groups(lines)));
  }

  lemma {:induction false} EmittedBlock(lines: seq<Line>, act: seq<string>, drop: seq<bool>, replace: Blocks,
                                        remove: set<string>, i: nat)
    requires AllMarked(lines, act, drop, replace, remove) && i < |Groups(lines)|
    ensures var groups, at := Groups(lines), MappingKeys(lines)[i].line;
            && 1 <= at <= at + |groups[i].tail| <= |lines|
            && Emitted(lines, act, drop, replace, at + |groups[i].tail|)
               == Emitted(lines, act, drop, replace, at - 1) + SplicedBlock(groups, replace, remove, i)
  {
    hide Groups, MappingKeys, Leftover, Marked, Emitted;
    var groups, at := Groups(lines), MappingKeys(lines)[i].line;
    var g := groups[i];
    var left := Leftover(g, groups[i + 1..], Only(g.Name()));
    var end := at + |g.tail|;
    MarksOfBlock(lines, act, drop, replace, remove, i);
    BlockPosition(lines, i);
    EmittedSpan(lines, act, drop, replace, at, end - |left|, end);
    assert lines[end - |left|..end] == lines[at..end][|g.tail| - |left|..];
    assert lines[at - 1..end] == [g.head] + g.tail;
  }

  lemma {:induction false} EmittedSpan(lines: seq<Line>, act: seq<string>, drop: seq<bool>, replace: Blocks, at: nat,
                                       to: nat, end: nat)
    requires 1 <= at <= to <= end <= |lines| && |act| == |drop| == |lines| + 2
    requires forall n | at < n <= end :: act[n] !in replace
    requires forall n | at <= n <= end :: drop[n] <==> drop[at] && n <= to
    ensures Emitted(lines, act, drop, replace, end)
            == Emitted(lines, act, drop, replace, at - 1)
               + ((if act[at] in replace then replace[act[at]] else [])
                  + (if drop[at] then lines[to..end] else lines[at - 1..end]))
  {
    if drop[at] {
      EmittedDrop(lines, act, drop, replace, at, to);
      EmittedRun(lines, act, drop, replace, to, end);
    } else {
      EmittedRun(lines, act, drop, replace, at, end);
      assert lines[at - 1..end] == [lines[at - 1]] + lines[at..end];
    }
  }

  lemma {:induction false} EmittedPreamble(lines: seq<Line>, act: seq<string>, drop: seq<bool>, replace: Blocks,
                                           remove: set<string>)
    requires AllMarked(lines, act, drop, replace, remove)
    ensures |Preamble(lines)| <= |lines|
    ensures Emitted(lines, act, drop, replace, |Preamble(lines)|) == Preamble(lines)
  {
    hide Groups, Preamble, BlockMarked;
    EmittedRun(lines, act, drop, replace, 0, |Preamble(lines)|);
    GroupsAreTheLines(lines);
    assert lines[0..|Preamble(lines)|] == Preamble(lines);
  }

  lemma {:induction false} EmittedBlocks(lines: seq<Line>, act: seq<string>, drop: seq<bool>, replace: Blocks,
                                         remove: set<string>, i: nat)
    requires AllMarked(lines, act, drop, replace, remove) && i <= |Groups(lines)|
    ensures var groups := Groups(lines);
            var start := if i < |groups| then MappingKeys(lines)[i].line - 1 else |lines|;
            && 0 <= start <= |lines|
            && Emitted(lines, act, drop, replace, start) == Preamble(lines) + SplicedUpTo(groups, replace, remove, i)
  {
    hide Groups, Preamble, MappingKeys, SplicedBlock, Emitted, Marked;
    var groups := Groups(lines);
    if i == 0 {
      KeptPreamble(lines, Only(""));
      EmittedPreamble(lines, act, drop, replace, remove);
    } else {
      EmittedBlocks(lines, act, drop, replace, remove, i - 1);
      EmittedBlock(lines, act, drop, replace, remove, i - 1);
      if i < |groups| {
        NextPosition(lines, i - 1);
      } else {
        BlockPosition(lines, i - 1);
      }
    }
  }

  /** Every line past the first key is in some block. */
  lemma {:induction false} BlockOfLine(lines: seq<Line>, n: nat, k: nat) returns (i: nat)
    requires |Preamble(lines)| < n <= |lines| && k < |Groups(lines)|
    requires n <= MappingKeys(lines)[k].line + |Groups(lines)[k].tail|
    ensures i < |Groups(lines)|
    ensures MappingKeys(lines)[i].line <= n <= MappingKeys(lines)[i].line + |Groups(lines)[i].tail|
  {
    hide Groups, Preamble, MappingKeys;
    if MappingKeys(lines)[k].line <= n {
      i := k;
    } else {
      KeptPreamble(lines, Only(""));
      NextPosition(lines, k - 1);
      i := BlockOfLine(lines, n, k - 1);
    }
  }

  /** A mark stands on the line of the first occurrence of its key. */
  lemma {:induction false} MarkAt(lines: seq<Line>, act: seq<string>, drop: seq<bool>, replace: Blocks,
                                  remove: set<string>, n: nat)
    returns (i: nat)
    requires AllMarked(lines, act, drop, replace, remove) && n <= |lines| && act[n] != ""
    ensures i < |Groups(lines)| && n == MappingKeys(lines)[i].line && act[n] == Groups(lines)[i].Name()
    ensures act[n] in replace && act[n] !in SeenBefore(Groups(lines), i)
  {
    hide Groups, Preamble, MappingKeys, BlockRange;
    var groups := Groups(lines);
    if groups == [] {
      KeptPreamble(lines, Only(""));
    }
    BlockPosition(lines, |groups| - 1);
    i := BlockOfLine(lines, n, |groups| - 1);
    assert BlockMarked(lines, act, drop, replace, remove, SetOf(NamesOf(groups)), i);
  }

  lemma {:induction false} MarksDiffer(lines: seq<Line>, act: seq<string>, drop: seq<bool>, replace: Blocks,
                                       remove: set<string>, n: nat, m: nat)
    requires AllMarked(lines, act, drop, replace, remove) && n < m <= |lines| && act[n] != ""
    ensures act[n] != act[m]
  {
    hide Groups, MappingKeys, Marked;
    if act[n] == act[m] {
      assert act[m] != "";
      var i := MarkAt(lines, act, drop, replace, remove, n);
      var j := MarkAt(lines, act, drop, replace, remove, m);
      SameFirst(Groups(lines), i, j);
    }
  }

  lemma {:induction false} SameFirst(groups: seq<Group>, i: nat, j: nat)
    requires i < |groups| && j < |groups| && groups[i].Name() == groups[j].Name()
    requires groups[i].Name() !in SeenBefore(groups, i) && groups[i].Name() !in SeenBefore(groups, j)
    ensures i == j
  {
    if i < j {
      SeenLater(groups, i, j);
    } else if j < i {
      SeenLater(groups, j, i);
    }
  }

  lemma {:induction false} SeenLater(groups: seq<Group>, i: nat, j: nat)
    requires i < j <= |groups|
    ensures groups[i].Name() in SeenBefore(groups, j)
  {
  }

  ghost function MarkedKeys(act: seq<string>, n: nat): set<string>
    requires n < |act|
  {
    set m | 0 <= m <= n && act[m] != "" :: act[m]
  }

  /** The keys written in place are the set keys the document carries. */
  lemma {:induction false} MarkedKeysArePresent(lines: seq<Line>, act: seq<string>, drop: seq<bool>, replace: Blocks,
                                                remove: set<string>)
    requires AllMarked(lines, act, drop, replace, remove)
    ensures MarkedKeys(act, |lines|) == replace.Keys * SetOf(NamesOf(Groups(lines)))
  {
    hide Groups, MappingKeys, Marked;
    var groups := Groups(lines);
    forall k | k in MarkedKeys(act, |lines|)
      ensures k in replace.Keys * SetOf(NamesOf(groups))
    {
      var m :| 0 <= m <= |lines| && act[m] != "" && act[m] == k;
      var i := MarkAt(lines, act, drop, replace, remove, m);
      assert NamesOf(groups)[i] == k;
    }
    forall k | k in replace.Keys * SetOf(NamesOf(groups))
      ensures k in MarkedKeys(act, |lines|)
    {
      PresentIsMarked(lines, act, drop, replace, remove, k);
    }
  }

  lemma {:induction false} PresentIsMarked(lines: seq<Line>, act: seq<string>, drop: seq<bool>, replace: Blocks,
                                           remove: set<string>, k: string)
    requires AllMarked(lines, act, drop, replace, remove)
    requires k in replace && k in NamesOf(Groups(lines))
    ensures k in MarkedKeys(act, |lines|)
  {
    hide Groups, MappingKeys, BlockRange;
    var groups := Groups(lines);
    var at :| 0 <= at < |groups| && NamesOf(groups)[at] == k;
    SeenLater(groups, at, |groups|);
    var i := FirstOccurrence(groups, k, |groups|);
    assert BlockMarked(lines, act, drop, replace, remove, SetOf(NamesOf(groups)), i);
    assert act[MappingKeys(lines)[i].line] == k;
  }

  // ------------------------------------------------------------------
  // spliceKeys

  lemma {:induction false} RangesFit(lines: seq<Line>, key: string)
    ensures forall i | 0 <= i < |RangesUpTo(lines, Only(key), |Groups(lines)|)| ::
              var r := RangesUpTo(lines, Only(key), |Groups(lines)|)[i]; r.from <= r.to <= |lines|
  {
    RangesBound(lines, Only(key), |Groups(lines)|);
  }

  /** One turn of the marking loop. */
  method MarkKey(lines: seq<Line>, act: array<string>, drop: array<bool>, replace: Blocks, key: string,
                 ghost remove: set<string>, ghost done: set<string>)
    requires act.Length == drop.Length == |lines| + 2
    requires key in NamesOf(Groups(lines)) && Touched(key, replace, remove)
    requires Marked(lines, act[..], drop[..], replace, remove, done)
    modifies act, drop
    ensures Marked(lines, act[..], drop[..], replace, remove, done + {key})
  {
    hide Groups, Preamble, RangesUpTo, BlockMarked, Covered;
    ghost var act0, drop0 := act[..], drop[..];
    var ranges := OwnedKeyRanges(lines, Only(key));
    RangesFit(lines, key);
    MarkRanges(act, drop, ranges, key, key in replace);
    assert MarksAdded(act0, drop0, act[..], drop[..], ranges, key, key in replace);
    MarkedMore(lines, act0, drop0, act[..], drop[..], replace, remove, done, key);
  }

  /** The marking loop over the keys the parser reported. */
  method MarkKeys(lines: seq<Line>, act: array<string>, drop: array<bool>, present: seq<string>,
                  replace: Blocks, remove: set<string>)
    requires act.Length == drop.Length == |lines| + 2
    requires present == NamesOf(Groups(lines)) && "" !in replace
    requires forall n | 0 <= n < act.Length :: act[n] == "" && !drop[n]
    modifies act, drop
    ensures AllMarked(lines, act[..], drop[..], replace, remove)
  {
    hide Groups, Preamble, Marked;
    Unmarked(lines, act[..], drop[..], replace, remove);
    assert SetOf(present[..0]) == {};
    for j := 0 to |present|
      invariant Marked(lines, act[..], drop[..], replace, remove, SetOf(present[..j]))
    {
      assert SetOf(present[..j + 1]) == SetOf(present[..j]) + {present[j]};
      if !(present[j] in replace) && !(present[j] in remove) {
        MarkedAnyway(lines, act[..], drop[..], replace, remove, SetOf(present[..j]), present[j]);
        continue;
      }
      MarkKey(lines, act, drop, replace, present[j], remove, SetOf(present[..j]));
    }
    assert present[..|present|] == present;
  }

  /** The copying loop. A key leaves `replace` once its block is written. */
  method EmitMarked(lines: seq<Line>, act: array<string>, drop: array<bool>, replace0: Blocks,
                    ghost remove: set<string>)
    returns (kept: seq<Line>, replace: Blocks)
    requires act.Length == drop.Length == |lines| + 2
    requires AllMarked(lines, act[..], drop[..], replace0, remove)
    ensures kept == Emitted(lines, act[..], drop[..], replace0, |lines|)
    ensures replace == replace0 - MarkedKeys(act[..], |lines|)
  {
    hide Groups, Preamble, Marked;
    ghost var marks, drops := act[..], drop[..];
    kept, replace := [], replace0;
    assert marks[0] == "" by {
      if marks[0] != "" {
        var i := MarkAt(lines, marks, drops, replace0, remove, 0);
        BlockPosition(lines, i);
      }
    }
    assert MarkedKeys(marks, 0) == {};
    for i := 0 to |lines|
      invariant kept == Emitted(lines, marks, drops, replace0, i)
      invariant replace == replace0 - MarkedKeys(marks, i)
    {
      var key := act[i + 1];
      assert MarkedKeys(marks, i + 1) == MarkedKeys(marks, i) + (if key != "" then {key} else {});
      if key != "" {
        var at := MarkAt(lines, marks, drops, replace0, remove, i + 1);
        NotYetWritten(lines, marks, drops, replace0, remove, i + 1);
        kept := kept + replace[key];
        replace := replace - {key};
      }
      if !drop[i + 1] {
        kept := kept + [lines[i]];
      }
    }
  }

  lemma {:induction false} NotYetWritten(lines: seq<Line>, act: seq<string>, drop: seq<bool>, replace: Blocks,
                                         remove: set<string>, m: nat)
    requires AllMarked(lines, act, drop, replace, remove) && 0 < m <= |lines| && act[m] != ""
    ensures act[m] !in MarkedKeys(act, m - 1)
  {
    hide Groups, Marked;
    if act[m] in MarkedKeys(act, m - 1) {
      var n :| 0 <= n <= m - 1 && act[n] != "" && act[n] == act[m];
      MarksDiffer(lines, act, drop, replace, remove, n, m);
    }
  }

  /** internal/okf/frontmatter.go:176-236, over the lines of the frontmatter. */
  method SpliceKeys(lines: seq<Line>, present: seq<string>, replace0: Blocks, remove: set<string>)
    returns (kept: seq<Line>)
    requires present == NamesOf(Groups(lines)) && "" !in replace0
    ensures kept == Spliced(lines, replace0, remove)
  {
    hide Groups, Preamble, Marked, Emitted, SplicedUpTo, NewBlocks;
    var act := new string[|lines| + 2](_ => "");
    var drop := new bool[|lines| + 2](_ => false);
    MarkKeys(lines, act, drop, present, replace0, remove);
    var replace;
    kept, replace := EmitMarked(lines, act, drop, replace0, remove);
    EmittedBlocks(lines, act[..], drop[..], replace0, remove, |Groups(lines)|);
    MarkedKeysArePresent(lines, act[..], drop[..], replace0, remove);
    assert replace == replace0 - SetOf(present);
    var more := AppendNew(replace);
    kept := kept + more;
  }

  method AppendNew(replace: Blocks) returns (more: seq<Line>)
    ensures more == NewBlocks(replace)
  {
    var keys := SortStrings(replace.Keys);
    hide SortedStrings, BlocksFor;
    NoBlocks(keys, replace);
    more := [];
    for j := 0 to |keys|
      invariant more == BlocksFor(keys, replace, j)
    {
      BlocksStep(keys, replace, j);
      more := more + replace[keys[j]];
    }
  }

  lemma {:induction false} NoBlocks(keys: seq<string>, replace: Blocks)
    requires forall k | k in keys :: k in replace
    ensures BlocksFor(keys, replace, 0) == []
  {
  }

  lemma {:induction false} BlocksStep(keys: seq<string>, replace: Blocks, j: nat)
    requires j < |keys| && forall k | k in keys :: k in replace
    ensures keys[j] in replace && BlocksFor(keys, replace, j + 1) == BlocksFor(keys, replace, j) + replace[keys[j]]
  {
    assert keys[j] in keys;
  }
}
