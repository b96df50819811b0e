/** What a fenced code block does to the links of a body and to their rewrite, said in
    the marks themselves (internal/domain/links.go:36-37, 124-141, 203-226). */
module LinkFences {
  import opened Text
  import opened LinkScan
  import opened LinkRead
  import opened LinkRewrite
  import opened LinkMeaning
  import opened LinkBody

  predicate IsMark(mark: string) {
    mark == "```" || mark == "~~~"
  }

  /** At most three white-space characters, then the mark. */
  predicate OpenedBy(line: string, mark: string) {
    exists i :: 0 <= i <= 3 && MarkAt(line, mark, i)
  }

  predicate MarkAt(line: string, mark: string, i: nat) {
    && i + 3 <= |line| && line[i..i + 3] == mark
    && forall k | 0 <= k < i :: line[k] in [' ', '\t', '\n', '\r', '\U{000C}']
  }

  /** The line, trimmed, starts with the mark. */
  predicate StartsWith(line: string, mark: string) {
    mark <= TrimSpace(line)
  }

  predicate NoFence(lines: seq<string>) {
    forall line | line in lines :: !OpenedBy(line, "```") && !OpenedBy(line, "~~~")
  }

  predicate Lines(lines: seq<string>) {
    forall line | line in lines :: '\n' !in line
  }

  function BodyOf(lines: seq<string>): string {
    Join(lines, "\n")
  }

  /** A fenced block as it stands in a body. */
  function Block(open: string, code: seq<string>, close: string): seq<string> {
    [open] + code + [close]
  }

  predicate IsBlock(open: string, code: seq<string>, close: string, mark: string) {
    && IsMark(mark) && OpenedBy(open, mark) && StartsWith(close, mark)
    && forall line | line in code :: !StartsWith(line, mark)
  }

  // ------------------------------------------------------------------
  // The expression for fences finds the marks

  lemma {:induction false} MarkIsFound(line: string, mark: string, i: nat, j: nat)
    requires IsMark(mark) && j <= i <= 3 && MarkAt(line, mark, i)
    ensures OpensAt(line, j) == mark
    decreases i - j
  {
    if j < i {
      assert line[j] in [' ', '\t', '\n', '\r', '\U{000C}'];
      assert j + 3 <= |line| ==> line[j..j + 3][0] == line[j];
      MarkIsFound(line, mark, i, j + 1);
    }
  }

  lemma {:induction false} FoundIsMark(line: string, j: nat)
    requires j <= 3 && OpensAt(line, j) != "" && forall k | 0 <= k < j :: line[k] in [' ', '\t', '\n', '\r', '\U{000C}']
    requires j <= |line|
    ensures IsMark(OpensAt(line, j)) && OpenedBy(line, OpensAt(line, j))
    decreases 3 - j
  {
    if j + 3 <= |line| && (line[j..j + 3] == "```" || line[j..j + 3] == "~~~") {
      assert MarkAt(line, line[j..j + 3], j);
    } else {
      FoundIsMark(line, j + 1);
    }
  }

  lemma {:induction false} OpensExactly(line: string)
    ensures forall mark | IsMark(mark) :: OpenedBy(line, mark) <==> Opens(line) == mark
    ensures Opens(line) == "" || IsMark(Opens(line))
  {
    hide MarkAt, OpensAt;
    forall mark | IsMark(mark)
      ensures OpenedBy(line, mark) <==> Opens(line) == mark
    {
      if OpenedBy(line, mark) {
        var i :| 0 <= i <= 3 && MarkAt(line, mark, i);
        MarkIsFound(line, mark, i, 0);
      }
      if Opens(line) == mark {
        FoundIsMark(line, 0);
      }
    }
    if Opens(line) != "" {
      FoundIsMark(line, 0);
    }
  }

  // ------------------------------------------------------------------
  // The walk through a block

  /** The fence after some lines, entered with a fence open or not. */
  function Through(fence: string, lines: seq<string>): string {
    if lines == [] then fence else FenceAfter(Through(fence, lines[..|lines| - 1]), lines[|lines| - 1])
  }

  lemma {:induction false} ThroughConcat(fence: string, a: seq<string>, b: seq<string>)
    ensures Through(fence, a + b) == Through(Through(fence, a), b)
  {
    hide FenceAfter;
    if b == [] {
      assert a + b == a;
    } else {
      var front, last := b[..|b| - 1], b[|b| - 1];
      ThroughConcat(fence, a, front);
      assert (a + b)[..|a + b| - 1] == a + front && (a + b)[|a + b| - 1] == last;
    }
  }

  lemma {:induction false} ThroughIsBefore(lines: seq<string>, n: nat)
    requires n <= |lines|
    ensures FenceBefore(lines, n) == Through("", lines[..n])
  {
    hide FenceAfter;
    if n > 0 {
      ThroughIsBefore(lines, n - 1);
      assert lines[..n][..n - 1] == lines[..n - 1];
    }
  }

  lemma {:induction false} ProseOpensNothing(lines: seq<string>)
    requires NoFence(lines)
    ensures Through("", lines) == ""
  {
    hide Opens, OpenedBy;
    if lines != [] {
      var front, last := lines[..|lines| - 1], lines[|lines| - 1];
      assert last in lines;
      assert forall line | line in front :: line in lines;
      ProseOpensNothing(front);
      OpensExactly(last);
      assert IsMark("```") && IsMark("~~~");
    }
  }

  lemma {:induction false} CodeStaysOpen(mark: string, code: seq<string>)
    requires IsMark(mark) && forall line | line in code :: !StartsWith(line, mark)
    ensures Through(mark, code) == mark
  {
    hide Opens, TrimSpace;
    if code != [] {
      var front, last := code[..|code| - 1], code[|code| - 1];
      assert last in code;
      assert forall line | line in front :: line in code;
      CodeStaysOpen(mark, front);
    }
  }

  lemma {:induction false} BlockCloses(open: string, code: seq<string>, close: string, mark: string)
    requires IsBlock(open, code, close, mark)
    ensures Through("", Block(open, code, close)) == ""
    ensures forall n | 0 < n <= 1 + |code| :: Through("", Block(open, code, close)[..n]) == mark
    ensures Opens(open) == mark
  {
    hide Opens, TrimSpace, OpenedBy;
    OpensExactly(open);
    var block := Block(open, code, close);
    forall n | 0 < n <= 1 + |code|
      ensures Through("", block[..n]) == mark
    {
      assert block[..n] == [open] + code[..n - 1];
      ThroughConcat("", [open], code[..n - 1]);
      assert [open][..0] == [];
      assert Through("", []) == "" && Through("", [open]) == mark;
      assert forall line | line in code[..n - 1] :: line in code;
      CodeStaysOpen(mark, code[..n - 1]);
    }
    assert block[..1 + |code|] == block[..|block| - 1];
    assert block[|block| - 1] == close;
  }

  // ------------------------------------------------------------------
  // Lines that follow closed ones

  lemma {:induction false} Later(a: seq<string>, b: seq<string>, i: nat)
    requires Through("", a) == "" && i <= |b|
    ensures FenceBefore(a + b, |a| + i) == FenceBefore(b, i)
    ensures i < |b| ==> (IsProse(a + b, |a| + i) <==> IsProse(b, i))
  {
    hide FenceAfter, Opens;
    ThroughIsBefore(a + b, |a| + i);
    ThroughIsBefore(b, i);
    assert (a + b)[..|a| + i] == a + b[..i];
    ThroughConcat("", a, b[..i]);
  }

  lemma {:induction false} Earlier(a: seq<string>, b: seq<string>, i: nat)
    requires i < |a|
    ensures IsProse(a + b, i) <==> IsProse(a, i)
  {
    hide FenceAfter, Opens;
    ThroughIsBefore(a + b, i);
    ThroughIsBefore(a, i);
    assert (a + b)[..i] == a[..i];
  }

  lemma {:induction false} FoundEarlier(a: seq<string>, b: seq<string>, n: nat)
    requires n <= |a|
    ensures FoundUpTo(a + b, n) == FoundUpTo(a, n)
  {
    hide IsProse, ReadLine;
    if n > 0 {
      FoundEarlier(a, b, n - 1);
      Earlier(a, b, n - 1);
    }
  }

  lemma {:induction false} FoundStep(lines: seq<string>, n: nat)
    requires 0 < n <= |lines|
    ensures FoundUpTo(lines, n) == FoundUpTo(lines, n - 1) + FoundOn(lines, n - 1)
  {
    hide FoundOn;
  }

  lemma {:induction false} NoneUpTo(lines: seq<string>)
    ensures FoundUpTo(lines, 0) == []
  {
  }

  lemma {:induction false} FoundOnLater(a: seq<string>, b: seq<string>, i: nat)
    requires Through("", a) == "" && i < |b|
    ensures FoundOn(a + b, |a| + i) == FoundOn(b, i)
  {
    hide ReadLine, IsProse, Through;
    Later(a, b, i);
    assert (a + b)[|a| + i] == b[i];
  }

  lemma {:induction false} FoundLater(a: seq<string>, b: seq<string>, n: nat)
    requires n <= |b| && Through("", a) == ""
    ensures FoundUpTo(a + b, |a| + n) == FoundUpTo(a, |a|) + FoundUpTo(b, n)
  {
    hide *;
    if n == 0 {
      FoundEarlier(a, b, |a|);
      NoneUpTo(b);
      assert FoundUpTo(a, |a|) + [] == FoundUpTo(a, |a|);
    } else {
      FoundLater(a, b, n - 1);
      FoundOnLater(a, b, n - 1);
      FoundStep(a + b, |a| + n);
      FoundStep(b, n);
      var x, y, z := FoundUpTo(a, |a|), FoundUpTo(b, n - 1), FoundOn(b, n - 1);
      assert x + y + z == x + (y + z);
    }
  }

  /** Closed lines, then others: the links of the one, then of the other. */
  lemma {:induction false} FoundApart(a: seq<string>, b: seq<string>)
    requires Through("", a) == ""
    ensures FoundUpTo(a + b, |a + b|) == FoundUpTo(a, |a|) + FoundUpTo(b, |b|)
  {
    hide *;
    FoundLater(a, b, |b|);
  }

  lemma {:induction false} RewrittenEarlier(a: seq<string>, b: seq<string>, f: Rewriter, n: nat)
    requires n <= |a|
    ensures LinesUpTo(a + b, f, n) == LinesUpTo(a, f, n)
  {
    hide IsProse, Rewritten;
    if n > 0 {
      RewrittenEarlier(a, b, f, n - 1);
      Earlier(a, b, n - 1);
    }
  }

  lemma {:induction false} LineLater(a: seq<string>, b: seq<string>, f: Rewriter, i: nat)
    requires Through("", a) == "" && i < |b|
    ensures LineOf(a + b, f, |a| + i) == LineOf(b, f, i)
  {
    hide Rewritten, IsProse, Through;
    Later(a, b, i);
    assert (a + b)[|a| + i] == b[i];
  }

  lemma {:induction false} LinesStep(lines: seq<string>, f: Rewriter, n: nat)
    requires 0 < n <= |lines|
    ensures LinesUpTo(lines, f, n) == LinesUpTo(lines, f, n - 1) + [LineOf(lines, f, n - 1)]
  {
    hide LineOf;
  }

  lemma {:induction false} NoLinesUpTo(lines: seq<string>, f: Rewriter)
    ensures LinesUpTo(lines, f, 0) == []
  {
  }

  lemma {:induction false} RewrittenLater(a: seq<string>, b: seq<string>, f: Rewriter, n: nat)
    requires n <= |b| && Through("", a) == ""
    ensures LinesUpTo(a + b, f, |a| + n) == LinesUpTo(a, f, |a|) + LinesUpTo(b, f, n)
  {
    hide *;
    if n == 0 {
      RewrittenEarlier(a, b, f, |a|);
      NoLinesUpTo(b, f);
      assert LinesUpTo(a, f, |a|) + [] == LinesUpTo(a, f, |a|);
    } else {
      RewrittenLater(a, b, f, n - 1);
      LineLater(a, b, f, n - 1);
      LinesStep(a + b, f, |a| + n);
      LinesStep(b, f, n);
      var x, y, z := LinesUpTo(a, f, |a|), LinesUpTo(b, f, n - 1), [LineOf(b, f, n - 1)];
      assert x + y + z == x + (y + z);
    }
  }

  // ------------------------------------------------------------------
  // The block itself

  lemma {:induction false} BlockIsNoProse(open: string, code: seq<string>, close: string, mark: string, i: nat)
    requires IsBlock(open, code, close, mark) && i < |Block(open, code, close)|
    ensures !IsProse(Block(open, code, close), i)
  {
    var block := Block(open, code, close);
    BlockCloses(open, code, close, mark);
    hide Opens, IsBlock, Block, OpenedBy, TrimSpace;
    ThroughIsBefore(block, i);
    BlockParts(open, code, close);
    if i == 0 {
      assert block[..0] == [];
    }
  }

  lemma {:induction false} BlockParts(open: string, code: seq<string>, close: string)
    ensures |Block(open, code, close)| == |code| + 2 && Block(open, code, close)[0] == open
  {
  }

  lemma {:induction false} NothingOnBlock(open: string, code: seq<string>, close: string, mark: string, f: Rewriter,
                                          n: nat)
    requires IsBlock(open, code, close, mark) && n <= |Block(open, code, close)|
    ensures FoundUpTo(Block(open, code, close), n) == []
    ensures LinesUpTo(Block(open, code, close), f, n) == Block(open, code, close)[..n]
  {
    hide IsProse, ReadLine, Rewritten, IsBlock, Block;
    if n > 0 {
      NothingOnBlock(open, code, close, mark, f, n - 1);
      BlockIsNoProse(open, code, close, mark, n - 1);
      var block := Block(open, code, close);
      assert block[..n] == block[..n - 1] + [block[n - 1]];
    }
  }

  // ------------------------------------------------------------------
  // Lines and bodies

  lemma {:induction false} SplitOfBody(lines: seq<string>)
    requires Lines(lines)
    ensures lines != [] ==> Split(BodyOf(lines), '\n') == lines
    ensures FoundInBody(BodyOf(lines)) == FoundUpTo(lines, |lines|)
  {
    hide IsProse, ReadLine, Split;
    assert "\n" == ['\n'];
    if lines != [] {
      SplitOfJoin(lines, '\n');
    } else {
      NoLinksInNothing();
    }
  }

  lemma {:induction false} NoLinksInNothing()
    ensures FoundInBody("") == []
  {
    assert Split("", '\n') == [""];
    assert FoundUpTo([""], 0) == [];
    assert Blanked("", 0, 0) == "";
    assert ReadLine("") == [];
    assert FoundUpTo([""], 1) == [] + FoundOn([""], 0);
  }

  lemma {:induction false} LinesConcat(a: seq<string>, b: seq<string>)
    requires Lines(a + b)
    ensures Lines(a) && Lines(b)
  {
    assert forall line | line in a :: line in a + b;
    assert forall line | line in b :: line in a + b;
  }

  // ------------------------------------------------------------------
  // What a fenced block does

  /** Before the first fence every line is read on its own. */
  lemma {:induction false} ProseIsRead(lines: seq<string>, n: nat)
    requires NoFence(lines) && n < |lines|
    ensures FoundUpTo(lines, n + 1) == FoundUpTo(lines, n) + ReadLine(lines[n])
    ensures forall f: Rewriter :: LineOf(lines, f, n) == Rewritten(lines[n], f)
  {
    hide ReadLine, Opens, OpenedBy, Rewritten;
    ThroughIsBefore(lines, n);
    assert forall line | line in lines[..n] :: line in lines;
    ProseOpensNothing(lines[..n]);
    OpensExactly(lines[n]);
    assert lines[n] in lines && IsMark("```") && IsMark("~~~");
  }

  /** A fenced block hides what stands in it and nothing else: the links of the body are
      those of the lines before it, then those of the lines after it. */
  lemma {:induction false} LinksAroundBlock(
    pre: seq<string>, open: string, code: seq<string>, close: string, post: seq<string>, mark: string)
    requires NoFence(pre) && IsBlock(open, code, close, mark) && Lines(pre + (Block(open, code, close) + post))
    ensures FoundInBody(BodyOf(pre + (Block(open, code, close) + post)))
            == FoundInBody(BodyOf(pre)) + FoundInBody(BodyOf(post))
  {
    var block := Block(open, code, close);
    ProseOpensNothing(pre);
    BlockCloses(open, code, close, mark);
    NothingOnBlock(open, code, close, mark, target => target, |block|);
    hide *;
    LinesConcat(pre, block + post);
    LinesConcat(block, post);
    SplitOfBody(pre + (block + post));
    SplitOfBody(pre);
    SplitOfBody(post);
    FoundApart(pre, block + post);
    FoundApart(block, post);
    assert [] + FoundUpTo(post, |post|) == FoundUpTo(post, |post|);
  }

  /** A fence that is not closed hides the rest. */
  lemma {:induction false} LinksBeforeOpenBlock(pre: seq<string>, open: string, code: seq<string>, mark: string)
    requires NoFence(pre) && IsMark(mark) && OpenedBy(open, mark) && Lines(pre + ([open] + code))
    requires forall line | line in code :: !StartsWith(line, mark)
    ensures FoundInBody(BodyOf(pre + ([open] + code))) == FoundInBody(BodyOf(pre))
  {
    ProseOpensNothing(pre);
    OpenBlockIsSilent(open, code, mark);
    hide *;
    LinesConcat(pre, [open] + code);
    SplitOfBody(pre + ([open] + code));
    SplitOfBody(pre);
    FoundApart(pre, [open] + code);
    assert FoundUpTo(pre, |pre|) + [] == FoundUpTo(pre, |pre|);
  }

  lemma {:induction false} OpenBlockIsSilent(open: string, code: seq<string>, mark: string)
    requires IsMark(mark) && OpenedBy(open, mark) && forall line | line in code :: !StartsWith(line, mark)
    ensures FoundUpTo([open] + code, |[open] + code|) == []
  {
    hide OpenedBy, TrimSpace, ReadLine, IsProse, Opens;
    var close := mark;
    MarkStartsItself(mark);
    var block := Block(open, code, close);
    NothingOnBlock(open, code, close, mark, target => target, 1 + |code|);
    assert block == ([open] + code) + [close];
    FoundEarlier([open] + code, [close], 1 + |code|);
  }

  lemma {:induction false} MarkStartsItself(mark: string)
    requires IsMark(mark)
    ensures StartsWith(mark, mark)
  {
    MarksAreSolid();
    hide IsSpace, TrimSpace;
    SolidEnds(mark);
  }

  lemma {:induction false} MarksAreSolid()
    ensures !IsSpace('`') && !IsSpace('~')
  {
  }

  /** The lines of a body once it is rewritten, as the text of a body of its own; no
      lines leave none. */
  function RewrittenPart(lines: seq<string>, f: Rewriter): seq<string> {
    if lines == [] then [] else [RewrittenBody(BodyOf(lines), f)]
  }

  lemma {:induction false} PartIs(lines: seq<string>, f: Rewriter)
    requires Lines(lines) && lines != []
    ensures RewrittenBody(BodyOf(lines), f) == BodyOf(LinesUpTo(lines, f, |lines|))
  {
    hide Rewritten, IsProse;
    SplitOfBody(lines);
  }

  /** Joining in parts. */
  lemma {:induction false} JoinParts(a: seq<string>, b: seq<string>, c: seq<string>)
    requires b != []
    ensures Join(a + (b + c), "\n")
            == Join((if a == [] then [] else [Join(a, "\n")]) + (b + if c == [] then [] else [Join(c, "\n")]), "\n")
  {
    hide Join;
    var right := b + if c == [] then [] else [Join(c, "\n")];
    if c != [] {
      JoinOfConcat(b, c, "\n");
      JoinOfConcat(b, [Join(c, "\n")], "\n");
      JoinOne(Join(c, "\n"));
    } else {
      assert b + c == right;
    }
    if a != [] {
      JoinOfConcat(a, b + c, "\n");
      JoinOfConcat([Join(a, "\n")], right, "\n");
      JoinOne(Join(a, "\n"));
    } else {
      assert a + (b + c) == b + c && [] + right == right;
    }
  }

  lemma {:induction false} JoinOne(s: string)
    ensures Join([s], "\n") == s
  {
  }

  /** The rewrite leaves a fenced block as it is, and rewrites what stands before and what
      stands after it as bodies of their own. */
  lemma {:induction false} RewriteAroundBlock(
    pre: seq<string>, open: string, code: seq<string>, close: string, post: seq<string>, mark: string, f: Rewriter)
    requires NoFence(pre) && IsBlock(open, code, close, mark) && Lines(pre + (Block(open, code, close) + post))
    ensures var block := Block(open, code, close);
            RewrittenBody(BodyOf(pre + (block + post)), f)
            == BodyOf(RewrittenPart(pre, f) + (block + RewrittenPart(post, f)))
  {
    hide *;
    var block := Block(open, code, close);
    BlockParts(open, code, close);
    ProseOpensNothing(pre);
    BlockCloses(open, code, close, mark);
    NothingOnBlock(open, code, close, mark, f, |block|);
    assert block[..|block|] == block;
    LinesConcat(pre, block + post);
    LinesConcat(block, post);
    var whole := pre + (block + post);
    PartIs(whole, f);
    RewrittenLater(pre, block + post, f, |block + post|);
    RewrittenLater(block, post, f, |post|);
    assert |pre| + |block + post| == |whole| && |block| + |post| == |block + post|;
    Parts(pre, f);
    Parts(post, f);
    BodyIs(LinesUpTo(whole, f, |whole|));
    JoinParts(LinesUpTo(pre, f, |pre|), block, LinesUpTo(post, f, |post|));
    BodyIs(RewrittenPart(pre, f) + (block + RewrittenPart(post, f)));
  }

  lemma {:induction false} BodyIs(lines: seq<string>)
    ensures BodyOf(lines) == Join(lines, "\n")
  {
  }

  lemma {:induction false} Parts(lines: seq<string>, f: Rewriter)
    requires Lines(lines)
    ensures var r := LinesUpTo(lines, f, |lines|);
            (r == [] <==> lines == []) && RewrittenPart(lines, f) == if r == [] then [] else [Join(r, "\n")]
  {
    hide LinesUpTo, RewrittenBody, Lines, Join;
    if lines != [] {
      PartIs(lines, f);
    }
  }

  /** A block of code in either mark. */
  lemma {:induction false} CodeIsBlock(mark: string)
    requires IsMark(mark)
    ensures IsBlock(mark, ["code"], mark, mark)
  {
    hide OpenedBy, StartsWith;
    MarkStartsItself(mark);
    MarkOpensItself(mark);
    CodeStartsNothing(mark);
  }

  lemma {:induction false} MarkOpensItself(mark: string)
    requires IsMark(mark)
    ensures OpenedBy(mark, mark)
  {
    assert mark[0..3] == mark;
    assert MarkAt(mark, mark, 0);
  }

  lemma {:induction false} CodeStartsNothing(mark: string)
    requires IsMark(mark)
    ensures !StartsWith("code", mark)
  {
    CodeIsSolid();
    hide IsSpace, TrimSpace;
    SolidEnds("code");
    assert "code"[0] == 'c' && mark[0] != 'c';
  }

  lemma {:induction false} CodeIsSolid()
    ensures !IsSpace('c') && !IsSpace('e')
  {
  }
}
