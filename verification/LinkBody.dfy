/** Bodies: fenced code blocks, the prose between them, and the rewrite of every
    link in the prose (proseLines and rewriteBody of internal/domain/links.go). */
module LinkBody {
  import opened Text
  import opened Edits
  import opened LinkScan
  import opened LinkEdit
  import opened LinkApart
  import opened LinkRead
  import opened LinkRewrite
  import opened LinkMeaning

  // ------------------------------------------------------------------
  // Fences

  /** `\s` of the expressions. */
  predicate ReSpace(c: char) {
    c == ' ' || c == '\t' || c == '\n' || c == '\r' || c == '\U{000C}'
  }

  /** The fence a line opens with, after at most three spaces; "" for none. */
  function OpensAt(line: string, i: nat): string
    requires i <= 3
    decreases 3 - i
  {
    if i + 3 <= |line| && (line[i..i + 3] == "```" || line[i..i + 3] == "~~~") then line[i..i + 3]
    else if i < 3 && i < |line| && ReSpace(line[i]) then OpensAt(line, i + 1)
    else ""
  }

  function Opens(line: string): string {
    OpensAt(line, 0)
  }

  predicate Closes(line: string, fence: string) {
    fence <= TrimSpace(line)
  }

  /** The fence that is open after a line. */
  function FenceAfter(fence: string, line: string): string {
    if fence != "" then (if Closes(line, fence) then "" else fence) else Opens(line)
  }

  /** The fence that is open before the i-th line. */
  function FenceBefore(lines: seq<string>, i: nat): string
    requires i <= |lines|
  {
    if i == 0 then "" else FenceAfter(FenceBefore(lines, i - 1), lines[i - 1])
  }

  /** Prose: outside every fence, and no fence line itself. */
  predicate IsProse(lines: seq<string>, i: nat)
    requires i < |lines|
  {
    FenceBefore(lines, i) == "" && Opens(lines[i]) == ""
  }

  // ------------------------------------------------------------------
  // The two walks over a body

  function ProseUpTo(lines: seq<string>, n: nat): seq<string>
    requires n <= |lines|
  {
    if n == 0 then []
    else ProseUpTo(lines, n - 1)
         + if IsProse(lines, n - 1) then [Blanked(lines[n - 1], 0, |lines[n - 1]|)] else []
  }

  method ProseLines(body: string) returns (out: seq<string>)
    ensures out == ProseUpTo(Split(body, '\n'), |Split(body, '\n')|)
  {
    hide Blanked, Opens, Closes;
    var lines := Split(body, '\n');
    out := [];
    var fence := "";
    for i := 0 to |lines|
      invariant fence == FenceBefore(lines, i) && out == ProseUpTo(lines, i)
    {
      var line := lines[i];
      if fence != "" {
        if Closes(line, fence) {
          fence := "";
        }
      } else if Opens(line) != "" {
        fence := Opens(line);
      } else {
        out := out + [Blanked(line, 0, |line|)];
      }
    }
  }

  function LineOf(lines: seq<string>, f: Rewriter, i: nat): string
    requires i < |lines|
  {
    if IsProse(lines, i) then Rewritten(lines[i], f) else lines[i]
  }

  function LinesUpTo(lines: seq<string>, f: Rewriter, n: nat): (r: seq<string>)
    requires n <= |lines|
    ensures |r| == n
  {
    if n == 0 then [] else LinesUpTo(lines, f, n - 1) + [LineOf(lines, f, n - 1)]
  }

  function RewrittenBody(body: string, f: Rewriter): string {
    Join(LinesUpTo(Split(body, '\n'), f, |Split(body, '\n')|), "\n")
  }

  method RewriteBody(body: string, f: Rewriter) returns (r: string)
    ensures r == RewrittenBody(body, f)
  {
    hide Rewritten, Opens, Closes;
    if body == "" {
      EmptyBody(f);
      return body;
    }
    var lines := Split(body, '\n');
    r := "";
    var fence := "";
    for i := 0 to |lines|
      invariant fence == FenceBefore(lines, i) && r == Join(LinesUpTo(lines, f, i), "\n")
    {
      var line := lines[i];
      if i > 0 {
        r := r + "\n";
      }
      if fence != "" {
        if Closes(line, fence) {
          fence := "";
        }
      } else if Opens(line) != "" {
        fence := Opens(line);
      } else {
        line := RewriteLine(line, f);
      }
      r := r + line;
      JoinOneMore(LinesUpTo(lines, f, i), line);
    }
  }

  lemma {:induction false} JoinOneMore(parts: seq<string>, last: string)
    ensures Join(parts + [last], "\n") == if parts == [] then last else Join(parts, "\n") + "\n" + last
  {
    if parts == [] {
      assert [] + [last] == [last];
    } else {
      JoinOfConcat(parts, [last], "\n");
    }
  }

  lemma {:induction false} EmptyBody(f: Rewriter)
    ensures RewrittenBody("", f) == ""
  {
    assert Scan("", 0) == [];
    LineWithoutLinks("", f);
    assert Split("", '\n') == [""];
    assert LinesUpTo([""], f, 1) == [""];
  }

  // ------------------------------------------------------------------
  // A rewrite moves no line into a fence or out of one

  /** The first edit of a line is to the right of a link's bracket. */
  lemma {:induction false} FirstEdit(s: string, f: Rewriter, k: nat) returns (m: Match)
    requires k <= |Scan(s, 0)| && EditsFrom(s, Scan(s, 0), f, k) != []
    ensures Shaped(s, m) && s[m.Bracket()] == '[' && EditsFrom(s, Scan(s, 0), f, k)[0].lo == m.lo
    decreases |Scan(s, 0)| - k
  {
    hide Scan, EditOf, Rewrites;
    m := Scan(s, 0)[k];
    ScanMatches(s, 0, k);
    ScanShaped(s, k);
    MatchIsLink(s, m.start);
    LinkParts(s, m.Bracket());
    EditOfIs(s, m, f);
    if EditOf(s, m, f) == [] {
      var rest := EditsFrom(s, Scan(s, 0), f, k + 1);
      assert [] + rest == rest;
      m := FirstEdit(s, f, k + 1);
    }
  }

  lemma {:induction false} OpensSame(s: string, t: string, lo: nat, q: nat, i: nat)
    requires SameUpTo(s, t, lo) && q < lo && s[q] == '[' && i <= 3 && i <= q
    ensures OpensAt(t, i) == OpensAt(s, i)
    decreases 3 - i
  {
    if q < i + 3 {
      assert i + 3 <= |s| ==> s[i..i + 3][q - i] == '[';
      assert i + 3 <= |t| ==> t[i..i + 3][q - i] == '[';
    } else {
      assert s[i..i + 3] == t[i..i + 3];
    }
    if i < 3 && ReSpace(s[i]) {
      assert i != q;
      OpensSame(s, t, lo, q, i + 1);
    }
  }

  /** A rewritten line opens a fence exactly when it did. */
  lemma {:induction false} RewrittenOpens(s: string, f: Rewriter)
    ensures Opens(Rewritten(s, f)) == Opens(s)
  {
    hide Scan, OpensAt, EditsFrom;
    AllEditsOrdered(s, f);
    var edits := EditsFrom(s, Scan(s, 0), f, 0);
    if edits == [] {
      assert s[0..] == s;
    } else {
      var m := FirstEdit(s, f, 0);
      SubstitutedAfter(s, edits, 0, m.lo);
      assert SameUpTo(s, Rewritten(s, f), m.lo);
      OpensSame(s, Rewritten(s, f), m.lo, m.Bracket(), 0);
    }
  }

  lemma {:induction false} LinesUpToAt(lines: seq<string>, f: Rewriter, n: nat, i: nat)
    requires i < n <= |lines|
    ensures LinesUpTo(lines, f, n)[i] == LineOf(lines, f, i)
  {
    hide LineOf;
    if i < n - 1 {
      LinesUpToAt(lines, f, n - 1, i);
    }
  }

  lemma {:induction false} SameFences(lines: seq<string>, f: Rewriter, i: nat)
    requires i <= |lines|
    ensures FenceBefore(LinesUpTo(lines, f, |lines|), i) == FenceBefore(lines, i)
    ensures i < |lines| ==> (IsProse(LinesUpTo(lines, f, |lines|), i) <==> IsProse(lines, i))
  {
    hide LinesUpTo, Rewritten, Opens, Closes;
    if i > 0 {
      SameFences(lines, f, i - 1);
      LinesUpToAt(lines, f, |lines|, i - 1);
      RewrittenOpens(lines[i - 1], f);
    }
    if i < |lines| {
      LinesUpToAt(lines, f, |lines|, i);
      RewrittenOpens(lines[i], f);
    }
  }

  // ------------------------------------------------------------------
  // A rewrite breaks no line in two

  lemma {:induction false} NoNewlineFrom(s: string, edits: seq<Edits.Edit>, from: nat)
    requires Ordered(edits, from, |s|) && '\n' !in s && forall k | 0 <= k < |edits| :: '\n' !in edits[k].text
    ensures '\n' !in Substituted(s, edits, from)
  {
    if edits != [] {
      OrderedFits(edits, from, |s|);
      NoNewlineFrom(s, edits[1..], edits[0].hi);
    }
  }

  lemma {:induction false} PrintableHasNoNewline(v: string)
    requires Printable(v)
    ensures '\n' !in v
  {
    forall i | 0 <= i < |v|
      ensures v[i] != '\n'
    {
    }
  }

  lemma {:induction false} NoNewlineInEdits(s: string, f: Rewriter, k: nat)
    requires Apart(s) && Tame(f) && k <= |Scan(s, 0)|
    ensures forall e | e in EditsFrom(s, Scan(s, 0), f, k) :: '\n' !in e.text
    decreases |Scan(s, 0)| - k
  {
    hide Scan, Apart, Spans, InCode, Target;
    if k < |Scan(s, 0)| {
      NoNewlineInEdits(s, f, k + 1);
      var m := Scan(s, 0)[k];
      if EditOf(s, m, f) != [] {
        TargetReadable(s, k);
        var v := f(Target(s, m));
        PrintableHasNoNewline(v);
      }
    }
  }

  lemma {:induction false} NoNewline(s: string, f: Rewriter)
    requires Apart(s) && Tame(f) && '\n' !in s
    ensures '\n' !in Rewritten(s, f)
  {
    hide Scan, Apart, Tame;
    AllEditsOrdered(s, f);
    NoNewlineInEdits(s, f, 0);
    NoNewlineFrom(s, EditsFrom(s, Scan(s, 0), f, 0), 0);
  }

  // ------------------------------------------------------------------
  // What a reader of a body finds

  function FoundOn(lines: seq<string>, i: nat): seq<Found>
    requires i < |lines|
  {
    if IsProse(lines, i) then ReadLine(lines[i]) else []
  }

  /** The links of the first n lines, in order. */
  function FoundUpTo(lines: seq<string>, n: nat): seq<Found>
    requires n <= |lines|
  {
    if n == 0 then [] else FoundUpTo(lines, n - 1) + FoundOn(lines, n - 1)
  }

  function FoundInBody(body: string): seq<Found> {
    FoundUpTo(Split(body, '\n'), |Split(body, '\n')|)
  }

  predicate ApartLines(lines: seq<string>) {
    forall i | 0 <= i < |lines| && IsProse(lines, i) :: Apart(lines[i])
  }

  /** No code span on any line of prose overlaps a link: a caller can check this
      before asking for a rewrite. */
  predicate ApartBody(body: string) {
    ApartLines(Split(body, '\n'))
  }

  lemma {:induction false} RetoldOfConcat(a: seq<Found>, b: seq<Found>, f: Rewriter)
    ensures RetoldAll(a + b, f) == RetoldAll(a, f) + RetoldAll(b, f)
  {
    hide RetoldOne;
    if a == [] {
      assert [] + b == b;
      assert RetoldAll(a, f) == [] && RetoldAll(a, f) + RetoldAll(b, f) == RetoldAll(b, f);
    } else {
      RetoldOfConcat(a[1..], b, f);
      assert (a + b)[1..] == a[1..] + b;
    }
  }

  lemma {:induction false} LinesRetold(lines: seq<string>, f: Rewriter, n: nat)
    requires ApartLines(lines) && Tame(f) && n <= |lines|
    ensures FoundUpTo(LinesUpTo(lines, f, |lines|), n) == RetoldAll(FoundUpTo(lines, n), f)
  {
    hide LinesUpTo, IsProse, Tame, RetoldAll, ReadLine, Apart;
    if n == 0 {
      NothingRetold(f);
    } else {
      LinesRetold(lines, f, n - 1);
      LineRetold(lines, f, n - 1);
      RetoldOfConcat(FoundUpTo(lines, n - 1), FoundOn(lines, n - 1), f);
    }
  }

  lemma {:induction false} NothingRetold(f: Rewriter)
    ensures RetoldAll([], f) == []
  {
  }

  lemma {:induction false} LineRetold(lines: seq<string>, f: Rewriter, i: nat)
    requires ApartLines(lines) && Tame(f) && i < |lines|
    ensures FoundOn(LinesUpTo(lines, f, |lines|), i) == RetoldAll(FoundOn(lines, i), f)
  {
    hide LinesUpTo, Rewritten, Apart, ReadLine, IsProse, Tame;
    SameFences(lines, f, i);
    LinesUpToAt(lines, f, |lines|, i);
    if IsProse(lines, i) {
      RewriteKeepsReading(lines[i], f);
    }
  }

  lemma {:induction false} LinesStayApart(lines: seq<string>, f: Rewriter)
    requires ApartLines(lines) && Tame(f)
    ensures ApartLines(LinesUpTo(lines, f, |lines|))
  {
    hide LinesUpTo, Rewritten, Apart, ReadLine, IsProse, Tame;
    var r := LinesUpTo(lines, f, |lines|);
    forall i | 0 <= i < |r| && IsProse(r, i)
      ensures Apart(r[i])
    {
      SameFences(lines, f, i);
      LinesUpToAt(lines, f, |lines|, i);
      RewriteKeepsReading(lines[i], f);
    }
  }

  lemma {:induction false} LinesStayLines(body: string, f: Rewriter)
    requires ApartBody(body) && Tame(f)
    ensures Split(RewrittenBody(body, f), '\n') == LinesUpTo(Split(body, '\n'), f, |Split(body, '\n')|)
  {
    hide LinesUpTo, Rewritten, Apart, IsProse, Tame;
    var lines := Split(body, '\n');
    var r := LinesUpTo(lines, f, |lines|);
    forall p | p in r
      ensures '\n' !in p
    {
      var i :| 0 <= i < |r| && r[i] == p;
      LinesUpToAt(lines, f, |lines|, i);
      assert lines[i] in lines;
      if IsProse(lines, i) {
        NoNewline(lines[i], f);
      }
    }
    SplitOfJoin(r, '\n');
  }

  /** Rewriting a body passes every target through f and does nothing else a
      reader can see: the links found are the old ones, in order and with their
      words, each naming what f made of its target; every line stays prose or
      stays code, and the lines that are not prose are the same text. */
  lemma {:induction false} BodyKeepsReading(body: string, f: Rewriter)
    requires ApartBody(body) && Tame(f)
    ensures ApartBody(RewrittenBody(body, f))
    ensures FoundInBody(RewrittenBody(body, f)) == RetoldAll(FoundInBody(body), f)
    ensures var lines, lines' := Split(body, '\n'), Split(RewrittenBody(body, f), '\n');
            && |lines'| == |lines|
            && forall i | 0 <= i < |lines| ::
                 (IsProse(lines', i) <==> IsProse(lines, i)) && (!IsProse(lines, i) ==> lines'[i] == lines[i])
  {
    hide LinesUpTo, Rewritten, Apart, IsProse, Tame, RewrittenBody, FoundUpTo, ApartLines;
    var lines := Split(body, '\n');
    LinesStayLines(body, f);
    LinesStayApart(lines, f);
    LinesRetold(lines, f, |lines|);
    forall i | 0 <= i < |lines|
      ensures IsProse(LinesUpTo(lines, f, |lines|), i) <==> IsProse(lines, i)
      ensures !IsProse(lines, i) ==> LinesUpTo(lines, f, |lines|)[i] == lines[i]
    {
      SameFences(lines, f, i);
      LinesUpToAt(lines, f, |lines|, i);
    }
  }

  // ------------------------------------------------------------------
  // When there is nothing to rewrite

  /** f leaves every link of a list as it is. */
  ghost predicate Leaves(f: Rewriter, found: seq<Found>) {
    forall k | 0 <= k < |found| :: RetoldOne(found[k], f) == found[k]
  }

  lemma {:induction false} SaidHas(s: string, i: nat, k: nat)
    requires i <= k < |Scan(s, 0)| && Says(s, Scan(s, 0)[k]).Some?
    ensures Says(s, Scan(s, 0)[k]).value in Said(s, i)
    decreases k - i
  {
    hide Scan, Says;
    if i < k {
      SaidHas(s, i + 1, k);
    }
  }

  lemma {:induction false} NoEdits(s: string, f: Rewriter, k: nat)
    requires k <= |Scan(s, 0)| && Leaves(f, Said(s, 0))
    ensures EditsFrom(s, Scan(s, 0), f, k) == []
    decreases |Scan(s, 0)| - k
  {
    hide Scan, Says, Said, EditOf;
    if k < |Scan(s, 0)| {
      NoEdits(s, f, k + 1);
      NoEdit(s, f, k);
    }
  }

  lemma {:induction false} NoEdit(s: string, f: Rewriter, k: nat)
    requires k < |Scan(s, 0)| && Leaves(f, Said(s, 0))
    ensures EditOf(s, Scan(s, 0)[k], f) == []
  {
    hide Scan, Said, Spans, InCode, Says, Target;
    var m := Scan(s, 0)[k];
    ScanShaped(s, k);
    SaysWhat(s, m);
    if Rewrites(s, m) {
      SaidHas(s, 0, k);
      var found := Says(s, m).value;
      var j :| 0 <= j < |Said(s, 0)| && Said(s, 0)[j] == found;
      assert RetoldOne(found, f) == found;
    }
  }

  lemma {:induction false} LineLeft(s: string, f: Rewriter)
    requires Apart(s) && Leaves(f, ReadLine(s))
    ensures Rewritten(s, f) == s
  {
    hide Scan, Said, ReadLine;
    ReadLineIsSaid(s);
    NoEdits(s, f, 0);
    assert s[0..] == s;
  }

  lemma {:induction false} FoundAt(lines: seq<string>, n: nat, i: nat)
    requires i < n <= |lines|
    ensures forall x | x in FoundOn(lines, i) :: x in FoundUpTo(lines, n)
  {
    hide FoundOn;
    if i < n - 1 {
      FoundAt(lines, n - 1, i);
    }
  }

  lemma {:induction false} LineIsLeft(lines: seq<string>, f: Rewriter, i: nat)
    requires ApartLines(lines) && Leaves(f, FoundUpTo(lines, |lines|)) && i < |lines|
    ensures LineOf(lines, f, i) == lines[i]
  {
    hide FoundUpTo, Rewritten, Apart, ReadLine;
    if IsProse(lines, i) {
      FoundAt(lines, |lines|, i);
      var all, found := FoundUpTo(lines, |lines|), ReadLine(lines[i]);
      forall k | 0 <= k < |found|
        ensures RetoldOne(found[k], f) == found[k]
      {
        assert found[k] in FoundOn(lines, i);
        var j :| 0 <= j < |all| && all[j] == found[k];
      }
      LineLeft(lines[i], f);
    }
  }

  /** A body is not touched when no link of its prose is. */
  lemma {:induction false} BodyIsLeft(body: string, f: Rewriter)
    requires ApartBody(body) && Leaves(f, FoundInBody(body))
    ensures RewrittenBody(body, f) == body
  {
    hide LineOf, FoundUpTo, ApartLines, Leaves;
    var lines := Split(body, '\n');
    var r := LinesUpTo(lines, f, |lines|);
    forall i | 0 <= i < |lines|
      ensures r[i] == lines[i]
    {
      LinesUpToAt(lines, f, |lines|, i);
      LineIsLeft(lines, f, i);
    }
    assert r == lines;
    JoinOfSplit(body, '\n');
  }

  // ------------------------------------------------------------------
  // The targets a reader finds

  predicate Readable(found: seq<Found>) {
    forall k | 0 <= k < |found| :: found[k].target != "" && Printable(found[k].target)
  }

  lemma {:induction false} SaidReadable(s: string, k: nat)
    requires Apart(s) && k <= |Scan(s, 0)|
    ensures Readable(Said(s, k))
    decreases |Scan(s, 0)| - k
  {
    hide Scan, Says, Apart, Printable, Target;
    if k < |Scan(s, 0)| {
      SaidReadable(s, k + 1);
      ScanShaped(s, k);
      SaysWhat(s, Scan(s, 0)[k]);
      if Says(s, Scan(s, 0)[k]).Some? {
        TargetReadable(s, k);
      }
    }
  }

  lemma {:induction false} FoundReadableUpTo(lines: seq<string>, n: nat)
    requires ApartLines(lines) && n <= |lines|
    ensures Readable(FoundUpTo(lines, n))
  {
    hide Apart, ReadLine, IsProse, Printable;
    if n > 0 {
      FoundReadableUpTo(lines, n - 1);
      if IsProse(lines, n - 1) {
        ReadLineIsSaid(lines[n - 1]);
        SaidReadable(lines[n - 1], 0);
      }
    }
  }

  lemma {:induction false} FoundReadable(body: string)
    requires ApartBody(body)
    ensures Readable(FoundInBody(body))
  {
    FoundReadableUpTo(Split(body, '\n'), |Split(body, '\n')|);
  }

  /** Rewriting twice is rewriting once, when it is on every target. */
  lemma {:induction false} RewriteTwice(body: string, f: Rewriter)
    requires ApartBody(body) && Tame(f) && forall target {:trigger f(target)} :: f(f(target)) == f(target)
    ensures RewrittenBody(RewrittenBody(body, f), f) == RewrittenBody(body, f)
  {
    hide RewrittenBody, FoundInBody, ApartBody, Tame;
    BodyKeepsReading(body, f);
    var found, found' := FoundInBody(body), FoundInBody(RewrittenBody(body, f));
    forall k | 0 <= k < |found'|
      ensures RetoldOne(found'[k], f) == found'[k]
    {
      RetoldAt(found, f, k);
      assert f(f(found[k].target)) == f(found[k].target);
    }
    BodyIsLeft(RewrittenBody(body, f), f);
  }

  lemma {:induction false} RetoldAt(found: seq<Found>, f: Rewriter, k: nat)
    requires k < |found|
    ensures RetoldAll(found, f)[k] == RetoldOne(found[k], f)
  {
    hide RetoldOne;
    if k > 0 {
      RetoldAt(found[1..], f, k - 1);
    }
  }
}
