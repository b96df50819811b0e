/** How far the two rewrites of internal/domain/links.go keep their promise:
    exactly for the ids a link can spell. */
module LinkLimits {
  import opened Text
  import opened Edits
  import opened Paths
  import opened LinkScan
  import opened LinkEdit
  import opened LinkApart
  import opened LinkRead
  import opened LinkRewrite
  import opened LinkMeaning
  import opened LinkBody
  import opened LinkTarget
  import opened LinkMoves

  // ------------------------------------------------------------------
  // Whatever a reader at the root is told, but for backticks, is plain

  predicate NoStops(v: string) {
    forall i | 0 <= i < |v| :: !Stops(v[i])
  }

  predicate NoEdges(v: string) {
    v != "" ==> v[0] != '/' && v[|v| - 1] != '/'
  }

  ghost predicate TargetsWhole(found: seq<Found>) {
    forall x | x in found :: NoStops(x.target)
  }

  lemma {:induction false} ReadsNoStops(s: string, i: nat)
    requires i <= |s|
    ensures TargetsWhole(Reads(s, i))
    decreases |s| - i
  {
    hide LinkAt, NoStops;
    if i < |s| {
      match MatchAt(s, i)
      case Some(m) =>
        ReadsNoStops(s, m.end);
        MatchIsLink(s, i);
        LinkParts(s, m.Bracket());
        RunNoStops(s, m.lo);
      case None =>
        ReadsNoStops(s, i + 1);
    }
  }

  lemma {:induction false} RunNoStops(s: string, i: nat)
    requires i <= |s|
    ensures NoStops(s[i..RunEnd(s, i)])
  {
    forall x | 0 <= x < RunEnd(s, i) - i
      ensures !Stops(s[i..RunEnd(s, i)][x])
    {
      RunHasNoStop(s, i, i + x);
    }
  }

  lemma {:induction false} FoundNoStops(lines: seq<string>, n: nat)
    requires n <= |lines|
    ensures TargetsWhole(FoundUpTo(lines, n))
  {
    hide IsProse, NoStops, Reads, Blanked;
    if n > 0 {
      FoundNoStops(lines, n - 1);
      if IsProse(lines, n - 1) {
        ReadsNoStops(Blanked(lines[n - 1], 0, |lines[n - 1]|), 0);
      }
    }
  }

  lemma {:induction false} RootDir()
    ensures DirOf("x") == ""
  {
    TrimAll("x", NotSlash);
    assert CleanUpTo([""], false, 0) == [];
    assert CleanUpTo([""], false, 1) == [];
    assert Split("", '/') == [""];
  }

  /** A target read at the root resolves to characters of its own. */
  lemma {:induction false} RootResolves(target: string)
    requires NoStops(target)
    ensures var r := Resolve("x", target);
            NoStops(r) && NoFrag(r) && NoEdges(r) && ('`' in r ==> '`' in target)
  {
    hide Clean, Dir, HasScheme;
    RootDir();
    var p, r := PathPart(target), Resolve("x", target);
    FragmentStarts(target);
    if r != "" {
      var rest := p[..|p| - 3];
      if rest != "" && rest[0] == '/' {
        assert r == TrimSlashes(rest);
        TrimmedFrom(rest);
      } else {
        assert r == Clean(rest);
        CleanShape(rest);
      }
      WholeFrom(r, target, rest);
    }
  }

  lemma {:induction false} TrimmedFrom(s: string)
    ensures From(TrimSlashes(s), s) && NoEdges(TrimSlashes(s))
  {
    hide TrimLeft, TrimRight;
    var l := TrimLeft(s, IsSlash);
    var r := TrimRight(l, IsSlash);
    assert r == l[..|r|];
    SliceFrom(l, 0, |r|);
    SliceFrom(s, |s| - |l|, |s|);
    assert s[|s| - |l|..|s|] == l;
    assert l[0..|r|] == r;
    FromTwice(r, l, s);
  }

  lemma {:induction false} SliceFrom(s: string, i: nat, j: nat)
    requires i <= j <= |s|
    ensures From(s[i..j], s)
  {
  }

  lemma {:induction false} FromTwice(a: string, b: string, c: string)
    requires From(a, b) && From(b, c)
    ensures From(a, c)
  {
  }

  lemma {:induction false} WholeFrom(r: string, target: string, rest: string)
    requires From(r, rest) && rest <= PathPart(target) && NoStops(target)
    ensures NoStops(r) && NoFrag(r) && ('`' in r ==> '`' in target)
  {
    forall i | 0 <= i < |r|
      ensures !Stops(r[i]) && !IsFrag(r[i])
    {
      assert r[i] in r;
      if r[i] != '/' {
        var k :| 0 <= k < |rest| && rest[k] == r[i];
        assert target[k] == r[i];
      }
    }
  }

  lemma {:induction false} NamedAtRoot(found: seq<Found>, k: nat)
    requires TargetsWhole(found) && k < |Named("x", found)|
    ensures var v := Named("x", found)[k].target; NoStops(v) && NoFrag(v) && NoEdges(v)
  {
    hide Resolve, NoStops, NoFrag, NoEdges;
    if found[0].image {
      NamedAtRoot(found[1..], k);
    } else if k == 0 {
      assert found[0] in found;
      RootResolves(found[0].target);
    } else {
      NamedAtRoot(found[1..], k - 1);
    }
  }

  // ------------------------------------------------------------------
  // At most one backtick is left on a blanked line

  function Ticks(s: string, i: nat): nat
    requires i <= |s|
    decreases |s| - i
  {
    if i == |s| then 0 else (if s[i] == '`' then 1 else 0) + Ticks(s, i + 1)
  }

  lemma {:induction false} TicksHead(h: string, b: string)
    requires |h| == 1
    ensures Ticks(h + b, 0) == (if h[0] == '`' then 1 else 0) + Ticks(b, 0)
  {
    TicksShift(b, h + b, 0);
  }

  lemma {:induction false} TicksShift(s: string, t: string, i: nat)
    requires SameFrom(s, t, i, 1)
    ensures Ticks(t, i + 1) == Ticks(s, i)
    decreases |s| - i
  {
    if i < |s| {
      TicksShift(s, t, i + 1);
    }
  }

  lemma {:induction false} NoTicksLeft(s: string, i: nat)
    requires i <= |s| && NoTicks(s, i, |s|)
    ensures Ticks(Blanked(s, i, |s|), 0) == 0
    decreases |s| - i
  {
    if i < |s| {
      NoTicksLeft(s, i + 1);
      TicksHead([s[i]], Blanked(s, i + 1, |s|));
    }
  }

  lemma {:induction false} OneTickLeft(s: string, i: nat)
    requires i <= |s|
    ensures Ticks(Blanked(s, i, |s|), 0) <= 1
    decreases |s| - i
  {
    if i < |s| {
      match SpanAt(s, i)
      case Some(e) =>
        OneTickLeft(s, e);
        TicksHead(" ", Blanked(s, e, |s|));
      case None =>
        TicksHead([s[i]], Blanked(s, i + 1, |s|));
        if s[i] == '`' {
          FirstNone(s, i + 1);
          NoTicksLeft(s, i + 1);
        } else {
          OneTickLeft(s, i + 1);
        }
    }
  }

  /** How many targets hold a backtick. */
  function Ticked(found: seq<Found>): nat {
    if found == [] then 0 else (if '`' in found[0].target then 1 else 0) + Ticked(found[1..])
  }

  lemma {:induction false} TicksOver(s: string, i: nat, j: nat)
    requires i <= j <= |s|
    ensures Ticks(s, i) >= Ticks(s, j) + if '`' in s[i..j] then 1 else 0
    decreases j - i
  {
    if i < j {
      TicksOver(s, i + 1, j);
      assert s[i..j] == [s[i]] + s[i + 1..j];
    } else {
      assert s[i..j] == [];
    }
  }

  lemma {:induction false} ReadsTicked(s: string, i: nat)
    requires i <= |s|
    ensures Ticked(Reads(s, i)) <= Ticks(s, i)
    decreases |s| - i
  {
    hide MatchAt;
    if i < |s| {
      match MatchAt(s, i)
      case Some(m) =>
        ReadsTicked(s, m.end);
        assert Reads(s, i)[1..] == Reads(s, m.end);
        TicksOver(s, i, m.lo);
        TicksOver(s, m.lo, m.hi);
        TicksOver(s, m.hi, m.end);
        assert FoundIn(s, m).target == s[m.lo..m.hi] || FoundIn(s, m).target == "";
      case None =>
        ReadsTicked(s, i + 1);
    }
  }

  lemma {:induction false} NamedTicked(found: seq<Found>, v: string)
    requires TargetsWhole(found) && '`' in v
    ensures |Named("x", found)| >= 1 && Named("x", found)[0].target == v ==> Ticked(found) >= 1
    ensures |Named("x", found)| >= 2 && Named("x", found)[0].target == v == Named("x", found)[1].target
            ==> Ticked(found) >= 2
  {
    hide Resolve, NoStops, NoFrag, NoEdges;
    if found != [] {
      var named, rest := Named("x", found), Named("x", found[1..]);
      assert found[0] in found;
      RootResolves(found[0].target);
      NamedTicked(found[1..], v);
      if !found[0].image {
        assert named[1..] == rest;
        assert |named| >= 2 ==> named[1] == rest[0];
      }
    }
  }

  /** A line that names v twice, in words of its own, spells it. */
  lemma {:induction false} NamedTwiceIsPlain(line: string, v: string)
    requires '\n' !in line && Opens(line) == ""
    requires var named := NamedIn("x", line); |named| >= 2 && named[0].target == v && named[1].target == v
    ensures Plain(v)
  {
    hide Named, Resolve, NoStops, NoFrag, NoEdges, Reads, Blanked;
    OneLine(line);
    var found := ReadLine(line);
    ReadsNoStops(Blanked(line, 0, |line|), 0);
    NamedAtRoot(found, 0);
    if '`' in v {
      OneTickLeft(line, 0);
      ReadsTicked(Blanked(line, 0, |line|), 0);
      NamedTicked(found, v);
    }
    WholeIsPlain(v);
  }

  lemma {:induction false} WholeIsPlain(v: string)
    requires NoStops(v) && NoFrag(v) && NoEdges(v) && '`' !in v
    ensures Plain(v)
  {
    forall i | 0 <= i < |v|
      ensures v[i] != '`'
    {
      assert v[i] in v;
    }
  }

  lemma {:induction false} OneLine(line: string)
    requires '\n' !in line && Opens(line) == ""
    ensures FoundInBody(line) == ReadLine(line)
    ensures ApartBody(line) <==> Apart(line)
    ensures forall f: Rewriter :: RewrittenBody(line, f) == Rewritten(line, f)
  {
    hide Apart, ReadLine, Opens, Rewritten;
    SplitWithoutSeparator(line, '\n');
    var lines := [line];
    assert FenceBefore(lines, 0) == "";
    assert IsProse(lines, 0);
    assert FoundUpTo(lines, 0) == [];
    assert FoundUpTo(lines, 1) == [] + ReadLine(line);
    assert [] + ReadLine(line) == ReadLine(line);
    forall f: Rewriter
      ensures RewrittenBody(line, f) == Rewritten(line, f)
    {
      assert LinesUpTo(lines, f, 0) == [];
      assert LinesUpTo(lines, f, 1) == [Rewritten(line, f)];
    }
  }

  // ------------------------------------------------------------------
  // A line with two links to one target

  function TwoLinks(v: string): string {
    "[a](" + v + ") [b](" + v + ")"
  }

  lemma {:induction false} TwoLinksAt(v: string)
    ensures var s, n := TwoLinks(v), |v|;
            && |s| == 2 * n + 11 && s[..4] == "[a](" && s[4..n + 4] == v && s[n + 4..n + 10] == ") [b]("
            && s[n + 10..2 * n + 10] == v && s[2 * n + 10..] == ")"
  {
  }

  lemma {:induction false} LinkIs(s: string, i: nat, lo: nat, hi: nat)
    requires i + 3 <= lo <= hi < |s| && s[i] == '[' && s[lo - 2] == ']' && s[lo - 1] == '(' && s[hi] == ')' && lo < hi
    requires (forall x | i < x < lo - 2 :: s[x] != ']') && NoStops(s[lo..hi])
    ensures LinkAt(s, i) == Some(Match(i, lo, hi, hi + 1, false))
    ensures MatchAt(s, i) == Some(Match(i, lo, hi, hi + 1, false))
  {
    FirstIs(s, ']', i + 1, lo - 2);
    forall j | lo <= j < hi
      ensures !Stops(s[j])
    {
      assert s[j] == s[lo..hi][j - lo];
    }
    RunEndOver(s, lo, hi);
  }

  lemma {:induction false} TwoLinksChars(v: string)
    ensures var s, n := TwoLinks(v), |v|;
            && s[0] == '[' && s[1] == 'a' && s[2] == ']' && s[3] == '(' && s[n + 4] == ')' && s[n + 5] == ' '
            && s[n + 6] == '[' && s[n + 7] == 'b' && s[n + 8] == ']' && s[n + 9] == '(' && s[2 * n + 10] == ')'
  {
  }

  lemma {:induction false} ScanHit(s: string, i: nat, m: Match)
    requires i < |s| && MatchAt(s, i) == Some(m)
    ensures Scan(s, i) == [m] + Scan(s, m.end)
  {
  }

  lemma {:induction false} ScanMiss(s: string, i: nat)
    requires i < |s| && MatchAt(s, i) == None
    ensures Scan(s, i) == Scan(s, i + 1)
  {
  }

  lemma {:induction false} PrintableNoStops(v: string)
    requires Printable(v)
    ensures NoStops(v)
  {
  }

  lemma {:induction false} TwoLinksScan(v: string)
    requires v != "" && NoStops(v)
    ensures var n := |v|;
            Scan(TwoLinks(v), 0)
                == [Match(0, 4, n + 4, n + 5, false), Match(n + 6, n + 10, 2 * n + 10, 2 * n + 11, false)]
  {
    hide MatchAt, LinkAt, NoStops, TwoLinks, Scan;
    var s, n := TwoLinks(v), |v|;
    TwoLinksAt(v);
    TwoLinksChars(v);
    LinkIs(s, 0, 4, n + 4);
    LinkIs(s, n + 6, n + 10, 2 * n + 10);
    ScanHit(s, 0, Match(0, 4, n + 4, n + 5, false));
    SpaceIsNoLink(s, n + 5);
    ScanMiss(s, n + 5);
    ScanHit(s, n + 6, Match(n + 6, n + 10, 2 * n + 10, 2 * n + 11, false));
    ScanEnd(s);
  }

  lemma {:induction false} ScanEnd(s: string)
    ensures Scan(s, |s|) == []
  {
  }

  lemma {:induction false} SpaceIsNoLink(s: string, i: nat)
    requires i < |s| && s[i] == ' '
    ensures MatchAt(s, i) == None
  {
  }

  /** Without backticks there is no code, and a line is apart. */
  lemma {:induction false} NoCodeIsApart(s: string, i: nat)
    requires NoTicks(s, 0, |s|) && i <= |s|
    ensures Spans(s, 0) == [] && ApartFrom(s, [], i) && Blanked(s, i, |s|) == s[i..]
    decreases |s| - i
  {
    hide MatchAt, Spans;
    NoTicksNoSpans(s, 0);
    if i < |s| {
      NoCodeIsApart(s, i + 1);
      match MatchAt(s, i)
      case Some(m) =>
        NoCodeIsApart(s, m.end);
        ScanOfMatch(s, i);
      case None =>
    }
  }

  lemma {:induction false} ScanOfMatch(s: string, i: nat)
    requires i < |s| && MatchAt(s, i).Some?
    ensures var m := MatchAt(s, i).value; 0 < m.lo - 2 < m.end <= |s| && m.Bracket() < m.lo
  {
    MatchIsLink(s, i);
  }

  lemma {:induction false} NoTicksNoSpans(s: string, i: nat)
    requires i <= |s| && NoTicks(s, i, |s|)
    ensures Spans(s, i) == []
    decreases |s| - i
  {
    if i < |s| {
      NoTicksNoSpans(s, i + 1);
    }
  }

  lemma {:induction false} TwoLinksPrintable(v: string)
    requires Printable(v)
    ensures NoTicks(TwoLinks(v), 0, |TwoLinks(v)|)
  {
    TwoLinksAt(v);
    var s, n := TwoLinks(v), |v|;
    forall j | 0 <= j < |s|
      ensures s[j] != '`'
    {
      if j < 4 {
        assert s[j] == s[..4][j];
      } else if j < n + 4 {
        assert s[j] == s[4..n + 4][j - 4];
      } else if j < n + 10 {
        assert s[j] == s[n + 4..n + 10][j - n - 4];
      } else if j < 2 * n + 10 {
        assert s[j] == s[n + 10..2 * n + 10][j - n - 10];
      } else {
        assert s[j] == s[2 * n + 10..][0];
      }
    }
  }

  /** What a reader finds on the line, when it can be read at all. */
  lemma {:induction false} TwoLinksRead(v: string)
    requires v != "" && Printable(v)
    ensures Apart(TwoLinks(v)) && ReadLine(TwoLinks(v)) == [Found(false, "a", v), Found(false, "b", v)]
  {
    hide Scan, MatchAt, Reads, Spans, Blanked, ApartFrom, FoundAll, TwoLinks, Printable;
    var s, n := TwoLinks(v), |v|;
    PrintableNoStops(v);
    TwoLinksAt(v);
    TwoLinksPrintable(v);
    NoCodeIsApart(s, 0);
    assert s[0..] == s;
    TwoLinksScan(v);
    TwoLinksChars(v);
    ReadsScan(s, 0);
    var a, b := Match(0, 4, n + 4, n + 5, false), Match(n + 6, n + 10, 2 * n + 10, 2 * n + 11, false);
    FoundOfTwo(s, a, b);
    assert s[1..2] == "a" && s[n + 7..n + 8] == "b";
    assert FoundIn(s, a) == Found(false, "a", v) && FoundIn(s, b) == Found(false, "b", v);
  }

  lemma {:induction false} FoundOfTwo(s: string, a: Match, b: Match)
    ensures FoundAll(s, [a, b]) == [FoundIn(s, a), FoundIn(s, b)]
  {
    hide FoundIn;
    assert [a, b][1..] == [b] && [b][1..] == [];
    assert FoundAll(s, []) == [];
    assert FoundAll(s, [b]) == [FoundIn(s, b)];
  }

  function FoundAll(s: string, ms: seq<Match>): seq<Found> {
    if ms == [] then [] else [FoundIn(s, ms[0])] + FoundAll(s, ms[1..])
  }

  lemma {:induction false} ReadsScan(s: string, i: nat)
    requires i <= |s|
    ensures Reads(s, i) == FoundAll(s, Scan(s, i))
    decreases |s| - i
  {
    hide MatchAt, FoundIn;
    if i < |s| {
      match MatchAt(s, i)
      case Some(m) =>
        ReadsScan(s, m.end);
        assert Scan(s, i)[1..] == Scan(s, m.end);
      case None =>
        ReadsScan(s, i + 1);
    }
  }

  /** The rewriter turns it into the line with two links to the new target. */
  lemma {:induction false} TwoLinksRewritten(v: string, f: Rewriter)
    requires v != "" && Printable(v)
    ensures Rewritten(TwoLinks(v), f) == TwoLinks(f(v))
  {
    hide Scan, Spans, Substituted, InCode;
    var s, n := TwoLinks(v), |v|;
    var ms := Scan(s, 0);
    TwoLinksAt(v);
    TwoLinksPrintable(v);
    NoTicksNoSpans(s, 0);
    TwoLinksScan(v);
    AllEditsOrdered(s, f);
    assert !InCode([], ms[0].start, ms[0].end) && !InCode([], ms[1].start, ms[1].end)
        by { NothingInCode(ms[0]); NothingInCode(ms[1]); }
    assert EditsFrom(s, ms, f, 2) == [];
    if f(v) == v {
      assert EditsFrom(s, ms, f, 1) == [];
      assert EditsFrom(s, ms, f, 0) == [];
      SubstitutedNone(s);
    } else {
      var a, b := Edits.Edit(4, n + 4, f(v)), Edits.Edit(n + 10, 2 * n + 10, f(v));
      assert EditsFrom(s, ms, f, 1) == [b];
      assert EditsFrom(s, ms, f, 0) == [a, b];
      SubstitutedTwo(s, a, b);
      assert s[0..4] == s[..4] == "[a](";
      assert "[a](" + f(v) + ") [b](" + f(v) + ")" == TwoLinks(f(v));
    }
  }

  lemma {:induction false} NothingInCode(m: Match)
    ensures !InCode([], m.start, m.end)
  {
  }

  lemma {:induction false} SubstitutedNone(s: string)
    ensures Substituted(s, [], 0) == s
  {
    assert s[0..] == s;
  }

  lemma {:induction false} SubstitutedTwo(s: string, a: Edits.Edit, b: Edits.Edit)
    requires Ordered([a, b], 0, |s|)
    ensures 0 <= a.lo <= a.hi <= b.lo <= b.hi <= |s|
    ensures Substituted(s, [a, b], 0) == s[0..a.lo] + a.text + s[a.hi..b.lo] + b.text + s[b.hi..]
  {
    assert [a, b][1..] == [b];
    assert [b][1..] == [];
    OrderedFits([a, b], 0, |s|);
    OrderedFits([b], a.hi, |s|);
    var x, y, z := s[0..a.lo] + a.text, s[a.hi..b.lo] + b.text, s[b.hi..];
    assert Substituted(s, [b], a.hi) == y + z;
    assert x + (y + z) == x + y + z;
    assert (x + s[a.hi..b.lo]) + b.text == x + y;
  }

  lemma {:induction false} TwoLinksIsProse(v: string)
    requires NoStops(v)
    ensures '\n' !in TwoLinks(v) && Opens(TwoLinks(v)) == ""
  {
    TwoLinksAt(v);
    var s := TwoLinks(v);
    forall j | 0 <= j < |v|
      ensures v[j] != '\n'
    {
    }
    assert '\n' !in v;
    assert s[0] == s[..4][0];
    assert s[..3][0] == '[';
  }

  // ------------------------------------------------------------------
  // Exactly which ids can be moved to

  /** Moving a concept to newID keeps the meaning of every body that can be read. */
  ghost predicate MovesSafely(newID: string) {
    forall id, body, oldID | ApartBody(body) :: MoveKeeps(id, body, oldID, newID)
  }

  ghost predicate MoveKeeps(id: string, body: string, oldID: string, newID: string) {
    AllRenamed(NamedIn(id, body), NamedIn(id, RewrittenBody(body, MoveTarget(id, oldID, newID))), oldID, newID)
  }

  lemma {:induction false} NamedTwo(id: string, v: string)
    requires v != "" && Printable(v)
    ensures ApartBody(TwoLinks(v))
    ensures NamedIn(id, TwoLinks(v)) == [Link(Resolve(id, v), "a"), Link(Resolve(id, v), "b")]
  {
    hide Resolve, ReadLine, Apart, TwoLinks, TrimSpace, Named, NamedOne, Printable, Opens;
    PrintableNoStops(v);
    TwoLinksIsProse(v);
    OneLine(TwoLinks(v));
    TwoLinksRead(v);
    NamedPair(id, Found(false, "a", v), Found(false, "b", v));
    NamedPlainText(id, "a", v);
    NamedPlainText(id, "b", v);
  }

  lemma {:induction false} NamedPlainText(id: string, text: string, v: string)
    requires text == "a" || text == "b"
    ensures NamedOne(id, Found(false, text, v)) == [Link(Resolve(id, v), text)]
  {
    hide Resolve, TrimSpace;
    Solid(text);
  }

  lemma {:induction false} Solid(text: string)
    requires |text| == 1 && !IsSpace(text[0])
    ensures TrimSpace(text) == text
  {
    hide IsSpace;
  }

  lemma {:induction false} NamedPair(id: string, a: Found, b: Found)
    ensures Named(id, [a, b]) == NamedOne(id, a) + NamedOne(id, b)
  {
    hide NamedOne;
    assert [a, b][1..] == [b] && [b][1..] == [];
    assert Named(id, []) == [];
    assert Named(id, [b]) == NamedOne(id, b) + [];
    assert NamedOne(id, b) + [] == NamedOne(id, b);
  }

  lemma {:induction false} OldTarget()
    ensures Resolve("x", "/o.md") == "o" && PathPart("/o.md") == "/o.md" && Fragment("/o.md") == ""
            && Printable("/o.md")
  {
    hide Resolve, PathPart, Fragment;
    AbsoluteResolves("x", "o", "");
    assert "/" + "o" + ".md" + "" == "/o.md";
    PartsOf("/o.md", "");
    assert "/o.md" + "" == "/o.md";
  }

  /** A move keeps the meaning of every body exactly when the new id has no white
      space, `)`, backtick, `#` or `?`, and no slash at either end. Ids with
      spaces, `#` or backticks are valid ones, so this is the program's limit. */
  lemma {:induction false} MovesSafelyExactlyWhenPlain(newID: string)
    ensures MovesSafely(newID) <==> PlainText(newID)
  {
    PlainIs(newID);
    hide Plain, PlainText, ApartBody, NamedIn, MoveTarget, Resolve, TwoLinks, RewrittenBody;
    if Plain(newID) {
      forall id, body, oldID | ApartBody(body)
        ensures MoveKeeps(id, body, oldID, newID)
      {
        MoveKeepsMeaning(id, body, oldID, newID);
      }
    }
    if MovesSafely(newID) {
      var body := TwoLinks("/o.md");
      OldTarget();
      NamedTwo("x", "/o.md");
      assert MoveKeeps("x", body, "o", newID);
      MovedTwo(newID);
      TwiceSpelled(newID);
    }
  }

  lemma {:induction false} MovedTwo(newID: string)
    ensures RewrittenBody(TwoLinks("/o.md"), MoveTarget("x", "o", newID)) == TwoLinks("/" + newID + ".md")
  {
    hide Resolve, TwoLinks, RewrittenBody, Rewritten, Printable, PathPart, Fragment;
    OldTarget();
    var f := MoveTarget("x", "o", newID);
    assert f("/o.md") == "/" + newID + ".md" + "";
    assert "/" + newID + ".md" + "" == "/" + newID + ".md";
    TwoLinksRewritten("/o.md", f);
    PrintableNoStops("/o.md");
    TwoLinksIsProse("/o.md");
    OneLine(TwoLinks("/o.md"));
  }

  /** If "/v.md", written twice on a line, names v twice at the root, v is plain. */
  lemma {:induction false} TwiceSpelled(v: string)
    requires var named := NamedIn("x", TwoLinks("/" + v + ".md"));
             |named| >= 2 && named[0].target == v && named[1].target == v
    ensures Plain(v)
  {
    hide Plain, NamedIn, TwoLinks;
    var t := "/" + v + ".md";
    NamedInAtRoot(TwoLinks(t));
    assert NoStops(v);
    forall i | 0 <= i < |t|
      ensures !Stops(t[i])
    {
      assert i == 0 || i > |v| || t[i] == v[i - 1];
    }
    TwoLinksIsProse(t);
    NamedTwiceIsPlain(TwoLinks(t), v);
  }

  lemma {:induction false} NamedInAtRoot(body: string)
    ensures forall k | 0 <= k < |NamedIn("x", body)| :: NoStops(NamedIn("x", body)[k].target)
  {
    hide Named, Resolve, NoStops, FoundUpTo, TargetsWhole;
    FoundNoStops(Split(body, '\n'), |Split(body, '\n')|);
    forall k | 0 <= k < |NamedIn("x", body)|
      ensures NoStops(NamedIn("x", body)[k].target)
    {
      NamedAtRoot(FoundInBody(body), k);
    }
  }

  // ------------------------------------------------------------------
  // Exactly which concepts can be made absolute

  /** Making a body at id absolute keeps the meaning, from everywhere, of every
      body that can be read. */
  ghost predicate AbsolutizesSafely(id: string) {
    forall body, id' | ApartBody(body) :: AbsolutizeKeeps(id, body, id')
  }

  ghost predicate AbsolutizeKeeps(id: string, body: string, id': string) {
    AllKept(NamedIn(id, body), NamedIn(id', RewrittenBody(body, AbsoluteTarget(id))))
  }

  /** What "o" names in a directory. */
  lemma {:induction false} NameInDir(id: string)
    requires DirOf(id) != "" && DirOf(id)[0] != '/' && !(".." <= DirOf(id))
    ensures Join2(DirOf(id), "o") == DirOf(id) + "/o"
  {
    hide CleanUpTo, Split;
    var dir, up := DirOf(id), UpToSlash(id);
    if up != "" && up[0] == '/' {
      CleanRooted(up);
    }
    CleanNotDots(up);
    var segs := CleanSegments(up);
    SplitOfJoin(segs, '/');
    SplitOfConcat(dir, '/', "o");
    SplitWithoutSeparator("o", '/');
    assert dir + "/" + "o" == dir + ['/'] + "o";
    assert Split(dir + "/" + "o", '/') == segs + ["o"];
    assert Settled(segs + ["o"]);
    CleanSettled(segs + ["o"], |segs| + 1);
    JoinOfConcat(segs, ["o"], "/");
    assert (segs + ["o"])[..|segs| + 1] == segs + ["o"];
    assert CleanSegments(dir + "/" + "o") == segs + ["o"];
    assert Text.Join(["o"], "/") == "o";
    assert Text.Join(segs + ["o"], "/") == dir + "/" + "o";
  }

  /** What "o.md" names at id. */
  lemma {:induction false} NameResolves(id: string)
    requires !(".." <= DirOf(id))
    ensures var r := Resolve(id, "o.md");
            && r != "" && AbsoluteTarget(id)("o.md") == "/" + r + ".md"
            && (Plain(r) ==> PlainDir(id))
  {
    hide Clean, Dir;
    PartsOf("o.md", "");
    assert "o.md" + "" == "o.md";
    assert "o.md"[..1] == "o" && HasSuffix("o.md", ".md");
    assert !HasScheme("o.md") by { assert !SchemeTail("o.md", 1) by { assert !SchemeTail("o.md", 2); } }
    var dir, joined := DirOf(id), Join2(DirOf(id), "o");
    if dir == "" {
      CleanName();
    } else if dir[0] == '/' {
      CleanRooted(dir + "/" + "o");
    } else {
      NameInDir(id);
      assert joined[..|dir|] == dir;
      if Plain(dir + "/o") {
        PlainPrefix(dir, "/o");
      }
    }
    var r := Resolve(id, "o.md");
    assert "/" + r + ".md" + "" == "/" + r + ".md";
  }

  lemma {:induction false} CleanName()
    ensures Clean("o") == "o"
  {
    SplitWithoutSeparator("o", '/');
    assert CleanUpTo(["o"], false, 0) == [];
    assert CleanUpTo(["o"], false, 1) == [] + ["o"];
  }

  lemma {:induction false} CleanRooted(p: string)
    requires p != "" && p[0] == '/'
    ensures Clean(p) != "" && Clean(p)[0] == '/'
  {
  }

  lemma {:induction false} PlainPrefix(a: string, b: string)
    requires Plain(a + b)
    ensures Printable(a) && NoFrag(a)
  {
    assert forall i | 0 <= i < |a| :: (a + b)[i] == a[i];
  }

  /** Every link of every body at id keeps its meaning exactly when the directory
      of id has no white space, `)`, backtick, `#` or `?` and no leading slash.
      Directories that start with ".." are set aside: no valid id has one. */
  lemma {:induction false} AbsolutizesSafelyExactlyWhenPlain(id: string)
    requires !(".." <= DirOf(id))
    ensures AbsolutizesSafely(id) <==> PlainDir(id)
  {
    hide Plain, PlainDir, ApartBody, NamedIn, AbsoluteTarget, Resolve, TwoLinks, RewrittenBody, DirOf;
    if PlainDir(id) {
      forall body, id' | ApartBody(body)
        ensures AbsolutizeKeeps(id, body, id')
      {
        AbsoluteMeansTheSame(id, body, id');
      }
    }
    if AbsolutizesSafely(id) {
      var r := Resolve(id, "o.md");
      NameResolves(id);
      NamePrintable();
      NamedTwo(id, "o.md");
      assert AbsolutizeKeeps(id, TwoLinks("o.md"), "x");
      AbsoluteTwo(id);
      TwiceSpelled(r);
    }
  }

  lemma {:induction false} NamePrintable()
    ensures Printable("o.md")
  {
  }

  lemma {:induction false} AbsoluteTwo(id: string)
    requires !(".." <= DirOf(id))
    ensures RewrittenBody(TwoLinks("o.md"), AbsoluteTarget(id)) == TwoLinks("/" + Resolve(id, "o.md") + ".md")
  {
    hide Resolve, TwoLinks, RewrittenBody, Rewritten, Printable, PathPart, Fragment, AbsoluteTarget, DirOf;
    NameResolves(id);
    NamePrintable();
    TwoLinksRewritten("o.md", AbsoluteTarget(id));
    PrintableNoStops("o.md");
    TwoLinksIsProse("o.md");
    OneLine(TwoLinks("o.md"));
  }

  // ------------------------------------------------------------------
  // What the conditions on the body and on the target are for

  const OVERLAP := "[a `]` b](x.md)"

  lemma {:induction false} NoStart(s: string, i: nat)
    requires i < |s| && s[i] != '[' && s[i] != '!'
    ensures MatchAt(s, i) == None
  {
  }

  lemma {:induction false} OverlapStart()
    ensures MatchAt(OVERLAP, 0) == None
  {
    var s := OVERLAP;
    assert s[1] == 'a' && s[2] == ' ' && s[3] == '`' && s[4] == ']' && s[5] == '`';
    FirstIs(s, ']', 1, 4);
    hide First;
  }

  lemma {:induction false} OverlapScan(i: nat)
    requires i <= |OVERLAP|
    ensures Scan(OVERLAP, i) == []
    decreases |OVERLAP| - i
  {
    hide MatchAt;
    if i < |OVERLAP| {
      OverlapScan(i + 1);
      if i == 0 {
        OverlapStart();
      } else {
        NoStart(OVERLAP, i);
      }
    }
  }

  lemma {:induction false} BlankedPlain(s: string, i: nat)
    requires i < |s| && s[i] != '`'
    ensures Blanked(s, i, |s|) == [s[i]] + Blanked(s, i + 1, |s|)
  {
  }

  lemma {:induction false} BlankedSpan(s: string, i: nat, e: nat)
    requires i < |s| && SpanAt(s, i) == Some(e)
    ensures Blanked(s, i, |s|) == " " + Blanked(s, e, |s|)
  {
  }

  lemma {:induction false} OverlapSpan()
    ensures SpanAt(OVERLAP, 3) == Some(6)
  {
    assert TickEnd(OVERLAP, 4) == 4;
    FirstIs(OVERLAP, '`', 4, 5);
    assert TickEnd(OVERLAP, 6) == 6;
  }

  lemma {:induction false} OverlapBlanked()
    ensures Blanked(OVERLAP, 0, |OVERLAP|) == "[a   b](x.md)"
  {
    hide SpanAt, Blanked;
    var s := OVERLAP;
    NoTicksBlanked(s, 6);
    assert s[6..] == " b](x.md)";
    OverlapSpan();
    BlankedSpan(s, 3, 6);
    BlankedPlain(s, 2);
    BlankedPlain(s, 1);
    BlankedPlain(s, 0);
    assert "[" + ("a" + (" " + (" " + " b](x.md)"))) == "[a   b](x.md)";
  }

  lemma {:induction false} NoTicksBlanked(s: string, i: nat)
    requires i <= |s| && NoTicks(s, i, |s|)
    ensures Blanked(s, i, |s|) == s[i..]
    decreases |s| - i
  {
    if i < |s| {
      NoTicksBlanked(s, i + 1);
    }
  }

  lemma {:induction false} OneLinkRead(text: string, target: string, s: string)
    requires s == "[" + text + "](" + target + ")" && target != "" && NoStops(target)
            && forall x | 0 <= x < |text| :: text[x] != ']'
    ensures Reads(s, 0) == [Found(false, text, target)]
  {
    hide MatchAt, LinkAt, Reads, NoStops;
    var n, m := |text|, |text| + 3 + |target|;
    assert s[n + 3..m] == target;
    assert s[1..n + 1] == text;
    LinkIs(s, 0, n + 3, m);
    ReadsFirst(s, Match(0, n + 3, m, m + 1, false));
    ReadsEnd(s);
  }

  lemma {:induction false} ReadsEnd(s: string)
    ensures Reads(s, |s|) == []
  {
  }

  lemma {:induction false} OverlapRead()
    ensures ReadLine(OVERLAP) == [Found(false, "a   b", "x.md")]
  {
    hide Reads, Blanked;
    OverlapBlanked();
    assert "[" + "a   b" + "](" + "x.md" + ")" == "[a   b](x.md)";
    OneLinkRead("a   b", "x.md", "[a   b](x.md)");
  }

  lemma {:induction false} OverlapIsOneLine()
    ensures '\n' !in OVERLAP && Opens(OVERLAP) == ""
  {
    assert OVERLAP[..3][0] == '[';
  }

  lemma {:induction false} NamedSingle(id: string, x: Found)
    ensures Named(id, [x]) == NamedOne(id, x)
  {
    hide NamedOne;
    assert [x][1..] == [];
    assert Named(id, []) == [];
    assert NamedOne(id, x) + [] == NamedOne(id, x);
  }

  lemma {:induction false} OverlapNames()
    ensures NamedOne("y", Found(false, "a   b", "x.md")) == [Link("x", "a   b")]
  {
    hide Resolve, TrimSpace;
    RootNames("y");
    SolidEnds("a   b");
  }

  lemma {:induction false} OverlapNamed()
    ensures NamedIn("y", OVERLAP) == [Link("x", "a   b")]
  {
    hide ReadLine, FoundInBody, Named, NamedOne, Opens, ApartBody, Apart, RewrittenBody;
    OverlapIsOneLine();
    OneLine(OVERLAP);
    OverlapRead();
    NamedSingle("y", Found(false, "a   b", "x.md"));
    OverlapNames();
  }

  lemma {:induction false} OverlapUntouched(f: Rewriter)
    ensures RewrittenBody(OVERLAP, f) == OVERLAP
  {
    hide Scan, FoundInBody, ReadLine, Opens, ApartBody, Apart, RewrittenBody, Rewritten;
    OverlapScan(0);
    LineWithoutLinks(OVERLAP, f);
    OverlapIsOneLine();
    OneLine(OVERLAP);
  }

  /** A code span that covers the bracket of a link: the reader sees an edge that
      the rewriter does not, and a move leaves the edge behind. */
  lemma {:induction false} OverlapIsLeftBehind(newID: string)
    requires newID != "x"
    ensures RewrittenBody(OVERLAP, MoveTarget("y", "x", newID)) == OVERLAP
    ensures NamedIn("y", OVERLAP) == [Link("x", "a   b")]
    ensures !MoveKeeps("y", OVERLAP, "x", newID)
  {
    hide MoveTarget, RewrittenBody, NamedIn;
    OverlapUntouched(MoveTarget("y", "x", newID));
    OverlapNamed();
    var named := NamedIn("y", OVERLAP);
    assert named[0] != RenamedOne(named[0], "x", newID);
  }

  /** A bare name read at the root. */
  lemma {:induction false} RootNames(id: string)
    requires |id| == 1 && id[0] != '/'
    ensures Resolve(id, "x.md") == "x"
  {
    hide Clean;
    PartsOf("x.md", "");
    assert "x.md" + "" == "x.md";
    assert "x.md"[..1] == "x" && HasSuffix("x.md", ".md");
    assert !HasScheme("x.md") by { assert !SchemeTail("x.md", 1) by { assert !SchemeTail("x.md", 2); } }
    OneName(id);
    SplitWithoutSeparator("x", '/');
    assert Clean("x") == "x" by { CleanOne("x"); }
  }

  lemma {:induction false} CleanOne(p: string)
    requires |p| == 1 && p[0] != '/' && p[0] != '.'
    ensures Clean(p) == p
  {
    SplitWithoutSeparator(p, '/');
    assert CleanUpTo([p], false, 0) == [];
    assert CleanUpTo([p], false, 1) == [] + [p];
  }

  lemma {:induction false} OneName(id: string)
    requires |id| == 1 && id[0] != '/'
    ensures DirOf(id) == ""
  {
    TrimAll(id, NotSlash);
    assert CleanUpTo([""], false, 0) == [];
    assert CleanUpTo([""], false, 1) == [];
    assert Split("", '/') == [""];
  }

  /** A target that climbs out of the bundle names nothing and is left as it is;
      read one directory down it names a concept. */
  lemma {:induction false} ClimbingTargetMoves()
    ensures Resolve("a", "../x.md") == "" && AbsoluteTarget("a")("../x.md") == "../x.md"
    ensures Resolve("b/c", AbsoluteTarget("a")("../x.md")) == "x"
  {
    hide Clean;
    PartsOf("../x.md", "");
    assert "../x.md" + "" == "../x.md";
    assert "../x.md"[..4] == "../x" && HasSuffix("../x.md", ".md");
    assert !HasScheme("../x.md");
    OneName("a");
    CleanClimbs();
    assert "b" + "/" + "../x" == "b/../x";
  }

  lemma {:induction false} CleanClimbs()
    ensures Clean("../x") == "../x" && Clean("b/../x") == "x" && DirOf("b/c") == "b"
  {
    hide Clean;
    CleanUp();
    CleanDownUp();
    UpToSlashIs("b/", "c");
    assert "b/" + "c" == "b/c";
    CleanSlash();
  }

  lemma {:induction false} SplitUp()
    ensures Split("../x", '/') == ["..", "x"]
  {
    SplitWithoutSeparator("x", '/');
    SplitAtSeparator("..", '/', "x");
    assert ".." + ['/'] + "x" == "../x";
  }

  lemma {:induction false} CleanUp()
    ensures Clean("../x") == "../x"
  {
    hide Split;
    SplitUp();
    assert CleanUpTo(["..", "x"], false, 0) == [];
    assert CleanUpTo(["..", "x"], false, 1) == [".."];
    assert CleanUpTo(["..", "x"], false, 2) == ["..", "x"];
    JoinPair("..", "x");
  }

  lemma {:induction false} JoinPair(a: string, b: string)
    ensures Text.Join([b], "/") == b && Text.Join([a, b], "/") == a + "/" + b
  {
    assert [a, b][1..] == [b];
  }

  lemma {:induction false} CleanDownUp()
    ensures Clean("b/../x") == "x"
  {
    hide Split, CleanUpTo;
    SplitUp();
    SplitAtSeparator("b", '/', "../x");
    assert "b" + ['/'] + "../x" == "b/../x";
    assert Split("b/../x", '/') == ["b", "..", "x"];
    DownAndUp(["b", "..", "x"]);
    JoinPair("b", "x");
  }

  lemma {:induction false} DownAndUp(segs: seq<string>)
    requires segs == ["b", "..", "x"]
    ensures CleanUpTo(segs, false, 3) == ["x"]
  {
    assert CleanUpTo(segs, false, 0) == [];
    assert CleanUpTo(segs, false, 1) == ["b"];
    assert CleanUpTo(segs, false, 2) == [];
  }

  lemma {:induction false} CleanSlash()
    ensures Clean("b/") == "b"
  {
    SplitAtSeparator("b", '/', "");
    assert "b" + ['/'] + "" == "b/";
    assert Split("", '/') == [""];
    assert CleanUpTo(["b", ""], false, 0) == [];
    assert CleanUpTo(["b", ""], false, 1) == ["b"];
    assert CleanUpTo(["b", ""], false, 2) == ["b"];
    JoinPair("", "b");
  }

  lemma {:induction false} UpToSlashIs(a: string, b: string)
    requires a != "" && a[|a| - 1] == '/' && '/' !in b
    ensures UpToSlash(a + b) == a
  {
    if b == "" {
      assert a + b == a;
    } else {
      assert (a + b)[..|a + b| - 1] == a + b[..|b| - 1];
      UpToSlashIs(a, b[..|b| - 1]);
    }
  }
}
