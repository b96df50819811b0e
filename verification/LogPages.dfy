/** Links between the generated pages of a bundle and the log of its changes:
    relativeTo and LogDocument of internal/okf/reserved.go (section 9 of the Open Knowledge Format). */
module LogPages {
  import opened Text
  import opened Paths

  // ------------------------------------------------------------------
  // relativeTo

  /** How many leading segments of from lead to as well, to's last one set aside. */
  function Shared(from: seq<string>, to: seq<string>, i: nat): (n: nat)
    requires i <= |from| && i < |to|
    ensures i <= n <= |from| && n < |to|
    ensures from[i..n] == to[i..n]
    ensures n < |from| && n < |to| - 1 ==> from[n] != to[n]
    decreases |from| - i
  {
    if i < |from| && i < |to| - 1 && from[i] == to[i] then Shared(from, to, i + 1) else i
  }

  function Ups(n: nat): seq<string> {
    seq(n, _ => "..")
  }

  function Repeated(n: nat): string {
    if n == 0 then "" else "../" + Repeated(n - 1)
  }

  function RelativeTo(dir: string, target: string): string {
    if dir == "" then target
    else
      var from, to := Split(dir, '/'), Split(target, '/');
      var i := Shared(from, to, 0);
      Repeated(|from| - i) + Join(to[i..], "/")
  }

  method RelativePath(dir: string, target: string) returns (r: string)
    ensures r == RelativeTo(dir, target)
  {
    if dir == "" {
      return target;
    }
    hide Shared, Split, Join, Repeated;
    var from, to := Split(dir, '/'), Split(target, '/');
    var i := CountShared(from, to);
    var ups := RepeatUp(|from| - i);
    r := ups + Join(to[i..], "/");
  }

  method CountShared(from: seq<string>, to: seq<string>) returns (i: nat)
    requires to != []
    ensures i == Shared(from, to, 0)
  {
    i := 0;
    while i < |from| && i < |to| - 1 && from[i] == to[i]
      invariant 0 <= i <= |from| && i < |to|
      invariant Shared(from, to, i) == Shared(from, to, 0)
    {
      i := i + 1;
    }
  }

  /** strings.Repeat of "../". */
  method RepeatUp(n: nat) returns (ups: string)
    ensures ups == Repeated(n)
  {
    ups := "";
    for k := 0 to n
      invariant ups == Repeated(k)
    {
      RepeatedFront(k);
      ups := ups + "../";
    }
  }

  lemma {:induction false} RepeatedFront(n: nat)
    ensures Repeated(n) + "../" == "../" + Repeated(n)
  {
    if n > 0 {
      RepeatedFront(n - 1);
      assert "../" + Repeated(n - 1) + "../" == "../" + (Repeated(n - 1) + "../");
    }
  }

  /** The segments of a relative path. */
  lemma {:induction false} RelativeSegments(n: nat, rest: seq<string>)
    requires rest != [] && forall p | p in rest :: '/' !in p
    ensures Split(Repeated(n) + Join(rest, "/"), '/') == Ups(n) + rest
  {
    if n == 0 {
      SplitOfJoin(rest, '/');
      assert "/" == ['/'] && "" + Join(rest, "/") == Join(rest, "/");
      assert Ups(0) + rest == rest;
    } else {
      RelativeSegments(n - 1, rest);
      var tail := Repeated(n - 1) + Join(rest, "/");
      SplitAtSeparator("..", '/', tail);
      assert Repeated(n) + Join(rest, "/") == ".." + ['/'] + tail;
      assert Ups(n) + rest == [".."] + (Ups(n - 1) + rest);
    }
  }

  lemma {:induction false} CleanPlain(base: seq<string>, rooted: bool, segs: seq<string>, n: nat)
    requires Settled(segs) && n <= |segs| && |base| + n <= |base + segs|
    ensures CleanUpTo(base + segs, rooted, |base| + n) == CleanUpTo(base + segs, rooted, |base|) + segs[..n]
  {
    if n > 0 {
      CleanPlain(base, rooted, segs, n - 1);
      assert (base + segs)[|base| + n - 1] == segs[n - 1];
      assert segs[..n] == segs[..n - 1] + [segs[n - 1]];
    }
  }

  lemma {:induction false} CleanUps(from: seq<string>, m: nat, rest: seq<string>, n: nat)
    requires Settled(from) && n <= m && n <= |from|
    ensures CleanUpTo(from + Ups(m) + rest, false, |from| + n) == from[..|from| - n]
  {
    var all := from + Ups(m) + rest;
    if n == 0 {
      assert all[..|from|] == from;
      CleanPrefix(from, all, |from|);
      CleanSettled(from, |from|);
    } else {
      CleanUps(from, m, rest, n - 1);
      assert all[|from| + n - 1] == "..";
      assert from[..|from| - n + 1][..|from| - n] == from[..|from| - n];
    }
  }

  lemma {:induction false} CleanPrefix(a: seq<string>, all: seq<string>, n: nat)
    requires n <= |a| <= |all| && all[..|a|] == a
    ensures CleanUpTo(all, false, n) == CleanUpTo(a, false, n)
  {
    if n > 0 {
      CleanPrefix(a, all, n - 1);
      assert all[n - 1] == all[..|a|][n - 1];
    }
  }

  lemma {:induction false} CleansBack(from: seq<string>, to: seq<string>)
    requires Settled(from) && Settled(to) && to != []
    ensures var i := Shared(from, to, 0); var all := from + (Ups(|from| - i) + to[i..]);
            CleanUpTo(all, false, |all|) == to
  {
    hide CleanUpTo;
    var i := Shared(from, to, 0);
    var n, rest := |from| - i, to[i..];
    assert from + (Ups(n) + rest) == from + Ups(n) + rest;
    CleanUps(from, n, rest, n);
    CleanPlain(from + Ups(n), false, rest, |rest|);
    assert rest[..|rest|] == rest;
    assert from[..i] == from[0..i] == to[0..i] == to[..i];
    assert to[..i] + to[i..] == to;
  }

  lemma {:induction false} RelativeSplits(dir: string, target: string)
    requires dir != "" && IsPath(target)
    ensures var from, to := Split(dir, '/'), Split(target, '/');
            var i, rel := Shared(from, to, 0), RelativeTo(dir, target);
            && Split(dir + "/" + rel, '/') == from + (Ups(|from| - i) + to[i..])
            && rel != ""
  {
    hide Split, Shared;
    var from, to := Split(dir, '/'), Split(target, '/');
    var i, rel := Shared(from, to, 0), RelativeTo(dir, target);
    var rest := to[i..];
    forall p | p in rest
      ensures '/' !in p
    {
      assert p in to;
    }
    RelativeSegments(|from| - i, rest);
    SplitOfConcat(dir, '/', rel);
    assert dir + "/" + rel == dir + ['/'] + rel;
    EmptySplit();
    var segs := Ups(|from| - i) + rest;
    assert segs[|segs| - 1] == to[|to| - 1] != "";
  }

  /** From a clean directory the relative path leads back to its target. */
  lemma {:induction false} RelativeLeadsBack(dir: string, target: string)
    requires (dir == "" || IsPath(dir)) && IsPath(target)
    ensures Join2(dir, RelativeTo(dir, target)) == target
  {
    hide CleanUpTo, Split, Shared, RelativeTo;
    CleanOfPath(target);
    if dir == "" {
      assert RelativeTo(dir, target) == target by { RootIsRelative(target); }
    } else {
      CleanOfPath(dir);
      RelativeSplits(dir, target);
      CleansBack(Split(dir, '/'), Split(target, '/'));
      var whole := dir + "/" + RelativeTo(dir, target);
      assert whole[0] == dir[0];
      JoinOfSplit(target, '/');
      assert "/" == ['/'];
    }
  }

  lemma {:induction false} RootIsRelative(target: string)
    ensures RelativeTo("", target) == target
  {
  }

  lemma {:induction false} EmptySplit()
    ensures Split("", '/') == [""]
  {
  }

  // ------------------------------------------------------------------
  // No shorter way up

  function Climbs(segs: seq<string>, n: nat): nat
    requires n <= |segs|
  {
    if n == 0 then 0 else Climbs(segs, n - 1) + if segs[n - 1] == ".." then 1 else 0
  }

  /** After u climbs, all but the last u segments of a clean directory are left. */
  lemma {:induction false} ClimbsLeave(from: seq<string>, all: seq<string>, n: nat)
    requires Settled(from) && n <= |all| - |from| && |from| <= |all| && all[..|from|] == from
    ensures var u := Climbs(all[|from|..], n);
            u <= |from| ==> from[..|from| - u] <= CleanUpTo(all, false, |from| + n)
  {
    var rest := all[|from|..];
    if n == 0 {
      CleanPrefix(from, all, |from|);
      CleanSettled(from, |from|);
      assert from[..|from|] == from;
    } else {
      ClimbsLeave(from, all, n - 1);
      var u, before := Climbs(rest, n - 1), CleanUpTo(all, false, |from| + n - 1);
      assert rest[n - 1] == all[|from| + n - 1];
      if Climbs(rest, n) <= |from| {
        LeaveStep(from, u, before, rest[n - 1]);
      }
    }
  }

  lemma {:induction false} LeaveStep(from: seq<string>, u: nat, out: seq<string>, seg: string)
    requires u <= |from| && from[..|from| - u] <= out && Settled(from)
    requires seg == ".." ==> u < |from|
    ensures seg != ".." ==> from[..|from| - u] <= Step(out, seg, false)
    ensures seg == ".." ==> from[..|from| - u - 1] <= Step(out, seg, false)
  {
    if seg == ".." {
      var keep := |from| - u;
      assert out[..keep] == from[..keep];
      assert from[..keep - 1] == out[..keep][..keep - 1] == out[..keep - 1];
      assert out[keep - 1] == from[keep - 1];
    }
  }

  /** Of the relative paths that end in the target's own name, relativeTo's climbs
      least. */
  lemma {:induction false} ClimbsLeast(dir: string, target: string, other: string)
    requires IsPath(dir) && IsPath(target) && Join2(dir, other) == target && other != ""
    requires Split(other, '/')[|Split(other, '/')| - 1] == Split(target, '/')[|Split(target, '/')| - 1]
    ensures var from, to := Split(dir, '/'), Split(target, '/');
            |from| - Shared(from, to, 0) <= Climbs(Split(other, '/'), |Split(other, '/')|)
  {
    hide Split, Shared, CleanUpTo, Clean;
    var from, to, rest := Split(dir, '/'), Split(target, '/'), Split(other, '/');
    var whole := dir + "/" + other;
    SplitOfConcat(dir, '/', other);
    assert whole == dir + ['/'] + other;
    CleanOfPath(dir);
    assert whole[0] == dir[0];
    CleanTo(whole, target);
    ClimbsOver(from, rest, to);
  }

  /** Segments that clean to a path and end in its name climb past all that the two
      do not share. */
  lemma {:induction false} ClimbsOver(from: seq<string>, rest: seq<string>, to: seq<string>)
    requires Settled(from) && Settled(to) && to != [] && rest != [] && rest[|rest| - 1] == to[|to| - 1]
    requires CleanUpTo(from + rest, false, |from + rest|) == to
    ensures |from| - Shared(from, to, 0) <= Climbs(rest, |rest|)
  {
    hide Shared;
    var all, u := from + rest, Climbs(rest, |rest|);
    if u <= |from| {
      assert all[..|from|] == from && all[|from|..] == rest;
      ClimbsLeave(from, all, |rest| - 1);
      var before := CleanUpTo(all, false, |all| - 1);
      assert all[|all| - 1] == rest[|rest| - 1];
      LastStays(before, to);
      SharedAtLeast(from, to, |from| - u, 0);
    }
  }

  lemma {:induction false} LastStays(before: seq<string>, to: seq<string>)
    requires Settled(to) && to != [] && Step(before, to[|to| - 1], false) == to
    ensures before == to[..|to| - 1]
  {
  }

  lemma {:induction false} CleanTo(p: string, target: string)
    requires p != "" && p[0] != '/' && Clean(p) == target && IsPath(target)
    ensures CleanUpTo(Split(p, '/'), false, |Split(p, '/')|) == Split(target, '/')
  {
    hide CleanUpTo;
    CleanOfPath(target);
    var segs := CleanSegments(p);
    CleanIsSegments(Split(p, '/'), false, |Split(p, '/')|);
    assert segs != [];
    forall q | q in segs
      ensures '/' !in q
    {
      var k :| 0 <= k < |segs| && segs[k] == q;
    }
    SplitOfJoin(segs, '/');
    assert "/" == ['/'];
  }

  lemma {:induction false} SharedAtLeast(from: seq<string>, to: seq<string>, n: nat, i: nat)
    requires i <= n <= |from| && n < |to| && from[..n] == to[..n]
    ensures n <= Shared(from, to, i)
    decreases n - i
  {
    if i < n {
      assert from[i] == from[..n][i] == to[..n][i] == to[i];
      SharedAtLeast(from, to, n, i + 1);
    }
  }

  // ------------------------------------------------------------------
  // Over all relative paths

  /** A relative path that leads from the directory to the target. */
  predicate LeadsTo(dir: string, target: string, other: string) {
    other != "" && Join2(dir, other) == target
  }

  function ClimbsOf(other: string): nat {
    Climbs(Split(other, '/'), |Split(other, '/')|)
  }

  /** How often relativeTo's climbs. */
  function OwnClimbs(dir: string, target: string): nat {
    |Split(dir, '/')| - Shared(Split(dir, '/'), Split(target, '/'), 0)
  }

  ghost predicate NoneClimbsLess(dir: string, target: string) {
    forall other | LeadsTo(dir, target, other) :: ClimbsOf(RelativeTo(dir, target)) <= ClimbsOf(other)
  }

  lemma {:induction false} RelativeToIs(dir: string, target: string)
    requires dir != ""
    ensures var from, to := Split(dir, '/'), Split(target, '/');
            RelativeTo(dir, target) == Repeated(|from| - Shared(from, to, 0)) + Join(to[Shared(from, to, 0)..], "/")
  {
    hide Split, Join, Shared, Repeated;
  }

  /** Segments of a path from the i-th on. */
  lemma {:induction false} PathTail(target: string, i: nat)
    requires IsPath(target) && i < |Split(target, '/')|
    ensures var rest := Split(target, '/')[i..]; rest != [] && Settled(rest) && forall p | p in rest :: '/' !in p
  {
    hide Split;
    var to := Split(target, '/');
    forall p | p in to[i..]
      ensures '/' !in p
    {
      assert p in to;
    }
  }

  lemma {:induction false} ClimbsOfOwn(dir: string, target: string)
    requires IsPath(dir) && IsPath(target)
    ensures ClimbsOf(RelativeTo(dir, target)) == OwnClimbs(dir, target) && LeadsTo(dir, target, RelativeTo(dir, target))
  {
    hide *;
    RelativeLeadsBack(dir, target);
    CleanOfPath(dir);
    RelativeSplits(dir, target);
    var from, to := Split(dir, '/'), Split(target, '/');
    var i := Shared(from, to, 0);
    RelativeToIs(dir, target);
    PathTail(target, i);
    RelativeSegments(|from| - i, to[i..]);
    ClimbsOfClimb(|from| - i, to[i..]);
    OwnIs(dir, target);
  }

  lemma {:induction false} OwnIs(dir: string, target: string)
    requires RelativeTo(dir, target) != "" && Join2(dir, RelativeTo(dir, target)) == target
    ensures LeadsTo(dir, target, RelativeTo(dir, target))
    ensures OwnClimbs(dir, target) == |Split(dir, '/')| - Shared(Split(dir, '/'), Split(target, '/'), 0)
    ensures ClimbsOf(RelativeTo(dir, target))
            == Climbs(Split(RelativeTo(dir, target), '/'), |Split(RelativeTo(dir, target), '/')|)
  {
    hide Split, Shared, Climbs, RelativeTo, Join2;
  }

  lemma {:induction false} ClimbsOfClimb(n: nat, rest: seq<string>)
    requires Settled(rest)
    ensures Climbs(Ups(n) + rest, |Ups(n) + rest|) == n
  {
    hide Climbs;
    ClimbsOfUps(n, rest, n);
    NoMoreClimbs(Ups(n), rest, |rest|);
  }

  lemma {:induction false} ClimbsOfUps(n: nat, rest: seq<string>, k: nat)
    requires k <= n
    ensures Climbs(Ups(n) + rest, k) == k
  {
    if k > 0 {
      ClimbsOfUps(n, rest, k - 1);
    }
  }

  lemma {:induction false} NoMoreClimbs(base: seq<string>, rest: seq<string>, n: nat)
    requires n <= |rest| && Settled(rest)
    ensures Climbs(base + rest, |base| + n) == Climbs(base + rest, |base|)
  {
    if n > 0 {
      NoMoreClimbs(base, rest, n - 1);
      assert (base + rest)[|base| + n - 1] == rest[n - 1];
    }
  }

  /** Segments that clean to a path climb past all that is not its front. */
  lemma {:induction false} ClimbsPast(from: seq<string>, rest: seq<string>, to: seq<string>)
    requires Settled(from) && to != [] && !(to <= from) && CleanUpTo(from + rest, false, |from + rest|) == to
    ensures |from| - Shared(from, to, 0) <= Climbs(rest, |rest|)
  {
    hide Shared, CleanUpTo;
    var all, u := from + rest, Climbs(rest, |rest|);
    if u <= |from| {
      assert all[..|from|] == from && all[|from|..] == rest;
      ClimbsLeave(from, all, |rest|);
      var n: nat := |from| - u;
      FrontIsShort(from, to, n);
      SharedAtLeast(from, to, n, 0);
    }
  }

  lemma {:induction false} FrontIsShort(from: seq<string>, to: seq<string>, n: nat)
    requires n <= |from| && from[..n] <= to && !(to <= from)
    ensures n < |to| && to[..n] == from[..n]
  {
  }

  /** Up the directory to the target, which is the directory or above it. */
  function Upward(n: nat): seq<string> {
    if n == 0 then ["."] else Ups(n)
  }

  lemma {:induction false} UpwardLeads(from: seq<string>, n: nat)
    requires Settled(from) && n <= |from|
    ensures CleanUpTo(from + Upward(n), false, |from + Upward(n)|) == from[..|from| - n]
    ensures Climbs(Upward(n), |Upward(n)|) == n
  {
    if n == 0 {
      var all := from + ["."];
      assert all[..|from|] == from && from[..|from|] == from;
      CleanPrefix(from, all, |from|);
      CleanSettled(from, |from|);
      assert Climbs(["."], 0) == 0;
    } else {
      assert from + Ups(n) + [] == from + Ups(n) && Ups(n) + [] == Ups(n);
      CleanUps(from, n, [], n);
      ClimbsOfUps(n, [], n);
    }
  }

  lemma {:induction false} UpwardWay(dir: string, target: string) returns (other: string)
    requires IsPath(dir) && IsPath(target) && Split(target, '/') <= Split(dir, '/')
    ensures LeadsTo(dir, target, other) && ClimbsOf(other) == |Split(dir, '/')| - |Split(target, '/')|
  {
    var from, to := Split(dir, '/'), Split(target, '/');
    var n := |from| - |to|;
    var segs := Upward(n);
    other := Join(segs, "/");
    CleanOfPath(dir);
    CleanOfPath(target);
    UpwardLeads(from, n);
    hide Split, Join, CleanUpTo, Climbs;
    assert "/" == ['/'];
    SplitOfJoin(segs, '/');
    EmptySplit();
    SplitOfConcat(dir, '/', other);
    assert dir + "/" + other == dir + ['/'] + other;
    assert (dir + "/" + other)[0] == dir[0];
    JoinOfSplit(target, '/');
    assert from[..|from| - n] == to;
  }

  lemma {:induction false} SharedButOne(from: seq<string>, to: seq<string>)
    requires to != [] && to <= from
    ensures Shared(from, to, 0) == |to| - 1
  {
    hide Shared;
    assert from[..|to| - 1] == to[..|to| - 1];
    SharedAtLeast(from, to, |to| - 1, 0);
  }

  lemma {:induction false} ShorterWayUp(dir: string, target: string)
    requires IsPath(dir) && IsPath(target) && Split(target, '/') <= Split(dir, '/')
    ensures !NoneClimbsLess(dir, target)
  {
    hide Split, Shared, RelativeTo, LeadsTo, ClimbsOf, IsPath;
    var other := UpwardWay(dir, target);
    ClimbsOfOwn(dir, target);
    SharedButOne(Split(dir, '/'), Split(target, '/'));
  }

  /** Of all relative paths from the directory to the target relativeTo's climbs least,
      exactly when the target is not the directory or one above it. */
  lemma {:induction false} ClimbsLeastExactlyWhen(dir: string, target: string)
    requires IsPath(dir) && IsPath(target)
    ensures NoneClimbsLess(dir, target) <==> !(Split(target, '/') <= Split(dir, '/'))
  {
    hide Split, Shared, CleanUpTo, Clean, RelativeTo;
    var from, to := Split(dir, '/'), Split(target, '/');
    if to <= from {
      ShorterWayUp(dir, target);
    } else {
      CleanOfPath(dir);
      ClimbsOfOwn(dir, target);
      forall other | LeadsTo(dir, target, other)
        ensures ClimbsOf(RelativeTo(dir, target)) <= ClimbsOf(other)
      {
        var whole := dir + "/" + other;
        SplitOfConcat(dir, '/', other);
        assert whole == dir + ['/'] + other;
        assert whole[0] == dir[0];
        CleanTo(whole, target);
        ClimbsPast(from, Split(other, '/'), to);
      }
    }
  }

  // ------------------------------------------------------------------
  // LogDocument

  /** One recorded change: when, in seconds, and what it is about. */
  datatype LogLine = LogLine(at: int, change: string, path: string, title: string, actor: string, note: string)

  /** The UTC day of a change. */
  function Day(l: LogLine): int {
    l.at / 86400
  }

  /** What the page is made of: a date heading, or a change with its words and its
      link. */
  datatype Piece = Date(day: int) | Change(line: LogLine, text: string, link: string)

  function Insert(x: LogLine, s: seq<LogLine>): seq<LogLine> {
    if s == [] || x.at >= s[0].at then [x] + s else [s[0]] + Insert(x, s[1..])
  }

  /** SliceStable, newest first: lines of one instant keep their order. */
  function NewestFirst(s: seq<LogLine>): seq<LogLine> {
    if s == [] then [] else Insert(s[0], NewestFirst(s[1..]))
  }

  function ChangeOf(l: LogLine, dir: string): Piece {
    Change(l, if l.title == "" then l.path else l.title, RelativeTo(dir, l.path))
  }

  /** The pieces of the first n lines, and the day the last of them is under. */
  function PiecesUpTo(lines: seq<LogLine>, dir: string, n: nat): seq<Piece>
    requires n <= |lines|
  {
    if n == 0 then []
    else
      PiecesUpTo(lines, dir, n - 1)
      + (if n == 1 || Day(lines[n - 1]) != Day(lines[n - 2]) then [Date(Day(lines[n - 1]))] else [])
      + [ChangeOf(lines[n - 1], dir)]
  }

  /** The page, with the caller's slice sorted in place on the way. */
  method LogDocument(dir: string, lines: array<LogLine>) returns (page: seq<Piece>)
    modifies lines
    ensures lines[..] == NewestFirst(old(lines[..]))
    ensures page == PiecesUpTo(NewestFirst(old(lines[..])), dir, lines.Length)
  {
    hide RelativeTo, NewestFirst;
    var sorted := NewestFirst(lines[..]);
    SortKeeps(lines[..]);
    forall i | 0 <= i < lines.Length {
      lines[i] := sorted[i];
    }
    page := [];
    var day := None;
    for k := 0 to lines.Length
      invariant lines[..] == sorted && page == PiecesUpTo(sorted, dir, k)
      invariant day == if k == 0 then None else Some(Day(sorted[k - 1]))
    {
      var l := sorted[k];
      if day != Some(Day(l)) {
        day := Some(Day(l));
        page := page + [Date(Day(l))];
      }
      var text := if l.title == "" then l.path else l.title;
      var link := RelativePath(dir, l.path);
      page := page + [Change(l, text, link)];
    }
  }

  // ------------------------------------------------------------------
  // The order of the page

  predicate Newest(s: seq<LogLine>) {
    forall i, j | 0 <= i < j < |s| :: s[i].at >= s[j].at
  }

  lemma {:induction false} NewestCons(x: LogLine, s: seq<LogLine>)
    ensures Newest([x] + s) <==> Newest(s) && forall y | y in s :: x.at >= y.at
  {
    var r := [x] + s;
    if Newest(r) {
      forall i, j | 0 <= i < j < |s|
        ensures s[i].at >= s[j].at
      {
        assert r[i + 1].at >= r[j + 1].at;
      }
      forall y | y in s
        ensures x.at >= y.at
      {
        var k :| 0 <= k < |s| && s[k] == y;
        assert r[0].at >= r[k + 1].at;
      }
    }
  }

  lemma {:induction false} InsertHas(x: LogLine, s: seq<LogLine>)
    ensures multiset(Insert(x, s)) == multiset{x} + multiset(s) && |Insert(x, s)| == |s| + 1
    ensures forall y :: y in Insert(x, s) <==> y == x || y in s
  {
    if s != [] {
      assert s == [s[0]] + s[1..];
      if x.at < s[0].at {
        InsertHas(x, s[1..]);
      }
    }
  }

  lemma {:induction false} InsertKeeps(x: LogLine, s: seq<LogLine>)
    requires Newest(s)
    ensures Newest(Insert(x, s))
  {
    hide Newest;
    NewestCons(x, s);
    if s != [] {
      assert s == [s[0]] + s[1..];
      NewestCons(s[0], s[1..]);
      if x.at < s[0].at {
        InsertKeeps(x, s[1..]);
        InsertHas(x, s[1..]);
        NewestCons(s[0], Insert(x, s[1..]));
      }
    }
  }

  lemma {:induction false} SortKeeps(s: seq<LogLine>)
    ensures multiset(NewestFirst(s)) == multiset(s) && |NewestFirst(s)| == |s| && Newest(NewestFirst(s))
  {
    if s != [] {
      SortKeeps(s[1..]);
      InsertKeeps(s[0], NewestFirst(s[1..]));
      InsertHas(s[0], NewestFirst(s[1..]));
      assert s == [s[0]] + s[1..];
    }
  }

  function IfAt(x: LogLine, at: int): seq<LogLine> {
    if x.at == at then [x] else []
  }

  /** The lines of one instant. */
  function AtInstant(s: seq<LogLine>, at: int): seq<LogLine> {
    if s == [] then [] else IfAt(s[0], at) + AtInstant(s[1..], at)
  }

  lemma {:induction false} AtCons(x: LogLine, s: seq<LogLine>, at: int)
    ensures AtInstant([x] + s, at) == IfAt(x, at) + AtInstant(s, at)
  {
    hide IfAt;
    assert ([x] + s)[1..] == s;
  }

  lemma {:induction false} IfAtSwap(x: LogLine, y: LogLine, at: int, rest: seq<LogLine>)
    requires x.at != y.at
    ensures IfAt(y, at) + (IfAt(x, at) + rest) == IfAt(x, at) + (IfAt(y, at) + rest)
  {
  }

  lemma {:induction false} InsertStable(x: LogLine, s: seq<LogLine>, at: int)
    ensures AtInstant(Insert(x, s), at) == IfAt(x, at) + AtInstant(s, at)
  {
    hide AtInstant, IfAt;
    if s == [] || x.at >= s[0].at {
      AtCons(x, s, at);
    } else {
      InsertStable(x, s[1..], at);
      AtCons(s[0], Insert(x, s[1..]), at);
      AtCons(s[0], s[1..], at);
      assert s == [s[0]] + s[1..];
      IfAtSwap(x, s[0], at, AtInstant(s[1..], at));
    }
  }

  /** The sort keeps the order of changes recorded at one instant. */
  lemma {:induction false} SortIsStable(s: seq<LogLine>, at: int)
    ensures AtInstant(NewestFirst(s), at) == AtInstant(s, at)
  {
    if s != [] {
      SortIsStable(s[1..], at);
      InsertStable(s[0], NewestFirst(s[1..]), at);
    }
  }

  function Dates(page: seq<Piece>): seq<int> {
    if page == [] then []
    else Dates(page[..|page| - 1]) + if page[|page| - 1].Date? then [page[|page| - 1].day] else []
  }

  function Changes(page: seq<Piece>): seq<LogLine> {
    if page == [] then []
    else Changes(page[..|page| - 1]) + if page[|page| - 1].Change? then [page[|page| - 1].line] else []
  }

  lemma {:induction false} OnePiece(page: seq<Piece>, p: Piece)
    ensures Dates(page + [p]) == Dates(page) + if p.Date? then [p.day] else []
    ensures Changes(page + [p]) == Changes(page) + if p.Change? then [p.line] else []
  {
    assert (page + [p])[..|page|] == page;
  }

  lemma {:induction false} PiecesStep(lines: seq<LogLine>, dir: string, n: nat)
    requires n < |lines|
    ensures var before, after, l := PiecesUpTo(lines, dir, n), PiecesUpTo(lines, dir, n + 1), lines[n];
            && Changes(after) == Changes(before) + [l]
            && Dates(after) == Dates(before) + if n == 0 || Day(l) != Day(lines[n - 1]) then [Day(l)] else []
  {
    hide RelativeTo, Dates, Changes;
    var before, l := PiecesUpTo(lines, dir, n), lines[n];
    if n == 0 || Day(l) != Day(lines[n - 1]) {
      OnePiece(before, Date(Day(l)));
      OnePiece(before + [Date(Day(l))], ChangeOf(l, dir));
    } else {
      OnePiece(before, ChangeOf(l, dir));
      assert before + [] == before;
    }
  }

  predicate Decreasing(days: seq<int>) {
    forall i, j | 0 <= i < j < |days| :: days[i] > days[j]
  }

  lemma {:induction false} PageOrder(lines: seq<LogLine>, dir: string, n: nat)
    requires n <= |lines| && Newest(lines)
    ensures Changes(PiecesUpTo(lines, dir, n)) == lines[..n]
    ensures Decreasing(Dates(PiecesUpTo(lines, dir, n)))
    ensures var days := Dates(PiecesUpTo(lines, dir, n));
            (n == 0 ==> days == []) && (n > 0 ==> days != [] && days[|days| - 1] == Day(lines[n - 1]))
  {
    hide PiecesUpTo, Dates, Changes;
    if n == 0 {
      EmptyPage(lines, dir);
    } else {
      PageOrder(lines, dir, n - 1);
      PiecesStep(lines, dir, n - 1);
      assert lines[..n] == lines[..n - 1] + [lines[n - 1]];
      if n > 1 {
        DaysFall(lines[n - 2].at, lines[n - 1].at);
      }
    }
  }

  lemma {:induction false} DaysFall(a: int, b: int)
    requires a >= b
    ensures a / 86400 >= b / 86400
  {
  }

  lemma {:induction false} EmptyPage(lines: seq<LogLine>, dir: string)
    ensures PiecesUpTo(lines, dir, 0) == [] && Dates([]) == [] && Changes([]) == []
  {
  }

  /** The page lists every change once, newest first and those of one instant in
      the order they were given; each date heading appears once, newest first. */
  lemma {:induction false} LogIsInOrder(lines: seq<LogLine>, dir: string)
    ensures var page := PiecesUpTo(NewestFirst(lines), dir, |NewestFirst(lines)|);
            && multiset(Changes(page)) == multiset(lines) && Newest(Changes(page))
            && (forall at :: AtInstant(Changes(page), at) == AtInstant(lines, at))
            && Decreasing(Dates(page))
  {
    hide PiecesUpTo, Dates, Changes, NewestFirst, AtInstant, Newest, Decreasing;
    var sorted := NewestFirst(lines);
    SortKeeps(lines);
    PageOrder(sorted, dir, |sorted|);
    assert sorted[..|sorted|] == sorted;
    forall at
      ensures AtInstant(sorted, at) == AtInstant(lines, at)
    {
      SortIsStable(lines, at);
    }
  }

  /** Within the 86400 seconds of that day, counted from the first of 1970 in UTC. */
  predicate FallsOn(at: int, day: int) {
    day * 86400 <= at < (day + 1) * 86400
  }

  lemma {:induction false} DayIs(l: LogLine)
    ensures FallsOn(l.at, Day(l))
  {
  }

  /** The heading above a change is the day it falls on. */
  ghost predicate UnderItsDay(page: seq<Piece>, k: nat)
    requires k < |page|
  {
    page[k].Change? ==>
      Dates(page[..k]) != [] && FallsOn(page[k].line.at, Dates(page[..k])[|Dates(page[..k])| - 1])
  }

  lemma {:induction false} PageGrows(lines: seq<LogLine>, dir: string, n: nat)
    requires 0 < n <= |lines|
    ensures var page, before, l := PiecesUpTo(lines, dir, n), PiecesUpTo(lines, dir, n - 1), lines[n - 1];
            || (page == before + [Date(Day(l))] + [ChangeOf(l, dir)])
            || (n > 1 && Day(l) == Day(lines[n - 2]) && page == before + [ChangeOf(l, dir)])
  {
    hide ChangeOf;
    if n > 1 && Day(lines[n - 1]) == Day(lines[n - 2]) {
      var before := PiecesUpTo(lines, dir, n - 1);
      assert before + [] == before;
    }
  }

  /** The title, or the path of what has none. */
  predicate IsWordsFor(text: string, l: LogLine) {
    (l.title != "" ==> text == l.title) && (l.title == "" ==> text == l.path)
  }

  /** Every change stands under the heading of its own day, in its title's words or its
      path, and its link leads from the page's directory to what changed. */
  lemma {:induction false} ChangesAreFiled(lines: seq<LogLine>, dir: string, n: nat, k: nat)
    requires n <= |lines| && Newest(lines) && k < |PiecesUpTo(lines, dir, n)|
    requires (dir == "" || IsPath(dir)) && forall i | 0 <= i < |lines| :: IsPath(lines[i].path)
    ensures UnderItsDay(PiecesUpTo(lines, dir, n), k)
    ensures var p := PiecesUpTo(lines, dir, n)[k];
            p.Change? ==> Join2(dir, p.link) == p.line.path && IsWordsFor(p.text, p.line)
  {
    hide RelativeTo, Dates, IsPath, Join2, PiecesUpTo, FallsOn;
    if n == 0 {
      EmptyPage(lines, dir);
    } else {
      var page, before := PiecesUpTo(lines, dir, n), PiecesUpTo(lines, dir, n - 1);
      PageGrows(lines, dir, n);
      if k < |before| {
        ChangesAreFiled(lines, dir, n - 1, k);
        assert page[..k] == before[..k] && page[k] == before[k];
      } else if page[k].Change? {
        LastIsFiled(lines, dir, n, page, before);
      }
    }
  }

  lemma {:induction false} LastIsFiled(lines: seq<LogLine>, dir: string, n: nat, page: seq<Piece>, before: seq<Piece>)
    requires 0 < n <= |lines| && Newest(lines) && page == PiecesUpTo(lines, dir, n)
            && before == PiecesUpTo(lines, dir, n - 1)
    requires (dir == "" || IsPath(dir)) && IsPath(lines[n - 1].path)
    ensures page != [] && page[|page| - 1] == ChangeOf(lines[n - 1], dir)
    ensures UnderItsDay(page, |page| - 1)
    ensures Join2(dir, RelativeTo(dir, lines[n - 1].path)) == lines[n - 1].path
  {
    hide RelativeTo, Dates, IsPath, Join2, PiecesUpTo, FallsOn;
    var l := lines[n - 1];
    DayIs(l);
    PageGrows(lines, dir, n);
    RelativeLeadsBack(dir, l.path);
    PageOrder(lines, dir, n - 1);
    OnePiece(before, Date(Day(l)));
    if page == before + [Date(Day(l))] + [ChangeOf(l, dir)] {
      assert page[..|page| - 1] == before + [Date(Day(l))];
    } else {
      assert page[..|page| - 1] == before;
    }
  }
}
