/** What a change's link on a log page means to the reader of links: relativeTo of
    internal/okf/reserved.go against resolveTarget of internal/domain/links.go. */
module LogLinks {
  import opened Text
  import opened Paths
  import opened LinkTarget
  import opened PathMoves
  import opened PathFollows
  import opened LogPages

  /** A directory of the bundle; "" is the root. */
  predicate IsDirectory(dir: string) {
    dir == "" || IsID(dir)
  }

  /** The page log.md of the directory, named as links are read from it. */
  function LogID(dir: string): string {
    if dir == "" then "x" else dir + "/x"
  }

  lemma {:induction false} DirOfLog(dir: string)
    requires IsDirectory(dir)
    ensures DirOf(LogID(dir)) == dir
  {
    if dir == "" {
      assert UpToSlash("x") == "";
      assert Split("", '/') == [""];
      assert CleanUpTo([""], false, 1) == [];
    } else {
      hide DirOf, IsID;
      DirOfChild(dir);
    }
  }

  // ------------------------------------------------------------------
  // The link to a concept's document

  lemma {:induction false} SharedSame(from: seq<string>, a: seq<string>, b: seq<string>, i: nat)
    requires |a| == |b| && i <= |from| && i < |a| && a[..|a| - 1] == b[..|b| - 1]
    ensures Shared(from, a, i) == Shared(from, b, i)
    decreases |from| - i
  {
    if i < |from| && i < |a| - 1 {
      assert a[i] == a[..|a| - 1][i] == b[i];
      if from[i] == a[i] {
        SharedSame(from, a, b, i + 1);
      }
    }
  }

  lemma {:induction false} JoinSuffix(segs: seq<string>, last: string, suffix: string)
    ensures Join(segs + [last + suffix], "/") == Join(segs + [last], "/") + suffix
  {
    if segs == [] {
      assert segs + [last] == [last] && segs + [last + suffix] == [last + suffix];
    } else {
      JoinSuffix(segs[1..], last, suffix);
      assert (segs + [last])[1..] == segs[1..] + [last];
      assert (segs + [last + suffix])[1..] == segs[1..] + [last + suffix];
    }
  }

  /** The same way down, the last segment aside. */
  lemma {:induction false} DownSame(a: seq<string>, b: seq<string>, suffix: string, i: nat)
    requires i < |a| && b == a[..|a| - 1] + [a[|a| - 1] + suffix]
    ensures Join(b[i..], "/") == Join(a[i..], "/") + suffix
  {
    var m := |a| - 1;
    assert a[i..] == a[i..m] + [a[m]] && b[i..] == a[i..m] + [a[m] + suffix];
    hide *;
    JoinSuffix(a[i..m], a[m], suffix);
  }

  lemma {:induction false} RelativeDoc(dir: string, c: string)
    ensures RelativeTo(dir, c + ".md") == RelativeTo(dir, c) + ".md"
  {
    if dir != "" {
      hide *;
      SplitSuffix(c, ".md");
      var from, a, b := Split(dir, '/'), Split(c, '/'), Split(c + ".md", '/');
      SharedSame(from, a, b, 0);
      RelativeToIs(dir, c);
      RelativeToIs(dir, c + ".md");
      DownSame(a, b, ".md", Shared(from, a, 0));
    }
  }

  // ------------------------------------------------------------------
  // A link with no `#`, `?` or scheme leads to the concept

  lemma {:induction false} PathPartOfWhole(link: string)
    requires NoFrag(link)
    ensures PathPart(link) == link
  {
    PartsOf(link, "");
    assert link + "" == link;
  }

  lemma {:induction false} RelativeStarts(dir: string, c: string)
    requires IsDirectory(dir) && IsPath(c)
    ensures RelativeTo(dir, c) != "" && RelativeTo(dir, c)[0] != '/'
  {
    hide Split, Shared, IsPath;
    CleanOfPath(c);
    if dir != "" {
      var from, to := Split(dir, '/'), Split(c, '/');
      var i := Shared(from, to, 0);
      FirstOfJoin(c, i);
    }
  }

  lemma {:induction false} FirstOfJoin(c: string, i: nat)
    requires IsPath(c) && i < |Split(c, '/')|
    ensures var x := Join(Split(c, '/')[i..], "/"); x != "" && x[0] != '/'
  {
    hide Split;
    var to := Split(c, '/');
    assert to[i] in to;
    assert to[i..][0] == to[i] && to[i][0] in to[i];
    JoinStarts(to[i..]);
  }

  lemma {:induction false} PlainLinkResolves(dir: string, c: string)
    requires IsDirectory(dir) && IsID(c)
    requires var link := RelativeTo(dir, c + ".md"); NoFrag(link) && !HasScheme(link)
    ensures Resolve(LogID(dir), RelativeTo(dir, c + ".md")) == c
  {
    hide RelativeTo, DirOf, Join2, IsPath, PathPart, HasScheme;
    var rel := RelativeTo(dir, c);
    RelativeDoc(dir, c);
    PathPartOfWhole(rel + ".md");
    DirOfLog(dir);
    RelativeStarts(dir, c);
    RelativeLeadsBack(dir, c);
    assert (rel + ".md")[..|rel|] == rel && (rel + ".md")[|rel|..] == ".md";
    IsPathNotEmpty(c);
  }

  // ------------------------------------------------------------------
  // A link that is cut leads elsewhere: what is left of it is too short

  lemma {:induction false} WeightConcat(a: seq<string>, b: seq<string>, n: nat)
    requires n <= |b|
    ensures Weight(a + b, |a| + n) == Weight(a, |a|) + Weight(b, n)
  {
    if n == 0 {
      WeightOfPrefix(a, a + b, |a|);
    } else {
      WeightConcat(a, b, n - 1);
    }
  }

  lemma {:induction false} SplitWeight(s: string)
    ensures Weight(Split(s, '/'), |Split(s, '/')|) == |s| + 1
  {
    hide Split;
    JoinOfSplit(s, '/');
    assert "/" == ['/'];
    JoinWeight(Split(s, '/'));
  }

  lemma {:induction false} CleanTail(base: seq<string>, segs: seq<string>, n: nat)
    requires n <= |segs|
    ensures var start, end := CleanUpTo(base + segs, false, |base|), CleanUpTo(base + segs, false, |base| + n);
            Weight(end, |end|) <= Weight(start, |start|) + Weight(segs, n)
  {
    hide Step;
    if n > 0 {
      CleanTail(base, segs, n - 1);
      assert (base + segs)[|base| + n - 1] == segs[n - 1];
      StepWeight(CleanUpTo(base + segs, false, |base| + n - 1), segs[n - 1], false);
    }
  }

  /** What is reached by climbing to the shared directory and going on along y. */
  lemma {:induction false} ReachWeight(from: seq<string>, i: nat, y: string)
    requires Settled(from) && i <= |from|
    ensures var all := from + Ups(|from| - i) + Split(y, '/');
            var out := CleanUpTo(all, false, |all|);
            Weight(out, |out|) <= Weight(from, i) + |y| + 1
  {
    hide CleanUpTo, Split;
    var n, tail := |from| - i, Split(y, '/');
    CleanUps(from, n, tail, n);
    CleanTail(from + Ups(n), tail, |tail|);
    SplitWeight(y);
    WeightOfPrefix(from[..i], from, i);
  }

  lemma {:induction false} SplitOfClimb(n: nat, y: string)
    ensures Split(Repeated(n) + y, '/') == Ups(n) + Split(y, '/')
  {
    hide Split;
    if n == 0 {
      assert "" + y == y && Ups(0) + Split(y, '/') == Split(y, '/');
    } else {
      SplitOfClimb(n - 1, y);
      SplitAtSeparator("..", '/', Repeated(n - 1) + y);
      assert Repeated(n) + y == ".." + ['/'] + (Repeated(n - 1) + y);
      assert Ups(n) + Split(y, '/') == [".."] + (Ups(n - 1) + Split(y, '/'));
    }
  }

  /** The segments of the directory. */
  function DirSegments(dir: string): seq<string> {
    if dir == "" then [] else Split(dir, '/')
  }

  lemma {:induction false} DirIsSettled(dir: string)
    requires IsDirectory(dir)
    ensures Settled(DirSegments(dir))
  {
  }

  /** Joining the directory with a climb. */
  lemma {:induction false} JoinClimb(dir: string, n: nat, y: string)
    requires IsDirectory(dir) && Repeated(n) + y != "" && (Repeated(n) + y)[0] != '/'
    ensures var all := DirSegments(dir) + Ups(n) + Split(y, '/');
            var out := CleanUpTo(all, false, |all|);
            Join2(dir, Repeated(n) + y) == if out == [] then "." else Join(out, "/")
  {
    hide CleanUpTo, Split, Repeated;
    var rest := Repeated(n) + y;
    SplitOfClimb(n, y);
    if dir == "" {
      assert [] + Ups(n) + Split(y, '/') == Ups(n) + Split(y, '/');
    } else {
      SplitOfConcat(dir, '/', rest);
      assert dir + "/" + rest == dir + ['/'] + rest;
      assert DirSegments(dir) + Ups(n) + Split(y, '/') == Split(dir, '/') + (Ups(n) + Split(y, '/'));
      PathStarts(dir, "/" + rest);
      assert dir + "/" + rest == dir + ("/" + rest);
    }
  }

  /** How the link of c is made: climb to the shared directory, then go down. */
  lemma {:induction false} RelativeIs(dir: string, c: string) returns (i: nat, x: string)
    requires IsDirectory(dir) && IsPath(c)
    ensures i <= |DirSegments(dir)| && x != "" && x[0] != '/'
    ensures RelativeTo(dir, c) == Repeated(|DirSegments(dir)| - i) + x
    ensures |c| == Weight(DirSegments(dir), i) + |x|
  {
    hide Split, Shared, IsPath, RelativeTo;
    CleanOfPath(c);
    if dir == "" {
      RootIsRelative(c);
      i, x := 0, c;
      assert "" + x == x;
    } else {
      var from, to := Split(dir, '/'), Split(c, '/');
      i := Shared(from, to, 0);
      x := Join(to[i..], "/");
      FirstOfJoin(c, i);
      SplitWeight(c);
      RelativeToIs(dir, c);
      assert from[0..i] == to[0..i];
      SharedWeight(from, to, i);
    }
  }

  lemma {:induction false} SharedWeight(from: seq<string>, to: seq<string>, i: nat)
    requires i <= |from| && i < |to| && from[0..i] == to[0..i]
    ensures Weight(to, |to|) == Weight(from, i) + |Join(to[i..], "/")| + 1
  {
    hide *;
    assert to == to[..i] + to[i..];
    WeightConcat(to[..i], to[i..], |to| - i);
    JoinWeight(to[i..]);
    assert to[..i] == from[..i];
    WeightOfPrefix(from[..i], from, i);
  }

  lemma {:induction false} UpsHaveNoFrag(n: nat)
    ensures NoFrag(Repeated(n)) && |Repeated(n)| == 3 * n && (n > 0 ==> Repeated(n)[|Repeated(n)| - 1] == '/')
  {
    if n > 0 {
      UpsHaveNoFrag(n - 1);
    }
  }

  /** Where the part of a link before its first `#` or `?` ends in ".md", it goes on
      past the climb. */
  lemma {:induction false} CutGoesOn(n: nat, x: string, p: string)
    requires |Repeated(n)| == 3 * n && p <= Repeated(n) + x && |p| >= 3 * n && HasSuffix(p, ".md")
    ensures |p| >= 3 * n + 3 && p[..|p| - 3] == Repeated(n) + x[..|p| - 3 - 3 * n]
  {
    UpsHaveNoFrag(n);
    var ups := Repeated(n);
    hide Repeated;
    assert p == (ups + x)[..|p|];
    assert p[|p| - 3..][0] == p[|p| - 3] && p[|p| - 3..][1] == p[|p| - 2] && p[|p| - 3..][2] == p[|p| - 1];
    if n > 0 {
      assert p[3 * n - 1] == '/';
    }
    assert p[..|p| - 3] == (ups + x)[..|p| - 3];
  }

  /** A link is read by joining what is left of it. */
  lemma {:induction false} ResolveJoins(id: string, target: string)
    ensures var p := PathPart(target);
            Resolve(id, target) != ""
            ==> HasSuffix(p, ".md") && |p| >= 3
                && (p[0] == '/' || Resolve(id, target) == Join2(DirOf(id), p[..|p| - 3]))
  {
    hide DirOf, Join2, HasScheme, TrimSlashes;
  }

  lemma {:induction false} CutLinkLeadsElsewhere(dir: string, c: string)
    requires IsDirectory(dir) && IsID(c) && !NoFrag(RelativeTo(dir, c + ".md"))
    ensures Resolve(LogID(dir), RelativeTo(dir, c + ".md")) != c
  {
    hide *;
    IsNotNothing(c);
    RelativeDoc(dir, c);
    var i, x := RelativeIs(dir, c);
    var n := |DirSegments(dir)| - i;
    assert RelativeTo(dir, c + ".md") == Repeated(n) + (x + ".md");
    var link := RelativeTo(dir, c + ".md");
    DirOfLog(dir);
    UpsHaveNoFrag(n);
    CutWithin(Repeated(n), x + ".md");
    ResolveJoins(LogID(dir), link);
    var p := PathPart(link);
    if Resolve(LogID(dir), link) != "" {
      CutGoesOn(n, x + ".md", p);
      var y := (x + ".md")[..|p| - 3 - 3 * n];
      assert |y| < |x| && y == x[..|y|];
      StartsWell(n, x + ".md", p);
      ShortOfIt(dir, c, i, x, y);
    }
  }

  lemma {:induction false} IsNotNothing(c: string)
    requires IsID(c)
    ensures c != "" && IsPath(c)
  {
    hide IsPath;
    IsPathNotEmpty(c);
  }

  lemma {:induction false} StartsWell(n: nat, x: string, p: string)
    requires x != "" && x[0] != '/' && p != "" && p <= Repeated(n) + x
    ensures p[0] != '/'
  {
    assert p[0] == (Repeated(n) + x)[0];
  }

  lemma {:induction false} CutWithin(a: string, b: string)
    requires NoFrag(a) && !NoFrag(a + b)
    ensures var p := PathPart(a + b); p <= a + b && |a| <= |p| < |a + b|
  {
    var t := a + b;
    forall k | 0 <= k < |a|
      ensures !IsFrag(t[k])
    {
      assert t[k] == a[k];
    }
  }

  lemma {:induction false} ShortOfIt(dir: string, c: string, i: nat, x: string, y: string)
    requires IsDirectory(dir) && IsID(c) && i <= |DirSegments(dir)| && x != "" && x[0] != '/'
    requires |c| == Weight(DirSegments(dir), i) + |x| && |y| < |x| && y == x[..|y|]
    ensures Join2(dir, Repeated(|DirSegments(dir)| - i) + y) != c
  {
    hide IsPath, CleanUpTo, Split;
    var from, rest := DirSegments(dir), Repeated(|DirSegments(dir)| - i) + y;
    IsPathNotEmpty(c);
    DirIsSettled(dir);
    if rest == "" {
      WholeDirectory(dir, c, i, x);
    } else {
      assert rest[0] == if i < |from| then '.' else y[0];
      JoinClimb(dir, |from| - i, y);
      ReachWeight(from, i, y);
      var all := from + Ups(|from| - i) + Split(y, '/');
      var out := CleanUpTo(all, false, |all|);
      if out != [] {
        JoinWeight(out);
      }
    }
  }

  lemma {:induction false} WholeDirectory(dir: string, c: string, i: nat, x: string)
    requires IsDirectory(dir) && i == |DirSegments(dir)| && x != "" && |c| == Weight(DirSegments(dir), i) + |x|
    ensures Join2(dir, "") != c
  {
    hide IsPath, Split;
    if dir != "" {
      CleanOfPath(dir);
      SplitWeight(dir);
    }
  }

  // ------------------------------------------------------------------
  // The exact condition

  /** The link of a change to a concept, read on the log page of the directory, names
      that concept exactly when it has no `#` or `?` and does not look like a URL. */
  lemma {:induction false} LogLinkResolvesExactlyWhen(dir: string, c: string)
    requires IsDirectory(dir) && IsID(c)
    ensures var link := RelativeTo(dir, c + ".md");
            Resolve(LogID(dir), link) == c <==> NoFrag(link) && !HasScheme(link)
  {
    hide DirOf, Join2, IsPath, HasScheme, RelativeTo, HasSuffix;
    var link := RelativeTo(dir, c + ".md");
    IsPathNotEmpty(c);
    if !NoFrag(link) {
      CutLinkLeadsElsewhere(dir, c);
    } else if HasScheme(link) {
      PathPartOfWhole(link);
    } else {
      PlainLinkResolves(dir, c);
    }
  }
}
