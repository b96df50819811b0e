/** Slash-separated paths as Go's package path treats them: Clean, Join and Dir,
    worked out on the segments between slashes. */
module Paths {
  import opened Text

  /** One segment of a path taken into account. */
  function Step(out: seq<string>, seg: string, rooted: bool): seq<string> {
    if seg == "" || seg == "." then out
    else if seg != ".." then out + [seg]
    else if out != [] && out[|out| - 1] != ".." then out[..|out| - 1]
    else if rooted then out
    else out + [".."]
  }

  /** The segments that remain of the first n. */
  function CleanUpTo(segs: seq<string>, rooted: bool, n: nat): seq<string>
    requires n <= |segs|
  {
    if n == 0 then [] else Step(CleanUpTo(segs, rooted, n - 1), segs[n - 1], rooted)
  }

  function CleanSegments(p: string): seq<string> {
    CleanUpTo(Split(p, '/'), p != "" && p[0] == '/', |Split(p, '/')|)
  }

  function Clean(p: string): string {
    if p != "" && p[0] == '/' then "/" + Text.Join(CleanSegments(p), "/")
    else if CleanSegments(p) == [] then "."
    else Text.Join(CleanSegments(p), "/")
  }

  /** path.Join of two elements: empty ones do not count. */
  function Join2(a: string, b: string): string {
    if a == "" && b == "" then ""
    else if a == "" then Clean(b)
    else if b == "" then Clean(a)
    else Clean(a + "/" + b)
  }

  predicate NotSlash(c: char) {
    c != '/'
  }

  /** The part of p up to its last slash, which it includes. */
  function UpToSlash(p: string): string {
    TrimRight(p, NotSlash)
  }

  lemma {:induction false} TrimAll(s: string, cut: char -> bool)
    requires forall i | 0 <= i < |s| :: cut(s[i])
    ensures TrimRight(s, cut) == ""
  {
    if s != "" {
      TrimAll(s[..|s| - 1], cut);
    }
  }

  function Dir(p: string): string {
    Clean(UpToSlash(p))
  }

  // ------------------------------------------------------------------
  // What a clean path is made of

  /** Segments a clean path may have: none empty, none ".", no slash in one. */
  predicate Segments(segs: seq<string>) {
    forall k | 0 <= k < |segs| :: segs[k] != "" && segs[k] != "." && '/' !in segs[k]
  }

  lemma {:induction false} CleanIsSegments(segs: seq<string>, rooted: bool, n: nat)
    requires n <= |segs| && forall p | p in segs :: '/' !in p
    ensures Segments(CleanUpTo(segs, rooted, n))
  {
    if n > 0 {
      CleanIsSegments(segs, rooted, n - 1);
    }
  }

  /** Every character of t is one of s, or a slash. */
  predicate From(t: string, s: string) {
    forall c | c in t :: c in s || c == '/'
  }

  predicate AllFrom(segs: seq<string>, s: string) {
    forall p | p in segs :: From(p, s)
  }

  lemma {:induction false} SplitFrom(s: string)
    ensures AllFrom(Split(s, '/'), s)
  {
    if s != "" {
      SplitFrom(s[1..]);
      var tail := Split(s[1..], '/');
      forall p | p in Split(s, '/')
        ensures From(p, s)
      {
        if p in tail {
          assert From(p, s[1..]);
        } else if p != "" {
          assert p == [s[0]] + tail[0];
          assert tail[0] in tail;
          assert From(tail[0], s[1..]);
        }
      }
    }
  }

  lemma {:induction false} CleanFromUpTo(segs: seq<string>, rooted: bool, n: nat, s: string)
    requires n <= |segs| && AllFrom(segs, s)
    ensures AllFrom(CleanUpTo(segs, rooted, n), s)
  {
    hide From;
    if n > 0 {
      CleanFromUpTo(segs, rooted, n - 1, s);
      assert segs[n - 1] in segs;
    }
  }

  lemma {:induction false} JoinFrom(segs: seq<string>, s: string)
    requires AllFrom(segs, s)
    ensures From(Text.Join(segs, "/"), s)
  {
    if |segs| == 1 {
      assert segs[0] in segs;
    } else if |segs| > 1 {
      assert segs[0] in segs;
      JoinFrom(segs[1..], s);
      var rest := Text.Join(segs[1..], "/");
      forall c | c in segs[0] + "/" + rest
        ensures c in s || c == '/'
      {
      }
    }
  }

  lemma {:induction false} JoinEdges(segs: seq<string>)
    requires Segments(segs) && segs != []
    ensures var t := Text.Join(segs, "/"); t != "" && t[0] != '/' && t[|t| - 1] != '/'
  {
    assert segs[0][0] in segs[0];
    if |segs| == 1 {
      assert segs[0][|segs[0]| - 1] in segs[0];
    } else {
      JoinEdges(segs[1..]);
    }
  }

  /** A clean path that is not rooted has no slash at either end and no character
      the path did not have. */
  lemma {:induction false} CleanShape(p: string)
    requires p == "" || p[0] != '/'
    ensures var r := Clean(p); r != "" && r[0] != '/' && r[|r| - 1] != '/' && (r != "." ==> From(r, p))
  {
    hide CleanUpTo;
    var segs := Split(p, '/');
    CleanIsSegments(segs, false, |segs|);
    SplitFrom(p);
    CleanFromUpTo(segs, false, |segs|, p);
    if CleanSegments(p) != [] {
      JoinFrom(CleanSegments(p), p);
      JoinEdges(CleanSegments(p));
    }
  }

  // ------------------------------------------------------------------
  // A clean path is no longer than the path

  function Weight(segs: seq<string>, n: nat): nat
    requires n <= |segs|
  {
    if n == 0 then 0 else Weight(segs, n - 1) + |segs[n - 1]| + 1
  }

  lemma {:induction false} WeightOfPrefix(a: seq<string>, b: seq<string>, n: nat)
    requires n <= |a| <= |b| && a == b[..|a|]
    ensures Weight(a, n) == Weight(b, n)
  {
    if n > 0 {
      WeightOfPrefix(a, b, n - 1);
    }
  }

  lemma {:induction false} WeightFirst(segs: seq<string>, n: nat)
    requires 0 < n <= |segs|
    ensures Weight(segs, n) == |segs[0]| + 1 + Weight(segs[1..], n - 1)
  {
    if n > 1 {
      WeightFirst(segs, n - 1);
    }
  }

  lemma {:induction false} JoinWeight(segs: seq<string>)
    requires segs != []
    ensures |Text.Join(segs, "/")| + 1 == Weight(segs, |segs|)
  {
    WeightFirst(segs, |segs|);
    if |segs| > 1 {
      JoinWeight(segs[1..]);
    }
  }

  lemma {:induction false} StepWeight(out: seq<string>, seg: string, rooted: bool)
    ensures var r := Step(out, seg, rooted);
            Weight(r, |r|) <= Weight(out, |out|) + if seg == "" then 0 else |seg| + 1
  {
    WeightOfPrefix(out, out + [seg], |out|);
    if out != [] {
      WeightOfPrefix(out[..|out| - 1], out, |out| - 1);
    }
  }

  lemma {:induction false} CleanWeight(segs: seq<string>, rooted: bool, n: nat)
    requires n <= |segs|
    ensures var r := CleanUpTo(segs, rooted, n);
            Weight(r, |r|) + (if n > 0 && segs[0] == "" then 1 else 0) <= Weight(segs, n)
  {
    hide Step;
    if n > 0 {
      CleanWeight(segs, rooted, n - 1);
      StepWeight(CleanUpTo(segs, rooted, n - 1), segs[n - 1], rooted);
    }
  }

  lemma {:induction false} CleanIsNoLonger(p: string)
    ensures Clean(p) == "." || |Clean(p)| <= |p|
  {
    hide CleanUpTo, Split;
    var segs, rooted := Split(p, '/'), p != "" && p[0] == '/';
    NoSlashSplit(p);
    CleanWeight(segs, rooted, |segs|);
    JoinOfSplit(p, '/');
    assert "/" == ['/'];
    JoinWeight(segs);
    if CleanSegments(p) != [] {
      JoinWeight(CleanSegments(p));
    }
  }

  // ------------------------------------------------------------------
  // Paths that Clean leaves alone

  /** Segments that Clean keeps as they are. */
  predicate Settled(segs: seq<string>) {
    forall k | 0 <= k < |segs| :: segs[k] != "" && segs[k] != "." && segs[k] != ".."
  }

  lemma {:induction false} CleanSettled(segs: seq<string>, n: nat)
    requires n <= |segs| && Settled(segs)
    ensures CleanUpTo(segs, false, n) == segs[..n]
  {
    if n > 0 {
      CleanSettled(segs, n - 1);
    }
  }

  predicate IsUp(seg: string) {
    seg == ".."
  }

  /** A ".." comes only after others. */
  predicate UpsFirst(segs: seq<string>) {
    forall j, k | 0 <= j < k < |segs| && IsUp(segs[k]) :: IsUp(segs[j])
  }

  lemma {:induction false} CleanUpsFirst(segs: seq<string>, n: nat)
    requires n <= |segs|
    ensures UpsFirst(CleanUpTo(segs, false, n))
  {
    if n > 0 {
      CleanUpsFirst(segs, n - 1);
      StepUpsFirst(CleanUpTo(segs, false, n - 1), segs[n - 1]);
    }
  }

  lemma {:induction false} StepUpsFirst(out: seq<string>, seg: string)
    requires UpsFirst(out)
    ensures UpsFirst(Step(out, seg, false))
  {
    var r := Step(out, seg, false);
    if |r| == |out| + 1 && IsUp(seg) && out != [] {
      assert IsUp(out[|out| - 1]);
    }
    forall j, k | 0 <= j < k < |r| && IsUp(r[k])
      ensures IsUp(r[j])
    {
      assert j < |out| && r[j] == out[j];
      if k < |out| {
        assert r[k] == out[k];
      }
    }
  }

  lemma {:induction false} JoinStarts(segs: seq<string>)
    requires segs != []
    ensures segs[0] <= Text.Join(segs, "/")
  {
  }

  lemma {:induction false} CleanNotDots(p: string)
    requires (p == "" || p[0] != '/') && !(".." <= Clean(p)) && Clean(p) != "."
    ensures Settled(CleanSegments(p)) && CleanSegments(p) != [] && Clean(p) == Text.Join(CleanSegments(p), "/")
    ensures forall q | q in CleanSegments(p) :: '/' !in q
  {
    hide CleanUpTo;
    var segs := CleanSegments(p);
    CleanIsSegments(Split(p, '/'), false, |Split(p, '/')|);
    CleanUpsFirst(Split(p, '/'), |Split(p, '/')|);
    if segs != [] {
      JoinStarts(segs);
      NoneUp(segs);
      forall k | 0 <= k < |segs|
        ensures segs[k] != "" && segs[k] != "." && segs[k] != ".." && '/' !in segs[k]
      {
        assert !IsUp(segs[k]);
      }
    }
  }

  lemma {:induction false} NoneUp(segs: seq<string>)
    requires UpsFirst(segs) && segs != [] && !IsUp(segs[0])
    ensures forall k | 0 <= k < |segs| :: !IsUp(segs[k])
  {
  }

  /** A path of plain segments: what a bundle path is. */
  predicate IsPath(t: string) {
    Settled(Split(t, '/'))
  }

  lemma {:induction false} NoSlashSplit(t: string)
    ensures '/' !in Split(t, '/')[0]
    ensures t != "" && t[0] == '/' ==> Split(t, '/')[0] == ""
  {
    assert Split(t, '/')[0] in Split(t, '/');
  }

  lemma {:induction false} CleanOfPath(t: string)
    requires IsPath(t)
    ensures Clean(t) == t && t != "" && t != "." && t[0] != '/' && t[|t| - 1] != '/'
  {
    hide CleanUpTo, Split;
    var segs := Split(t, '/');
    NoSlashSplit(t);
    JoinOfSplit(t, '/');
    assert "/" == ['/'];
    assert Segments(segs) by {
      forall k | 0 <= k < |segs|
        ensures '/' !in segs[k]
      {
        assert segs[k] in segs;
      }
    }
    JoinEdges(segs);
    CleanSettled(segs, |segs|);
    assert segs[..|segs|] == segs;
    if t == "." {
      SplitWithoutSeparator(t, '/');
    }
  }

  /** What a relative path cleans to, when it does not start with "..". */
  lemma {:induction false} CleanIsPath(p: string)
    requires (p == "" || p[0] != '/') && !(".." <= Clean(p)) && Clean(p) != "."
    ensures IsPath(Clean(p))
  {
    hide CleanSegments;
    CleanNotDots(p);
    SplitOfJoin(CleanSegments(p), '/');
    assert "/" == ['/'];
  }

  lemma {:induction false} PathConcat(a: string, b: string)
    ensures IsPath(a + "/" + b) <==> IsPath(a) && IsPath(b)
  {
    hide Split;
    SplitOfConcat(a, '/', b);
    assert a + "/" + b == a + ['/'] + b;
    var x, y := Split(a, '/'), Split(b, '/');
    assert forall k | 0 <= k < |y| :: (x + y)[|x| + k] == y[k];
    assert forall k | 0 <= k < |x| :: (x + y)[k] == x[k];
  }
}
