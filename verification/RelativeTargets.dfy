/** What a relative link target names (resolveTarget of internal/domain/links.go), segment
    by segment: so many directories up from the concept's own, then down. */
module RelativeTargets {
  import opened Text
  import opened Paths
  import opened LinkTarget
  import opened LogPages

  /** The segments of the directory a concept stands in. */
  function DirSegments(id: string): seq<string> {
    if DirOf(id) == "" then [] else Split(DirOf(id), '/')
  }

  predicate Named(segs: seq<string>) {
    Settled(segs) && forall p | p in segs :: '/' !in p
  }

  /** Each climb takes a segment away; past the root they pile up. */
  lemma {:induction false} CleanClimbs(from: seq<string>, m: nat, rest: seq<string>, n: nat)
    requires Settled(from) && n <= m
    ensures CleanUpTo(from + Ups(m) + rest, false, |from| + n)
            == if n <= |from| then from[..|from| - n] else Ups(n - |from|)
  {
    hide CleanUpTo, Settled;
    var all := from + Ups(m) + rest;
    if n <= |from| {
      CleanUps(from, m, rest, n);
    } else {
      CleanClimbs(from, m, rest, n - 1);
      assert all[|from| + n - 1] == "..";
      CleanStep(all, |from| + n - 1);
      var before := CleanUpTo(all, false, |from| + n - 1);
      assert before == Ups(n - 1 - |from|);
      assert before + [".."] == Ups(n - |from|);
    }
  }

  lemma {:induction false} CleanStep(all: seq<string>, n: nat)
    requires n < |all|
    ensures CleanUpTo(all, false, n + 1) == Step(CleanUpTo(all, false, n), all[n], false)
  {
  }

  lemma {:induction false} CleanRelative(from: seq<string>, k: nat, rest: seq<string>)
    requires Settled(from) && Settled(rest)
    ensures var all := from + (Ups(k) + rest);
            CleanUpTo(all, false, |all|)
            == (if k <= |from| then from[..|from| - k] else Ups(k - |from|)) + rest
  {
    hide CleanUpTo;
    assert from + (Ups(k) + rest) == from + Ups(k) + rest;
    CleanClimbs(from, k, rest, k);
    CleanPlain(from + Ups(k), false, rest, |rest|);
    assert rest[..|rest|] == rest;
  }

  /** The directory of a concept, joined with a relative path. */
  lemma {:induction false} JoinsRelative(dir: string, k: nat, rest: seq<string>)
    requires (dir == "" || IsPath(dir)) && rest != [] && Named(rest)
    ensures var from, joined := (if dir == "" then [] else Split(dir, '/')),
                                Join2(dir, Repeated(k) + Join(rest, "/"));
            if k <= |from| then joined == Join(from[..|from| - k] + rest, "/") else ".." <= joined
  {
    hide CleanUpTo, Split, Repeated, Join;
    var from, rel := (if dir == "" then [] else Split(dir, '/')), Repeated(k) + Join(rest, "/");
    RelativeSegments(k, rest);
    CleanRelative(from, k, rest);
    NotEmptyNotRooted(k, rest);
    if dir == "" {
      assert [] + (Ups(k) + rest) == Ups(k) + rest;
    } else {
      CleanOfPath(dir);
      SplitOfConcat(dir, '/', rel);
      assert dir + "/" + rel == dir + ['/'] + rel;
      assert (dir + "/" + rel)[0] == dir[0];
    }
    if k > |from| {
      UpsStart(k - |from|, rest);
    }
  }

  lemma {:induction false} NotEmptyNotRooted(k: nat, rest: seq<string>)
    requires rest != [] && Named(rest)
    ensures var rel := Repeated(k) + Join(rest, "/"); rel != "" && rel[0] != '/'
  {
    assert rest[0] in rest && rest[0][0] in rest[0];
    JoinStarts(rest);
    assert rest[0] <= Join(rest, "/");
  }

  lemma {:induction false} UpsStart(n: nat, rest: seq<string>)
    requires n > 0
    ensures ".." <= Join(Ups(n) + rest, "/")
  {
    JoinStarts(Ups(n) + rest);
  }

  lemma {:induction false} NoDot(segs: seq<string>)
    requires Settled(segs)
    ensures Join(segs, "/") != "."
  {
    if |segs| > 1 {
      assert segs[0] != "" && Join(segs, "/") == segs[0] + "/" + Join(segs[1..], "/");
      assert |Join(segs, "/")| > 1;
    }
  }

  /** A relative target of k climbs and the segments of rest names the concept reached from
      the directory of the one it stands in; none where it climbs above the root, or where
      the path reached starts with two dots. */
  lemma {:induction false} RelativeNames(id: string, k: nat, rest: seq<string>, frag: string)
    requires (DirOf(id) == "" || IsPath(DirOf(id))) && rest != [] && Named(rest)
    requires var p := Repeated(k) + Join(rest, "/") + ".md"; NoFrag(p) && !HasScheme(p)
    requires frag != "" ==> IsFrag(frag[0])
    ensures var from := DirSegments(id);
            var reached := Join(from[..if k <= |from| then |from| - k else 0] + rest, "/");
            Resolve(id, Repeated(k) + Join(rest, "/") + ".md" + frag)
            == if k <= |from| && !(".." <= reached) then reached else ""
  {
    hide Join2, DirOf, Repeated, Join, HasScheme, IsPath, Settled, Split;
    var rel := Repeated(k) + Join(rest, "/");
    var p := rel + ".md";
    PartsOf(p, frag);
    JoinsRelative(DirOf(id), k, rest);
    NotEmptyNotRooted(k, rest);
    assert p[..|p| - 3] == rel && p[|p| - 3..] == ".md";
    var from := DirSegments(id);
    if k <= |from| {
      DirIsSettled(id);
      StillSettled(from, |from| - k, rest);
      NoDot(from[..|from| - k] + rest);
    }
  }

  lemma {:induction false} StillSettled(from: seq<string>, n: nat, rest: seq<string>)
    requires n <= |from| && Settled(from) && Settled(rest)
    ensures Settled(from[..n] + rest)
  {
  }

  lemma {:induction false} DirIsSettled(id: string)
    requires DirOf(id) == "" || IsPath(DirOf(id))
    ensures Settled(DirSegments(id))
  {
  }

  /** A target of only the suffix names the directory itself. */
  lemma {:induction false} SuffixNamesDirectory(id: string)
    requires DirOf(id) == "" || IsPath(DirOf(id))
    ensures Resolve(id, ".md") == if ".." <= DirOf(id) then "" else DirOf(id)
  {
    hide DirOf, HasScheme, CleanUpTo, IsPath;
    PartsOf(".md", "");
    assert ".md" + "" == ".md" && ".md"[..0] == "";
    DotHasNoScheme();
    if DirOf(id) != "" {
      CleanOfPath(DirOf(id));
    }
  }

  lemma {:induction false} DotHasNoScheme()
    ensures !HasScheme(".md") && NoFrag(".md")
  {
  }
}
