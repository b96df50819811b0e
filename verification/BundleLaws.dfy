/** What reading a bundle promises (internal/okf/bundle.go, internal/okf/file.go):
    every file of the input goes one way, with its bytes, and no two objects of the
    result share an address. */
module BundleLaws {
  import opened Text
  import opened Paths
  import opened Order
  import opened Bundle

  // ------------------------------------------------------------------
  // Nothing is dropped

  function Count(s: seq<string>, p: string): nat {
    if s == [] then 0 else Count(s[..|s| - 1], p) + if s[|s| - 1] == p then 1 else 0
  }

  lemma {:induction false} CountOneMore(s: seq<string>, x: string, p: string)
    ensures Count(s + [x], p) == Count(s, p) + if x == p then 1 else 0
  {
    assert (s + [x])[..|s|] == s;
  }

  function CountKind(rules: Rules, files: Files, paths: seq<string>, kind: Kind, n: nat, p: string): nat
    requires n <= |paths|
  {
    Count(OfKind(rules, files, paths, kind, n), p)
  }

  /** The five kinds share out the paths. */
  lemma {:induction false} KindsShareOut(rules: Rules, files: Files, paths: seq<string>, n: nat, p: string)
    requires n <= |paths| && forall q | q in paths :: q in files
    ensures CountKind(rules, files, paths, HiddenFile, n, p) + CountKind(rules, files, paths, IndexPage, n, p)
            + CountKind(rules, files, paths, ReservedNote, n, p) + CountKind(rules, files, paths, OtherFile, n, p)
            + CountKind(rules, files, paths, ConceptFile, n, p)
            == Count(paths[..n], p)
  {
    hide OfKind, KindOf, Count;
    if n == 0 {
      NothingCounted(rules, files, paths, p);
    } else {
      var q := paths[n - 1];
      assert q in paths;
      KindsShareOut(rules, files, paths, n - 1, p);
      KindStep(rules, files, paths, n - 1);
      CountOneMore(OfKind(rules, files, paths, KindOf(rules, q, files[q]), n - 1), q, p);
      CountOneMore(paths[..n - 1], q, p);
      assert paths[..n] == paths[..n - 1] + [q];
    }
  }

  lemma {:induction false} NothingCounted(rules: Rules, files: Files, paths: seq<string>, p: string)
    ensures forall kind :: OfKind(rules, files, paths, kind, 0) == []
    ensures Count([], p) == 0 && paths[..0] == []
  {
  }

  /** The three ends share out what is neither concept nor page. */
  lemma {:induction false} EndsShareOut(rules: Rules, files: Files, used: set<string>, rest: seq<string>, n: nat,
                                        p: string)
    requires n <= |rest| && forall q | q in rest :: q in files
    ensures Count(WithEnd(rules, files, used, rest, Claimed, n), p)
            + Count(WithEnd(rules, files, used, rest, Skipped, n), p)
            + Count(WithEnd(rules, files, used, rest, Loose, n), p)
            == Count(rest[..n], p)
  {
    hide WithEnd, EndOf, Count;
    if n == 0 {
      NothingEnded(rules, files, used, rest, p);
    } else {
      var q := rest[n - 1];
      assert q in rest;
      EndsShareOut(rules, files, used, rest, n - 1, p);
      EndStep(rules, files, used, rest, n - 1);
      CountOneMore(WithEnd(rules, files, used, rest, EndOf(rules, files, used, q), n - 1), q, p);
      CountOneMore(rest[..n - 1], q, p);
      assert rest[..n] == rest[..n - 1] + [q];
    }
  }

  lemma {:induction false} NothingEnded(rules: Rules, files: Files, used: set<string>, rest: seq<string>, p: string)
    ensures forall end :: WithEnd(rules, files, used, rest, end, 0) == []
    ensures Count([], p) == 0 && rest[..0] == []
  {
  }

  lemma {:induction false} CountedOnce(paths: seq<string>, p: string)
    requires Increasing(Less, paths)
    ensures Count(paths, p) == if p in paths then 1 else 0
  {
    if paths != [] {
      var before, last := paths[..|paths| - 1], paths[|paths| - 1];
      assert Increasing(Less, before);
      CountedOnce(before, p);
      assert paths == before + [last];
      if last in before {
        var k :| 0 <= k < |before| && before[k] == last;
        assert Less(paths[k], paths[|paths| - 1]);
        LessIsIrreflexive(last);
      }
    }
  }

  /** The lists a reading is made of. */
  ghost function PathsOf(files: Files): seq<string> {
    SortedStrings(files.Keys)
  }

  ghost function ListOf(rules: Rules, files: Files, kind: Kind): seq<string> {
    OfKind(rules, files, PathsOf(files), kind, |PathsOf(files)|)
  }

  ghost function RestOf(rules: Rules, files: Files, used: set<string>, end: End): seq<string> {
    var rest := ListOf(rules, files, OtherFile);
    WithEnd(rules, files, used, rest, end, |rest|)
  }

  /** Every file of the input is exactly once a hidden file, an index page, a
      reserved note, a concept, a claimed file, a skipped one or a loose one. */
  lemma {:induction false} EveryFileOnce(rules: Rules, files: Files, used: set<string>, p: string)
    requires p in files
    ensures Count(ListOf(rules, files, HiddenFile), p) + Count(ListOf(rules, files, IndexPage), p)
            + Count(ListOf(rules, files, ReservedNote), p) + Count(ListOf(rules, files, ConceptFile), p)
            + Count(RestOf(rules, files, used, Claimed), p) + Count(RestOf(rules, files, used, Skipped), p)
            + Count(RestOf(rules, files, used, Loose), p)
            == 1
  {
    hide OfKind, WithEnd, Count;
    var paths := PathsOf(files);
    KindsShareOut(rules, files, paths, |paths|, p);
    assert paths[..|paths|] == paths;
    CountedOnce(paths, p);
    var rest := ListOf(rules, files, OtherFile);
    OfKindFrom(rules, files, paths, OtherFile, |paths|);
    EndsShareOut(rules, files, used, rest, |rest|, p);
    assert rest[..|rest|] == rest;
  }

  // ------------------------------------------------------------------
  // What a claim keeps

  /** Every attributed file is one of the input with its bytes, under its own name,
      and no markdown; the used paths are theirs; a concept has one of each name. */
  ghost predicate Sound(index: Files, c: Claims) {
    && (forall a | a in c.atts ::
          a.path in index && a.data == index[a.path] && a.path in c.used && !AnyMd(a.path) && a.name == Base(a.path))
    && (forall p | p in c.used :: exists a :: a in c.atts && a.path == p)
  }

  lemma {:induction false} AttachSound(rules: Rules, index: Files, c: Claims, k: nat, id: string, p: string)
    requires Sound(index, c) && p in index && !AnyMd(p)
    ensures Sound(index, Attach(rules, c, k, id, p, index[p]))
    ensures c.used <= Attach(rules, c, k, id, p, index[p]).used && c.seen <= Attach(rules, c, k, id, p, index[p]).seen
    ensures rules.attachable(Base(p), index[p]) ==> (k, Base(p)) in Attach(rules, c, k, id, p, index[p]).seen
  {
    hide AnyMd, Base;
    var r := Attach(rules, c, k, id, p, index[p]);
    if r != c {
      var a := AttributedFile(id, Base(p), p, index[p]);
      assert a in r.atts;
      forall q | q in r.used
        ensures exists b :: b in r.atts && b.path == q
      {
        if q in c.used {
          var b :| b in c.atts && b.path == q;
          assert b in r.atts;
        }
      }
    }
  }

  lemma {:induction false} LinksSound(rules: Rules, index: Files, c: Claims, k: nat, id: string,
                                      targets: seq<string>, n: nat)
    requires n <= |targets| && Sound(index, c)
    ensures var r := LinksClaim(rules, index, c, k, id, targets, n);
            Sound(index, r) && c.used <= r.used && c.seen <= r.seen
  {
    hide AnyMd, Attach, Sound;
    if n > 0 {
      LinksSound(rules, index, c, k, id, targets, n - 1);
      var before, p := LinksClaim(rules, index, c, k, id, targets, n - 1), targets[n - 1];
      if p in index && !AnyMd(p) {
        AttachSound(rules, index, before, k, id, p);
      }
    }
  }

  lemma {:induction false} ReferencesSound(rules: Rules, index: Files, entries: seq<Entry>, n: nat)
    requires n <= |entries|
    ensures Sound(index, ByReference(rules, index, entries, n))
  {
    hide LinksClaim;
    if n > 0 {
      ReferencesSound(rules, index, entries, n - 1);
      var e := entries[n - 1];
      var targets := rules.targets(e.id, e.body);
      LinksSound(rules, index, ByReference(rules, index, entries, n - 1), n - 1, e.id, targets, |targets|);
    }
  }

  lemma {:induction false} NamespacesSound(
    rules: Rules, index: Files, entries: seq<Entry>, c: Claims, rest: seq<string>, n: nat)
    requires n <= |rest| && Sound(index, c)
    ensures var r := ByNamespace(rules, index, entries, c, rest, n);
            Sound(index, r) && c.used <= r.used && c.seen <= r.seen
  {
    hide AnyMd, Attach, Sound;
    if n > 0 {
      NamespacesSound(rules, index, entries, c, rest, n - 1);
      var before, p := ByNamespace(rules, index, entries, c, rest, n - 1), rest[n - 1];
      if p in index && p !in before.used && !AnyMd(p) {
        var owner := Owner(entries, Dir(p));
        if owner.Some? && owner.value < |entries| {
          AttachSound(rules, index, before, owner.value, entries[owner.value].id, p);
        }
      }
    }
  }

  lemma {:induction false} ClaimsSound(rules: Rules, index: Files, entries: seq<Entry>)
    ensures Sound(index, AllClaims(rules, index, entries))
  {
    hide ByReference, ByNamespace, Sound;
    ReferencesSound(rules, index, entries, |entries|);
    var rest := SortedStrings(index.Keys);
    NamespacesSound(rules, index, entries, ByReference(rules, index, entries, |entries|), rest, |rest|);
  }

  /** A file that a concept refers to, and that may be one, is that concept's; or
      the concept has a file of that name already. */
  lemma {:induction false} LinkIsHonoured(
    rules: Rules, index: Files, c: Claims, k: nat, id: string, targets: seq<string>, n: nat, i: nat)
    requires i < n <= |targets| && Sound(index, c)
    requires targets[i] in index && !AnyMd(targets[i]) && rules.attachable(Base(targets[i]), index[targets[i]])
    ensures (k, Base(targets[i])) in LinksClaim(rules, index, c, k, id, targets, n).seen
  {
    hide AnyMd, Attach, Sound, Base;
    LinksSound(rules, index, c, k, id, targets, n - 1);
    var before, p := LinksClaim(rules, index, c, k, id, targets, n - 1), targets[n - 1];
    if p in index && !AnyMd(p) {
      AttachSound(rules, index, before, k, id, p);
    }
    if i < n - 1 {
      LinkIsHonoured(rules, index, c, k, id, targets, n - 1, i);
    }
  }

  lemma {:induction false} ReferenceIsHonoured(rules: Rules, index: Files, entries: seq<Entry>, n: nat, k: nat, i: nat)
    requires k < n <= |entries|
    requires var targets := rules.targets(entries[k].id, entries[k].body);
             i < |targets| && targets[i] in index && !AnyMd(targets[i])
                 && rules.attachable(Base(targets[i]), index[targets[i]])
    ensures (k, Base(rules.targets(entries[k].id, entries[k].body)[i])) in ByReference(rules, index, entries, n).seen
  {
    hide AnyMd, LinksClaim, Sound, Base;
    var e := entries[n - 1];
    var before, targets := ByReference(rules, index, entries, n - 1), rules.targets(e.id, e.body);
    ReferencesSound(rules, index, entries, n - 1);
    LinksSound(rules, index, before, n - 1, e.id, targets, |targets|);
    if k == n - 1 {
      LinkIsHonoured(rules, index, before, k, e.id, targets, |targets|, i);
    } else {
      ReferenceIsHonoured(rules, index, entries, n - 1, k, i);
    }
  }

  // ------------------------------------------------------------------
  // Claimed files of the input

  /** The attributed files are exactly the claimed files of the input, hidden ones
      aside, with their bytes. */
  lemma {:induction false} ClaimedAreAttributed(rules: Rules, files: Files, index: Files, r: Reading, p: string)
    requires Distinct(files) && IsIndexOf(files, index) && IsReading(rules, files, index, r)
    requires p in files && KindOf(rules, p, files[p]) != HiddenFile
    ensures (exists a :: a in r.atts && a.path == Cleaned(p))
            <==> p in RestOf(rules, files, AllClaims(rules, index, r.entries).used, Claimed)
    ensures forall a | a in r.atts && a.path == Cleaned(p) :: a.data == files[p]
  {
    hide Cleaned, Base, AnyMd, AllClaims, Hidden, OfKind, WithEnd, EntriesAt, LooseAt, Distinct;
    var claims := AllClaims(rules, index, r.entries);
    ClaimsSound(rules, index, r.entries);
    assert Cleaned(p) in index && index[Cleaned(p)] == files[p];
    if Cleaned(p) in claims.used {
      var a :| a in claims.atts && a.path == Cleaned(p);
      UsedIsOther(rules, p, files[p]);
    }
    InRest(rules, files, claims.used, p, Claimed);
  }

  /** Only markdown is a concept or a page. */
  lemma {:induction false} UsedIsOther(rules: Rules, p: string, data: string)
    requires !AnyMd(Cleaned(p)) && KindOf(rules, p, data) != HiddenFile
    ensures KindOf(rules, p, data) == OtherFile
  {
    hide Cleaned, Hidden, Clean;
    var clean := Cleaned(p);
    MdIsAnyMd(clean);
    BaseEnds(clean);
    BaseIsMd(clean);
  }

  /** A path ends in its last segment. */
  lemma {:induction false} BaseEnds(p: string)
    ensures |Base(p)| <= |p| && p[|p| - |Base(p)|..] == Base(p)
  {
    if p != "" {
      BaseEnds(p[1..]);
      var tail := Split(p[1..], '/');
      if |tail| == 1 && p[0] != '/' {
        NoSeparator(p[1..]);
        assert Base(p) == [p[0]] + tail[0] == p;
      } else {
        assert Base(p) == Base(p[1..]);
        var k := |Base(p)|;
        assert p[|p| - k..] == p[1..][|p| - 1 - k..];
      }
    }
  }

  lemma {:induction false} NoSeparator(p: string)
    requires |Split(p, '/')| == 1
    ensures Split(p, '/')[0] == p
  {
    JoinOfSplit(p, '/');
  }

  lemma {:induction false} BaseIsMd(p: string)
    requires |Base(p)| <= |p| && p[|p| - |Base(p)|..] == Base(p)
    ensures Base(p) == "index.md" || Base(p) == "log.md" ==> AnyMd(p)
  {
    var b, n := Base(p), |p|;
    if b == "index.md" || b == "log.md" {
      assert b[|b| - 3] == p[n - 3] && b[|b| - 2] == p[n - 2] && b[|b| - 1] == p[n - 1];
    }
  }

  lemma {:induction false} InOfKind(rules: Rules, files: Files, paths: seq<string>, kind: Kind, n: nat, p: string)
    requires n <= |paths| && p in files && p in paths[..n]
    ensures p in OfKind(rules, files, paths, kind, n) <==> KindOf(rules, p, files[p]) == kind
  {
    hide KindOf;
    OfKindFrom(rules, files, paths, kind, n);
    if paths[n - 1] != p {
      assert paths[..n] == paths[..n - 1] + [paths[n - 1]];
      InOfKind(rules, files, paths, kind, n - 1, p);
    }
  }

  lemma {:induction false} InWithEnd(rules: Rules, files: Files, used: set<string>, rest: seq<string>, end: End,
                                     n: nat, p: string)
    requires n <= |rest| && p in files
    ensures p in WithEnd(rules, files, used, rest, end, n) <==> p in rest[..n] && EndOf(rules, files, used, p) == end
  {
    hide EndOf;
    if n > 0 {
      InWithEnd(rules, files, used, rest, end, n - 1, p);
      assert rest[..n] == rest[..n - 1] + [rest[n - 1]];
    }
  }

  lemma {:induction false} InRest(rules: Rules, files: Files, used: set<string>, p: string, end: End)
    requires p in files
    ensures p in RestOf(rules, files, used, end)
            <==> KindOf(rules, p, files[p]) == OtherFile && EndOf(rules, files, used, p) == end
  {
    hide KindOf, EndOf, OfKind, WithEnd;
    var paths, rest := PathsOf(files), ListOf(rules, files, OtherFile);
    assert paths[..|paths|] == paths && rest[..|rest|] == rest;
    InOfKind(rules, files, paths, OtherFile, |paths|, p);
    InWithEnd(rules, files, used, rest, end, |rest|, p);
  }
}
