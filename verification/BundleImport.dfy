/** From a bundle to an import: the addresses the objects of a reading go to
    (internal/okf/bundle.go), and why the import of a bundle meets the conditions
    under which its dry run predicts it (cmd/ochakai/client.go). */
module BundleImport {
  import opened Text
  import opened Paths
  import opened Order
  import opened Bundle
  import opened BundleLaws
  import Import

  // ------------------------------------------------------------------
  // Where loose files are kept

  lemma {:induction false} LooseIndex(files: Files, paths: seq<string>, i: nat)
    requires i < |paths| && forall p | p in paths :: p in files
    ensures |LooseAt(files, paths)| == |paths|
    ensures LooseAt(files, paths)[i] == BundleFile(StoredAt(files, Cleaned(paths[i])), files[paths[i]])
  {
    hide Cleaned, StoredAt;
    var before, last := paths[..|paths| - 1], paths[|paths| - 1];
    assert last in paths;
    LooseLength(files, before);
    if i < |before| {
      LooseIndex(files, before, i);
    }
  }

  lemma {:induction false} LooseLength(files: Files, paths: seq<string>)
    requires forall p | p in paths :: p in files
    ensures |LooseAt(files, paths)| == |paths|
  {
    hide Cleaned, StoredAt;
    if paths != [] {
      assert paths[|paths| - 1] in paths;
      LooseLength(files, paths[..|paths| - 1]);
    }
  }

  predicate EndsMarkdown(stem: string) {
    HasSuffix(stem, ".markdown")
  }

  lemma {:induction false} SameEnds(a: string, b: string, s: string)
    requires a + s == b + s
    ensures a == b
  {
    assert |a| == |b|;
    assert a == (a + s)[..|a|] == (b + s)[..|b|] == b;
  }

  lemma {:induction false} RepeatedEnds(stem: string, n: nat)
    ensures n > 0 ==> EndsMarkdown(Repeated(stem, n))
    ensures n == 0 ==> Repeated(stem, n) == stem
  {
  }

  lemma {:induction false} StemIs(clean: string)
    requires HasSuffix(clean, ".md")
    ensures clean == Stem(clean) + ".md"
  {
  }

  /** The name b grows, by suffixes that are all taken, into the name a. */
  ghost predicate GrowsInto(files: Files, b: string, a: string) {
    exists k: nat :: k > 0 && a == Repeated(b, k) && forall n: nat | 0 < n <= k :: Taken(files, Repeated(b, n))
  }

  /** Two stems that are kept under one name. */
  ghost predicate Collide(files: Files, a: string, b: string) {
    GrowsInto(files, b, a) || GrowsInto(files, a, b)
  }

  lemma {:induction false} RepeatedTwice(stem: string, k: nat, m: nat)
    ensures Repeated(Repeated(stem, k), m) == Repeated(stem, k + m)
  {
    if m > 0 {
      RepeatedTwice(stem, k, m - 1);
    }
  }

  lemma {:induction false} RepeatedBack(a: string, m: nat, b: string, n: nat)
    requires Repeated(a, m) == Repeated(b, n) && m <= n
    ensures a == Repeated(b, n - m)
    decreases m
  {
    if m > 0 {
      SameEnds(Repeated(a, m - 1), Repeated(b, n - 1), ".markdown");
      RepeatedBack(a, m - 1, b, n - 1);
    }
  }

  /** A name that grew into another is kept as that other is. */
  lemma {:induction false} GrownIsKeptAlike(files: Files, a: string, b: string, m: nat)
    requires GrowsInto(files, b, a) && FirstFree(files, a, m)
    ensures exists n :: FirstFree(files, b, n) && Repeated(b, n) == Repeated(a, m)
  {
    hide Repeated, Taken;
    var k: nat :| k > 0 && a == Repeated(b, k) && forall n: nat | 0 < n <= k :: Taken(files, Repeated(b, n));
    RepeatedTwice(b, k, m);
    forall n: nat | 0 < n < k + m
      ensures Taken(files, Repeated(b, n))
    {
      if n > k {
        RepeatedTwice(b, k, n - k);
      }
    }
    assert FirstFree(files, b, k + m);
  }

  lemma {:induction false} KeptAlikeIsGrown(files: Files, a: string, m: nat, b: string, n: nat)
    requires FirstFree(files, a, m) && FirstFree(files, b, n) && Repeated(a, m) == Repeated(b, n) && m <= n && a != b
    ensures GrowsInto(files, b, a)
  {
    hide Taken;
    RepeatedBack(a, m, b, n);
    var k: nat := n - m;
    assert Repeated(b, 0) == b;
    assert k > 0 && a == Repeated(b, k);
  }

  lemma {:induction false} OneCount(files: Files, a: string, b: string, m: nat, n: nat)
    requires FirstFree(files, a, m) && FirstFree(files, b, n) && GrowsInto(files, b, a)
    ensures Repeated(a, m) == Repeated(b, n)
  {
    hide Repeated, Taken, FirstFree, GrowsInto;
    GrownIsKeptAlike(files, a, b, m);
    var x: nat :| FirstFree(files, b, x) && Repeated(b, x) == Repeated(a, m);
    FirstFreeIsOne(files, b, x, n);
  }

  /** Two typeless documents are kept under one name exactly when one of the names
      grows into the other. */
  lemma {:induction false} StemsTogether(files: Files, a: string, m: nat, b: string, n: nat)
    requires FirstFree(files, a, m) && FirstFree(files, b, n) && a != b
    ensures Repeated(a, m) == Repeated(b, n) <==> Collide(files, a, b)
  {
    hide Repeated, FirstFree, GrowsInto;
    if GrowsInto(files, b, a) {
      OneCount(files, a, b, m, n);
    }
    if GrowsInto(files, a, b) {
      OneCount(files, b, a, n, m);
    }
    if Repeated(a, m) == Repeated(b, n) {
      if m <= n {
        KeptAlikeIsGrown(files, a, m, b, n);
      } else {
        KeptAlikeIsGrown(files, b, n, a, m);
      }
    }
  }

  /** Two files that no concept claims are kept under one name exactly when both are
      typeless documents and one of the stems grows into the other: one of the two is
      lost on the way. */
  lemma {:induction false} StoredTogetherExactlyWhen(files: Files, p: string, q: string)
    requires Distinct(files) && p in files && q in files && p != q
    ensures StoredAt(files, Cleaned(p)) == StoredAt(files, Cleaned(q))
            <==> && HasSuffix(Cleaned(p), ".md") && HasSuffix(Cleaned(q), ".md")
                 && Collide(files, Stem(Cleaned(p)), Stem(Cleaned(q)))
  {
    hide Cleaned, Repeated, StoredAt, HasSuffix, Stem, Collide, FirstFree;
    var a, b := Cleaned(p), Cleaned(q);
    assert Taken(files, a) && Taken(files, b);
    if HasSuffix(a, ".md") && HasSuffix(b, ".md") {
      var m := StoredCount(files, a);
      var n := StoredCount(files, b);
      StemIs(a);
      StemIs(b);
      StemsTogether(files, Stem(a), m, Stem(b), n);
    }
  }

  /** A typeless document's name without its ".md" does not end in ".markdown". */
  predicate PlainName(p: string) {
    HasSuffix(Cleaned(p), ".md") ==> !EndsMarkdown(Stem(Cleaned(p)))
  }

  lemma {:induction false} GrownEnds(files: Files, b: string, a: string)
    requires GrowsInto(files, b, a)
    ensures EndsMarkdown(a)
  {
    hide Taken;
    var k: nat :| k > 0 && a == Repeated(b, k) && forall n: nat | 0 < n <= k :: Taken(files, Repeated(b, n));
    RepeatedEnds(b, k);
  }

  lemma {:induction false} StoredApart(files: Files, p: string, q: string)
    requires Distinct(files) && p in files && q in files && p != q && PlainName(p) && PlainName(q)
    ensures StoredAt(files, Cleaned(p)) != StoredAt(files, Cleaned(q))
  {
    hide Cleaned, Repeated, StoredAt, HasSuffix, Stem, EndsMarkdown, GrowsInto;
    StoredTogetherExactlyWhen(files, p, q);
    var a, b := Stem(Cleaned(p)), Stem(Cleaned(q));
    if GrowsInto(files, b, a) {
      GrownEnds(files, b, a);
    }
    if GrowsInto(files, a, b) {
      GrownEnds(files, a, b);
    }
  }

  // ------------------------------------------------------------------
  // The collision

  predicate IsName(x: string) {
    x != "" && '/' !in x && x[0] != '.'
  }

  lemma {:induction false} NameCleans(x: string, suffix: string)
    requires IsName(x) && '/' !in suffix
    ensures Cleaned(x + suffix) == x + suffix
  {
    hide Clean;
    var t := x + suffix;
    SplitWithoutSeparator(t, '/');
    assert t[0] == x[0];
    assert IsPath(t);
    CleanOfPath(t);
  }

  /** Three files, none of them a concept. */
  function Three(x: string, data: string): Files {
    map[x + ".md" := data, x + ".markdown" := data, x + ".markdown.md" := data]
  }

  lemma {:induction false} ThreeCleaned(x: string, data: string)
    requires IsName(x)
    ensures Cleaned(x + ".md") == x + ".md" && Cleaned(x + ".markdown") == x + ".markdown"
    ensures Cleaned(x + ".markdown.md") == x + ".markdown.md"
    ensures forall c :: Taken(Three(x, data), c) <==> c == x + ".md" || c == x + ".markdown" || c == x + ".markdown.md"
  {
    hide Cleaned;
    NameCleans(x, ".md");
    NameCleans(x, ".markdown");
    NameCleans(x, ".markdown.md");
    var files := Three(x, data);
    assert x + ".md" in files && x + ".markdown" in files && x + ".markdown.md" in files;
  }

  lemma {:induction false} StemOf(x: string)
    ensures HasSuffix(x + ".md", ".md") && Stem(x + ".md") == x
  {
  }

  /** A name that does end in ".markdown" can be given to two files: the one suffix
      of the one and the two of the other come to the same path. */
  lemma {:induction false} MarkdownCollides(x: string, data: string)
    requires IsName(x)
    ensures x + ".md" != x + ".markdown.md"
    ensures StoredAt(Three(x, data), Cleaned(x + ".md")) == StoredAt(Three(x, data), Cleaned(x + ".markdown.md"))
  {
    hide Cleaned, Repeated, StoredAt, HasSuffix, Stem, Taken;
    var files := Three(x, data);
    ThreeCleaned(x, data);
    StemOf(x);
    StemOf(x + ".markdown");
    assert x + ".markdown" + ".md" == x + ".markdown.md";
    RepeatedSteps(x, 1);
    RepeatedSteps(x, 2);
    RepeatedSteps(x + ".markdown", 1);
    var twice := x + ".markdown" + ".markdown";
    assert |twice| != |x + ".md"| && |twice| != |x + ".markdown"| && |twice| != |x + ".markdown.md"|;
    assert FirstFree(files, x, 2);
    assert FirstFree(files, x + ".markdown", 1);
    var m := StoredCount(files, x + ".md");
    FirstFreeIsOne(files, x, m, 2);
    var n := StoredCount(files, x + ".markdown.md");
    FirstFreeIsOne(files, x + ".markdown", n, 1);
    assert |x + ".md"| != |x + ".markdown.md"|;
  }

  // ------------------------------------------------------------------
  // The objects an import sends

  function ConceptItem(e: Entry): Import.Item {
    Import.Item(Import.Concept, e.id, e.id + ".md", Some(e.body), [])
  }

  function FileItem(a: AttributedFile): Import.Item {
    Import.Item(Import.Attributed, a.id, a.path, Some(a.data), [])
  }

  function LooseItem(f: BundleFile): Import.Item {
    Import.Item(Import.Loose, "", f.path, Some(f.data), [])
  }

  function ItemAt(r: Reading, i: nat): Import.Item
    requires i < |r.entries| + |r.atts| + |r.loose|
  {
    if i < |r.entries| then ConceptItem(r.entries[i])
    else if i < |r.entries| + |r.atts| then FileItem(r.atts[i - |r.entries|])
    else LooseItem(r.loose[i - |r.entries| - |r.atts|])
  }

  function Items(r: Reading): seq<Import.Item> {
    seq(|r.entries| + |r.atts| + |r.loose|, i requires 0 <= i < |r.entries| + |r.atts| + |r.loose| => ItemAt(r, i))
  }

  /** A typeless document that is kept, under another name. */
  predicate Renamed(rules: Rules, files: Files, p: string) {
    && p in files && KindOf(rules, p, files[p]) == OtherFile && HasSuffix(Cleaned(p), ".md")
    && rules.loadable(Cleaned(p), files[p])
  }

  /** No two of them are kept under one name. */
  ghost predicate NoneCollide(rules: Rules, files: Files) {
    forall p, q | Renamed(rules, files, p) && Renamed(rules, files, q) && p != q ::
      !Collide(files, Stem(Cleaned(p)), Stem(Cleaned(q)))
  }

  ghost function ConceptPaths(rules: Rules, files: Files): seq<string> {
    ListOf(rules, files, ConceptFile)
  }

  lemma {:induction false} EntryIndex(rules: Rules, files: Files, paths: seq<string>, i: nat)
    requires i < |paths| && forall p | p in paths :: p in files
    ensures |EntriesAt(rules, files, paths)| == |paths|
    ensures EntriesAt(rules, files, paths)[i] == EntryOf(rules, paths[i], files[paths[i]])
  {
    hide EntryOf;
    var before := paths[..|paths| - 1];
    assert paths[|paths| - 1] in paths;
    EntriesLength(rules, files, before);
    if i < |before| {
      EntryIndex(rules, files, before, i);
    }
  }

  lemma {:induction false} EntriesLength(rules: Rules, files: Files, paths: seq<string>)
    requires forall p | p in paths :: p in files
    ensures |EntriesAt(rules, files, paths)| == |paths|
  {
    hide EntryOf;
    if paths != [] {
      assert paths[|paths| - 1] in paths;
      EntriesLength(rules, files, paths[..|paths| - 1]);
    }
  }

  /** A concept goes to the clean path of its document. */
  lemma {:induction false} ConceptAddress(rules: Rules, files: Files, index: Files, r: Reading, i: nat)
    requires IsReading(rules, files, index, r) && i < |r.entries|
    ensures i < |ConceptPaths(rules, files)| && ConceptPaths(rules, files)[i] in files
    ensures var p := ConceptPaths(rules, files)[i];
            r.entries[i].id + ".md" == Cleaned(p) && HasSuffix(Cleaned(p), ".md")
  {
    hide Cleaned, OfKind, EntriesAt, LooseAt, AllClaims, WithEnd, Hidden, Base;
    var paths, concepts := PathsOf(files), ConceptPaths(rules, files);
    OfKindFrom(rules, files, paths, ConceptFile, |paths|);
    EntriesLength(rules, files, concepts);
    EntryIndex(rules, files, concepts, i);
    var p := concepts[i];
    assert p in concepts;
    StemIs(Cleaned(p));
  }

  /** A loose file goes to a path of no other file. */
  lemma {:induction false} LooseAddress(rules: Rules, files: Files, index: Files, r: Reading, i: nat)
    requires IsReading(rules, files, index, r) && i < |r.loose|
    ensures var used := AllClaims(rules, index, r.entries).used; var paths := RestOf(rules, files, used, Loose);
            && i < |paths| && paths[i] in files && Cleaned(paths[i]) !in used
            && KindOf(rules, paths[i], files[paths[i]]) == OtherFile
                && rules.loadable(Cleaned(paths[i]), files[paths[i]])
            && r.loose[i] == BundleFile(StoredAt(files, Cleaned(paths[i])), files[paths[i]])
  {
    hide Cleaned, OfKind, EntriesAt, AllClaims, WithEnd, StoredAt, KindOf;
    var used := AllClaims(rules, index, r.entries).used;
    var paths := RestOf(rules, files, used, Loose);
    forall p | p in paths
      ensures p in files
    {
      EndFrom(rules, files, used, ListOf(rules, files, OtherFile), Loose, |ListOf(rules, files, OtherFile)|);
    }
    LooseLength(files, paths);
    LooseIndex(files, paths, i);
    assert paths[i] in paths;
    InRest(rules, files, used, paths[i], Loose);
  }

  lemma {:induction false} EndFrom(rules: Rules, files: Files, used: set<string>, rest: seq<string>, end: End, n: nat)
    requires n <= |rest|
    ensures forall p | p in WithEnd(rules, files, used, rest, end, n) :: p in files
  {
    hide EndOf;
    if n > 0 {
      EndFrom(rules, files, used, rest, end, n - 1);
    }
  }

  /** An attributed file goes to its own clean path. */
  lemma {:induction false} FileAddress(rules: Rules, files: Files, index: Files, r: Reading, i: nat)
    requires IsIndexOf(files, index) && IsReading(rules, files, index, r) && i < |r.atts|
    ensures var a := r.atts[i];
            && a.path in AllClaims(rules, index, r.entries).used && !AnyMd(a.path)
            && Taken(files, a.path) && a.path in index && a.data == index[a.path]
  {
    hide Cleaned, OfKind, EntriesAt, LooseAt, AllClaims, WithEnd, AnyMd, Base;
    ClaimsSound(rules, index, r.entries);
    assert r.atts[i] in AllClaims(rules, index, r.entries).atts;
    var p :| p in files && Cleaned(p) == r.atts[i].path;
  }

  lemma {:induction false} ConceptsApart(rules: Rules, files: Files, index: Files, r: Reading, i: nat, j: nat)
    requires Distinct(files) && IsReading(rules, files, index, r) && i < j < |r.entries|
    ensures r.entries[i].id + ".md" != r.entries[j].id + ".md"
  {
    hide Cleaned, EntriesAt, LooseAt, AllClaims, WithEnd, OfKind, IsReading;
    ConceptAddress(rules, files, index, r, i);
    ConceptAddress(rules, files, index, r, j);
    var paths := PathsOf(files);
    KindIsDistinct(rules, files, paths, ConceptFile, |paths|, i, j);
  }

  lemma {:induction false} KindIsDistinct(rules: Rules, files: Files, paths: seq<string>, kind: Kind, n: nat, i: nat,
                                          j: nat)
    requires n <= |paths| && Increasing(Less, paths) && i < j < |OfKind(rules, files, paths, kind, n)|
    ensures OfKind(rules, files, paths, kind, n)[i] != OfKind(rules, files, paths, kind, n)[j]
  {
    hide KindOf, Less;
    var before, last := OfKind(rules, files, paths, kind, n - 1), paths[n - 1];
    if j < |before| {
      KindIsDistinct(rules, files, paths, kind, n - 1, i, j);
    } else {
      KindEarlier(rules, files, paths, kind, n - 1, i);
      LessIsIrreflexive(last);
    }
  }

  lemma {:induction false} KindEarlier(rules: Rules, files: Files, paths: seq<string>, kind: Kind, n: nat, i: nat)
    requires n < |paths| && Increasing(Less, paths) && i < |OfKind(rules, files, paths, kind, n)|
    ensures Less(OfKind(rules, files, paths, kind, n)[i], paths[n])
  {
    hide KindOf, Less;
    var before := OfKind(rules, files, paths, kind, n - 1);
    assert Less(paths[n - 1], paths[n]);
    if i < |before| {
      KindEarlier(rules, files, paths, kind, n - 1, i);
      LessIsTransitive(before[i], paths[n - 1], paths[n]);
    }
  }

  lemma {:induction false} LooseApart(rules: Rules, files: Files, index: Files, r: Reading, i: nat, j: nat)
    requires Distinct(files) && NoneCollide(rules, files) && IsReading(rules, files, index, r) && i < j < |r.loose|
    ensures r.loose[i].path != r.loose[j].path
  {
    hide Cleaned, EntriesAt, LooseAt, AllClaims, IsReading, StoredAt, KindOf, Collide, Stem, WithEnd, OfKind, RestOf;
    LooseAddress(rules, files, index, r, i);
    LooseAddress(rules, files, index, r, j);
    var used := AllClaims(rules, index, r.entries).used;
    var paths := RestOf(rules, files, used, Loose);
    RestIsDistinct(rules, files, used, i, j);
    StoredTogetherExactlyWhen(files, paths[i], paths[j]);
  }

  lemma {:induction false} RestIsDistinct(rules: Rules, files: Files, used: set<string>, i: nat, j: nat)
    requires i < j < |RestOf(rules, files, used, Loose)|
    ensures RestOf(rules, files, used, Loose)[i] != RestOf(rules, files, used, Loose)[j]
  {
    hide OfKind, WithEnd, Count;
    var list := RestOf(rules, files, used, Loose);
    if list[i] == list[j] {
      CountTwice(list, i, j);
      var rest := ListOf(rules, files, OtherFile);
      EndFrom(rules, files, used, rest, Loose, |rest|);
      assert list[i] in list;
      EveryFileOnce(rules, files, used, list[i]);
    }
  }

  lemma {:induction false} CountTwice(s: seq<string>, i: nat, j: nat)
    requires i < j < |s| && s[i] == s[j]
    ensures Count(s, s[i]) >= 2
  {
    var before := s[..|s| - 1];
    if j < |before| {
      CountTwice(before, i, j);
    } else {
      CountOnce(before, i);
    }
  }

  lemma {:induction false} CountOnce(s: seq<string>, i: nat)
    requires i < |s|
    ensures Count(s, s[i]) >= 1
  {
    if i < |s| - 1 {
      CountOnce(s[..|s| - 1], i);
    }
  }

  // ------------------------------------------------------------------
  // No two objects at one address

  lemma {:induction false} ConceptNotFile(rules: Rules, files: Files, index: Files, r: Reading, i: nat, j: nat)
    requires IsIndexOf(files, index) && IsReading(rules, files, index, r) && i < |r.entries| && j < |r.atts|
    ensures r.entries[i].id + ".md" != r.atts[j].path
  {
    hide Cleaned, IsReading, AnyMd, AllClaims, Taken, ListOf;
    ConceptAddress(rules, files, index, r, i);
    FileAddress(rules, files, index, r, j);
    MdIsAnyMd(r.atts[j].path);
  }

  lemma {:induction false} NotLoose(rules: Rules, files: Files, index: Files, r: Reading, path: string, j: nat)
    requires IsReading(rules, files, index, r) && j < |r.loose| && Taken(files, path)
    requires HasSuffix(path, ".md") || path in AllClaims(rules, index, r.entries).used
    ensures r.loose[j].path != path
  {
    hide Cleaned, IsReading, AllClaims, RestOf, HasSuffix, KindOf, Taken;
    LooseAddress(rules, files, index, r, j);
  }

  lemma {:induction false} ConceptTaken(rules: Rules, files: Files, index: Files, r: Reading, i: nat)
    requires IsReading(rules, files, index, r) && i < |r.entries|
    ensures Taken(files, r.entries[i].id + ".md") && HasSuffix(r.entries[i].id + ".md", ".md")
  {
    hide Cleaned, IsReading, ListOf;
    ConceptAddress(rules, files, index, r, i);
  }

  lemma {:induction false} AddressesApart(rules: Rules, files: Files, index: Files, r: Reading, i: nat, j: nat)
    requires Distinct(files) && NoneCollide(rules, files) && IsIndexOf(files, index)
            && IsReading(rules, files, index, r)
    requires i < j < |Items(r)| && Items(r)[i].path == Items(r)[j].path
    ensures Items(r)[i].kind.Attributed? && Items(r)[j].kind.Attributed? && Items(r)[i].data == Items(r)[j].data
  {
    hide Cleaned, IsReading, AnyMd, AllClaims, Taken, Distinct, NoneCollide, IsIndexOf, HasSuffix, ListOf;
    var n, m := |r.entries|, |r.atts|;
    if j < n {
      ConceptsApart(rules, files, index, r, i, j);
    } else if j < n + m {
      FileAddress(rules, files, index, r, j - n);
      if i < n {
        ConceptNotFile(rules, files, index, r, i, j - n);
      } else {
        FileAddress(rules, files, index, r, i - n);
      }
    } else if i < n {
      ConceptTaken(rules, files, index, r, i);
      NotLoose(rules, files, index, r, r.entries[i].id + ".md", j - n - m);
    } else if i < n + m {
      FileAddress(rules, files, index, r, i - n);
      NotLoose(rules, files, index, r, r.atts[i - n].path, j - n - m);
    } else {
      LooseApart(rules, files, index, r, i - n - m, j - n - m);
    }
  }

  /** What FromBundle reads can be imported and predicted: no two objects go to one
      address but the files two concepts share, and the concepts come first. */
  lemma {:induction false} ReadingIsDistinct(rules: Rules, files: Files, index: Files, r: Reading)
    requires Distinct(files) && NoneCollide(rules, files) && IsIndexOf(files, index)
            && IsReading(rules, files, index, r)
    ensures Import.Distinct(Items(r)) && Import.Grouped(Items(r))
  {
    hide Distinct, NoneCollide, IsIndexOf, IsReading;
    forall i, j | 0 <= i < |Items(r)| && 0 <= j < |Items(r)| && i != j && Items(r)[i].path == Items(r)[j].path
      ensures !Items(r)[i].kind.Concept? && !Items(r)[j].kind.Concept? && Items(r)[i].data == Items(r)[j].data
    {
      if i < j {
        AddressesApart(rules, files, index, r, i, j);
      } else {
        AddressesApart(rules, files, index, r, j, i);
      }
    }
  }

  /** Where a renamed document ends up among the loose files. */
  lemma {:induction false} RenamedIsLoose(rules: Rules, files: Files, index: Files, r: Reading, p: string)
      returns (i: nat)
    requires IsReading(rules, files, index, r) && Renamed(rules, files, p)
    ensures i < |r.loose| && r.loose[i] == BundleFile(StoredAt(files, Cleaned(p)), files[p])
    ensures var paths := RestOf(rules, files, AllClaims(rules, index, r.entries).used, Loose);
            i < |paths| && paths[i] == p
  {
    hide Cleaned, OfKind, EntriesAt, AllClaims, WithEnd, StoredAt, KindOf, HasSuffix, RestOf;
    var used := AllClaims(rules, index, r.entries).used;
    ClaimsSound(rules, index, r.entries);
    MdIsAnyMd(Cleaned(p));
    InRest(rules, files, used, p, Loose);
    var paths := RestOf(rules, files, used, Loose);
    i :| 0 <= i < |paths| && paths[i] == p;
    LooseKept(rules, files, index, r);
    LooseAddress(rules, files, index, r, i);
  }

  lemma {:induction false} LooseKept(rules: Rules, files: Files, index: Files, r: Reading)
    requires IsReading(rules, files, index, r)
    ensures |r.loose| == |RestOf(rules, files, AllClaims(rules, index, r.entries).used, Loose)|
  {
    hide Cleaned, OfKind, EntriesAt, AllClaims, WithEnd, StoredAt, KindOf;
    var used := AllClaims(rules, index, r.entries).used;
    EndFrom(rules, files, used, ListOf(rules, files, OtherFile), Loose, |ListOf(rules, files, OtherFile)|);
    LooseLength(files, RestOf(rules, files, used, Loose));
  }

  /** The loose files of a reading go to paths of their own exactly when no typeless
      document's name grows into another's. */
  lemma {:induction false} LooseDistinctExactlyWhen(rules: Rules, files: Files, index: Files, r: Reading)
    requires Distinct(files) && IsReading(rules, files, index, r)
    ensures (forall i, j | 0 <= i < j < |r.loose| :: r.loose[i].path != r.loose[j].path) <==> NoneCollide(rules, files)
  {
    hide Distinct, IsReading, Renamed, Collide, StoredAt, Cleaned, Stem, RestOf, AllClaims;
    if NoneCollide(rules, files) {
      forall i, j | 0 <= i < j < |r.loose|
        ensures r.loose[i].path != r.loose[j].path
      {
        LooseApart(rules, files, index, r, i, j);
      }
    }
    if forall i, j | 0 <= i < j < |r.loose| :: r.loose[i].path != r.loose[j].path {
      forall p, q | Renamed(rules, files, p) && Renamed(rules, files, q) && p != q
        ensures !Collide(files, Stem(Cleaned(p)), Stem(Cleaned(q)))
      {
        var i := RenamedIsLoose(rules, files, index, r, p);
        var j := RenamedIsLoose(rules, files, index, r, q);
        RenamedIsFile(rules, files, p);
        RenamedIsFile(rules, files, q);
        StoredTogetherExactlyWhen(files, p, q);
        assert r.loose[i].path != r.loose[j].path;
      }
    }
  }

  lemma {:induction false} RenamedIsFile(rules: Rules, files: Files, p: string)
    requires Renamed(rules, files, p)
    ensures p in files && HasSuffix(Cleaned(p), ".md")
  {
  }

  /** The dry run of a bundle predicts its import. */
  lemma {:induction false} BundleDryRunPredicts(
    rules: Rules, files: Files, index: Files, r: Reading,
    world: Import.World, server: Import.Server,
    dryEvents: seq<Import.Event>, dryEnd: Import.State, events: seq<Import.Event>, end: Import.State)
    requires Distinct(files) && NoneCollide(rules, files) && IsIndexOf(files, index)
            && IsReading(rules, files, index, r)
    requires Import.Reaches(world, true, Items(r), Import.Start(Items(r), server), dryEvents, dryEnd)
    requires Import.Reaches(world, false, Items(r), Import.Start(Items(r), server), events, end)
    requires Import.Completed(Items(r), dryEnd) && Import.Completed(Items(r), end)
    ensures dryEnd.tally == end.tally && dryEnd.server == server
  {
    hide Distinct, NoneCollide, IsIndexOf, IsReading, Items;
    ReadingIsDistinct(rules, files, index, r);
    Import.DryRunPredicts(world, server, Items(r), dryEvents, dryEnd, events, end);
  }
}
