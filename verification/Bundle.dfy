/** Reading a bundle: FromBundle and unclaimMarkdown of internal/okf/bundle.go and
    resolveFiles of internal/okf/file.go. What a document says (whether it is a
    concept, which paths its links name) and what a file may be are given; the
    model is where every file of the input goes. */
module Bundle {
  import opened Text
  import opened Paths
  import opened Order

  /** What the rest of the program says of documents and files. */
  datatype Rules = Rules(
    concept: (string, string) -> Option<string>,   // the body of the concept at a path, if it is one
    targets: (string, string) -> seq<string>,      // the bundle paths the links of a concept name
    attachable: (string, string) -> bool,
    loadable: (string, string) -> bool)

  type Files = map<string, string>

  datatype Entry = Entry(id: string, body: string)

  datatype AttributedFile = AttributedFile(id: string, name: string, path: string, data: string)

  datatype BundleFile = BundleFile(path: string, data: string)

  // ------------------------------------------------------------------
  // Paths

  function Cleaned(p: string): string {
    Clean(if "./" <= p then p[2..] else p)
  }

  predicate Hidden(clean: string) {
    exists seg | seg in Split(clean, '/') :: "." <= seg
  }

  function Base(p: string): string {
    Split(p, '/')[|Split(p, '/')| - 1]
  }

  /** The suffix ".md" in any case. */
  predicate AnyMd(p: string) {
    |p| >= 3 && p[|p| - 3] == '.' && (p[|p| - 2] == 'm' || p[|p| - 2] == 'M')
        && (p[|p| - 1] == 'd' || p[|p| - 1] == 'D')
  }

  lemma {:induction false} MdIsAnyMd(p: string)
    ensures HasSuffix(p, ".md") ==> AnyMd(p)
  {
    if HasSuffix(p, ".md") {
      var s := p[|p| - 3..];
      assert s[0] == p[|p| - 3] && s[1] == p[|p| - 2] && s[2] == p[|p| - 1];
    }
  }

  // ------------------------------------------------------------------
  // The first look at every file

  datatype Kind = HiddenFile | IndexPage | ReservedNote | OtherFile | ConceptFile

  function Stem(clean: string): string {
    if |clean| >= 3 then clean[..|clean| - 3] else ""
  }

  function KindOf(rules: Rules, p: string, data: string): Kind {
    var clean := Cleaned(p);
    if Hidden(clean) then HiddenFile
    else if Base(clean) == "index.md" then IndexPage
    else if Base(clean) == "log.md" then ReservedNote
    else if !HasSuffix(clean, ".md") then OtherFile
    else if rules.concept(clean, data).None? then OtherFile
    else ConceptFile
  }

  /** The paths among the first n of one kind. */
  function OfKind(rules: Rules, files: Files, paths: seq<string>, kind: Kind, n: nat): seq<string>
    requires n <= |paths|
  {
    if n == 0 then []
    else
      var p := paths[n - 1];
      OfKind(rules, files, paths, kind, n - 1) + if p in files && KindOf(rules, p, files[p]) == kind then [p] else []
  }

  function EntryOf(rules: Rules, p: string, data: string): Entry {
    match rules.concept(Cleaned(p), data)
    case Some(body) => Entry(Stem(Cleaned(p)), body)
    case None => Entry(Stem(Cleaned(p)), "")
  }

  /** The concepts at the paths of a list. */
  function EntriesAt(rules: Rules, files: Files, paths: seq<string>): seq<Entry> {
    if paths == [] then []
    else
      var p := paths[|paths| - 1];
      EntriesAt(rules, files, paths[..|paths| - 1]) + if p in files then [EntryOf(rules, p, files[p])] else []
  }

  // ------------------------------------------------------------------
  // Which files belong to a concept

  datatype Claims = Claims(atts: seq<AttributedFile>, used: set<string>, seen: set<(nat, string)>)

  /** One file claimed by the k-th concept, unless it has one of that name. */
  function Attach(rules: Rules, c: Claims, k: nat, id: string, p: string, data: string): Claims {
    if (k, Base(p)) in c.seen || !rules.attachable(Base(p), data) then c
    else
      Claims(c.atts + [AttributedFile(id, Base(p), p, data)], c.used + {p}, c.seen + {(k, Base(p))})
  }

  /** A concept's links, the first n of them. */
  function LinksClaim(rules: Rules, index: Files, c: Claims, k: nat, id: string, targets: seq<string>, n: nat): Claims
    requires n <= |targets|
  {
    if n == 0 then c
    else
      var before, p := LinksClaim(rules, index, c, k, id, targets, n - 1), targets[n - 1];
      if p !in index || AnyMd(p) then before else Attach(rules, before, k, id, p, index[p])
  }

  /** The reference pass over the first n concepts. */
  function ByReference(rules: Rules, index: Files, entries: seq<Entry>, n: nat): Claims
    requires n <= |entries|
  {
    if n == 0 then Claims([], {}, {})
    else
      var e := entries[n - 1];
      var targets := rules.targets(e.id, e.body);
      LinksClaim(rules, index, ByReference(rules, index, entries, n - 1), n - 1, e.id, targets, |targets|)
  }

  /** The last concept of that id. */
  function Owner(entries: seq<Entry>, id: string): Option<nat> {
    if entries == [] then None
    else if entries[|entries| - 1].id == id then Some(|entries| - 1)
    else Owner(entries[..|entries| - 1], id)
  }

  /** The namespace pass over the first n paths. */
  function ByNamespace(rules: Rules, index: Files, entries: seq<Entry>, c: Claims, rest: seq<string>, n: nat): Claims
    requires n <= |rest|
  {
    if n == 0 then c
    else
      var before, p := ByNamespace(rules, index, entries, c, rest, n - 1), rest[n - 1];
      if p !in index || p in before.used || AnyMd(p) then before
      else
        match Owner(entries, Dir(p))
        case None => before
        case Some(k) => if k < |entries| then Attach(rules, before, k, entries[k].id, p, index[p]) else before
  }

  lemma {:induction false} OwnerIs(entries: seq<Entry>, id: string)
    ensures Owner(entries, id).Some?
            ==> Owner(entries, id).value < |entries| && entries[Owner(entries, id).value].id == id
  {
    if entries != [] && entries[|entries| - 1].id != id {
      OwnerIs(entries[..|entries| - 1], id);
    }
  }

  ghost function AllClaims(rules: Rules, index: Files, entries: seq<Entry>): Claims {
    var rest := SortedStrings(index.Keys);
    ByNamespace(rules, index, entries, ByReference(rules, index, entries, |entries|), rest, |rest|)
  }

  /** Every file under its clean path. */
  ghost predicate IsIndexOf(files: Files, index: Files) {
    && (forall p | p in files :: Cleaned(p) in index && index[Cleaned(p)] == files[p])
    && (forall c | c in index :: exists p :: p in files && Cleaned(p) == c)
  }

  /** No two files of the input have one clean path. */
  predicate Distinct(files: Files) {
    forall p, q | p in files && q in files && Cleaned(p) == Cleaned(q) :: p == q
  }

  ghost function IndexOf(files: Files): (index: Files)
    requires Distinct(files)
    ensures IsIndexOf(files, index)
  {
    map p | p in files :: Cleaned(p) := files[p]
  }

  lemma {:induction false} IndexIsOne(files: Files, index: Files)
    requires Distinct(files) && IsIndexOf(files, index)
    ensures index == IndexOf(files)
  {
    hide Cleaned;
    var other := IndexOf(files);
    forall c | c in index || c in other
      ensures c in index && c in other && index[c] == other[c]
    {
      var p :| p in files && Cleaned(p) == c;
    }
  }

  method IndexFiles(files: Files) returns (index: Files)
    requires Distinct(files)
    ensures index == IndexOf(files)
  {
    hide Cleaned;
    index := map[];
    var left := files.Keys;
    while left != {}
      invariant left <= files.Keys
      invariant forall p | p in files && p !in left :: Cleaned(p) in index && index[Cleaned(p)] == files[p]
      invariant forall c | c in index :: exists p :: p in files && p !in left && Cleaned(p) == c
      decreases left
    {
      var p :| p in left;
      index := index[Cleaned(p) := files[p]];
      left := left - {p};
    }
    IndexIsOne(files, index);
  }

  method ClaimLinks(rules: Rules, index: Files, c: Claims, k: nat, e: Entry) returns (r: Claims)
    ensures r == LinksClaim(rules, index, c, k, e.id, rules.targets(e.id, e.body), |rules.targets(e.id, e.body)|)
  {
    hide AnyMd, Attach;
    var targets := rules.targets(e.id, e.body);
    r := c;
    for i := 0 to |targets|
      invariant r == LinksClaim(rules, index, c, k, e.id, targets, i)
    {
      var p := targets[i];
      if p !in index || AnyMd(p) {
        continue;
      }
      r := Attach(rules, r, k, e.id, p, index[p]);
    }
  }

  method ReferencePass(rules: Rules, index: Files, entries: seq<Entry>) returns (c: Claims)
    ensures c == ByReference(rules, index, entries, |entries|)
  {
    hide AnyMd, Attach, LinksClaim;
    c := Claims([], {}, {});
    for k := 0 to |entries|
      invariant c == ByReference(rules, index, entries, k)
    {
      c := ClaimLinks(rules, index, c, k, entries[k]);
    }
  }

  /** One step of the pass: the file goes to the concept its directory is named after,
      when no reference brought it in. */
  method ClaimNamespace(rules: Rules, index: Files, entries: seq<Entry>, start: Claims, rest: seq<string>, i: nat,
                        c: Claims)
    returns (r: Claims)
    requires i < |rest| && rest[i] in index && c == ByNamespace(rules, index, entries, start, rest, i)
    ensures r == ByNamespace(rules, index, entries, start, rest, i + 1)
  {
    hide AnyMd, Attach, Owner, Dir;
    var p := rest[i];
    if p in c.used || AnyMd(p) {
      return c;
    }
    var owner := Owner(entries, Dir(p));
    if owner.None? {
      return c;
    }
    OwnerIs(entries, Dir(p));
    return Attach(rules, c, owner.value, entries[owner.value].id, p, index[p]);
  }

  method NamespacePass(rules: Rules, index: Files, entries: seq<Entry>, start: Claims) returns (c: Claims)
    ensures var rest := SortedStrings(index.Keys); c == ByNamespace(rules, index, entries, start, rest, |rest|)
  {
    var rest := SortStrings(index.Keys);
    NothingNamed(rules, index, entries, start, rest);
    hide ByNamespace, SortedStrings;
    c := start;
    for i := 0 to |rest|
      invariant c == ByNamespace(rules, index, entries, start, rest, i)
    {
      assert rest[i] in rest;
      c := ClaimNamespace(rules, index, entries, start, rest, i, c);
    }
  }

  lemma {:induction false} NothingNamed(rules: Rules, index: Files, entries: seq<Entry>, c: Claims, rest: seq<string>)
    ensures ByNamespace(rules, index, entries, c, rest, 0) == c
  {
  }

  method ResolveFiles(rules: Rules, files: Files, entries: seq<Entry>) returns (c: Claims)
    requires Distinct(files)
    ensures c == AllClaims(rules, IndexOf(files), entries)
  {
    hide Distinct, IndexOf, ByReference, ByNamespace;
    var byPath := IndexFiles(files);
    var referenced := ReferencePass(rules, byPath, entries);
    c := NamespacePass(rules, byPath, entries, referenced);
  }

  // ------------------------------------------------------------------
  // The name a typeless document is kept under

  predicate Taken(files: Files, c: string) {
    exists p | p in files :: Cleaned(p) == c
  }

  /** stored with ".markdown" once more, until no file of the input holds it. */
  function Repeated(stem: string, n: nat): string {
    if n == 0 then stem else Repeated(stem, n - 1) + ".markdown"
  }

  ghost predicate Longest(files: Files, bound: nat) {
    forall p | p in files :: |Cleaned(p)| <= bound
  }

  lemma {:induction false} SomeLongest(files: Files) returns (bound: nat)
    ensures Longest(files, bound)
  {
    hide Cleaned;
    bound := 0;
    var left := files.Keys;
    while left != {}
      invariant left <= files.Keys && forall p | p in files && p !in left :: |Cleaned(p)| <= bound
      decreases left
    {
      var p :| p in left;
      if |Cleaned(p)| > bound {
        bound := |Cleaned(p)|;
      }
      left := left - {p};
    }
  }

  /** The loop ends at a path that no file of the input holds, the first such with
      the suffix once, twice, and so on. */
  method UnclaimMarkdown(clean: string, files: Files) returns (stored: string, ghost times: nat)
    ensures !HasSuffix(clean, ".md") ==> stored == clean
    ensures HasSuffix(clean, ".md") ==>
              && times > 0 && stored == Repeated(Stem(clean), times) && !Taken(files, stored)
              && forall n | 0 < n < times :: Taken(files, Repeated(Stem(clean), n))
  {
    hide Cleaned, Repeated;
    times := 0;
    if !HasSuffix(clean, ".md") {
      return clean, 0;
    }
    ghost var bound := SomeLongest(files);
    RepeatedSteps(Stem(clean), 1);
    stored := clean[..|clean| - 3] + ".markdown";
    times := 1;
    while Taken(files, stored)
      invariant times > 0 && stored == Repeated(Stem(clean), times)
      invariant forall n | 0 < n < times :: Taken(files, Repeated(Stem(clean), n))
      decreases bound - |stored|
    {
      RepeatedSteps(Stem(clean), times + 1);
      stored := stored + ".markdown";
      times := times + 1;
    }
  }

  lemma {:induction false} RepeatedSteps(stem: string, n: nat)
    requires n > 0
    ensures Repeated(stem, n) == Repeated(stem, n - 1) + ".markdown" && Repeated(stem, 0) == stem
  {
  }

  /** The first count that gives a path no file holds; past the longest path there
      is one. */
  ghost predicate FirstFree(files: Files, stem: string, n: nat) {
    n > 0 && !Taken(files, Repeated(stem, n)) && forall m | 0 < m < n :: Taken(files, Repeated(stem, m))
  }

  lemma {:induction false} FirstFreeIsOne(files: Files, stem: string, m: nat, n: nat)
    requires FirstFree(files, stem, m) && FirstFree(files, stem, n)
    ensures m == n
  {
  }

  lemma {:induction false} RepeatedIsLong(stem: string, n: nat)
    ensures |Repeated(stem, n)| >= n
  {
    if n > 0 {
      RepeatedIsLong(stem, n - 1);
    }
  }

  lemma {:induction false} FreeFrom(files: Files, stem: string, m: nat, bound: nat) returns (n: nat)
    requires Longest(files, bound) && m > 0 && forall k | 0 < k < m :: Taken(files, Repeated(stem, k))
    ensures FirstFree(files, stem, n)
    decreases bound + 1 - m
  {
    hide Cleaned, Repeated;
    RepeatedIsLong(stem, m);
    if Taken(files, Repeated(stem, m)) {
      var p :| p in files && Cleaned(p) == Repeated(stem, m);
      n := FreeFrom(files, stem, m + 1, bound);
    } else {
      n := m;
    }
  }

  lemma {:induction false} SomeFree(files: Files, stem: string) returns (n: nat)
    ensures FirstFree(files, stem, n)
  {
    var bound := SomeLongest(files);
    n := FreeFrom(files, stem, 1, bound);
  }

  /** Where a file that no concept claims is kept. */
  ghost function StoredAt(files: Files, clean: string): (r: string)
    ensures !HasSuffix(clean, ".md") ==> r == clean
    ensures HasSuffix(clean, ".md") ==> !Taken(files, r)
  {
    if !HasSuffix(clean, ".md") then clean
    else
      assert exists n :: FirstFree(files, Stem(clean), n) by { var n := SomeFree(files, Stem(clean)); }
      var n :| FirstFree(files, Stem(clean), n);
      Repeated(Stem(clean), n)
  }

  // ------------------------------------------------------------------
  // FromBundle

  /** What becomes of a file that is neither concept nor page. */
  datatype End = Claimed | Skipped | Loose

  function EndOf(rules: Rules, files: Files, used: set<string>, p: string): End
    requires p in files
  {
    if Cleaned(p) in used then Claimed
    else if !rules.loadable(Cleaned(p), files[p]) then Skipped
    else Loose
  }

  function WithEnd(rules: Rules, files: Files, used: set<string>, rest: seq<string>, end: End, n: nat): seq<string>
    requires n <= |rest|
  {
    if n == 0 then []
    else
      var p := rest[n - 1];
      WithEnd(rules, files, used, rest, end, n - 1)
      + if p in files && EndOf(rules, files, used, p) == end then [p] else []
  }

  /** The loose files at the paths of a list. */
  ghost function LooseAt(files: Files, paths: seq<string>): seq<BundleFile> {
    if paths == [] then []
    else
      var p := paths[|paths| - 1];
      LooseAt(files, paths[..|paths| - 1])
      + if p in files then [BundleFile(StoredAt(files, Cleaned(p)), files[p])] else []
  }

  lemma {:induction false} EntriesOneMore(rules: Rules, files: Files, paths: seq<string>, p: string)
    requires p in files
    ensures EntriesAt(rules, files, paths + [p]) == EntriesAt(rules, files, paths) + [EntryOf(rules, p, files[p])]
  {
    assert (paths + [p])[..|paths|] == paths;
  }

  lemma {:induction false} LooseOneMore(files: Files, paths: seq<string>, p: string)
    requires p in files
    ensures LooseAt(files, paths + [p]) == LooseAt(files, paths) + [BundleFile(StoredAt(files, Cleaned(p)), files[p])]
  {
    assert (paths + [p])[..|paths|] == paths;
  }

  lemma {:induction false} StoredIs(files: Files, clean: string, stored: string, times: nat)
    requires !HasSuffix(clean, ".md") ==> stored == clean
    requires HasSuffix(clean, ".md") ==>
               && times > 0 && stored == Repeated(Stem(clean), times) && !Taken(files, stored)
               && forall n | 0 < n < times :: Taken(files, Repeated(Stem(clean), n))
    ensures stored == StoredAt(files, clean)
  {
    hide Repeated, Taken;
    if HasSuffix(clean, ".md") {
      var n := StoredCount(files, clean);
      FirstFreeIsOne(files, Stem(clean), n, times);
    }
  }

  lemma {:induction false} StoredCount(files: Files, clean: string) returns (n: nat)
    requires HasSuffix(clean, ".md")
    ensures FirstFree(files, Stem(clean), n) && StoredAt(files, clean) == Repeated(Stem(clean), n)
  {
    hide Repeated, Taken;
    n := SomeFree(files, Stem(clean));
    var m: nat :| FirstFree(files, Stem(clean), m) && StoredAt(files, clean) == Repeated(Stem(clean), m);
    FirstFreeIsOne(files, Stem(clean), m, n);
  }

  /** The paths of a bundle, by what becomes of them. */
  datatype Reading = Reading(
    entries: seq<Entry>, atts: seq<AttributedFile>, loose: seq<BundleFile>, skipped: seq<string>, reserved: seq<string>)

  ghost predicate IsReading(rules: Rules, files: Files, index: Files, r: Reading) {
    var paths := SortedStrings(files.Keys);
    var concepts := OfKind(rules, files, paths, ConceptFile, |paths|);
    var rest := OfKind(rules, files, paths, OtherFile, |paths|);
    var claims := AllClaims(rules, index, r.entries);
    && r.entries == EntriesAt(rules, files, concepts)
    && r.reserved == OfKind(rules, files, paths, ReservedNote, |paths|)
    && r.atts == claims.atts
    && r.loose == LooseAt(files, WithEnd(rules, files, claims.used, rest, Loose, |rest|))
    && r.skipped == WithEnd(rules, files, claims.used, rest, Skipped, |rest|)
  }

  method SortOut(rules: Rules, files: Files, paths: seq<string>)
      returns (entries: seq<Entry>, rest: seq<string>, reserved: seq<string>)
    requires forall p | p in paths :: p in files
    ensures entries == EntriesAt(rules, files, OfKind(rules, files, paths, ConceptFile, |paths|))
    ensures rest == OfKind(rules, files, paths, OtherFile, |paths|)
    ensures reserved == OfKind(rules, files, paths, ReservedNote, |paths|)
  {
    hide Cleaned, Hidden, Base, EntriesAt;
    entries, rest, reserved := [], [], [];
    EntriesNone(rules, files);
    for i := 0 to |paths|
      invariant entries == EntriesAt(rules, files, OfKind(rules, files, paths, ConceptFile, i))
      invariant rest == OfKind(rules, files, paths, OtherFile, i)
      invariant reserved == OfKind(rules, files, paths, ReservedNote, i)
    {
      var p := paths[i];
      assert p in paths;
      KindStep(rules, files, paths, i);
      var clean := Cleaned(p);
      if Hidden(clean) {
        continue;
      }
      if Base(clean) == "index.md" {
        continue;
      }
      if Base(clean) == "log.md" {
        reserved := reserved + [p];
        continue;
      }
      if !HasSuffix(clean, ".md") {
        rest := rest + [p];
        continue;
      }
      var concept := rules.concept(clean, files[p]);
      if concept.None? {
        rest := rest + [p];
        continue;
      }
      EntriesOneMore(rules, files, OfKind(rules, files, paths, ConceptFile, i), p);
      entries := entries + [Entry(Stem(clean), concept.value)];
    }
  }

  lemma {:induction false} EntriesNone(rules: Rules, files: Files)
    ensures EntriesAt(rules, files, []) == []
  {
  }

  /** The lists of the kinds grow by the file looked at. */
  lemma {:induction false} KindStep(rules: Rules, files: Files, paths: seq<string>, i: nat)
    requires i < |paths| && paths[i] in files
    ensures var p := paths[i];
            forall kind :: OfKind(rules, files, paths, kind, i + 1)
                           == if KindOf(rules, p, files[p]) == kind then OfKind(rules, files, paths, kind, i) + [p]
                              else OfKind(rules, files, paths, kind, i)
  {
    hide KindOf;
  }

  method KeepRest(rules: Rules, files: Files, used: set<string>, rest: seq<string>)
      returns (loose: seq<BundleFile>, skipped: seq<string>)
    requires forall p | p in rest :: p in files
    ensures loose == LooseAt(files, WithEnd(rules, files, used, rest, Loose, |rest|))
    ensures skipped == WithEnd(rules, files, used, rest, Skipped, |rest|)
  {
    hide Cleaned, LooseAt, Taken, Repeated, StoredAt;
    loose, skipped := [], [];
    LooseNone(files);
    for i := 0 to |rest|
      invariant loose == LooseAt(files, WithEnd(rules, files, used, rest, Loose, i))
      invariant skipped == WithEnd(rules, files, used, rest, Skipped, i)
    {
      var p := rest[i];
      assert p in rest;
      EndStep(rules, files, used, rest, i);
      var clean := Cleaned(p);
      if clean in used {
        continue;
      }
      if !rules.loadable(clean, files[p]) {
        skipped := skipped + [p];
        continue;
      }
      ghost var times;
      var stored;
      stored, times := UnclaimMarkdown(clean, files);
      StoredIs(files, clean, stored, times);
      LooseOneMore(files, WithEnd(rules, files, used, rest, Loose, i), p);
      loose := loose + [BundleFile(stored, files[p])];
    }
  }

  lemma {:induction false} LooseNone(files: Files)
    ensures LooseAt(files, []) == []
  {
  }

  lemma {:induction false} EndStep(rules: Rules, files: Files, used: set<string>, rest: seq<string>, i: nat)
    requires i < |rest| && rest[i] in files
    ensures var p := rest[i];
            forall end :: WithEnd(rules, files, used, rest, end, i + 1)
                          == if EndOf(rules, files, used, p) == end then WithEnd(rules, files, used, rest, end, i) + [p]
                             else WithEnd(rules, files, used, rest, end, i)
  {
    hide EndOf;
  }

  method FromBundle(rules: Rules, files: Files) returns (r: Reading)
    requires Distinct(files)
    ensures IsReading(rules, files, IndexOf(files), r)
  {
    hide Cleaned, OfKind, WithEnd, EntriesAt, LooseAt, AllClaims, Distinct, IndexOf;
    var paths := SortStrings(files.Keys);
    var entries, rest, reserved := SortOut(rules, files, paths);
    var claims := ResolveFiles(rules, files, entries);
    OfKindFrom(rules, files, paths, OtherFile, |paths|);
    var loose, skipped := KeepRest(rules, files, claims.used, rest);
    r := Reading(entries, claims.atts, loose, skipped, reserved);
  }

  lemma {:induction false} OfKindFrom(rules: Rules, files: Files, paths: seq<string>, kind: Kind, n: nat)
    requires n <= |paths|
    ensures forall p | p in OfKind(rules, files, paths, kind, n) ::
            p in files && p in paths && KindOf(rules, p, files[p]) == kind
  {
    hide KindOf;
    if n > 0 {
      OfKindFrom(rules, files, paths, kind, n - 1);
    }
  }
}
