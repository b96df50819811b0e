/** A reading shares out the files of its bundle (internal/okf/bundle.go): every file
    that is not hidden shows up in one of the reading's lists or is an index page, in
    no two, and the lists hold nothing else. */
module BundleShares {
  import opened Text
  import opened Order
  import opened Bundle
  import opened BundleLaws
  import opened BundleImport

  // ------------------------------------------------------------------
  // Where a file shows up

  predicate IsPage(p: string) {
    Base(Cleaned(p)) == "index.md"
  }

  ghost predicate AsConcept(r: Reading, p: string) {
    exists e :: e in r.entries && e.id + ".md" == Cleaned(p)
  }

  ghost predicate AsAttributed(r: Reading, p: string) {
    exists a :: a in r.atts && a.path == Cleaned(p)
  }

  /** In how many of these ways: an index page, a reserved note, a concept, attributed,
      skipped. */
  ghost function Ways(r: Reading, p: string): nat {
    (if IsPage(p) then 1 else 0) + (if p in r.reserved then 1 else 0) + (if AsConcept(r, p) then 1 else 0)
    + (if AsAttributed(r, p) then 1 else 0) + if p in r.skipped then 1 else 0
  }

  /** A dot right after a slash. */
  predicate DotAt(clean: string, k: nat) {
    0 < k < |clean| && clean[k - 1] == '/' && clean[k] == '.'
  }

  /** A segment of the path starts with a dot. */
  ghost predicate Dotted(clean: string) {
    "." <= clean || exists k: nat :: DotAt(clean, k)
  }

  predicate StartsWithDot(seg: string) {
    "." <= seg
  }

  predicate LaterDot(parts: seq<string>) {
    exists i :: 0 < i < |parts| && StartsWithDot(parts[i])
  }

  lemma {:induction false} LaterCons(head: string, tail: seq<string>)
    requires tail != []
    ensures LaterDot([head] + tail) <==> "." <= tail[0] || LaterDot(tail)
    ensures LaterDot([head] + tail[1..]) <==> LaterDot(tail)
  {
    var all, other := [head] + tail, [head] + tail[1..];
    assert StartsWithDot(tail[0]) ==> StartsWithDot(all[1]);
    if i :| 0 < i < |tail| && StartsWithDot(tail[i]) {
      assert StartsWithDot(all[i + 1]) && StartsWithDot(other[i]);
    }
    if i :| 0 < i < |all| && StartsWithDot(all[i]) {
      assert StartsWithDot(tail[i - 1]);
    }
    if i :| 0 < i < |other| && StartsWithDot(other[i]) {
      assert StartsWithDot(tail[i]);
    }
  }

  lemma {:induction false} FirstOrLater(parts: seq<string>)
    requires parts != []
    ensures (exists seg | seg in parts :: "." <= seg) <==> "." <= parts[0] || LaterDot(parts)
  {
    assert parts[0] in parts;
    if seg :| seg in parts && "." <= seg {
      var i :| 0 <= i < |parts| && parts[i] == seg;
      assert StartsWithDot(parts[i]);
    }
    if i :| 0 < i < |parts| && StartsWithDot(parts[i]) {
      assert parts[i] in parts;
    }
  }

  lemma {:induction false} FirstDot(clean: string)
    ensures "." <= Split(clean, '/')[0] <==> "." <= clean
  {
  }

  lemma {:induction false} LaterDotIs(clean: string)
    ensures LaterDot(Split(clean, '/')) <==> exists k: nat :: DotAt(clean, k)
  {
    if clean != "" {
      var rest, tail := clean[1..], Split(clean[1..], '/');
      LaterDotIs(rest);
      FirstDot(rest);
      if k: nat :| DotAt(rest, k) {
        assert DotAt(clean, k + 1);
      }
      if k: nat :| DotAt(clean, k) {
        assert k > 1 ==> DotAt(rest, k - 1);
      }
      LaterCons("", tail);
      LaterCons([clean[0]] + tail[0], tail);
      if clean[0] == '/' {
        assert "." <= rest ==> DotAt(clean, 1);
      }
    }
  }

  lemma {:induction false} HiddenIsDotted(clean: string)
    ensures Hidden(clean) <==> Dotted(clean)
  {
    var parts := Split(clean, '/');
    FirstDot(clean);
    LaterDotIs(clean);
    FirstOrLater(parts);
  }

  /** Neither hidden nor any of these. */
  ghost predicate LeftOver(r: Reading, p: string) {
    !Dotted(Cleaned(p)) && Ways(r, p) == 0
  }

  // ------------------------------------------------------------------
  // What the lists hold

  ghost predicate IsOf(rules: Rules, files: Files, r: Reading) {
    Distinct(files) && IsReading(rules, files, IndexOf(files), r)
  }

  ghost function UsedBy(rules: Rules, files: Files, r: Reading): set<string>
    requires Distinct(files)
  {
    AllClaims(rules, IndexOf(files), r.entries).used
  }

  lemma {:induction false} InList(rules: Rules, files: Files, kind: Kind, p: string)
    requires p in files
    ensures p in ListOf(rules, files, kind) <==> KindOf(rules, p, files[p]) == kind
  {
    hide KindOf, OfKind, SortedStrings;
    var paths := PathsOf(files);
    assert paths[..|paths|] == paths;
    InOfKind(rules, files, paths, kind, |paths|, p);
  }

  lemma {:induction false} ReservedAre(rules: Rules, files: Files, r: Reading, p: string)
    requires IsOf(rules, files, r) && p in files
    ensures p in r.reserved <==> KindOf(rules, p, files[p]) == ReservedNote
    ensures p in r.skipped <==> p in RestOf(rules, files, UsedBy(rules, files, r), Skipped)
  {
    hide KindOf, OfKind, WithEnd, EntriesAt, LooseAt, AllClaims, Cleaned;
    InList(rules, files, ReservedNote, p);
  }

  lemma {:induction false} ConceptIsEntry(rules: Rules, files: Files, r: Reading, p: string)
    requires IsOf(rules, files, r) && p in files && KindOf(rules, p, files[p]) == ConceptFile
    ensures EntryOf(rules, p, files[p]) in r.entries && AsConcept(r, p)
  {
    hide OfKind, WithEnd, EntriesAt, LooseAt, AllClaims, Cleaned, Distinct, Hidden, Base;
    InList(rules, files, ConceptFile, p);
    var concepts := ListOf(rules, files, ConceptFile);
    var i :| 0 <= i < |concepts| && concepts[i] == p;
    OfKindFrom(rules, files, PathsOf(files), ConceptFile, |PathsOf(files)|);
    EntryIndex(rules, files, concepts, i);
    StemIs(Cleaned(p));
    assert r.entries[i] == EntryOf(rules, p, files[p]);
    assert r.entries[i].id + ".md" == Cleaned(p);
  }

  lemma {:induction false} EntryIsConcept(rules: Rules, files: Files, r: Reading, e: Entry) returns (p: string)
    requires IsOf(rules, files, r) && e in r.entries
    ensures p in files && KindOf(rules, p, files[p]) == ConceptFile && e.id + ".md" == Cleaned(p)
    ensures e == EntryOf(rules, p, files[p])
  {
    hide OfKind, WithEnd, EntriesAt, LooseAt, AllClaims, Cleaned, KindOf, EntryOf;
    var i :| 0 <= i < |r.entries| && r.entries[i] == e;
    ConceptAddress(rules, files, IndexOf(files), r, i);
    var concepts := ListOf(rules, files, ConceptFile);
    p := concepts[i];
    OfKindFrom(rules, files, PathsOf(files), ConceptFile, |PathsOf(files)|);
    assert p in concepts;
    EntryIndex(rules, files, concepts, i);
  }

  lemma {:induction false} ConceptsAre(rules: Rules, files: Files, r: Reading, p: string)
    requires IsOf(rules, files, r) && p in files
    ensures AsConcept(r, p) <==> KindOf(rules, p, files[p]) == ConceptFile
  {
    hide IsReading, KindOf, Cleaned;
    if KindOf(rules, p, files[p]) == ConceptFile {
      ConceptIsEntry(rules, files, r, p);
    }
    if AsConcept(r, p) {
      var e :| e in r.entries && e.id + ".md" == Cleaned(p);
      var q := EntryIsConcept(rules, files, r, e);
      assert p == q;
    }
  }

  lemma {:induction false} AttributedAre(rules: Rules, files: Files, r: Reading, p: string)
    requires IsOf(rules, files, r) && p in files && !Hidden(Cleaned(p))
    ensures AsAttributed(r, p)
            <==> KindOf(rules, p, files[p]) == OtherFile && EndOf(rules, files, UsedBy(rules, files, r), p) == Claimed
    ensures forall a | a in r.atts && a.path == Cleaned(p) :: a.data == files[p]
  {
    hide IsReading, Cleaned, EndOf, AllClaims, Hidden, Base, IndexOf;
    ClaimedAreAttributed(rules, files, IndexOf(files), r, p);
    InRest(rules, files, UsedBy(rules, files, r), p, Claimed);
  }

  /** What a file that is not hidden is counted as, by its kind and end. */
  lemma {:induction false} WaysAre(rules: Rules, files: Files, r: Reading, p: string)
    requires IsOf(rules, files, r) && p in files && !Hidden(Cleaned(p))
    ensures Ways(r, p) <= 1
    ensures Ways(r, p) == 0 <==> p in RestOf(rules, files, UsedBy(rules, files, r), Loose)
  {
    hide IsReading, Cleaned, AllClaims, Hidden, IndexOf, AsConcept, AsAttributed, RestOf, Distinct;
    var used := UsedBy(rules, files, r);
    ReservedAre(rules, files, r, p);
    ConceptsAre(rules, files, r, p);
    AttributedAre(rules, files, r, p);
    InRest(rules, files, used, p, Skipped);
    InRest(rules, files, used, p, Loose);
  }

  // ------------------------------------------------------------------
  // Nothing is dropped, nothing is taken twice

  /** The name and bytes a file is kept under when nothing claims it. */
  ghost function Kept(files: Files, p: string): BundleFile
    requires p in files
  {
    BundleFile(StoredAt(files, Cleaned(p)), files[p])
  }

  /** Every file goes one way. A file that is not hidden shows up at most once as an
      index page, a reserved note, a concept, attributed or skipped, with its bytes
      where it is kept; if in no way, it is among the loose files. A hidden one may be
      attributed, and shows up nowhere else. */
  lemma {:induction false} EveryFileGoesOneWay(rules: Rules, files: Files, r: Reading, p: string)
    requires IsOf(rules, files, r) && p in files
    ensures !Dotted(Cleaned(p)) ==> Ways(r, p) <= 1
    ensures Dotted(Cleaned(p)) ==> p !in r.reserved && !AsConcept(r, p) && p !in r.skipped
    ensures LeftOver(r, p) ==> Kept(files, p) in r.loose
    ensures forall e | e in r.entries && e.id + ".md" == Cleaned(p) :: e == EntryOf(rules, p, files[p])
    ensures forall a | a in r.atts && a.path == Cleaned(p) && !Dotted(Cleaned(p)) :: a.data == files[p]
  {
    HiddenIsDotted(Cleaned(p));
    hide IsReading, Cleaned, Dotted, Hidden, AllClaims, IndexOf, AsConcept, AsAttributed, RestOf, Ways, EntryOf,
        StoredAt;
    var used := UsedBy(rules, files, r);
    forall e | e in r.entries && e.id + ".md" == Cleaned(p)
      ensures e == EntryOf(rules, p, files[p])
    {
      var q := EntryIsConcept(rules, files, r, e);
      assert p == q;
    }
    if Hidden(Cleaned(p)) {
      ReservedAre(rules, files, r, p);
      ConceptsAre(rules, files, r, p);
      InRest(rules, files, used, p, Skipped);
    } else {
      AttributedAre(rules, files, r, p);
      WaysAre(rules, files, r, p);
      if Ways(r, p) == 0 {
        LeftOverIsLoose(rules, files, r, p);
      }
    }
  }

  /** Which way it goes: log.md is reserved; any other markdown file but index.md that is a
      concept becomes one, with that body; of what is left, what is attributed to no concept
      is loose where it can be stored, and skipped where it cannot. */
  lemma {:induction false} WhichWay(rules: Rules, files: Files, r: Reading, p: string)
    requires IsOf(rules, files, r) && p in files
    ensures var clean, shown := Cleaned(p), !Dotted(Cleaned(p));
            && (p in r.reserved <==> shown && Base(clean) == "log.md")
            && (AsConcept(r, p) <==> shown && HasSuffix(clean, ".md") && Base(clean) !in {"index.md", "log.md"}
                                     && rules.concept(clean, files[p]).Some?)
            && (forall e | e in r.entries && e.id + ".md" == clean :: rules.concept(clean, files[p]) == Some(e.body))
            && (p in r.skipped || LeftOver(r, p) ==> (p in r.skipped <==> !rules.loadable(clean, files[p])))
  {
    hide *;
    ReservedNotes(rules, files, r, p);
    ConceptDocuments(rules, files, r, p);
    if p in r.skipped || LeftOver(r, p) {
      SkippedFiles(rules, files, r, p);
    }
    forall e | e in r.entries && e.id + ".md" == Cleaned(p)
      ensures rules.concept(Cleaned(p), files[p]) == Some(e.body)
    {
      EntryBody(rules, files, r, p, e);
    }
  }

  lemma {:induction false} ReservedNotes(rules: Rules, files: Files, r: Reading, p: string)
    requires IsOf(rules, files, r) && p in files
    ensures p in r.reserved <==> !Dotted(Cleaned(p)) && Base(Cleaned(p)) == "log.md"
  {
    HiddenIsDotted(Cleaned(p));
    hide IsReading, AllClaims, IndexOf, Dotted, Hidden, Cleaned, Base, Distinct;
    ReservedAre(rules, files, r, p);
  }

  lemma {:induction false} ConceptDocuments(rules: Rules, files: Files, r: Reading, p: string)
    requires IsOf(rules, files, r) && p in files
    ensures AsConcept(r, p)
            <==> !Dotted(Cleaned(p)) && HasSuffix(Cleaned(p), ".md") && Base(Cleaned(p)) !in {"index.md", "log.md"}
                 && rules.concept(Cleaned(p), files[p]).Some?
  {
    HiddenIsDotted(Cleaned(p));
    hide IsReading, AllClaims, IndexOf, Dotted, Hidden, Cleaned, Base, AsConcept, Distinct, HasSuffix;
    ConceptsAre(rules, files, r, p);
  }

  lemma {:induction false} SkippedFiles(rules: Rules, files: Files, r: Reading, p: string)
    requires IsOf(rules, files, r) && p in files && (p in r.skipped || LeftOver(r, p))
    ensures p in r.skipped <==> !rules.loadable(Cleaned(p), files[p])
  {
    hide IsReading, AllClaims, IndexOf, Cleaned, KindOf, Distinct, LeftOver, RestOf;
    var used := UsedBy(rules, files, r);
    ReservedAre(rules, files, r, p);
    InRest(rules, files, used, p, Skipped);
    InRest(rules, files, used, p, Loose);
    LooseIsLeftOver(rules, files, r, p);
  }

  lemma {:induction false} EntryBody(rules: Rules, files: Files, r: Reading, p: string, e: Entry)
    requires IsOf(rules, files, r) && p in files && e in r.entries && e.id + ".md" == Cleaned(p)
    ensures rules.concept(Cleaned(p), files[p]) == Some(e.body)
  {
    hide IsReading, AllClaims, IndexOf, Hidden, Cleaned, Base;
    var q := EntryIsConcept(rules, files, r, e);
    assert p == q;
  }

  lemma {:induction false} LeftOverIsLoose(rules: Rules, files: Files, r: Reading, p: string)
    requires IsOf(rules, files, r) && p in files && p in RestOf(rules, files, UsedBy(rules, files, r), Loose)
    ensures Kept(files, p) in r.loose
  {
    hide IsReading, Cleaned, AllClaims, IndexOf, RestOf, StoredAt, KindOf, Distinct;
    var paths := RestOf(rules, files, UsedBy(rules, files, r), Loose);
    var i :| 0 <= i < |paths| && paths[i] == p;
    LooseKept(rules, files, IndexOf(files), r);
    LooseAddress(rules, files, IndexOf(files), r, i);
    assert r.loose[i] == Kept(files, p);
  }

  /** The loose files are those left over, each once: as many, and each is one of them
      with its bytes. */
  lemma {:induction false} LooseAreLeftOver(rules: Rules, files: Files, r: Reading)
    requires IsOf(rules, files, r)
    ensures |r.loose| == |set p | p in files && LeftOver(r, p)|
    ensures forall f | f in r.loose :: exists p :: p in files && LeftOver(r, p) && f == Kept(files, p)
  {
    hide IsReading, Cleaned, AllClaims, IndexOf, RestOf, StoredAt, KindOf, Distinct, LeftOver;
    var paths := RestOf(rules, files, UsedBy(rules, files, r), Loose);
    LooseKept(rules, files, IndexOf(files), r);
    forall i | 0 <= i < |r.loose|
      ensures paths[i] in files && LeftOver(r, paths[i]) && r.loose[i] == Kept(files, paths[i])
    {
      LooseAddress(rules, files, IndexOf(files), r, i);
      assert paths[i] in paths;
      LooseIsLeftOver(rules, files, r, paths[i]);
    }
    forall p | p in files && LeftOver(r, p)
      ensures p in paths
    {
      LooseIsLeftOver(rules, files, r, p);
    }
    forall i, j | 0 <= i < j < |paths|
      ensures paths[i] != paths[j]
    {
      RestIsDistinct(rules, files, UsedBy(rules, files, r), i, j);
    }
    assert (set p | p in files && LeftOver(r, p)) == set p | p in paths;
    DistinctSize(paths);
  }

  lemma {:induction false} LooseIsLeftOver(rules: Rules, files: Files, r: Reading, p: string)
    requires IsOf(rules, files, r) && p in files
    ensures LeftOver(r, p) <==> p in RestOf(rules, files, UsedBy(rules, files, r), Loose)
  {
    HiddenIsDotted(Cleaned(p));
    hide IsReading, Cleaned, AllClaims, IndexOf, RestOf, Distinct, Ways, Dotted, Hidden;
    if Hidden(Cleaned(p)) {
      InRest(rules, files, UsedBy(rules, files, r), p, Loose);
    } else {
      WaysAre(rules, files, r, p);
    }
  }

  /** The concepts are those of the input, each once. */
  lemma {:induction false} ConceptsAreOfTheInput(rules: Rules, files: Files, r: Reading, i: nat)
    requires IsOf(rules, files, r) && i < |r.entries|
    ensures exists p :: p in files && KindOf(rules, p, files[p]) == ConceptFile
               && r.entries[i] == EntryOf(rules, p, files[p])
    ensures forall j | 0 <= j < |r.entries| && j != i :: r.entries[j].id != r.entries[i].id
  {
    hide IsReading, Cleaned, IndexOf, Distinct, KindOf, EntryOf;
    var p := EntryIsConcept(rules, files, r, r.entries[i]);
    forall j | 0 <= j < |r.entries| && j != i
      ensures r.entries[j].id != r.entries[i].id
    {
      if i < j {
        ConceptsApart(rules, files, IndexOf(files), r, i, j);
      } else {
        ConceptsApart(rules, files, IndexOf(files), r, j, i);
      }
    }
  }
}
