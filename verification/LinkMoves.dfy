/** The links of a body, and what a move of a concept does to them:
    LinksFromBody, RewriteBodyLinks and AbsolutizeBodyLinks of
    internal/domain/links.go. */
module LinkMoves {
  import opened Text
  import opened LinkScan
  import opened LinkEdit
  import opened LinkRead
  import opened LinkRewrite
  import opened LinkMeaning
  import opened LinkBody
  import opened LinkTarget

  datatype Link = Link(target: string, text: string)

  /** Every link of a list, read at id, in order: the concept it names, "" for
      none, and its words. Images are left out. */
  function Named(id: string, found: seq<Found>): seq<Link> {
    if found == [] then [] else NamedOne(id, found[0]) + Named(id, found[1..])
  }

  function NamedOne(id: string, x: Found): seq<Link> {
    if x.image then [] else [Link(Resolve(id, x.target), TrimSpace(x.text))]
  }

  /** Every link of a body's prose, read at id. */
  function NamedIn(id: string, body: string): seq<Link> {
    Named(id, FoundInBody(body))
  }

  // ------------------------------------------------------------------
  // LinksFromBody

  predicate Dropped(id: string, l: Link) {
    l.target == "" || l.target == id
  }

  /** The first n links less the dropped ones, each once. */
  function LinksUpTo(named: seq<Link>, id: string, n: nat): seq<Link>
    requires n <= |named|
  {
    if n == 0 then []
    else
      var before := LinksUpTo(named, id, n - 1);
      var l := named[n - 1];
      if Dropped(id, l) || l in before then before else before + [l]
  }

  function ReadsUpTo(prose: seq<string>, n: nat): seq<Found>
    requires n <= |prose|
  {
    if n == 0 then [] else ReadsUpTo(prose, n - 1) + Reads(prose[n - 1], 0)
  }

  lemma {:induction false} ReadsUpToPrefix(a: seq<string>, b: seq<string>, n: nat)
    requires n <= |a|
    ensures ReadsUpTo(a + b, n) == ReadsUpTo(a, n)
  {
    if n > 0 {
      ReadsUpToPrefix(a, b, n - 1);
    }
  }

  /** Reading the prose line by line finds the links of the body. */
  lemma {:induction false} ProseIsFound(lines: seq<string>, n: nat)
    requires n <= |lines|
    ensures ReadsUpTo(ProseUpTo(lines, n), |ProseUpTo(lines, n)|) == FoundUpTo(lines, n)
  {
    hide IsProse, Reads, Blanked;
    if n > 0 {
      var before := ProseUpTo(lines, n - 1);
      ProseIsFound(lines, n - 1);
      if IsProse(lines, n - 1) {
        ReadsUpToPrefix(before, [Blanked(lines[n - 1], 0, |lines[n - 1]|)], |before|);
      } else {
        assert before + [] == before;
      }
    }
  }

  lemma {:induction false} NamedOfConcat(id: string, a: seq<Found>, b: seq<Found>)
    ensures Named(id, a + b) == Named(id, a) + Named(id, b)
  {
    hide NamedOne;
    if a == [] {
      assert [] + b == b;
      assert Named(id, a) == [] && Named(id, a) + Named(id, b) == Named(id, b);
    } else {
      NamedOfConcat(id, a[1..], b);
      assert (a + b)[1..] == a[1..] + b;
      var x, y, z := NamedOne(id, a[0]), Named(id, a[1..]), Named(id, b);
      assert x + y + z == x + (y + z);
    }
  }

  lemma {:induction false} LinksUpToPrefix(a: seq<Link>, b: seq<Link>, id: string, n: nat)
    requires n <= |a|
    ensures LinksUpTo(a + b, id, n) == LinksUpTo(a, id, n)
  {
    if n > 0 {
      LinksUpToPrefix(a, b, id, n - 1);
    }
  }

  function LinksOf(id: string, named: seq<Link>): seq<Link> {
    LinksUpTo(named, id, |named|)
  }

  lemma {:induction false} LinksOneMore(id: string, named: seq<Link>, l: Link)
    ensures LinksOf(id, named + [l])
            == if Dropped(id, l) || l in LinksOf(id, named) then LinksOf(id, named) else LinksOf(id, named) + [l]
  {
    hide Dropped;
    LinksUpToPrefix(named, [l], id, |named|);
  }

  lemma {:induction false} NamedStep(id: string, read: seq<Found>, x: Found)
    ensures Named(id, read + [x]) == Named(id, read) + NamedOne(id, x)
    ensures Named(id, read) + [] == Named(id, read)
  {
    hide NamedOne;
    NamedOfConcat(id, read, [x]);
    assert [x][1..] == [];
    assert NamedOne(id, x) + [] == NamedOne(id, x);
  }

  ghost predicate Seen(seen: set<Link>, links: seq<Link>) {
    forall l :: l in seen <==> l in links
  }

  /** One link taken in, unless it is dropped or was seen before. */
  method Add(id: string, m: Found, seen: set<Link>, links: seq<Link>, ghost named: seq<Link>)
    returns (seen': set<Link>, links': seq<Link>)
    requires !m.image && links == LinksOf(id, named) && Seen(seen, links)
    ensures links' == LinksOf(id, named + NamedOne(id, m)) && Seen(seen', links')
  {
    hide Resolve, LinksOf;
    var target := Resolve(id, m.target);
    var l := Link(target, TrimSpace(m.text));
    LinksOneMore(id, named, l);
    if target == "" || target == id || l in seen {
      return seen, links;
    }
    return seen + {l}, links + [l];
  }

  /** One reading taken in; an image is not a link. */
  method AddFound(id: string, m: Found, seen: set<Link>, links: seq<Link>, ghost read: seq<Found>)
    returns (seen': set<Link>, links': seq<Link>)
    requires links == LinksOf(id, Named(id, read)) && Seen(seen, links)
    ensures links' == LinksOf(id, Named(id, read + [m])) && Seen(seen', links')
  {
    NamedStep(id, read, m);
    if m.image {
      return seen, links;
    }
    hide Named, Resolve, LinksOf, Seen;
    seen', links' := Add(id, m, seen, links, Named(id, read));
  }

  /** One line's links taken in. */
  method AddLine(id: string, line: string, seen: set<Link>, links: seq<Link>, ghost read: seq<Found>)
    returns (seen': set<Link>, links': seq<Link>)
    requires links == LinksOf(id, Named(id, read)) && Seen(seen, links)
    ensures links' == LinksOf(id, Named(id, read + Reads(line, 0))) && Seen(seen', links')
  {
    hide Named, LinksOf, Reads, Seen;
    seen', links' := seen, links;
    var found := Reads(line, 0);
    assert read + found[..0] == read;
    for i := 0 to |found|
      invariant links' == LinksOf(id, Named(id, read + found[..i])) && Seen(seen', links')
    {
      seen', links' := AddFound(id, found[i], seen', links', read + found[..i]);
      assert read + found[..i + 1] == read + found[..i] + [found[i]];
    }
    assert found[..|found|] == found;
  }

  method LinksFromBody(id: string, body: string) returns (links: seq<Link>)
    ensures links == LinksOf(id, NamedIn(id, body))
  {
    hide Named, Resolve, Reads, ProseUpTo, FoundUpTo, LinksOf;
    var prose := ProseLines(body);
    links := [];
    var seen: set<Link> := {};
    NothingNamed(id);
    for i := 0 to |prose|
      invariant links == LinksOf(id, Named(id, ReadsUpTo(prose, i))) && Seen(seen, links)
    {
      seen, links := AddLine(id, prose[i], seen, links, ReadsUpTo(prose, i));
    }
    ProseIsFound(Split(body, '\n'), |Split(body, '\n')|);
  }

  lemma {:induction false} NothingNamed(id: string)
    ensures LinksOf(id, Named(id, [])) == []
  {
  }

  /** The links of a body are those it names, each once, less those that name no
      concept or the body's own. */
  lemma {:induction false} LinksAreNamed(named: seq<Link>, id: string, n: nat, l: Link)
    requires n <= |named|
    ensures l in LinksUpTo(named, id, n) <==> (l in named[..n] && !Dropped(id, l))
  {
    hide Dropped;
    if n > 0 {
      LinksAreNamed(named, id, n - 1, l);
      LinksAreNamed(named, id, n - 1, named[n - 1]);
      assert named[..n] == named[..n - 1] + [named[n - 1]];
    }
  }

  /** What a link that was read says at id: images say nothing, nor do those that name no
      concept or the body's own. */
  ghost predicate SaysAt(id: string, x: Found, l: Link) {
    !x.image && l.target == Resolve(id, x.target) && TrimsTo(x.text, IsSpace, l.text) && l.target !in {"", id}
  }

  lemma {:induction false} NamedOneIs(id: string, x: Found, l: Link)
    ensures l in NamedOne(id, x) && !Dropped(id, l) <==> SaysAt(id, x, l)
  {
    hide Resolve, TrimSpace, TrimsTo, IsSpace;
    TrimSpaceIs(x.text, l.text);
  }

  lemma {:induction false} NamedAre(id: string, found: seq<Found>, l: Link)
    ensures l in Named(id, found) && !Dropped(id, l) <==> exists x :: x in found && SaysAt(id, x, l)
  {
    hide NamedOne, Dropped, SaysAt;
    if found != [] {
      NamedOneIs(id, found[0], l);
      NamedAre(id, found[1..], l);
      assert found == [found[0]] + found[1..];
    }
  }

  /** The links of a body are what the links found in its prose say. */
  lemma {:induction false} LinksAreFound(id: string, body: string, l: Link)
    ensures l in LinksOf(id, NamedIn(id, body)) <==> exists x :: x in FoundInBody(body) && SaysAt(id, x, l)
  {
    hide Dropped, SaysAt, Named, FoundInBody;
    var named := NamedIn(id, body);
    LinksAreNamed(named, id, |named|, l);
    assert named[..|named|] == named;
    NamedAre(id, FoundInBody(body), l);
  }

  lemma {:induction false} LinksOnce(named: seq<Link>, id: string, n: nat)
    requires n <= |named|
    ensures forall j, k | 0 <= j < k < |LinksUpTo(named, id, n)| ::
            LinksUpTo(named, id, n)[j] != LinksUpTo(named, id, n)[k]
  {
    hide Dropped;
    if n > 0 {
      LinksOnce(named, id, n - 1);
    }
  }

  // ------------------------------------------------------------------
  // RewriteBodyLinks

  method RewriteBodyLinks(id: string, body: string, oldID: string, newID: string) returns (r: string)
    ensures r == RewrittenBody(body, MoveTarget(id, oldID, newID))
  {
    r := RewriteBody(body, MoveTarget(id, oldID, newID));
  }

  function RenamedOne(l: Link, oldID: string, newID: string): Link {
    l.(target := Renamed(l.target, oldID, newID))
  }

  lemma {:induction false} MoveIsTame(id: string, oldID: string, newID: string)
    requires Plain(newID)
    ensures Tame(MoveTarget(id, oldID, newID))
  {
    hide Resolve, PathPart, Fragment, Printable;
    var f := MoveTarget(id, oldID, newID);
    forall target {:trigger f(target)} | target != "" && Printable(target)
      ensures f(target) != "" && Printable(f(target))
    {
      FragmentStarts(target);
      PrintableParts(target);
      SpelledPrintable(newID, Fragment(target)) by { PlainPrintable(newID); }
    }
  }

  lemma {:induction false} PlainPrintable(v: string)
    requires Plain(v)
    ensures Printable(v)
  {
  }

  /** The second list is the first with the old id renamed. */
  ghost predicate AllRenamed(a: seq<Link>, b: seq<Link>, oldID: string, newID: string) {
    |a| == |b| && forall k | 0 <= k < |a| :: b[k] == RenamedOne(a[k], oldID, newID)
  }

  lemma {:induction false} NamedMoved(id: string, found: seq<Found>, oldID: string, newID: string)
    requires Plain(newID)
    ensures AllRenamed(Named(id, found), Named(id, RetoldAll(found, MoveTarget(id, oldID, newID))), oldID, newID)
  {
    hide NamedOne, Plain, MoveTarget, RenamedOne;
    var f := MoveTarget(id, oldID, newID);
    if found != [] {
      NamedMoved(id, found[1..], oldID, newID);
      NamedOneMoved(id, found[0], oldID, newID);
    }
  }

  lemma {:induction false} NamedOneMoved(id: string, x: Found, oldID: string, newID: string)
    requires Plain(newID)
    ensures AllRenamed(NamedOne(id, x), NamedOne(id, RetoldOne(x, MoveTarget(id, oldID, newID))), oldID, newID)
  {
    hide Resolve, Plain, MoveTarget;
    MoveTargetResolves(id, oldID, newID, x.target);
  }

  /** A move of a concept keeps what every body says. Read at any id, the
      rewritten body names what the old one named, link by link and in the same
      words, with the old id replaced by the new one. */
  lemma {:induction false} MoveKeepsMeaning(id: string, body: string, oldID: string, newID: string)
    requires ApartBody(body) && Plain(newID)
    ensures AllRenamed(NamedIn(id, body), NamedIn(id, RewrittenBody(body, MoveTarget(id, oldID, newID))), oldID, newID)
  {
    hide ApartBody, Plain, MoveTarget, FoundInBody, RewrittenBody;
    MoveIsTame(id, oldID, newID);
    BodyKeepsReading(body, MoveTarget(id, oldID, newID));
    NamedMoved(id, FoundInBody(body), oldID, newID);
  }

  /** Nothing that refers to the old id, nothing changed. */
  lemma {:induction false} MoveLeavesTheRest(id: string, body: string, oldID: string, newID: string)
    requires ApartBody(body) && Plain(newID)
    requires forall l | l in NamedIn(id, body) :: l.target != oldID
    ensures RewrittenBody(body, MoveTarget(id, oldID, newID)) == body
  {
    hide ApartBody, Plain, MoveTarget, FoundInBody, RewrittenBody;
    var found, f := FoundInBody(body), MoveTarget(id, oldID, newID);
    forall k | 0 <= k < |found|
      ensures RetoldOne(found[k], f) == found[k]
    {
      if !found[k].image {
        NamedHas(id, found, k);
        MoveTargetResolves(id, oldID, newID, found[k].target);
      }
    }
    BodyIsLeft(body, f);
  }

  lemma {:induction false} NamedHas(id: string, found: seq<Found>, k: nat)
    requires k < |found| && !found[k].image
    ensures Link(Resolve(id, found[k].target), TrimSpace(found[k].text)) in Named(id, found)
  {
    hide Resolve;
    if k > 0 {
      NamedHas(id, found[1..], k - 1);
    }
  }

  lemma {:induction false} MoveTwice(id: string, body: string, oldID: string, newID: string)
    requires ApartBody(body) && Plain(newID)
    ensures var f := MoveTarget(id, oldID, newID);
            RewrittenBody(RewrittenBody(body, f), f) == RewrittenBody(body, f)
  {
    hide ApartBody, Plain, MoveTarget, FoundInBody, RewrittenBody;
    var f := MoveTarget(id, oldID, newID);
    MoveIsTame(id, oldID, newID);
    forall target
      ensures f(f(target)) == f(target)
    {
      MoveTargetTwice(id, oldID, newID, target);
    }
    RewriteTwice(body, f);
  }

  /** Moving there and back restores what every link names, unless something
      named the new id already. */
  lemma {:induction false} MoveThereAndBack(id: string, body: string, oldID: string, newID: string)
    requires ApartBody(body) && Plain(oldID) && Plain(newID)
    requires forall l | l in NamedIn(id, body) :: l.target != newID
    ensures var there := RewrittenBody(body, MoveTarget(id, oldID, newID));
            NamedIn(id, RewrittenBody(there, MoveTarget(id, newID, oldID))) == NamedIn(id, body)
  {
    hide ApartBody, Plain, MoveTarget, FoundInBody, RewrittenBody, NamedIn;
    var there := RewrittenBody(body, MoveTarget(id, oldID, newID));
    MoveIsTame(id, oldID, newID);
    BodyKeepsReading(body, MoveTarget(id, oldID, newID));
    MoveKeepsMeaning(id, body, oldID, newID);
    MoveKeepsMeaning(id, there, newID, oldID);
  }

  // ------------------------------------------------------------------
  // AbsolutizeBodyLinks

  method AbsolutizeBodyLinks(id: string, body: string) returns (r: string)
    ensures r == RewrittenBody(body, AbsoluteTarget(id))
  {
    r := RewriteBody(body, AbsoluteTarget(id));
  }

  lemma {:induction false} AbsoluteIsTame(id: string)
    requires PlainDir(id)
    ensures Tame(AbsoluteTarget(id))
  {
    hide AbsoluteTarget, Printable, PlainDir;
    var f := AbsoluteTarget(id);
    forall target {:trigger f(target)} | target != "" && Printable(target)
      ensures f(target) != "" && Printable(f(target))
    {
      AbsoluteTargetResolves(id, target, id);
    }
  }

  /** The second list has the words of the first, and names what it names. */
  ghost predicate AllKept(a: seq<Link>, b: seq<Link>) {
    |a| == |b| && forall k | 0 <= k < |a| :: b[k].text == a[k].text && (a[k].target != "" ==> b[k] == a[k])
  }

  lemma {:induction false} NamedAbsolute(id: string, found: seq<Found>, id': string)
    requires PlainDir(id) && Readable(found)
    ensures AllKept(Named(id, found), Named(id', RetoldAll(found, AbsoluteTarget(id))))
  {
    hide NamedOne, PlainDir, AbsoluteTarget, Printable;
    if found != [] {
      NamedAbsolute(id, found[1..], id');
      NamedOneAbsolute(id, found[0], id');
    }
  }

  lemma {:induction false} NamedOneAbsolute(id: string, x: Found, id': string)
    requires PlainDir(id) && Printable(x.target)
    ensures AllKept(NamedOne(id, x), NamedOne(id', RetoldOne(x, AbsoluteTarget(id))))
  {
    hide Resolve, PlainDir, AbsoluteTarget, Printable, TrimSpace;
    if x.image {
      assert NamedOne(id, x) == [];
    } else {
      var t := AbsoluteTarget(id)(x.target);
      AbsoluteTargetResolves(id, x.target, id');
      if Resolve(id, x.target) != "" {
        assert Resolve(id', t) == Resolve(id, x.target);
      }
    }
  }

  /** Every link that names a concept names it from anywhere once the body is
      made absolute. */
  lemma {:induction false} AbsoluteMeansTheSame(id: string, body: string, id': string)
    requires ApartBody(body) && PlainDir(id)
    ensures AllKept(NamedIn(id, body), NamedIn(id', RewrittenBody(body, AbsoluteTarget(id))))
  {
    hide ApartBody, PlainDir, AbsoluteTarget, FoundInBody, RewrittenBody, Readable, AllKept;
    AbsoluteIsTame(id);
    BodyKeepsReading(body, AbsoluteTarget(id));
    FoundReadable(body);
    NamedAbsolute(id, FoundInBody(body), id');
  }

  lemma {:induction false} AbsoluteTwice(id: string, body: string)
    requires ApartBody(body) && PlainDir(id)
    ensures var f := AbsoluteTarget(id);
            RewrittenBody(RewrittenBody(body, f), f) == RewrittenBody(body, f)
  {
    hide ApartBody, PlainDir, AbsoluteTarget, FoundInBody, RewrittenBody;
    var f := AbsoluteTarget(id);
    AbsoluteIsTame(id);
    forall target
      ensures f(f(target)) == f(target)
    {
      AbsoluteTargetTwice(id, target);
    }
    RewriteTwice(body, f);
  }
}
