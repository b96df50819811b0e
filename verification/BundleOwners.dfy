/** Which concept a file of a bundle belongs to (resolveFiles of internal/okf/file.go):
    the one whose links name it, or else the one whose directory it lies in; and where
    two files of one name ask for one concept, which of them it gets. */
module BundleOwners {
  import opened Text
  import opened Paths
  import opened Order
  import opened Bundle
  import opened BundleLaws
  import opened BundleShares

  // ------------------------------------------------------------------
  // Who asks for a file

  /** Its name ends in ".md", in capitals or not. */
  predicate IsMarkdown(p: string) {
    HasSuffix(p, ".md") || HasSuffix(p, ".Md") || HasSuffix(p, ".mD") || HasSuffix(p, ".MD")
  }

  lemma {:induction false} MarkdownIs(p: string)
    ensures AnyMd(p) <==> IsMarkdown(p)
  {
    if |p| >= 3 {
      var s := p[|p| - 3..];
      assert s == [p[|p| - 3], p[|p| - 2], p[|p| - 1]];
    }
  }

  /** A file that may be attributed to a concept. */
  predicate Suits(rules: Rules, index: Files, p: string) {
    p in index && !IsMarkdown(p) && rules.attachable(Base(p), index[p])
  }

  function TargetsOf(rules: Rules, e: Entry): seq<string> {
    rules.targets(e.id, e.body)
  }

  /** One of the first n targets is a suitable file of that name. */
  predicate Asks(rules: Rules, index: Files, targets: seq<string>, n: nat, name: string) {
    exists i :: 0 <= i < n && i < |targets| && Suits(rules, index, targets[i]) && Base(targets[i]) == name
  }

  /** p is the first of the n targets that is a suitable file of its name. */
  predicate Gets(rules: Rules, index: Files, targets: seq<string>, n: nat, p: string) {
    exists i :: 0 <= i < n && i < |targets| && targets[i] == p && Suits(rules, index, p)
           && !Asks(rules, index, targets, i, Base(p))
  }

  /** The links of e bring p in. */
  predicate Refers(rules: Rules, index: Files, e: Entry, p: string) {
    Gets(rules, index, TargetsOf(rules, e), |TargetsOf(rules, e)|, p)
  }

  /** The links of e bring in a file of that name. */
  predicate RefersTo(rules: Rules, index: Files, e: Entry, name: string) {
    Asks(rules, index, TargetsOf(rules, e), |TargetsOf(rules, e)|, name)
  }

  predicate Unreferred(rules: Rules, index: Files, entries: seq<Entry>, p: string) {
    forall e | e in entries :: !Refers(rules, index, e, p)
  }

  /** The file lies in the directory of e, no concept's links bring it in, and those of e
      bring in no other of its name. */
  predicate LivesWith(rules: Rules, index: Files, entries: seq<Entry>, e: Entry, p: string) {
    && Suits(rules, index, p) && Dir(p) == e.id && Unreferred(rules, index, entries, p)
    && !RefersTo(rules, index, e, Base(p))
  }

  /** a is the file at its path, under its own name, for the concept of that id. */
  predicate IsFileOf(index: Files, id: string, a: AttributedFile) {
    a.path in index && a == AttributedFile(id, Base(a.path), a.path, index[a.path])
  }

  // ------------------------------------------------------------------
  // The links of one concept

  lemma {:induction false} AsksOneMore(rules: Rules, index: Files, targets: seq<string>, n: nat, name: string)
    requires n < |targets|
    ensures Asks(rules, index, targets, n + 1, name)
            <==> Asks(rules, index, targets, n, name) || (Suits(rules, index, targets[n]) && Base(targets[n]) == name)
  {
    hide Suits, Base;
  }

  lemma {:induction false} GetsOneMore(rules: Rules, index: Files, targets: seq<string>, n: nat, p: string)
    requires n < |targets|
    ensures Gets(rules, index, targets, n + 1, p)
            <==> Gets(rules, index, targets, n, p)
                 || (targets[n] == p && Suits(rules, index, p) && !Asks(rules, index, targets, n, Base(p)))
  {
    hide Suits, Base, Asks;
  }

  ghost predicate LinksMade(rules: Rules, index: Files, c: Claims, k: nat, id: string, targets: seq<string>, n: nat,
                            r: Claims) {
    && (forall j: nat, name :: (j, name) in r.seen
                          <==> (j, name) in c.seen || (j == k && Asks(rules, index, targets, n, name)))
    && (forall a :: a in r.atts
                    <==> a in c.atts || (IsFileOf(index, id, a) && Gets(rules, index, targets, n, a.path)))
  }

  lemma {:induction false} LinksAre(rules: Rules, index: Files, c: Claims, k: nat, id: string, targets: seq<string>,
                                    n: nat)
    requires n <= |targets| && forall name :: (k, name) !in c.seen
    ensures LinksMade(rules, index, c, k, id, targets, n, LinksClaim(rules, index, c, k, id, targets, n))
  {
    hide AnyMd, IsMarkdown, Base, Suits, Asks, Gets, LinksMade, Attach;
    if n == 0 {
      NoLinks(rules, index, c, k, id, targets);
    } else {
      LinksAre(rules, index, c, k, id, targets, n - 1);
      LinksStep(rules, index, c, k, id, targets, n - 1, LinksClaim(rules, index, c, k, id, targets, n - 1));
    }
  }

  lemma {:induction false} NoLinks(rules: Rules, index: Files, c: Claims, k: nat, id: string, targets: seq<string>)
    ensures LinksMade(rules, index, c, k, id, targets, 0, c)
  {
  }

  lemma {:induction false} LinksStep(rules: Rules, index: Files, c: Claims, k: nat, id: string, targets: seq<string>,
                                     n: nat, before: Claims)
    requires n < |targets| && (forall name :: (k, name) !in c.seen)
    requires LinksMade(rules, index, c, k, id, targets, n, before)
    ensures var p := targets[n];
            LinksMade(rules, index, c, k, id, targets, n + 1,
                      if p !in index || AnyMd(p) then before else Attach(rules, before, k, id, p, index[p]))
  {
    hide AnyMd, IsMarkdown, Base, Asks, Gets;
    var p := targets[n];
    MarkdownIs(p);
    forall name
      ensures Asks(rules, index, targets, n + 1, name)
              <==> Asks(rules, index, targets, n, name) || (Suits(rules, index, p) && Base(p) == name)
    {
      AsksOneMore(rules, index, targets, n, name);
    }
    forall q
      ensures Gets(rules, index, targets, n + 1, q)
              <==> Gets(rules, index, targets, n, q)
                   || (p == q && Suits(rules, index, q) && !Asks(rules, index, targets, n, Base(q)))
    {
      GetsOneMore(rules, index, targets, n, q);
    }
  }

  // ------------------------------------------------------------------
  // The reference pass

  predicate SomeRefers(rules: Rules, index: Files, entries: seq<Entry>, n: nat, a: AttributedFile) {
    exists k :: 0 <= k < n && k < |entries| && IsFileOf(index, entries[k].id, a)
           && Refers(rules, index, entries[k], a.path)
  }

  ghost predicate ReferencesMade(rules: Rules, index: Files, entries: seq<Entry>, n: nat, c: Claims) {
    && (forall k: nat, name :: (k, name) in c.seen
                          <==> k < n && k < |entries| && RefersTo(rules, index, entries[k], name))
    && (forall a :: a in c.atts <==> SomeRefers(rules, index, entries, n, a))
  }

  lemma {:induction false} ReferencesAre(rules: Rules, index: Files, entries: seq<Entry>, n: nat)
    requires n <= |entries|
    ensures ReferencesMade(rules, index, entries, n, ByReference(rules, index, entries, n))
  {
    hide LinksClaim, LinksMade, Refers, RefersTo, IsFileOf;
    if n > 0 {
      ReferencesAre(rules, index, entries, n - 1);
      var e, before := entries[n - 1], ByReference(rules, index, entries, n - 1);
      var targets := TargetsOf(rules, e);
      LinksAre(rules, index, before, n - 1, e.id, targets, |targets|);
      ReferencesStep(rules, index, entries, n - 1, before,
                     LinksClaim(rules, index, before, n - 1, e.id, targets, |targets|));
    }
  }

  lemma {:induction false} ReferencesStep(rules: Rules, index: Files, entries: seq<Entry>, n: nat, before: Claims,
                                          r: Claims)
    requires n < |entries| && ReferencesMade(rules, index, entries, n, before)
    requires var e := entries[n];
             LinksMade(rules, index, before, n, e.id, TargetsOf(rules, e), |TargetsOf(rules, e)|, r)
    ensures ReferencesMade(rules, index, entries, n + 1, r)
  {
    hide Asks, Gets, IsFileOf, TargetsOf;
    forall a
      ensures SomeRefers(rules, index, entries, n + 1, a)
              <==> SomeRefers(rules, index, entries, n, a)
                   || (IsFileOf(index, entries[n].id, a) && Refers(rules, index, entries[n], a.path))
    {
      SomeRefersOneMore(rules, index, entries, n, a);
    }
  }

  lemma {:induction false} SomeRefersOneMore(rules: Rules, index: Files, entries: seq<Entry>, n: nat,
                                             a: AttributedFile)
    requires n < |entries|
    ensures SomeRefers(rules, index, entries, n + 1, a)
            <==> SomeRefers(rules, index, entries, n, a)
                 || (IsFileOf(index, entries[n].id, a) && Refers(rules, index, entries[n], a.path))
  {
    hide IsFileOf, Refers;
  }

  // ------------------------------------------------------------------
  // The namespace pass

  /** Attributed by the namespace pass that starts from c. */
  ghost predicate AtHome(rules: Rules, index: Files, entries: seq<Entry>, c: Claims, k: nat, a: AttributedFile) {
    && k < |entries| && IsFileOf(index, entries[k].id, a) && Suits(rules, index, a.path)
    && Owner(entries, Dir(a.path)) == Some(k) && a.path !in c.used && (k, Base(a.path)) !in c.seen
  }

  ghost predicate HomesMade(rules: Rules, index: Files, entries: seq<Entry>, c: Claims, r: Claims) {
    && (forall a | a in c.atts :: a in r.atts)
    && (forall a | a in r.atts && a !in c.atts :: exists k: nat ::
            AtHome(rules, index, entries, c, k, a) && (k, a.name) in r.seen)
    && (forall k: nat, name | (k, name) in r.seen && (k, name) !in c.seen :: exists a ::
            a in r.atts && a.name == name && AtHome(rules, index, entries, c, k, a))
  }

  predicate Settled(rules: Rules, index: Files, entries: seq<Entry>, c: Claims, r: Claims, p: string) {
    Suits(rules, index, p) && p !in c.used && Owner(entries, Dir(p)).Some?
    ==> (Owner(entries, Dir(p)).value, Base(p)) in r.seen
  }

  lemma {:induction false} HomesAre(
    rules: Rules, index: Files, entries: seq<Entry>, c: Claims, rest: seq<string>, n: nat)
    requires n <= |rest| && Sound(index, c)
    ensures var r := ByNamespace(rules, index, entries, c, rest, n);
            && HomesMade(rules, index, entries, c, r) && Sound(index, r)
            && c.used <= r.used && c.seen <= r.seen
            && forall j | 0 <= j < n :: Settled(rules, index, entries, c, r, rest[j])
  {
    hide AnyMd, IsMarkdown, Base, Suits, Attach, Sound, HomesMade, Settled, Owner, Dir;
    var r := ByNamespace(rules, index, entries, c, rest, n);
    NamespacesSound(rules, index, entries, c, rest, n);
    if n == 0 {
      NoHomes(rules, index, entries, c);
    } else {
      HomesAre(rules, index, entries, c, rest, n - 1);
      var before := ByNamespace(rules, index, entries, c, rest, n - 1);
      NamespacesSound(rules, index, entries, c, rest, n - 1);
      HomesStep(rules, index, entries, c, before, rest[n - 1], r);
      forall j | 0 <= j < n
        ensures Settled(rules, index, entries, c, r, rest[j])
      {
        if j < n - 1 {
          StaysSettled(rules, index, entries, c, before, r, rest[j]);
        }
      }
    }
  }

  lemma {:induction false} NoHomes(rules: Rules, index: Files, entries: seq<Entry>, c: Claims)
    ensures HomesMade(rules, index, entries, c, c)
  {
    hide AtHome;
  }

  lemma {:induction false} StaysSettled(rules: Rules, index: Files, entries: seq<Entry>, c: Claims, before: Claims,
                                        r: Claims, p: string)
    requires Settled(rules, index, entries, c, before, p) && before.seen <= r.seen
    ensures Settled(rules, index, entries, c, r, p)
  {
    hide Suits, Owner, Dir, Base;
  }

  /** What the pass makes of one path. */
  function HomeStep(rules: Rules, index: Files, entries: seq<Entry>, before: Claims, p: string): Claims {
    if p !in index || p in before.used || AnyMd(p) then before
    else
      match Owner(entries, Dir(p))
      case None => before
      case Some(k) => if k < |entries| then Attach(rules, before, k, entries[k].id, p, index[p]) else before
  }

  lemma {:induction false} HomesStep(rules: Rules, index: Files, entries: seq<Entry>, c: Claims, before: Claims,
                                     p: string, r: Claims)
    requires HomesMade(rules, index, entries, c, before) && Sound(index, c) && Sound(index, before)
    requires c.used <= before.used && c.seen <= before.seen
    requires r == HomeStep(rules, index, entries, before, p)
    ensures HomesMade(rules, index, entries, c, r) && Settled(rules, index, entries, c, r, p)
    ensures before.seen <= r.seen
  {
    hide AnyMd, IsMarkdown, Base, Owner, Dir, HomesMade, Sound;
    MarkdownIs(p);
    OwnerIs(entries, Dir(p));
    if r == before {
      HomesUnmoved(rules, index, entries, c, before, p);
    } else {
      var k := Owner(entries, Dir(p)).value;
      var a := AttributedFile(entries[k].id, Base(p), p, index[p]);
      HomeAdded(rules, index, entries, c, before, k, a);
    }
  }

  lemma {:induction false} HomesUnmoved(rules: Rules, index: Files, entries: seq<Entry>, c: Claims, before: Claims,
                                        p: string)
    requires HomesMade(rules, index, entries, c, before) && Sound(index, c) && Sound(index, before)
    requires before == HomeStep(rules, index, entries, before, p)
    ensures Settled(rules, index, entries, c, before, p)
  {
    hide AnyMd, IsMarkdown, Base, Owner, Dir, Sound;
    MarkdownIs(p);
    OwnerIs(entries, Dir(p));
    if Suits(rules, index, p) && p !in c.used && Owner(entries, Dir(p)).Some? && p in before.used {
      var a := SomeUser(index, c, before, p);
      var k: nat :| AtHome(rules, index, entries, c, k, a) && (k, a.name) in before.seen;
    }
  }

  lemma {:induction false} SomeUser(index: Files, c: Claims, before: Claims, p: string) returns (a: AttributedFile)
    requires Sound(index, c) && Sound(index, before) && p in before.used && p !in c.used
    ensures a in before.atts && a !in c.atts && a.path == p && a.name == Base(p)
  {
    hide AnyMd, IsMarkdown, Base;
    a :| a in before.atts && a.path == p;
  }

  lemma {:induction false} HomeAdded(rules: Rules, index: Files, entries: seq<Entry>, c: Claims, before: Claims,
                                     k: nat, a: AttributedFile)
    requires HomesMade(rules, index, entries, c, before) && AtHome(rules, index, entries, c, k, a)
    ensures HomesMade(rules, index, entries, c,
                      Claims(before.atts + [a], before.used + {a.path}, before.seen + {(k, a.name)}))
  {
    hide AtHome;
    var r := Claims(before.atts + [a], before.used + {a.path}, before.seen + {(k, a.name)});
    forall b | b in r.atts && b !in c.atts
      ensures exists j: nat :: AtHome(rules, index, entries, c, j, b) && (j, b.name) in r.seen
    {
      if b != a {
        var j: nat :| AtHome(rules, index, entries, c, j, b) && (j, b.name) in before.seen;
        assert (j, b.name) in r.seen;
      }
    }
    forall j: nat, name | (j, name) in r.seen && (j, name) !in c.seen
      ensures exists b :: b in r.atts && b.name == name && AtHome(rules, index, entries, c, j, b)
    {
      if (j, name) in before.seen {
        var b :| b in before.atts && b.name == name && AtHome(rules, index, entries, c, j, b);
        assert b in r.atts;
      } else {
        assert a in r.atts;
      }
    }
  }

  // ------------------------------------------------------------------
  // Both passes

  lemma {:induction false} OwnerOf(entries: seq<Entry>, k: nat)
    requires k < |entries| && forall j | k < j < |entries| :: entries[j].id != entries[k].id
    ensures Owner(entries, entries[k].id) == Some(k)
  {
    if k < |entries| - 1 {
      OwnerOf(entries[..|entries| - 1], k);
    }
  }

  ghost predicate IdsApart(entries: seq<Entry>) {
    forall i, j | 0 <= i < |entries| && 0 <= j < |entries| && i != j :: entries[i].id != entries[j].id
  }

  /** No reference of a concept brought the path in exactly when the pass left it unused. */
  lemma {:induction false} UnusedIs(rules: Rules, index: Files, entries: seq<Entry>, c: Claims, p: string)
    requires ReferencesMade(rules, index, entries, |entries|, c) && Sound(index, c) && p in index
    ensures p !in c.used <==> Unreferred(rules, index, entries, p)
  {
    hide Refers, RefersTo, Base, AnyMd;
    if p in c.used {
      var a :| a in c.atts && a.path == p;
      assert SomeRefers(rules, index, entries, |entries|, a);
    } else if e :| e in entries && Refers(rules, index, e, p) {
      ReferredIsUsed(rules, index, entries, c, e, p);
    }
  }

  lemma {:induction false} ReferredIsUsed(rules: Rules, index: Files, entries: seq<Entry>, c: Claims, e: Entry,
                                          p: string)
    requires ReferencesMade(rules, index, entries, |entries|, c) && Sound(index, c) && p in index
    requires e in entries && Refers(rules, index, e, p)
    ensures p in c.used
  {
    hide Refers, RefersTo, Base, AnyMd;
    var k :| 0 <= k < |entries| && entries[k] == e;
    var a := AttributedFile(e.id, Base(p), p, index[p]);
    assert IsFileOf(index, e.id, a);
    assert SomeRefers(rules, index, entries, |entries|, a);
    assert a in c.atts && a.path in c.used;
  }

  // ------------------------------------------------------------------
  // One file of each name

  /** The i-th concept has that name taken. */
  ghost predicate TakenBy(entries: seq<Entry>, c: Claims, a: AttributedFile) {
    exists k: nat :: k < |entries| && entries[k].id == a.id && (k, a.name) in c.seen
  }

  ghost predicate NamesApart(atts: seq<AttributedFile>) {
    forall i, j | 0 <= i < j < |atts| && atts[i].id == atts[j].id :: atts[i].name != atts[j].name
  }

  ghost predicate Tidy(entries: seq<Entry>, c: Claims) {
    NamesApart(c.atts) && forall i | 0 <= i < |c.atts| :: TakenBy(entries, c, c.atts[i])
  }

  lemma {:induction false} AttachTidy(rules: Rules, entries: seq<Entry>, c: Claims, k: nat, p: string, data: string)
    requires Tidy(entries, c) && IdsApart(entries) && k < |entries|
    ensures Tidy(entries, Attach(rules, c, k, entries[k].id, p, data))
  {
    hide Base;
    var r := Attach(rules, c, k, entries[k].id, p, data);
    if r != c {
      forall i | 0 <= i < |r.atts|
        ensures TakenBy(entries, r, r.atts[i])
      {
        if i < |c.atts| {
          assert TakenBy(entries, c, c.atts[i]);
        }
      }
      forall i | 0 <= i < |c.atts| && c.atts[i].id == entries[k].id
        ensures c.atts[i].name != Base(p)
      {
        assert TakenBy(entries, c, c.atts[i]);
      }
    }
  }

  lemma {:induction false} LinksTidy(rules: Rules, index: Files, entries: seq<Entry>, c: Claims, k: nat,
                                     targets: seq<string>, n: nat)
    requires Tidy(entries, c) && IdsApart(entries) && k < |entries| && n <= |targets|
    ensures Tidy(entries, LinksClaim(rules, index, c, k, entries[k].id, targets, n))
  {
    hide Tidy, Attach, AnyMd, IdsApart;
    if n > 0 {
      LinksTidy(rules, index, entries, c, k, targets, n - 1);
      var p := targets[n - 1];
      if p in index {
        AttachTidy(rules, entries, LinksClaim(rules, index, c, k, entries[k].id, targets, n - 1), k, p, index[p]);
      }
    }
  }

  lemma {:induction false} ReferencesTidy(rules: Rules, index: Files, entries: seq<Entry>, n: nat)
    requires IdsApart(entries) && n <= |entries|
    ensures Tidy(entries, ByReference(rules, index, entries, n))
  {
    hide LinksClaim, IdsApart;
    if n > 0 {
      ReferencesTidy(rules, index, entries, n - 1);
      var targets := TargetsOf(rules, entries[n - 1]);
      LinksTidy(rules, index, entries, ByReference(rules, index, entries, n - 1), n - 1, targets, |targets|);
    }
  }

  lemma {:induction false} NamespacesTidy(rules: Rules, index: Files, entries: seq<Entry>, c: Claims,
                                          rest: seq<string>, n: nat)
    requires Tidy(entries, c) && IdsApart(entries) && n <= |rest|
    ensures Tidy(entries, ByNamespace(rules, index, entries, c, rest, n))
  {
    hide Tidy, Attach, AnyMd, IdsApart, Owner, Dir;
    if n > 0 {
      NamespacesTidy(rules, index, entries, c, rest, n - 1);
      var before, p := ByNamespace(rules, index, entries, c, rest, n - 1), rest[n - 1];
      if p in index && Owner(entries, Dir(p)).Some? && Owner(entries, Dir(p)).value < |entries| {
        AttachTidy(rules, entries, before, Owner(entries, Dir(p)).value, p, index[p]);
      }
    }
  }

  /** What both passes attribute: to each concept the files its links bring in and, of
      those that live with it, one of each name. */
  ghost predicate Attributed(rules: Rules, index: Files, entries: seq<Entry>, atts: seq<AttributedFile>) {
    && (forall a | a in atts :: exists e ::
          && e in entries && IsFileOf(index, e.id, a)
          && (Refers(rules, index, e, a.path) || LivesWith(rules, index, entries, e, a.path)))
    && (forall e, p | e in entries && Refers(rules, index, e, p) ::
          p in index && AttributedFile(e.id, Base(p), p, index[p]) in atts)
    && (forall e, p | e in entries && LivesWith(rules, index, entries, e, p) :: exists a ::
          a in atts && IsFileOf(index, e.id, a) && a.name == Base(p) && LivesWith(rules, index, entries, e, a.path))
  }

  lemma {:induction false} HomeIsLiving(rules: Rules, index: Files, entries: seq<Entry>, c: Claims, k: nat,
                                        a: AttributedFile)
    requires ReferencesMade(rules, index, entries, |entries|, c) && Sound(index, c)
    requires AtHome(rules, index, entries, c, k, a)
    ensures k < |entries| && IsFileOf(index, entries[k].id, a)
    ensures LivesWith(rules, index, entries, entries[k], a.path)
  {
    hide Refers, RefersTo, Base, AnyMd, Sound, Dir, Owner, Unreferred;
    OwnerIs(entries, Dir(a.path));
    UnusedIs(rules, index, entries, c, a.path);
  }

  lemma {:induction false} LivingIsSettled(rules: Rules, index: Files, entries: seq<Entry>, c: Claims, r: Claims,
                                           k: nat, p: string)
    requires ReferencesMade(rules, index, entries, |entries|, c) && Sound(index, c) && IdsApart(entries)
    requires HomesMade(rules, index, entries, c, r) && Settled(rules, index, entries, c, r, p)
    requires k < |entries| && LivesWith(rules, index, entries, entries[k], p)
    ensures exists a :: a in r.atts && IsFileOf(index, entries[k].id, a) && a.name == Base(p)
               && LivesWith(rules, index, entries, entries[k], a.path)
  {
    hide Refers, RefersTo, Base, AnyMd, Sound, Dir, Owner, Unreferred, AtHome, LivesWith;
    LivingIs(rules, index, entries, k, p);
    UnusedIs(rules, index, entries, c, p);
    assert (k, Base(p)) in r.seen && (k, Base(p)) !in c.seen;
    var a :| a in r.atts && a.name == Base(p) && AtHome(rules, index, entries, c, k, a);
    HomeIsLiving(rules, index, entries, c, k, a);
  }

  lemma {:induction false} LivingIs(rules: Rules, index: Files, entries: seq<Entry>, k: nat, p: string)
    requires k < |entries| && LivesWith(rules, index, entries, entries[k], p) && IdsApart(entries)
    ensures p in index && Suits(rules, index, p) && Unreferred(rules, index, entries, p)
    ensures !RefersTo(rules, index, entries[k], Base(p)) && Owner(entries, Dir(p)) == Some(k)
  {
    hide Refers, RefersTo, Base, AnyMd, Dir, Owner, Unreferred;
    OwnerOf(entries, k);
  }

  lemma {:induction false} AllTidy(rules: Rules, index: Files, entries: seq<Entry>)
    requires IdsApart(entries)
    ensures NamesApart(AllClaims(rules, index, entries).atts)
  {
    hide ByReference, ByNamespace, IdsApart;
    ReferencesTidy(rules, index, entries, |entries|);
    var rest := SortedStrings(index.Keys);
    NamespacesTidy(rules, index, entries, ByReference(rules, index, entries, |entries|), rest, |rest|);
  }

  lemma {:induction false} BothPasses(rules: Rules, index: Files, entries: seq<Entry>)
    requires IdsApart(entries)
    ensures Attributed(rules, index, entries, AllClaims(rules, index, entries).atts)
    ensures NamesApart(AllClaims(rules, index, entries).atts)
  {
    hide *;
    AllTidy(rules, index, entries);
    var c := ByReference(rules, index, entries, |entries|);
    var r := AllClaims(rules, index, entries);
    ReferencesAre(rules, index, entries, |entries|);
    ReferencesSound(rules, index, entries, |entries|);
    AllAreHomes(rules, index, entries, c);
    forall a | a in r.atts
      ensures exists e :: e in entries && IsFileOf(index, e.id, a)
                 && (Refers(rules, index, e, a.path) || LivesWith(rules, index, entries, e, a.path))
    {
      AttributedHas(rules, index, entries, c, r, a);
    }
    forall e, p | e in entries && Refers(rules, index, e, p)
      ensures p in index && AttributedFile(e.id, Base(p), p, index[p]) in r.atts
    {
      ReferredHas(rules, index, entries, c, r, e, p);
    }
    forall e, p | e in entries && LivesWith(rules, index, entries, e, p)
      ensures exists a :: a in r.atts && IsFileOf(index, e.id, a) && a.name == Base(p)
                 && LivesWith(rules, index, entries, e, a.path)
    {
      var k :| 0 <= k < |entries| && entries[k] == e;
      LivingIs(rules, index, entries, k, p);
      LivingIsSettled(rules, index, entries, c, r, k, p);
    }
    AttributedIs(rules, index, entries, r.atts);
  }

  lemma {:induction false} AttributedIs(rules: Rules, index: Files, entries: seq<Entry>, atts: seq<AttributedFile>)
    requires forall a | a in atts :: exists e ::
                 e in entries && IsFileOf(index, e.id, a)
                 && (Refers(rules, index, e, a.path) || LivesWith(rules, index, entries, e, a.path))
    requires forall e, p | e in entries && Refers(rules, index, e, p) ::
                 p in index && AttributedFile(e.id, Base(p), p, index[p]) in atts
    requires forall e, p | e in entries && LivesWith(rules, index, entries, e, p) :: exists a ::
                 a in atts && IsFileOf(index, e.id, a) && a.name == Base(p)
                 && LivesWith(rules, index, entries, e, a.path)
    ensures Attributed(rules, index, entries, atts)
  {
    hide Refers, LivesWith, IsFileOf;
  }

  lemma {:induction false} AllAreHomes(rules: Rules, index: Files, entries: seq<Entry>, c: Claims)
    requires c == ByReference(rules, index, entries, |entries|) && Sound(index, c)
    ensures HomesMade(rules, index, entries, c, AllClaims(rules, index, entries))
    ensures forall p | p in index :: Settled(rules, index, entries, c, AllClaims(rules, index, entries), p)
  {
    hide HomesMade, Settled, Sound, ByReference, ByNamespace;
    var rest := SortedStrings(index.Keys);
    HomesAre(rules, index, entries, c, rest, |rest|);
    forall p | p in index
      ensures Settled(rules, index, entries, c, AllClaims(rules, index, entries), p)
    {
      assert p in rest;
      var j :| 0 <= j < |rest| && rest[j] == p;
    }
  }

  lemma {:induction false} AttributedHas(rules: Rules, index: Files, entries: seq<Entry>, c: Claims, r: Claims,
                                         a: AttributedFile)
    requires ReferencesMade(rules, index, entries, |entries|, c) && Sound(index, c)
    requires HomesMade(rules, index, entries, c, r) && a in r.atts
    ensures exists e :: e in entries && IsFileOf(index, e.id, a)
               && (Refers(rules, index, e, a.path) || LivesWith(rules, index, entries, e, a.path))
  {
    hide Refers, LivesWith, IsFileOf, AtHome, Sound, RefersTo;
    if a in c.atts {
      assert SomeRefers(rules, index, entries, |entries|, a);
    } else {
      var k: nat :| AtHome(rules, index, entries, c, k, a) && (k, a.name) in r.seen;
      HomeIsLiving(rules, index, entries, c, k, a);
      assert entries[k] in entries;
    }
  }

  lemma {:induction false} ReferredHas(rules: Rules, index: Files, entries: seq<Entry>, c: Claims, r: Claims,
                                       e: Entry, p: string)
    requires ReferencesMade(rules, index, entries, |entries|, c) && HomesMade(rules, index, entries, c, r)
    requires e in entries && Refers(rules, index, e, p)
    ensures p in index && AttributedFile(e.id, Base(p), p, index[p]) in r.atts
  {
    hide AtHome, RefersTo, Base, AnyMd, Asks;
    var k :| 0 <= k < |entries| && entries[k] == e;
    var a := AttributedFile(e.id, Base(p), p, index[p]);
    assert SomeRefers(rules, index, entries, |entries|, a);
  }

  // ------------------------------------------------------------------
  // A reading's attributed files

  /** Of every reading. An attributed file has the id of one of its concepts, its own
      name and bytes, and is one the links of that concept bring in, or one of its
      directory that no links bring in. Each file the links of a concept bring in is
      attributed to it. Of the files that live with a concept it gets one of each name. */
  lemma {:induction false} FilesGoToTheirConcepts(rules: Rules, files: Files, r: Reading)
    requires IsOf(rules, files, r)
    ensures Attributed(rules, IndexOf(files), r.entries, r.atts) && NamesApart(r.atts)
  {
    hide Attributed, AllClaims, EntriesAt, LooseAt, OfKind, WithEnd, IndexOf, NamesApart;
    forall i, j | 0 <= i < |r.entries| && 0 <= j < |r.entries| && i != j
      ensures r.entries[i].id != r.entries[j].id
    {
      ConceptsAreOfTheInput(rules, files, r, i);
    }
    BothPasses(rules, IndexOf(files), r.entries);
  }

  /** A suitable file that the links of a concept name is brought in by them, or another
      of its name that they name earlier is. */
  lemma {:induction false} NamedIsReferred(rules: Rules, index: Files, e: Entry, n: nat, i: nat) returns (p: string)
    requires i < n <= |TargetsOf(rules, e)| && Suits(rules, index, TargetsOf(rules, e)[i])
    ensures Refers(rules, index, e, p) && Base(p) == Base(TargetsOf(rules, e)[i])
    ensures exists j :: 0 <= j <= i && TargetsOf(rules, e)[j] == p
    decreases i
  {
    hide Suits, Base;
    var targets := TargetsOf(rules, e);
    if Asks(rules, index, targets, i, Base(targets[i])) {
      var j: nat :| j < i && j < |targets| && Suits(rules, index, targets[j]) && Base(targets[j]) == Base(targets[i]);
      p := NamedIsReferred(rules, index, e, n, j);
    } else {
      p := targets[i];
    }
  }
}
