/** Saving the same thing twice (internal/okf/frontmatter.go:176-236): when the second
    identical request changes nothing, for every document and every request. */
module SpliceSettles {
  import opened Text
  import opened Order
  import opened Frontmatter
  import opened ServerKeys
  import opened Splice
  import opened SpliceLaws

  // ------------------------------------------------------------------
  // The blocks of the result

  /** What the splice has built: lines that belong to no key, then blocks. */
  datatype Built = Built(front: seq<Line>, groups: seq<Group>)

  /** Lines handed on to whatever stands last. */
  function Handed(b: Built, left: seq<Line>): Built {
    if b.groups == [] then Built(b.front + left, [])
    else
      var m := |b.groups| - 1;
      Built(b.front, b.groups[..m] + [Group(b.groups[m].head, b.groups[m].tail + left)])
  }

  /** The i-th block is a set key's first. */
  predicate Sets(groups: seq<Group>, replace: Blocks, i: nat)
    requires i < |groups|
  {
    var k := groups[i].Name();
    k in replace && replace[k] != [] && k !in SeenBefore(groups, i)
  }

  function LeftBy(groups: seq<Group>, i: nat): seq<Line>
    requires i < |groups|
  {
    Leftover(groups[i], groups[i + 1..], Only(groups[i].Name()))
  }

  function BuiltStep(b: Built, groups: seq<Group>, replace: Blocks, remove: set<string>, i: nat): Built
    requires i < |groups|
  {
    var g := groups[i];
    if Sets(groups, replace, i) then
      var block := replace[g.Name()];
      Built(b.front, b.groups + [Group(block[0], block[1..] + LeftBy(groups, i))])
    else if Touched(g.Name(), replace, remove) then Handed(b, LeftBy(groups, i))
    else Built(b.front, b.groups + [g])
  }

  /** The first n blocks of the document, spliced. */
  function BuiltUpTo(groups: seq<Group>, replace: Blocks, remove: set<string>, n: nat): Built
    requires n <= |groups|
  {
    if n == 0 then Built([], [])
    else BuiltStep(BuiltUpTo(groups, replace, remove, n - 1), groups, replace, remove, n - 1)
  }

  /** What was handed on to the last block after its own lines, if it is a set key's. */
  function HandedOn(groups: seq<Group>, replace: Blocks, remove: set<string>, n: nat): seq<Line>
    requires n <= |groups|
  {
    if n == 0 then []
    else if Sets(groups, replace, n - 1) then LeftBy(groups, n - 1)
    else if Touched(groups[n - 1].Name(), replace, remove) then
      HandedOn(groups, replace, remove, n - 1) + LeftBy(groups, n - 1)
    else []
  }

  function LinesOf(b: Built): seq<Line> {
    b.front + Flatten(b.groups)
  }

  predicate Keyless(lines: seq<Line>) {
    forall i | 0 <= i < |lines| :: lines[i].key.None?
  }

  /** Lines no key's value holds. */
  predicate Idle(lines: seq<Line>) {
    forall i | 0 <= i < |lines| :: IsBlank(lines[i]) || IsComment(lines[i])
  }

  /** A set key's block is its rendered lines, then idle ones. */
  predicate SetWell(g: Group, replace: Blocks) {
    g.Name() in replace && replace[g.Name()] != [] ==>
      var block := replace[g.Name()];
      && g.head == block[0] && |block| - 1 <= |g.tail| && g.tail[..|block| - 1] == block[1..]
      && Idle(g.tail[|block| - 1..])
  }

  ghost predicate WellBuilt(b: Built, replace: Blocks) {
    && Keyless(b.front)
    && forall j | 0 <= j < |b.groups| :: b.groups[j].Valid() && SetWell(b.groups[j], replace)
  }

  /** What follows a set key's rendered lines. */
  function ExtraOf(g: Group, replace: Blocks): seq<Line> {
    if g.Name() in replace && |replace[g.Name()]| - 1 <= |g.tail| && replace[g.Name()] != []
    then g.tail[|replace[g.Name()]| - 1..] else []
  }

  // ------------------------------------------------------------------
  // The steps

  lemma {:induction false} TrailingLines(tail: seq<Line>, last: bool)
    ensures forall i | |tail| - Trailing(tail, last) <= i < |tail| :: IsComment(tail[i]) || (!last && IsBlank(tail[i]))
  {
    if tail != [] {
      TrailingLines(tail[..|tail| - 1], last);
      assert forall i | 0 <= i < |tail| - 1 :: tail[i] == tail[..|tail| - 1][i];
    }
  }

  lemma {:induction false} LeftIsIdle(groups: seq<Group>, i: nat)
    requires i < |groups| && groups[i].Valid()
    ensures Idle(LeftBy(groups, i)) && Keyless(LeftBy(groups, i))
    ensures i == |groups| - 1 ==> forall l | l in LeftBy(groups, i) :: !IsBlank(l)
  {
    var g, rest := groups[i], groups[i + 1..];
    var left := LeftBy(groups, i);
    TrailingLines(g.tail, rest == []);
    hide Trailing, IsBlank, IsComment;
    forall j | 0 <= j < |left|
      ensures left[j] == g.tail[|g.tail| - |left| + j]
    {
    }
    if rest == [] {
      CommentsAreNotBlank(left);
    }
  }

  lemma {:induction false} CommentsAreNotBlank(left: seq<Line>)
    requires forall j | 0 <= j < |left| :: IsComment(left[j])
    ensures forall l | l in left :: !IsBlank(l)
  {
    forall l | l in left
      ensures !IsBlank(l)
    {
      assert IsComment(l) && !IsSpace('#');
    }
  }

  lemma {:induction false} HandedIs(b: Built, left: seq<Line>)
    ensures LinesOf(Handed(b, left)) == LinesOf(b) + left
  {
    if b.groups == [] {
      assert Flatten([]) == [];
      assert b.front + left + [] == b.front + [] + left;
    } else {
      var m := |b.groups| - 1;
      var g := b.groups[m];
      assert b.groups == b.groups[..m] + [g];
      FlattenOfConcat(b.groups[..m], [g]);
      FlattenOfConcat(b.groups[..m], [Group(g.head, g.tail + left)]);
      FlattenOfOne(g);
      FlattenOfOne(Group(g.head, g.tail + left));
      hide Flatten;
      var f, before := b.front, Flatten(b.groups[..m]);
      assert f + (before + ([g.head] + (g.tail + left))) == f + (before + ([g.head] + g.tail)) + left;
    }
  }

  lemma {:induction false} AddedIs(b: Built, g: Group)
    ensures LinesOf(Built(b.front, b.groups + [g])) == LinesOf(b) + ([g.head] + g.tail)
  {
    FlattenOfConcat(b.groups, [g]);
    FlattenOfOne(g);
  }

  /** A step adds the lines of the spliced block. */
  lemma {:induction false} StepLines(b: Built, groups: seq<Group>, replace: Blocks, remove: set<string>, i: nat)
    requires i < |groups| && ValidBlocks(replace)
    ensures LinesOf(BuiltStep(b, groups, replace, remove, i)) == LinesOf(b) + SplicedBlock(groups, replace, remove, i)
  {
    hide Leftover, SeenBefore, LinesOf;
    var g, left := groups[i], LeftBy(groups, i);
    if Sets(groups, replace, i) {
      var block := replace[g.Name()];
      AddedIs(b, Group(block[0], block[1..] + left));
      assert [block[0]] + (block[1..] + left) == block + left;
    } else if Touched(g.Name(), replace, remove) {
      HandedIs(b, left);
      assert [] + left == left;
      RenderedIsSome(replace, g.Name());
    } else {
      AddedIs(b, g);
      assert [] + ([g.head] + g.tail) == [g.head] + g.tail;
    }
  }

  lemma {:induction false} RenderedIsSome(replace: Blocks, k: string)
    requires ValidBlocks(replace)
    ensures k in replace ==> replace[k] != [] && Group(replace[k][0], replace[k][1..]).Valid()
    ensures k in replace ==> Group(replace[k][0], replace[k][1..]).Name() == k
  {
  }

  lemma {:induction false} IdleConcat(a: seq<Line>, b: seq<Line>)
    requires Idle(a) && Idle(b)
    ensures Idle(a + b)
  {
  }

  /** A block stays well built when idle lines are handed on to it. */
  lemma {:induction false} GrownIsWell(g: Group, left: seq<Line>, replace: Blocks)
    requires g.Valid() && SetWell(g, replace) && Keyless(left) && Idle(left)
    ensures var r := Group(g.head, g.tail + left);
            r.Valid() && SetWell(r, replace) && r.Name() == g.Name()
    ensures g.Name() in replace && replace[g.Name()] != [] ==>
              ExtraOf(Group(g.head, g.tail + left), replace) == ExtraOf(g, replace) + left
  {
    hide IsBlank, IsComment;
    var r := Group(g.head, g.tail + left);
    assert r.Name() == g.Name();
    if g.Name() in replace && replace[g.Name()] != [] {
      var n := |replace[g.Name()]| - 1;
      assert r.tail[..n] == g.tail[..n];
      assert r.tail[n..] == g.tail[n..] + left;
      IdleConcat(g.tail[n..], left);
    }
  }

  lemma {:induction false} SetIsWell(replace: Blocks, k: string, left: seq<Line>)
    requires ValidBlocks(replace) && k in replace && Keyless(left) && Idle(left)
    ensures replace[k] != []
    ensures var g := Group(replace[k][0], replace[k][1..] + left);
            g.Valid() && SetWell(g, replace) && g.Name() == k && ExtraOf(g, replace) == left
  {
    hide IsBlank, IsComment;
    RenderedIsSome(replace, k);
    var g := Group(replace[k][0], replace[k][1..] + left);
    assert g.Name() == k;
    assert g.tail[..|replace[k]| - 1] == replace[k][1..] && g.tail[|replace[k]| - 1..] == left;
  }

  /** The last block holds what was handed on to it. */
  ghost predicate LastHolds(b: Built, replace: Blocks, handed: seq<Line>) {
    b.groups != [] ==>
      var g := b.groups[|b.groups| - 1];
      g.Name() in replace ==> ExtraOf(g, replace) == handed
  }

  lemma {:induction false} HandedIsWell(b: Built, left: seq<Line>, replace: Blocks, handed: seq<Line>)
    requires WellBuilt(b, replace) && ValidBlocks(replace) && Keyless(left) && Idle(left)
            && LastHolds(b, replace, handed)
    ensures WellBuilt(Handed(b, left), replace) && LastHolds(Handed(b, left), replace, handed + left)
  {
    hide SetWell, ExtraOf, Idle;
    if b.groups != [] {
      var m := |b.groups| - 1;
      var g := b.groups[m];
      GrownIsWell(g, left, replace);
      RenderedIsSome(replace, g.Name());
      var r := Handed(b, left).groups;
      assert r[m] == Group(g.head, g.tail + left) && forall j | 0 <= j < m :: r[j] == b.groups[j];
    }
  }

  lemma {:induction false} AddedIsWell(b: Built, g: Group, replace: Blocks)
    requires WellBuilt(b, replace) && g.Valid() && SetWell(g, replace)
    ensures WellBuilt(Built(b.front, b.groups + [g]), replace)
  {
    hide SetWell;
  }

  lemma {:induction false} StepIsWell(b: Built, groups: seq<Group>, replace: Blocks, remove: set<string>, i: nat,
                                      handed: seq<Line>)
    requires i < |groups| && ValidGroups(groups) && ValidBlocks(replace)
    requires WellBuilt(b, replace) && LastHolds(b, replace, handed)
    ensures var r := BuiltStep(b, groups, replace, remove, i);
            && WellBuilt(r, replace)
            && LastHolds(r, replace,
                 if Sets(groups, replace, i) then LeftBy(groups, i)
                 else if Touched(groups[i].Name(), replace, remove) then handed + LeftBy(groups, i) else [])
  {
    hide WellBuilt, SetWell, ExtraOf, LeftBy, Keyless, Idle, ValidBlocks, SeenBefore;
    var g, left := groups[i], LeftBy(groups, i);
    LeftIsIdle(groups, i);
    if Sets(groups, replace, i) {
      var block := replace[g.Name()];
      SetIsWell(replace, g.Name(), left);
      AddedIsWell(b, Group(block[0], block[1..] + left), replace);
    } else if Touched(g.Name(), replace, remove) {
      HandedIsWell(b, left, replace, handed);
    } else {
      UnsetIsWell(g, replace);
      AddedIsWell(b, g, replace);
    }
  }

  lemma {:induction false} UnsetIsWell(g: Group, replace: Blocks)
    requires g.Name() !in replace
    ensures SetWell(g, replace)
  {
  }

  /** What is built is what the splice writes, and is well built. */
  lemma {:induction false} BuiltIs(groups: seq<Group>, replace: Blocks, remove: set<string>, n: nat)
    requires n <= |groups| && ValidGroups(groups) && ValidBlocks(replace)
    ensures var b := BuiltUpTo(groups, replace, remove, n);
            && LinesOf(b) == SplicedUpTo(groups, replace, remove, n)
            && WellBuilt(b, replace) && LastHolds(b, replace, HandedOn(groups, replace, remove, n))
  {
    hide BuiltStep, WellBuilt, LastHolds, SplicedBlock, LinesOf, ValidBlocks, LeftBy, Sets;
    if n == 0 {
      NothingBuilt(replace);
    } else {
      BuiltIs(groups, replace, remove, n - 1);
      var b, handed := BuiltUpTo(groups, replace, remove, n - 1), HandedOn(groups, replace, remove, n - 1);
      StepLines(b, groups, replace, remove, n - 1);
      StepIsWell(b, groups, replace, remove, n - 1, handed);
    }
  }

  lemma {:induction false} NothingBuilt(replace: Blocks)
    ensures LinesOf(Built([], [])) == [] && WellBuilt(Built([], []), replace) && LastHolds(Built([], []), replace, [])
  {
  }

  // ------------------------------------------------------------------
  // The first save

  /** The set keys the document does not carry. */
  function New(lines: seq<Line>, replace: Blocks): Blocks {
    replace - SetOf(NamesOf(Groups(lines)))
  }

  function NewGroups(keys: seq<string>, replace: Blocks): (r: seq<Group>)
    requires forall k | k in keys :: k in replace && replace[k] != []
    ensures |r| == |keys|
  {
    seq(|keys|, i requires 0 <= i < |keys| => Group(replace[keys[i]][0], replace[keys[i]][1..]))
  }

  lemma {:induction false} NewIsFlat(keys: seq<string>, replace: Blocks, n: nat)
    requires (forall k | k in keys :: k in replace) && ValidBlocks(replace) && n <= |keys|
    ensures BlocksFor(keys, replace, n) == Flatten(NewGroups(keys, replace)[..n])
  {
    var r := NewGroups(keys, replace);
    if n > 0 {
      NewIsFlat(keys, replace, n - 1);
      assert r[..n] == r[..n - 1] + [r[n - 1]];
      FlattenOfConcat(r[..n - 1], [r[n - 1]]);
      FlattenOfOne(r[n - 1]);
      assert replace[keys[n - 1]] == [r[n - 1].head] + r[n - 1].tail;
    }
  }

  /** The blocks of the result. */
  ghost function After(lines: seq<Line>, replace: Blocks, remove: set<string>): seq<Group>
    requires ValidBlocks(replace)
  {
    var groups, new' := Groups(lines), New(lines, replace);
    BuiltUpTo(groups, replace, remove, |groups|).groups + NewGroups(SortedStrings(new'.Keys), new')
  }

  /** The lines before them. */
  ghost function Before(lines: seq<Line>, replace: Blocks, remove: set<string>): seq<Line> {
    Preamble(lines) + BuiltUpTo(Groups(lines), replace, remove, |Groups(lines)|).front
  }

  lemma {:induction false} NewIsWell(lines: seq<Line>, replace: Blocks, i: nat)
    requires ValidBlocks(replace) && i < |New(lines, replace)|
    ensures var new' := New(lines, replace); var keys := SortedStrings(new'.Keys);
            && i < |keys|
            && var g := NewGroups(keys, new')[i];
               && g.Valid() && SetWell(g, replace) && g.Name() == keys[i] && g.Name() in new'
               && ExtraOf(g, replace) == []
  {
    hide Groups, NamesOf;
    var new' := New(lines, replace);
    var keys := SortedStrings(new'.Keys);
    SortedSize(new'.Keys, keys);
    assert keys[i] in keys;
    SetIsWell(replace, keys[i], []);
    assert replace[keys[i]][1..] + [] == replace[keys[i]][1..];
  }

  /** The blocks that were there and the new ones. */
  lemma {:induction false} AfterParts(lines: seq<Line>, replace: Blocks, remove: set<string>)
      returns (b: Built, more: seq<Group>)
    requires ValidBlocks(replace)
    ensures b == BuiltUpTo(Groups(lines), replace, remove, |Groups(lines)|)
    ensures After(lines, replace, remove) == b.groups + more
            && Before(lines, replace, remove) == Preamble(lines) + b.front
    ensures WellBuilt(b, replace) && LastHolds(b, replace, HandedOn(Groups(lines), replace, remove, |Groups(lines)|))
    ensures LinesOf(b) == SplicedUpTo(Groups(lines), replace, remove, |Groups(lines)|)
    ensures Flatten(more) == NewBlocks(New(lines, replace)) && |more| == |New(lines, replace)|
    ensures more == NewGroups(SortedStrings(New(lines, replace).Keys), New(lines, replace))
  {
    var groups, new' := Groups(lines), New(lines, replace);
    var keys := SortedStrings(new'.Keys);
    GroupsAreValid(lines);
    BuiltIs(groups, replace, remove, |groups|);
    b := BuiltUpTo(groups, replace, remove, |groups|);
    hide Groups, Preamble, Flatten, BuiltUpTo, SplicedUpTo, BlocksFor, NamesOf, WellBuilt, LastHolds, LinesOf, HandedOn;
    more := NewGroups(keys, new');
    NewIsFlat(keys, new', |keys|);
    assert more[..|keys|] == more;
    SortedSize(new'.Keys, keys);
  }

  lemma {:induction false} AllWell(lines: seq<Line>, replace: Blocks, remove: set<string>, j: nat)
    requires ValidBlocks(replace) && j < |After(lines, replace, remove)|
    ensures After(lines, replace, remove)[j].Valid() && SetWell(After(lines, replace, remove)[j], replace)
  {
    hide *;
    var b, more := AfterParts(lines, replace, remove);
    if j < |b.groups| {
      WellAt(b, replace, j);
    } else {
      NewIsWell(lines, replace, j - |b.groups|);
    }
  }

  lemma {:induction false} WellAt(b: Built, replace: Blocks, j: nat)
    requires WellBuilt(b, replace) && j < |b.groups|
    ensures b.groups[j].Valid() && SetWell(b.groups[j], replace)
  {
  }

  lemma {:induction false} OnceIs(lines: seq<Line>, replace: Blocks, remove: set<string>)
    requires ValidBlocks(replace)
    ensures Spliced(lines, replace, remove) == Before(lines, replace, remove) + Flatten(After(lines, replace, remove))
  {
    var b, more := AfterParts(lines, replace, remove);
    SplicedIs(lines, replace, remove);
    FlattenOfConcat(b.groups, more);
    hide Groups, Preamble, Flatten, BuiltUpTo, After, Before, NewGroups, WellBuilt, LastHolds, Spliced, SplicedUpTo,
        NewBlocks;
    Reassociate(Preamble(lines), b.front, Flatten(b.groups), Flatten(more));
  }

  lemma {:induction false} Reassociate(a: seq<Line>, b: seq<Line>, c: seq<Line>, d: seq<Line>)
    ensures a + b + (c + d) == a + (b + c) + d
  {
  }

  lemma {:induction false} KeylessConcat(a: seq<Line>, b: seq<Line>)
    requires Keyless(a) && Keyless(b)
    ensures Keyless(a + b)
  {
  }

  /** The result of a save, block by block. */
  lemma {:induction false} SavedOnce(lines: seq<Line>, replace: Blocks, remove: set<string>)
    requires ValidBlocks(replace)
    ensures var once, all, pre := Spliced(lines, replace, remove), After(lines, replace, remove),
            Before(lines, replace, remove);
            && once == pre + Flatten(all) && Keyless(pre)
            && (forall j | 0 <= j < |all| :: all[j].Valid() && SetWell(all[j], replace))
            && Groups(once) == all && Preamble(once) == pre
  {
    var b, more := AfterParts(lines, replace, remove);
    GroupsAreValid(lines);
    KeylessConcat(Preamble(lines), b.front);
    OnceIs(lines, replace, remove);
    hide Groups, Preamble, Flatten, BuiltUpTo, After, Before, NewGroups, LastHolds, Spliced, SetWell, LinesOf,
        NewBlocks;
    var all, pre := After(lines, replace, remove), Before(lines, replace, remove);
    forall j | 0 <= j < |all|
      ensures all[j].Valid() && SetWell(all[j], replace)
    {
      AllWell(lines, replace, remove, j);
    }
    Regroup(pre, all);
  }

  // ------------------------------------------------------------------
  // The second save

  /** Each set key comes once, and of the removed ones only those that are set. */
  ghost predicate Once(groups: seq<Group>, replace: Blocks, remove: set<string>) {
    && (forall i, j | 0 <= i < j < |groups| && groups[i].Name() == groups[j].Name() :: groups[i].Name() !in replace)
    && (forall i | 0 <= i < |groups| && groups[i].Name() in remove :: groups[i].Name() in replace)
    && (forall k | k in replace :: exists i :: 0 <= i < |groups| && groups[i].Name() == k)
  }

  lemma {:induction false} CountTwo(names: seq<string>, i: nat, j: nat, n: nat)
    requires i < j < n <= |names| && names[i] == names[j]
    ensures Count(names, names[i], n) >= 2
  {
    if j < n - 1 {
      CountTwo(names, i, j, n - 1);
    } else {
      CountOne(names, i, n - 1);
    }
  }

  lemma {:induction false} CountOne(names: seq<string>, i: nat, n: nat)
    requires i < n <= |names|
    ensures Count(names, names[i], n) >= 1
  {
    if i < n - 1 {
      CountOne(names, i, n - 1);
    }
  }

  lemma {:induction false} CountNone(names: seq<string>, k: string, n: nat)
    requires n <= |names| && Count(names, k, n) > 0
    ensures exists i :: 0 <= i < n && names[i] == k
  {
    if names[n - 1] != k {
      CountNone(names, k, n - 1);
    }
  }

  lemma {:induction false} ResultIsOnce(lines: seq<Line>, replace: Blocks, remove: set<string>)
    requires ValidBlocks(replace)
    ensures Once(Groups(Spliced(lines, replace, remove)), replace, remove)
  {
    hide Groups, Spliced, Count;
    var groups := Groups(Spliced(lines, replace, remove));
    var names := NamesOf(groups);
    forall i, j | 0 <= i < j < |groups| && groups[i].Name() == groups[j].Name()
      ensures groups[i].Name() !in replace
    {
      EachKeyOnce(lines, replace, remove, names[i]);
      CountTwo(names, i, j, |names|);
    }
    forall i | 0 <= i < |groups| && groups[i].Name() in remove
      ensures groups[i].Name() in replace
    {
      EachKeyOnce(lines, replace, remove, names[i]);
      CountOne(names, i, |names|);
    }
    forall k | k in replace
      ensures exists i :: 0 <= i < |groups| && groups[i].Name() == k
    {
      EachKeyOnce(lines, replace, remove, k);
      CountNone(names, k, |names|);
      var i :| 0 <= i < |names| && names[i] == k;
      assert groups[i].Name() == k;
    }
  }

  /** A block as the second save writes it. */
  function SetGroup(groups: seq<Group>, replace: Blocks, i: nat): Group
    requires i < |groups|
  {
    var k := groups[i].Name();
    if k in replace && replace[k] != [] then Group(replace[k][0], replace[k][1..] + LeftBy(groups, i)) else groups[i]
  }

  function SetGroups(groups: seq<Group>, replace: Blocks): (r: seq<Group>)
    ensures |r| == |groups|
  {
    seq(|groups|, i requires 0 <= i < |groups| => SetGroup(groups, replace, i))
  }

  lemma {:induction false} SetGroupIsValid(groups: seq<Group>, replace: Blocks, i: nat)
    requires i < |groups| && groups[i].Valid() && ValidBlocks(replace)
    ensures SetGroup(groups, replace, i).Valid()
  {
    hide LeftBy, ValidBlocks;
    LeftIsIdle(groups, i);
    RenderedIsSome(replace, groups[i].Name());
  }

  lemma {:induction false} BlockAgain(groups: seq<Group>, replace: Blocks, remove: set<string>, i: nat)
    requires Once(groups, replace, remove) && ValidBlocks(replace) && i < |groups|
    ensures var g := SetGroup(groups, replace, i); SplicedBlock(groups, replace, remove, i) == [g.head] + g.tail
  {
    hide Leftover;
    var k := groups[i].Name();
    RenderedIsSome(replace, k);
    if k in replace {
      assert k !in SeenBefore(groups, i);
      var block, left := replace[k], LeftBy(groups, i);
      assert [block[0]] + (block[1..] + left) == block + left;
    } else {
      assert [] + ([groups[i].head] + groups[i].tail) == [groups[i].head] + groups[i].tail;
    }
  }

  lemma {:induction false} SplicedAgain(groups: seq<Group>, replace: Blocks, remove: set<string>, n: nat)
    requires Once(groups, replace, remove) && ValidBlocks(replace) && n <= |groups|
    ensures SplicedUpTo(groups, replace, remove, n) == Flatten(SetGroups(groups, replace)[..n])
  {
    hide Once, SplicedBlock, SetGroup, ValidBlocks;
    var r := SetGroups(groups, replace);
    if n > 0 {
      SplicedAgain(groups, replace, remove, n - 1);
      BlockAgain(groups, replace, remove, n - 1);
      assert r[..n] == r[..n - 1] + [r[n - 1]];
      FlattenOfConcat(r[..n - 1], [r[n - 1]]);
      FlattenOfOne(r[n - 1]);
    }
  }

  lemma {:induction false} NothingNew(lines: seq<Line>, replace: Blocks, remove: set<string>)
    requires Once(Groups(lines), replace, remove)
    ensures NewBlocks(replace - SetOf(NamesOf(Groups(lines)))) == []
  {
    hide Groups;
    var groups := Groups(lines);
    var none := replace - SetOf(NamesOf(groups));
    forall k | k in replace
      ensures k in SetOf(NamesOf(groups))
    {
      var i :| 0 <= i < |groups| && groups[i].Name() == k;
      assert NamesOf(groups)[i] == k;
    }
    assert none == map[];
    EmptyIsSorted(Less, none.Keys, SortedStrings(none.Keys));
  }

  lemma {:induction false} SavedTwice(lines: seq<Line>, replace: Blocks, remove: set<string>)
    requires ValidBlocks(replace)
    ensures var once, all := Spliced(lines, replace, remove), After(lines, replace, remove);
            && (Spliced(once, replace, remove) == once <==> SetGroups(all, replace) == all)
            && Once(all, replace, remove)
  {
    var once, all := Spliced(lines, replace, remove), After(lines, replace, remove);
    SavedOnce(lines, replace, remove);
    ResultIsOnce(lines, replace, remove);
    SplicedAgain(all, replace, remove, |all|);
    NothingNew(once, replace, remove);
    hide Groups, Preamble, Flatten, SetWell, After, Before, Once, SplicedUpTo, NewBlocks, SetGroup, NamesOf;
    var pre, again := Preamble(once), SetGroups(all, replace);
    assert again[..|all|] == again;
    assert Spliced(once, replace, remove) == pre + Flatten(again) by {
      SplicedIs(once, replace, remove);
      assert pre + Flatten(again) + [] == pre + Flatten(again);
    }
    forall i | 0 <= i < |again|
      ensures again[i].Valid()
    {
      SetGroupIsValid(all, replace, i);
    }
    Regroup(pre, again);
  }

  lemma {:induction false} SplicedIs(lines: seq<Line>, replace: Blocks, remove: set<string>)
    ensures var groups := Groups(lines);
            Spliced(lines, replace, remove)
            == Preamble(lines) + SplicedUpTo(groups, replace, remove, |groups|)
               + NewBlocks(replace - SetOf(NamesOf(groups)))
  {
    hide Groups, Preamble, SplicedUpTo, NewBlocks, NamesOf;
  }

  // ------------------------------------------------------------------
  // When a block stays as it is

  /** A block none of whose last lines a later read takes for another's: after its key's
      line it ends in no comment, and in no blank line unless it is the last block. */
  predicate Steady(block: seq<Line>, last: bool) {
    |block| > 1 ==> var l := block[|block| - 1]; !IsComment(l) && (last || !IsBlank(l))
  }

  lemma {:induction false} SteadyLeavesNothing(block: seq<Line>, last: bool)
    requires block != []
    ensures Steady(block, last) <==> Trailing(block[1..], last) == 0
  {
    var tail := block[1..];
    assert tail != [] ==> tail[|tail| - 1] == block[|block| - 1];
  }

  predicate NoBlank(lines: seq<Line>) {
    forall l | l in lines :: !IsBlank(l)
  }

  /** How many idle lines at the end are counted. */
  lemma {:induction false} TrailingOfIdle(a: seq<Line>, b: seq<Line>, last: bool)
    requires Idle(b)
    ensures !last || NoBlank(b) ==> Trailing(a + b, last) == Trailing(a, last) + |b|
    ensures last && !NoBlank(b) ==> Trailing(a + b, last) < |b|
  {
    if b == [] {
      assert a + b == a;
    } else {
      var front, l := b[..|b| - 1], b[|b| - 1];
      assert b == front + [l];
      assert (a + b)[..|a + b| - 1] == a + front;
      assert (a + b)[|a + b| - 1] == l;
      TrailingOfIdle(a, front, last);
      CommentNotBlank(l);
      hide IsBlank, IsComment;
    }
  }

  lemma {:induction false} CommentNotBlank(l: Line)
    ensures IsComment(l) ==> !IsBlank(l)
  {
    assert !IsSpace('#');
  }

  lemma {:induction false} AppendTells(a: seq<Line>, b: seq<Line>, c: seq<Line>)
    ensures a + b == a + c <==> b == c
  {
    if a + b == a + c {
      assert b == (a + b)[|a|..] == (a + c)[|a|..] == c;
    }
  }

  /** A set block that comes once stays as it is exactly when its rendered lines are
      steady there and, where it is last, no blank line was handed on to it. */
  lemma {:induction false} SetStays(groups: seq<Group>, replace: Blocks, remove: set<string>, i: nat)
    requires Once(groups, replace, remove) && ValidBlocks(replace) && i < |groups| && SetWell(groups[i], replace)
    requires groups[i].Name() in replace
    ensures var last := i == |groups| - 1;
            SetGroup(groups, replace, i) == groups[i]
            <==> Steady(replace[groups[i].Name()], last) && (last ==> NoBlank(ExtraOf(groups[i], replace)))
  {
    var g := groups[i];
    var k := g.Name();
    RenderedIsSome(replace, k);
    var block, extra, last := replace[k], ExtraOf(g, replace), i == |groups| - 1;
    assert g.tail == block[1..] + extra;
    LeftOfOnce(groups, replace, remove, i);
    SteadyLeavesNothing(block, last);
    TrailingOfIdle(block[1..], extra, last);
    hide Steady, Trailing, Once, LeftBy, Idle, NoBlank;
    var left := LeftBy(groups, i);
    AppendTells(block[1..], left, extra);
    if |left| == |extra| {
      assert left == (block[1..] + extra)[|block[1..]|..] == extra;
    }
  }

  lemma {:induction false} LeftOfOnce(groups: seq<Group>, replace: Blocks, remove: set<string>, i: nat)
    requires Once(groups, replace, remove) && i < |groups| && groups[i].Name() in replace
    ensures var left, tail := LeftBy(groups, i), groups[i].tail;
            && |left| == Trailing(tail, i == |groups| - 1)
            && left == tail[|tail| - |left|..]
  {
    hide Trailing;
    assert groups[i + 1..] != [] ==> groups[i + 1..][0] == groups[i + 1];
  }

  // ------------------------------------------------------------------
  // The exact condition

  /** The keys of the result, in order. */
  ghost function KeysAfter(lines: seq<Line>, replace: Blocks, remove: set<string>): seq<string> {
    var names := NamesOf(Groups(lines));
    SplicedNames(names, replace, remove, |names|) + SortedStrings(replace.Keys - SetOf(names))
  }

  /** Every rendered block is steady where it stands. */
  ghost predicate AllSteady(lines: seq<Line>, replace: Blocks, remove: set<string>) {
    var keys := KeysAfter(lines, replace, remove);
    forall i | 0 <= i < |keys| && keys[i] in replace :: Steady(replace[keys[i]], i == |keys| - 1)
  }

  /** Where the last key of the result is one the document carried and that is set, no
      blank line is handed on to it by its old block or by the blocks that went after it. */
  ghost predicate NoBlankHandedOn(lines: seq<Line>, replace: Blocks, remove: set<string>) {
    var keys, groups := KeysAfter(lines, replace, remove), Groups(lines);
    keys != [] && keys[|keys| - 1] in replace && keys[|keys| - 1] in NamesOf(groups)
    ==> NoBlank(HandedOn(groups, replace, remove, |groups|))
  }

  lemma {:induction false} NamesAfter(lines: seq<Line>, replace: Blocks, remove: set<string>)
    requires ValidBlocks(replace)
    ensures var keys, all := KeysAfter(lines, replace, remove), After(lines, replace, remove);
            |keys| == |all| && forall i | 0 <= i < |all| :: keys[i] == all[i].Name()
  {
    hide Groups, After, SplicedNames, SortedStrings, Spliced;
    SavedOnce(lines, replace, remove);
    SplicedKeys(lines, replace, remove);
    assert NamesOf(After(lines, replace, remove)) == KeysAfter(lines, replace, remove);
  }

  /** What the last block of the result holds after its own lines. */
  lemma {:induction false} LastExtra(lines: seq<Line>, replace: Blocks, remove: set<string>)
    requires ValidBlocks(replace)
    ensures var all, groups := After(lines, replace, remove), Groups(lines);
            all != [] && all[|all| - 1].Name() in replace ==>
              ExtraOf(all[|all| - 1], replace)
              == if all[|all| - 1].Name() in NamesOf(groups) then HandedOn(groups, replace, remove, |groups|) else []
  {
    hide *;
    var groups := Groups(lines);
    var b, more := AfterParts(lines, replace, remove);
    var all := After(lines, replace, remove);
    if more != [] {
      NewIsWell(lines, replace, |more| - 1);
      NewIsNotThere(lines, replace, all[|all| - 1].Name());
      assert all[|all| - 1] == more[|more| - 1];
    } else if all != [] {
      assert all == b.groups;
      NamesOfBuilt(groups, replace, remove, |groups|);
      LastAt(b, replace, HandedOn(groups, replace, remove, |groups|), NamesOf(groups));
    }
  }

  lemma {:induction false} LastAt(b: Built, replace: Blocks, handed: seq<Line>, names: seq<string>)
    requires LastHolds(b, replace, handed) && NamedIn(b.groups, names) && b.groups != []
    ensures var g := b.groups[|b.groups| - 1];
            g.Name() in names && (g.Name() in replace ==> ExtraOf(g, replace) == handed)
  {
    hide ExtraOf;
  }

  lemma {:induction false} NewIsNotThere(lines: seq<Line>, replace: Blocks, k: string)
    ensures k in New(lines, replace) ==> k !in NamesOf(Groups(lines))
  {
    hide Groups, NamesOf;
  }

  /** The blocks built are of keys the document carries. */
  ghost predicate NamedIn(groups: seq<Group>, names: seq<string>) {
    forall j | 0 <= j < |groups| :: groups[j].Name() in names
  }

  lemma {:induction false} StepNames(b: Built, groups: seq<Group>, replace: Blocks, remove: set<string>, i: nat,
                                     names: seq<string>)
    requires i < |groups| && ValidBlocks(replace) && NamedIn(b.groups, names) && groups[i].Name() in names
    ensures NamedIn(BuiltStep(b, groups, replace, remove, i).groups, names)
  {
    hide LeftBy, ValidBlocks, Sets;
    SetsIsSet(groups, replace, i);
    RenderedIsSome(replace, groups[i].Name());
    if b.groups != [] {
      assert b.groups[|b.groups| - 1].Name() in names;
    }
  }

  lemma {:induction false} NamesOfBuilt(groups: seq<Group>, replace: Blocks, remove: set<string>, n: nat)
    requires n <= |groups| && ValidBlocks(replace)
    ensures NamedIn(BuiltUpTo(groups, replace, remove, n).groups, NamesOf(groups))
  {
    hide BuiltStep, ValidBlocks;
    if n > 0 {
      NamesOfBuilt(groups, replace, remove, n - 1);
      assert NamesOf(groups)[n - 1] == groups[n - 1].Name();
      StepNames(BuiltUpTo(groups, replace, remove, n - 1), groups, replace, remove, n - 1, NamesOf(groups));
    }
  }

  lemma {:induction false} SetsIsSet(groups: seq<Group>, replace: Blocks, i: nat)
    requires i < |groups|
    ensures Sets(groups, replace, i) ==> groups[i].Name() in replace && replace[groups[i].Name()] != []
  {
  }

  /** A second identical save changes nothing exactly when every rendered block is steady
      where it stands and no blank line is handed on to the last one: for any document,
      keys set, unset or both, and keys that come twice. */
  lemma {:induction false} SettlesExactlyWhen(lines: seq<Line>, replace: Blocks, remove: set<string>)
    requires ValidBlocks(replace)
    ensures var once := Spliced(lines, replace, remove);
            Spliced(once, replace, remove) == once
            <==> AllSteady(lines, replace, remove) && NoBlankHandedOn(lines, replace, remove)
  {
    hide Groups, Spliced, Once, SetWell, ExtraOf, After, NamesOf, Steady, HandedOn, SetGroup, NoBlank, KeysAfter,
        ValidBlocks;
    var all, keys := After(lines, replace, remove), KeysAfter(lines, replace, remove);
    SavedOnce(lines, replace, remove);
    SavedTwice(lines, replace, remove);
    NamesAfter(lines, replace, remove);
    LastExtra(lines, replace, remove);
    forall i | 0 <= i < |all|
      ensures SetGroups(all, replace)[i] == all[i]
              <==> (all[i].Name() in replace ==>
                      && Steady(replace[all[i].Name()], i == |all| - 1)
                      && (i == |all| - 1 ==> NoBlank(ExtraOf(all[i], replace))))
    {
      if all[i].Name() in replace {
        SetStays(all, replace, remove, i);
      } else {
        UnsetStays(all, replace, i);
      }
    }
    NoneIsNoBlank();
    if AllSteady(lines, replace, remove) && NoBlankHandedOn(lines, replace, remove) {
      assert SetGroups(all, replace) == all;
    }
    if SetGroups(all, replace) == all {
      forall i | 0 <= i < |keys| && keys[i] in replace
        ensures Steady(replace[keys[i]], i == |keys| - 1)
      {
        assert SetGroups(all, replace)[i] == all[i];
      }
      if all != [] {
        assert SetGroups(all, replace)[|all| - 1] == all[|all| - 1];
      }
    }
  }

  lemma {:induction false} NoneIsNoBlank()
    ensures NoBlank([])
  {
  }

  lemma {:induction false} UnsetStays(groups: seq<Group>, replace: Blocks, i: nat)
    requires i < |groups| && groups[i].Name() !in replace
    ensures SetGroup(groups, replace, i) == groups[i]
  {
  }

  // ------------------------------------------------------------------
  // Setting keys of a document that has none twice

  ghost predicate Distinct(groups: seq<Group>) {
    forall i, j | 0 <= i < j < |groups| :: groups[i].Name() != groups[j].Name()
  }

  /** A rendered block whose last line no later read takes for the next key's. */
  predicate EndsPlain(block: seq<Line>) {
    block != [] && !IsBlank(block[|block| - 1]) && !IsComment(block[|block| - 1])
  }

  /** With no key unset and none twice, comments alone are handed on to the last block. */
  lemma {:induction false} CommentsHandedOn(groups: seq<Group>, replace: Blocks)
    requires Distinct(groups) && ValidGroups(groups) && ValidBlocks(replace)
    ensures NoBlank(HandedOn(groups, replace, {}, |groups|))
  {
    hide LeftBy, ValidBlocks, IsBlank;
    if groups != [] {
      var i := |groups| - 1;
      LeftIsIdle(groups, i);
      RenderedIsSome(replace, groups[i].Name());
      assert groups[i].Name() !in SeenBefore(groups, i);
    }
  }

  /** Then a second identical save changes nothing exactly when every rendered block is
      steady where it stands. */
  lemma {:induction false} SettingSettlesExactlyWhen(lines: seq<Line>, replace: Blocks)
    requires Distinct(Groups(lines)) && ValidBlocks(replace)
    ensures var once := Spliced(lines, replace, {});
            Spliced(once, replace, {}) == once <==> AllSteady(lines, replace, {})
  {
    hide Groups, Spliced, AllSteady, HandedOn, ValidBlocks, KeysAfter, NoBlank, NamesOf, Distinct;
    GroupsAreValid(lines);
    CommentsHandedOn(Groups(lines), replace);
    SettlesExactlyWhen(lines, replace, {});
  }

  /** In particular when no rendered block ends in a blank or comment line. */
  lemma {:induction false} SavingTwiceIsSavingOnce(lines: seq<Line>, replace: Blocks)
    requires Distinct(Groups(lines)) && ValidBlocks(replace)
    requires forall k | k in replace :: EndsPlain(replace[k])
    ensures var once := Spliced(lines, replace, {}); Spliced(once, replace, {}) == once
  {
    hide Groups, Spliced, ValidBlocks, KeysAfter;
    SettingSettlesExactlyWhen(lines, replace);
  }
}
