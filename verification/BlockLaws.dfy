/** Taking keys out and setting them, block by block, in terms of the lines themselves
    (internal/okf/raw.go:160-266, internal/okf/frontmatter.go:176-236): a key's own lines go
    with it, the comments and blank lines that introduce the next key stay. */
module BlockLaws {
  import opened Text
  import opened Order
  import opened Frontmatter
  import opened ServerKeys
  import opened Splice

  // ------------------------------------------------------------------
  // Blocks

  /** A comment in the first column, or, before another key, white space only. */
  predicate Introduces(l: Line, last: bool) {
    "#" <= l.text || (!last && forall c | c in l.text :: IsSpace(c))
  }

  predicate Keyless(lines: seq<Line>) {
    forall l | l in lines :: l.key.None?
  }

  /** A key's line, the lines that are its own, and those after them that introduce what
      follows. */
  predicate IsBlock(head: Line, mine: seq<Line>, next: seq<Line>, last: bool) {
    && head.key.Some? && Keyless(mine) && Keyless(next)
    && (forall l | l in next :: Introduces(l, last))
    && (mine != [] ==> !Introduces(mine[|mine| - 1], last))
  }

  function BlockOf(head: Line, mine: seq<Line>, next: seq<Line>): seq<Line> {
    [head] + (mine + next)
  }

  predicate StartsWithKey(lines: seq<Line>) {
    lines != [] && lines[0].key.Some?
  }

  predicate Rest(lines: seq<Line>) {
    lines == [] || lines[0].key.Some?
  }

  /** The first key of the lines is one of these. */
  predicate Continues(lines: seq<Line>, owned: string -> bool) {
    StartsWithKey(lines) && owned(lines[0].key.value.name)
  }

  lemma {:induction false} IntroducesIs(l: Line, last: bool)
    ensures Introduces(l, last) <==> IsComment(l) || (!last && IsBlank(l))
  {
    assert (forall c | c in l.text :: IsSpace(c)) <==> Blank(l.text) by {
      hide IsSpace;
      if forall i | 0 <= i < |l.text| :: IsSpace(l.text[i]) {
        forall c | c in l.text
          ensures IsSpace(c)
        {
        }
      }
    }
  }

  lemma {:induction false} TrailingIs(mine: seq<Line>, next: seq<Line>, last: bool)
    requires forall l | l in next :: Introduces(l, last)
    requires mine != [] ==> !Introduces(mine[|mine| - 1], last)
    ensures Trailing(mine + next, last) == |next|
  {
    hide IsComment, IsBlank, Introduces;
    if next == [] {
      assert mine + next == mine;
      if mine != [] {
        IntroducesIs(mine[|mine| - 1], last);
      }
    } else {
      var l, all := next[|next| - 1], mine + next;
      assert all[|all| - 1] == l && all[..|all| - 1] == mine + next[..|next| - 1];
      IntroducesIs(l, last);
      TrailingIs(mine, next[..|next| - 1], last);
    }
  }

  lemma {:induction false} BlockGroups(head: Line, mine: seq<Line>, next: seq<Line>, rest: seq<Line>)
    requires head.key.Some? && Keyless(mine) && Keyless(next) && Rest(rest)
    ensures var lines := BlockOf(head, mine, next) + rest;
            Preamble(lines) == [] && Groups(lines) == [Group(head, mine + next)] + Groups(rest)
  {
    hide Groups;
    var lines, tail := BlockOf(head, mine, next) + rest, mine + next;
    assert lines[0] == head && lines[1..] == tail + rest;
    GroupsAfterKeyless(tail, rest);
    GroupsStep(lines);
    assert Preamble(rest) == [];
    assert tail + [] == tail;
  }

  lemma {:induction false} GroupsStep(lines: seq<Line>)
    requires StartsWithKey(lines)
    ensures Groups(lines) == [Group(lines[0], Preamble(lines[1..]))] + Groups(lines[1..])
    ensures Groups(lines)[0].Name() == lines[0].key.value.name
  {
  }

  lemma {:induction false} LeftoverIs(head: Line, mine: seq<Line>, next: seq<Line>, rest: seq<Line>,
                                      owned: string -> bool)
    requires IsBlock(head, mine, next, rest == []) && Rest(rest)
    ensures Leftover(Group(head, mine + next), Groups(rest), owned) == if Continues(rest, owned) then [] else next
  {
    hide Introduces, Groups, Trailing;
    if rest == [] {
      NoGroups();
    } else {
      GroupsStep(rest);
    }
    TrailingIs(mine, next, rest == []);
    assert (mine + next)[|mine|..] == next;
  }

  lemma {:induction false} NoGroups()
    ensures Groups([]) == [] && Preamble([]) == []
  {
  }

  // ------------------------------------------------------------------
  // Taking keys out

  /** What stands before the first key stays. */
  lemma {:induction false} StripsBefore(pre: seq<Line>, rest: seq<Line>, owned: string -> bool)
    requires Keyless(pre)
    ensures Strip(pre + rest, owned) == pre + Strip(rest, owned)
  {
    hide Groups, Preamble, StripGroups;
    GroupsAfterKeyless(pre, rest);
    assert pre + Preamble(rest) + StripGroups(Groups(rest), owned)
           == pre + (Preamble(rest) + StripGroups(Groups(rest), owned));
  }

  /** A block whose key stays is left as it is. Of one whose key goes, what introduces the
      next key stays, unless that key goes too. */
  lemma {:induction false} StripsBlock(head: Line, mine: seq<Line>, next: seq<Line>, rest: seq<Line>,
                                       owned: string -> bool)
    requires IsBlock(head, mine, next, rest == []) && Rest(rest)
    ensures Strip(BlockOf(head, mine, next) + rest, owned)
            == (if !owned(head.key.value.name) then BlockOf(head, mine, next)
                else if Continues(rest, owned) then []
                else next)
               + Strip(rest, owned)
  {
    hide Groups, Preamble, StripGroups, Leftover, Introduces;
    BlockGroups(head, mine, next, rest);
    LeftoverIs(head, mine, next, rest, owned);
    StripStep(Group(head, mine + next), Groups(rest), owned);
    NoPreamble(rest);
    assert [] + StripGroups(Groups(rest), owned) == StripGroups(Groups(rest), owned);
  }

  lemma {:induction false} NoPreamble(rest: seq<Line>)
    requires Rest(rest)
    ensures Preamble(rest) == []
  {
  }

  lemma {:induction false} StripStep(g: Group, rest: seq<Group>, owned: string -> bool)
    ensures StripGroups([g] + rest, owned)
            == (if owned(g.Name()) then Leftover(g, rest, owned) else [g.head] + g.tail) + StripGroups(rest, owned)
  {
    hide Leftover;
    assert ([g] + rest)[1..] == rest;
  }

  // ------------------------------------------------------------------
  // Setting and unsetting keys

  /** With no lines, the new blocks in the order of their keys. */
  lemma {:induction false} SplicesNothing(replace: Blocks, remove: set<string>)
    ensures var keys := SortedStrings(replace.Keys);
            Spliced([], replace, remove) == BlocksFor(keys, replace, |keys|)
  {
    hide BlocksFor;
    assert replace - SetOf(NamesOf(Groups([]))) == replace;
    assert [] + NewBlocks(replace) == NewBlocks(replace);
  }

  lemma {:induction false} SplicesBefore(pre: seq<Line>, rest: seq<Line>, replace: Blocks, remove: set<string>)
    requires Keyless(pre)
    ensures Spliced(pre + rest, replace, remove) == pre + Spliced(rest, replace, remove)
  {
    hide Groups, Preamble, SplicedUpTo, NewBlocks;
    GroupsAfterKeyless(pre, rest);
  }

  /** What is left to set after a block of that key. */
  function SetLater(replace: Blocks, key: string): Blocks {
    replace - {key}
  }

  /** What is left to remove: a key that was set goes wherever else it stands. */
  function GoesLater(replace: Blocks, remove: set<string>, key: string): set<string> {
    if key in replace then remove + {key} else remove
  }

  lemma {:induction false} SplicedBlockLater(g: Group, groups: seq<Group>, replace: Blocks, remove: set<string>, i: nat)
    requires i < |groups|
    ensures SplicedBlock([g] + groups, replace, remove, i + 1)
            == SplicedBlock(groups, SetLater(replace, g.Name()), GoesLater(replace, remove, g.Name()), i)
  {
    hide Leftover;
    var all, name := [g] + groups, groups[i].Name();
    assert all[i + 1] == groups[i] && all[i + 2..] == groups[i + 1..];
    SeenLater(g, groups, i, name);
  }

  lemma {:induction false} SeenLater(g: Group, groups: seq<Group>, i: nat, name: string)
    requires i <= |groups|
    ensures name in SeenBefore([g] + groups, i + 1) <==> name == g.Name() || name in SeenBefore(groups, i)
  {
    var all := [g] + groups;
    if name in SeenBefore(groups, i) {
      var k :| 0 <= k < i && groups[k].Name() == name;
      assert all[k + 1] == groups[k];
    }
    if name in SeenBefore(all, i + 1) {
      var k :| 0 <= k < i + 1 && all[k].Name() == name;
      assert k > 0 ==> all[k] == groups[k - 1];
    }
    assert all[0].Name() == g.Name();
  }

  lemma {:induction false} SplicedLater(g: Group, groups: seq<Group>, replace: Blocks, remove: set<string>, n: nat)
    requires n <= |groups|
    ensures SplicedUpTo([g] + groups, replace, remove, n + 1)
            == SplicedBlock([g] + groups, replace, remove, 0)
               + SplicedUpTo(groups, SetLater(replace, g.Name()), GoesLater(replace, remove, g.Name()), n)
  {
    hide SplicedBlock, SetLater, GoesLater;
    var all, later, gone := [g] + groups, SetLater(replace, g.Name()), GoesLater(replace, remove, g.Name());
    var first := SplicedBlock(all, replace, remove, 0);
    if n == 0 {
      assert SplicedUpTo(all, replace, remove, 0) == [];
      assert [] + first == first == first + [];
    } else {
      SplicedLater(g, groups, replace, remove, n - 1);
      SplicedBlockLater(g, groups, replace, remove, n - 1);
      var before, block := SplicedUpTo(groups, later, gone, n - 1), SplicedBlock(groups, later, gone, n - 1);
      assert first + before + block == first + (before + block);
    }
  }

  /** One block is spliced, then the rest with what is left to set and to remove: a set
      key's new block stands where its first did, and goes from everywhere else. */
  lemma {:induction false} SplicesBlock(head: Line, mine: seq<Line>, next: seq<Line>, rest: seq<Line>,
                                        replace: Blocks, remove: set<string>)
    requires IsBlock(head, mine, next, rest == []) && Rest(rest)
    ensures var key := head.key.value.name;
            Spliced(BlockOf(head, mine, next) + rest, replace, remove)
            == (if key in replace then replace[key] else [])
               + (if key !in replace && key !in remove then BlockOf(head, mine, next)
                  else if Continues(rest, Only(key)) then []
                  else next)
               + Spliced(rest, SetLater(replace, key), GoesLater(replace, remove, key))
  {
    hide Groups, Preamble, Spliced, SplicedBlock, Introduces, SetLater, GoesLater, Continues;
    var key, g, groups := head.key.value.name, Group(head, mine + next), Groups(rest);
    BlockGroups(head, mine, next, rest);
    FirstBlock(head, mine, next, rest, replace, remove);
    SplicedFrom(BlockOf(head, mine, next) + rest, g, rest, replace, remove);
    NamesItsKey(g);
  }

  lemma {:induction false} NamesItsKey(g: Group)
    ensures g.head.key.Some? ==> g.Name() == g.head.key.value.name
  {
  }

  lemma {:induction false} FirstBlock(head: Line, mine: seq<Line>, next: seq<Line>, rest: seq<Line>,
                                      replace: Blocks, remove: set<string>)
    requires IsBlock(head, mine, next, rest == []) && Rest(rest)
    ensures var key := head.key.value.name;
            SplicedBlock([Group(head, mine + next)] + Groups(rest), replace, remove, 0)
            == (if key in replace then replace[key] else [])
               + (if key !in replace && key !in remove then BlockOf(head, mine, next)
                  else if Continues(rest, Only(key)) then []
                  else next)
  {
    hide Groups, Leftover, SplicedBlock, Introduces, Continues;
    LeftoverIs(head, mine, next, rest, Only(head.key.value.name));
    FirstSpliced(Group(head, mine + next), Groups(rest), replace, remove);
  }

  /** Splicing the first group, then the rest. */
  lemma {:induction false} SplicedFrom(lines: seq<Line>, g: Group, rest: seq<Line>, replace: Blocks,
                                       remove: set<string>)
    requires Preamble(lines) == [] && Groups(lines) == [g] + Groups(rest) && Rest(rest)
    ensures Spliced(lines, replace, remove)
            == SplicedBlock([g] + Groups(rest), replace, remove, 0)
               + Spliced(rest, SetLater(replace, g.Name()), GoesLater(replace, remove, g.Name()))
  {
    hide *;
    var later, gone, groups := SetLater(replace, g.Name()), GoesLater(replace, remove, g.Name()), Groups(rest);
    SplicedLater(g, groups, replace, remove, |groups|);
    NewLater(g, groups, replace);
    NoPreamble(rest);
    SplicedIs(lines, replace, remove);
    SplicedIs(rest, later, gone);
    var first := SplicedBlock([g] + groups, replace, remove, 0);
    var after, new' := SplicedUpTo(groups, later, gone, |groups|), NewBlocks(later - SetOf(NamesOf(groups)));
    assert [] + (first + after) + new' == first + ([] + after + new');
  }

  lemma {:induction false} SplicedIs(lines: seq<Line>, replace: Blocks, remove: set<string>)
    ensures Spliced(lines, replace, remove)
            == Preamble(lines) + SplicedUpTo(Groups(lines), replace, remove, |Groups(lines)|)
               + NewBlocks(replace - SetOf(NamesOf(Groups(lines))))
  {
  }

  lemma {:induction false} FirstSpliced(g: Group, groups: seq<Group>, replace: Blocks, remove: set<string>)
    ensures SplicedBlock([g] + groups, replace, remove, 0)
            == (if g.Name() in replace then replace[g.Name()] else [])
               + (if Touched(g.Name(), replace, remove) then Leftover(g, groups, Only(g.Name())) else [g.head] + g.tail)
  {
    hide Leftover;
    assert ([g] + groups)[1..] == groups;
  }

  lemma {:induction false} NewLater(g: Group, groups: seq<Group>, replace: Blocks)
    ensures replace - SetOf(NamesOf([g] + groups)) == SetLater(replace, g.Name()) - SetOf(NamesOf(groups))
  {
    var all := [g] + groups;
    assert NamesOf(all) == [g.Name()] + NamesOf(groups) by {
      forall i | 0 <= i < |all|
        ensures NamesOf(all)[i] == ([g.Name()] + NamesOf(groups))[i]
      {
      }
    }
    assert SetOf(NamesOf(all)) == {g.Name()} + SetOf(NamesOf(groups));
  }
}
