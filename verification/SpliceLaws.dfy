/** What setting and removing frontmatter keys promises (internal/okf/frontmatter.go). */
module SpliceLaws {
  import opened Text
  import opened Order
  import opened Frontmatter
  import opened ServerKeys
  import opened Claims
  import opened Splice

  /** renderKey's block: the key on its first line and no other key. */
  predicate RenderedKey(key: string, block: seq<Line>) {
    && block != [] && block[0].key.Some? && block[0].key.value.name == key
    && forall i | 0 < i < |block| :: block[i].key.None?
  }

  ghost predicate ValidBlocks(replace: Blocks) {
    forall k | k in replace :: RenderedKey(k, replace[k])
  }

  // ------------------------------------------------------------------
  // Which keys the result carries, and in which order

  /** The top-level keys of these lines, in document order. */
  function Keys(lines: seq<Line>, n: nat): seq<string>
    requires n <= |lines|
  {
    if n == 0 then []
    else Keys(lines, n - 1) + (if lines[n - 1].key.Some? then [lines[n - 1].key.value.name] else [])
  }

  lemma {:induction false} KeysOfConcat(a: seq<Line>, b: seq<Line>, n: nat)
    requires n <= |b|
    ensures Keys(a + b, |a| + n) == Keys(a, |a|) + Keys(b, n)
  {
    if n == 0 {
      KeysOfPrefix(a, a + b, |a|);
    } else {
      KeysOfConcat(a, b, n - 1);
    }
  }

  lemma {:induction false} KeysOfAll(a: seq<Line>, b: seq<Line>, c: seq<Line>)
    ensures Keys(a + b + c, |a + b + c|) == Keys(a, |a|) + Keys(b, |b|) + Keys(c, |c|)
  {
    KeysOfConcat(a, b, |b|);
    KeysOfConcat(a + b, c, |c|);
  }

  lemma {:induction false} KeysOfPrefix(a: seq<Line>, b: seq<Line>, n: nat)
    requires n <= |a| <= |b| && a <= b
    ensures Keys(a, n) == Keys(b, n)
  {
    if n > 0 {
      KeysOfPrefix(a, b, n - 1);
    }
  }

  lemma {:induction false} NoKeys(lines: seq<Line>, n: nat)
    requires n <= |lines| && forall i | 0 <= i < n :: lines[i].key.None?
    ensures Keys(lines, n) == []
  {
    if n > 0 {
      NoKeys(lines, n - 1);
    }
  }

  lemma {:induction false} KeysOfBlock(lines: seq<Line>)
    requires lines != [] && lines[0].key.Some? && forall i | 0 < i < |lines| :: lines[i].key.None?
    ensures Keys(lines, |lines|) == [lines[0].key.value.name]
  {
    assert lines == lines[..1] + lines[1..];
    NoKeys(lines[1..], |lines| - 1);
    KeysOfConcat(lines[..1], lines[1..], |lines| - 1);
    assert Keys(lines[..1], 0) == [];
  }

  lemma {:induction false} KeysOfFlatten(groups: seq<Group>)
    requires ValidGroups(groups)
    ensures Keys(Flatten(groups), |Flatten(groups)|) == NamesOf(groups)
  {
    if groups != [] {
      var block := [groups[0].head] + groups[0].tail;
      KeysOfFlatten(groups[1..]);
      KeysOfBlock(block);
      KeysOfConcat(block, Flatten(groups[1..]), |Flatten(groups[1..])|);
    }
  }

  /** The parser's list of keys is the keys of the lines. */
  lemma {:induction false} KeysAreNames(lines: seq<Line>)
    ensures Keys(lines, |lines|) == NamesOf(Groups(lines))
  {
    hide Groups, Preamble, Keys, Flatten, NamesOf;
    var pre, groups := Preamble(lines), Groups(lines);
    GroupsAreTheLines(lines);
    GroupsAreValid(lines);
    KeysOfFlatten(groups);
    NoKeys(pre, |pre|);
    KeysOfConcat(pre, Flatten(groups), |Flatten(groups)|);
  }

  /** What becomes of the first n keys: one that is set stays where it first
      stood, one that is removed goes, any other stays. */
  function SplicedNames(names: seq<string>, replace: Blocks, remove: set<string>, n: nat): seq<string>
    requires n <= |names|
  {
    if n == 0 then []
    else
      var k := names[n - 1];
      SplicedNames(names, replace, remove, n - 1)
      + (if (if k in replace then k !in names[..n - 1] else k !in remove) then [k] else [])
  }

  lemma {:induction false} LeftoverHasNoKey(g: Group, rest: seq<Group>, owned: string -> bool)
    requires g.Valid()
    ensures var left := Leftover(g, rest, owned);
            (forall i | 0 <= i < |left| :: left[i].key.None?) && Keys(left, |left|) == []
  {
    hide Keys;
    var left := Leftover(g, rest, owned);
    assert forall i | 0 <= i < |left| :: left[i] == g.tail[|g.tail| - |left| + i];
    NoKeys(left, |left|);
  }

  lemma {:induction false} SeenIsPrefix(groups: seq<Group>, n: nat, k: string)
    requires n <= |groups|
    ensures k in SeenBefore(groups, n) <==> k in NamesOf(groups)[..n]
  {
    if k in SeenBefore(groups, n) {
      var i :| 0 <= i < n && groups[i].Name() == k;
      assert NamesOf(groups)[..n][i] == k;
    }
  }

  lemma {:induction false} KeysOfSplicedBlock(groups: seq<Group>, replace: Blocks, remove: set<string>, i: nat)
    requires ValidGroups(groups) && ValidBlocks(replace) && i < |groups|
    ensures var block := SplicedBlock(groups, replace, remove, i);
            var k := groups[i].Name();
            Keys(block, |block|)
            == if (if k in replace then k !in NamesOf(groups)[..i] else k !in remove) then [k] else []
  {
    hide Keys, Leftover;
    var g := groups[i];
    var k := g.Name();
    var left := Leftover(g, groups[i + 1..], Only(k));
    LeftoverHasNoKey(g, groups[i + 1..], Only(k));
    SeenIsPrefix(groups, i, k);
    if k in replace {
      KeysOfBlock(replace[k]);
      KeysOfConcat(replace[k], left, |left|);
      assert [] + left == left;
    } else {
      KeysOfBlock([g.head] + g.tail);
      assert [] + ([g.head] + g.tail) == [g.head] + g.tail;
      assert [] + left == left;
    }
  }

  lemma {:induction false} KeysOfSpliced(groups: seq<Group>, replace: Blocks, remove: set<string>, n: nat)
    requires ValidGroups(groups) && ValidBlocks(replace) && n <= |groups|
    ensures var lines := SplicedUpTo(groups, replace, remove, n);
            Keys(lines, |lines|) == SplicedNames(NamesOf(groups), replace, remove, n)
  {
    hide Keys, SplicedBlock;
    if n == 0 {
      NoKeys([], 0);
    } else {
      KeysOfSpliced(groups, replace, remove, n - 1);
      KeysOfSplicedBlock(groups, replace, remove, n - 1);
      var block := SplicedBlock(groups, replace, remove, n - 1);
      KeysOfConcat(SplicedUpTo(groups, replace, remove, n - 1), block, |block|);
    }
  }

  lemma {:induction false} KeysOfNew(keys: seq<string>, replace: Blocks, n: nat)
    requires n <= |keys| && (forall k | k in keys :: k in replace) && ValidBlocks(replace)
    ensures var lines := BlocksFor(keys, replace, n); Keys(lines, |lines|) == keys[..n]
    ensures n == |keys| ==> keys[..n] == keys
  {
    hide Keys;
    if n == 0 {
      NoKeys([], 0);
    } else {
      KeysOfNew(keys, replace, n - 1);
      var block := replace[keys[n - 1]];
      KeysOfBlock(block);
      KeysOfConcat(BlocksFor(keys, replace, n - 1), block, |block|);
      assert keys[..n] == keys[..n - 1] + [keys[n - 1]];
    }
  }

  /** The keys of the result: those of the document in their order, each set key
      once and where it first stood, none that was removed; then the set keys
      the document did not carry, sorted. */
  lemma {:induction false} SplicedKeys(lines: seq<Line>, replace: Blocks, remove: set<string>)
    requires ValidBlocks(replace)
    ensures var names := NamesOf(Groups(lines));
            NamesOf(Groups(Spliced(lines, replace, remove)))
            == SplicedNames(names, replace, remove, |names|) + SortedStrings(replace.Keys - SetOf(names))
  {
    hide Groups, Preamble, Keys, SplicedUpTo, SplicedNames, BlocksFor;
    var pre, groups := Preamble(lines), Groups(lines);
    var mid, new' := SplicedUpTo(groups, replace, remove, |groups|), replace - SetOf(NamesOf(groups));
    var keys := SortedStrings(new'.Keys);
    GroupsAreValid(lines);
    NoKeys(pre, |pre|);
    KeysOfSpliced(groups, replace, remove, |groups|);
    assert Keys(NewBlocks(new'), |NewBlocks(new')|) == keys by {
      KeysOfNew(keys, new', |keys|);
    }
    KeysOfAll(pre, mid, NewBlocks(new'));
    KeysAreNames(Spliced(lines, replace, remove));
    assert new'.Keys == replace.Keys - SetOf(NamesOf(groups));
  }

  /** So each key that is set occurs exactly once, one that is removed not at
      all, and any other as often as before. */
  function Count(names: seq<string>, k: string, n: nat): nat
    requires n <= |names|
  {
    if n == 0 then 0 else Count(names, k, n - 1) + (if names[n - 1] == k then 1 else 0)
  }

  lemma {:induction false} CountOfSpliced(names: seq<string>, replace: Blocks, remove: set<string>, k: string, n: nat)
    requires n <= |names|
    ensures var r := SplicedNames(names, replace, remove, n);
            Count(r, k, |r|)
            == if k in replace then (if k in names[..n] then 1 else 0)
               else if k in remove then 0 else Count(names, k, n)
  {
    if n > 0 {
      CountOfSpliced(names, replace, remove, k, n - 1);
      var before := SplicedNames(names, replace, remove, n - 1);
      assert names[..n] == names[..n - 1] + [names[n - 1]];
      CountOfPush(before, names[n - 1], k);
      assert before + [] == before;
    }
  }

  lemma {:induction false} CountOfPush(names: seq<string>, x: string, k: string)
    ensures Count(names + [x], k, |names| + 1) == Count(names, k, |names|) + (if x == k then 1 else 0)
  {
    CountOfPrefix(names, names + [x], k, |names|);
  }

  lemma {:induction false} CountOfPrefix(a: seq<string>, b: seq<string>, k: string, n: nat)
    requires n <= |a| && a <= b
    ensures Count(a, k, n) == Count(b, k, n)
  {
    if n > 0 {
      CountOfPrefix(a, b, k, n - 1);
    }
  }

  lemma {:induction false} CountOfConcat(a: seq<string>, b: seq<string>, k: string, n: nat)
    requires n <= |b|
    ensures Count(a + b, k, |a| + n) == Count(a, k, |a|) + Count(b, k, n)
  {
    if n == 0 {
      CountOfPrefix(a, a + b, k, |a|);
    } else {
      CountOfConcat(a, b, k, n - 1);
    }
  }

  lemma {:induction false} CountOfSorted(s: set<string>, names: seq<string>, k: string, n: nat)
    requires IsSorted(Less, s, names) && n <= |names|
    ensures Count(names, k, n) == if k in names[..n] then 1 else 0
  {
    if n > 0 {
      CountOfSorted(s, names, k, n - 1);
      assert names[..n] == names[..n - 1] + [names[n - 1]];
      if names[n - 1] in names[..n - 1] {
        LessIsIrreflexive(names[n - 1]);
      }
    }
  }

  lemma {:induction false} EachKeyOnce(lines: seq<Line>, replace: Blocks, remove: set<string>, k: string)
    requires ValidBlocks(replace)
    ensures var names, names' := NamesOf(Groups(lines)), NamesOf(Groups(Spliced(lines, replace, remove)));
            Count(names', k, |names'|)
            == if k in replace then 1 else if k in remove then 0 else Count(names, k, |names|)
  {
    hide Groups, Preamble, Spliced, SplicedNames, Count, NamesOf;
    var names, new' := NamesOf(Groups(lines)), SortedStrings(replace.Keys - SetOf(NamesOf(Groups(lines))));
    SplicedKeys(lines, replace, remove);
    CountOfSpliced(names, replace, remove, k, |names|);
    CountOfSorted(replace.Keys - SetOf(names), new', k, |new'|);
    CountOfConcat(SplicedNames(names, replace, remove, |names|), new', k, |new'|);
    assert names[..|names|] == names && new'[..|new'|] == new';
  }

  // ------------------------------------------------------------------
  // What the result says under each key

  lemma {:induction false} PreambleOfConcat(a: seq<Line>, b: seq<Line>)
    requires Content(Preamble(b)) == []
    ensures Content(Preamble(a + b)) == Content(Preamble(a))
  {
    if a == [] {
      assert a + b == b;
    } else if a[0].key.None? {
      var all := a + b;
      assert all[0] == a[0] && all[1..] == a[1..] + b;
      PreambleOfConcat(a[1..], b);
      ContentOfConcat([a[0]], Preamble(all[1..]));
      ContentOfConcat([a[0]], Preamble(a[1..]));
    }
  }

  /** What is said under the key on the first line. */
  function FirstSaid(first: Line, rest: seq<Line>, which: string -> bool): seq<Line>
    requires first.key.Some?
  {
    if which(first.key.value.name) then Content([first]) + Content(Preamble(rest)) else []
  }

  lemma {:induction false} ContentOfFirst(first: Line, rest: seq<Line>, which: string -> bool)
    ensures first.key.Some? ==>
              ContentOf(Groups([first] + rest), which) == FirstSaid(first, rest, which) + ContentOf(Groups(rest), which)
    ensures first.key.None? ==> Groups([first] + rest) == Groups(rest)
  {
    assert ([first] + rest)[1..] == rest;
    GroupsUnfold([first] + rest);
    hide Groups, Preamble, Content;
    ContentOfConcat([first], Preamble(rest));
    assert ([Group(first, Preamble(rest))] + Groups(rest))[1..] == Groups(rest);
  }

  lemma {:induction false} SplitCons(first: Line, rest: seq<Line>, b: seq<Line>, which: string -> bool)
    requires ContentOf(Groups(rest + b), which) == ContentOf(Groups(rest), which) + ContentOf(Groups(b), which)
    requires Content(Preamble(rest + b)) == Content(Preamble(rest))
    ensures ContentOf(Groups([first] + (rest + b)), which)
            == ContentOf(Groups([first] + rest), which) + ContentOf(Groups(b), which)
  {
    hide *;
    ContentOfFirst(first, rest, which);
    ContentOfFirst(first, rest + b, which);
    if first.key.Some? {
      SameFirstSaid(first, rest, rest + b, which);
      var said, x, y := FirstSaid(first, rest, which), ContentOf(Groups(rest), which), ContentOf(Groups(b), which);
      assert said + (x + y) == said + x + y;
    }
  }

  /** Lines that begin with a key, or with lines that say nothing, add what they say. */
  lemma {:induction false} ContentOfSplit(a: seq<Line>, b: seq<Line>, which: string -> bool)
    requires Content(Preamble(b)) == []
    ensures ContentOf(Groups(a + b), which) == ContentOf(Groups(a), which) + ContentOf(Groups(b), which)
  {
    if a == [] {
      assert a + b == b;
      assert ContentOf(Groups(a), which) == [];
    } else {
      hide *;
      var first, rest := a[0], a[1..];
      ContentOfSplit(rest, b, which);
      PreambleOfConcat(rest, b);
      SplitCons(first, rest, b, which);
      assert a == [first] + rest;
      assert a + b == [first] + (rest + b);
    }
  }

  lemma {:induction false} SameFirstSaid(first: Line, a: seq<Line>, b: seq<Line>, which: string -> bool)
    requires first.key.Some? && Content(Preamble(a)) == Content(Preamble(b))
    ensures FirstSaid(first, a, which) == FirstSaid(first, b, which)
  {
  }

  lemma {:induction false} ContentOfGroups(a: seq<Group>, b: seq<Group>, which: string -> bool)
    ensures ContentOf(a + b, which) == ContentOf(a, which) + ContentOf(b, which)
  {
    hide SaidBlock;
    if a == [] {
      assert a + b == b;
      assert ContentOf(a, which) == [] && [] + ContentOf(b, which) == ContentOf(b, which);
    } else {
      assert (a + b)[1..] == a[1..] + b;
      ContentOfGroups(a[1..], b, which);
    }
  }

  /** One key's lines, and keyless lines after them that say nothing. */
  lemma {:induction false} ContentOfKeyed(block: seq<Line>, left: seq<Line>, which: string -> bool)
    requires block != [] && block[0].key.Some? && forall i | 0 < i < |block| :: block[i].key.None?
    requires (forall i | 0 <= i < |left| :: left[i].key.None?) && Content(left) == []
    ensures Preamble(block + left) == []
    ensures ContentOf(Groups(block + left), which)
            == if which(block[0].key.value.name) then Content(block) else []
  {
    hide Content;
    var g := Group(block[0], block[1..]);
    assert block == [g.head] + g.tail;
    Keyless(left);
    BlockThen(g, left);
    assert Groups(block + left) == [Group(g.head, g.tail + left)];
    assert [g.head] + (g.tail + left) == block + left;
    assert [Group(g.head, g.tail + left)][1..] == [];
    ContentOfConcat(block, left);
  }

  lemma {:induction false} Keyless(left: seq<Line>)
    requires forall i | 0 <= i < |left| :: left[i].key.None?
    ensures Preamble(left) == left && Groups(left) == []
  {
    GroupsAfterKeyless(left, []);
    assert left + [] == left;
  }

  lemma {:induction false} ContentOfSplicedBlock(groups: seq<Group>, replace: Blocks, remove: set<string>, i: nat,
                                                 x: string)
    requires ValidGroups(groups) && ValidBlocks(replace) && i < |groups|
    ensures var block := SplicedBlock(groups, replace, remove, i);
            var k := groups[i].Name();
            && Content(Preamble(block)) == []
            && ContentOf(Groups(block), Only(x))
               == if k != x then []
                  else if x in replace then (if x in SeenBefore(groups, i) then [] else Content(replace[x]))
                  else if x in remove then []
                  else Content([groups[i].head] + groups[i].tail)
  {
    hide Groups, Preamble, Content, Leftover;
    var g := groups[i];
    var k := g.Name();
    var left := Leftover(g, groups[i + 1..], Only(k));
    LeftoverHasNoKey(g, groups[i + 1..], Only(k));
    LeftoverSaysNothing(g, groups[i + 1..], Only(k));
    ContentOfNothing();
    if k in replace && k !in SeenBefore(groups, i) {
      ContentOfKeyed(replace[k], left, Only(x));
    } else if Touched(k, replace, remove) {
      Keyless(left);
      assert [] + left == left;
    } else {
      ContentOfKeyed([g.head] + g.tail, [], Only(x));
      assert [] + ([g.head] + g.tail) == [g.head] + g.tail + [];
    }
  }

  lemma {:induction false} ContentOfNothing()
    ensures Content([]) == []
  {
  }

  lemma {:induction false} ContentOfSpliced(groups: seq<Group>, replace: Blocks, remove: set<string>, n: nat, x: string)
    requires ValidGroups(groups) && ValidBlocks(replace) && n <= |groups|
    ensures ContentOf(Groups(SplicedUpTo(groups, replace, remove, n)), Only(x))
            == if x in replace then (if x in SeenBefore(groups, n) then Content(replace[x]) else [])
               else if x in remove then [] else ContentOf(groups[..n], Only(x))
  {
    hide Groups, Preamble, Content, ContentOf, SplicedBlock, SplicedUpTo, SeenBefore;
    if n == 0 {
      NothingSpliced(groups, replace, remove, x);
    } else {
      ContentOfSpliced(groups, replace, remove, n - 1, x);
      ContentOfSplicedBlock(groups, replace, remove, n - 1, x);
      ContentOfSplit(SplicedUpTo(groups, replace, remove, n - 1), SplicedBlock(groups, replace, remove, n - 1),
          Only(x));
      SplicedStep(groups, replace, remove, n);
      ContentOfOneMore(groups, n, x);
      var before := ContentOf(Groups(SplicedUpTo(groups, replace, remove, n - 1)), Only(x));
      assert before + [] == before;
      assert [] + Content(if x in replace then replace[x] else []) == Content(if x in replace then replace[x] else []);
    }
  }

  lemma {:induction false} NothingSpliced(groups: seq<Group>, replace: Blocks, remove: set<string>, x: string)
    ensures ContentOf(Groups(SplicedUpTo(groups, replace, remove, 0)), Only(x)) == []
    ensures SeenBefore(groups, 0) == {} && ContentOf(groups[..0], Only(x)) == []
  {
    assert groups[..0] == [];
  }

  lemma {:induction false} SplicedStep(groups: seq<Group>, replace: Blocks, remove: set<string>, n: nat)
    requires 0 < n <= |groups|
    ensures SplicedUpTo(groups, replace, remove, n)
            == SplicedUpTo(groups, replace, remove, n - 1) + SplicedBlock(groups, replace, remove, n - 1)
    ensures SeenBefore(groups, n) == SeenBefore(groups, n - 1) + {groups[n - 1].Name()}
  {
    hide SplicedBlock;
  }

  lemma {:induction false} ContentOfOneMore(groups: seq<Group>, n: nat, x: string)
    requires 0 < n <= |groups|
    ensures ContentOf(groups[..n], Only(x)) == ContentOf(groups[..n - 1], Only(x)) + SaidBlock(groups[n - 1], Only(x))
  {
    hide SaidBlock;
    var g := groups[n - 1];
    assert groups[..n] == groups[..n - 1] + [g];
    ContentOfGroups(groups[..n - 1], [g], Only(x));
    assert [g][1..] == [];
    assert ContentOf([], Only(x)) == [];
    assert SaidBlock(g, Only(x)) + [] == SaidBlock(g, Only(x));
  }

  lemma {:induction false} ContentOfNew(keys: seq<string>, replace: Blocks, n: nat, x: string)
    requires n <= |keys| && (forall k | k in keys :: k in replace) && ValidBlocks(replace)
    requires forall i, j | 0 <= i < j < |keys| :: keys[i] != keys[j]
    ensures ContentOf(Groups(BlocksFor(keys, replace, n)), Only(x)) == if x in keys[..n] then Content(replace[x])
            else []
    ensures Content(Preamble(BlocksFor(keys, replace, n))) == []
  {
    hide Content;
    ContentOfNothing();
    if n > 0 {
      var k := keys[n - 1];
      ContentOfNew(keys, replace, n - 1, x);
      ContentOfKeyed(replace[k], [], Only(x));
      assert replace[k] + [] == replace[k];
      ContentOfSplit(BlocksFor(keys, replace, n - 1), replace[k], Only(x));
      PreambleOfConcat(BlocksFor(keys, replace, n - 1), replace[k]);
      assert keys[..n] == keys[..n - 1] + [k];
    }
  }

  /** What the new blocks say. */
  lemma {:induction false} NewSay(replace: Blocks, x: string)
    requires ValidBlocks(replace)
    ensures ContentOf(Groups(NewBlocks(replace)), Only(x)) == if x in replace then Content(replace[x]) else []
    ensures Content(Preamble(NewBlocks(replace))) == []
  {
    hide Groups, Preamble, Content, BlocksFor, ContentOf;
    var keys := SortedStrings(replace.Keys);
    SortedAreDistinct(replace.Keys);
    ContentOfNew(keys, replace, |keys|, x);
    assert keys[..|keys|] == keys;
  }

  /** What the blocks that were there say now. */
  lemma {:induction false} OldSay(lines: seq<Line>, replace: Blocks, remove: set<string>, x: string)
    requires ValidBlocks(replace)
    ensures var groups := Groups(lines);
            ContentOf(Groups(Preamble(lines) + SplicedUpTo(groups, replace, remove, |groups|)), Only(x))
            == if x in replace then (if x in SetOf(NamesOf(groups)) then Content(replace[x]) else [])
               else if x in remove then [] else ContentOf(groups, Only(x))
  {
    var pre, groups := Preamble(lines), Groups(lines);
    GroupsAreValid(lines);
    NoKeysGrouped(pre, SplicedUpTo(groups, replace, remove, |groups|));
    hide Groups, Preamble, Content, SplicedUpTo, ContentOf, SeenBefore;
    ContentOfSpliced(groups, replace, remove, |groups|, x);
    SeenIsPrefix(groups, |groups|, x);
    assert groups[..|groups|] == groups;
    assert NamesOf(groups)[..|groups|] == NamesOf(groups);
  }

  /** Read back key by key: a set key says what was rendered for it, a removed
      key nothing, and every other key exactly what it said before. */
  lemma {:induction false} SplicedSays(lines: seq<Line>, replace: Blocks, remove: set<string>, x: string)
    requires ValidBlocks(replace)
    ensures ContentOf(Groups(Spliced(lines, replace, remove)), Only(x))
            == if x in replace then Content(replace[x])
               else if x in remove then [] else ContentOf(Groups(lines), Only(x))
  {
    hide Groups, Preamble, Content, SplicedUpTo, NewBlocks, ContentOf, NamesOf;
    var groups := Groups(lines);
    var new' := replace - SetOf(NamesOf(groups));
    OldSay(lines, replace, remove, x);
    NewSay(new', x);
    ContentOfSplit(Preamble(lines) + SplicedUpTo(groups, replace, remove, |groups|), NewBlocks(new'), Only(x));
  }

  lemma {:induction false} NoKeysGrouped(pre: seq<Line>, lines: seq<Line>)
    requires forall i | 0 <= i < |pre| :: pre[i].key.None?
    ensures Groups(pre + lines) == Groups(lines)
  {
    GroupsAfterKeyless(pre, lines);
  }

  lemma {:induction false} SortedAreDistinct(s: set<string>)
    ensures var keys := SortedStrings(s); forall i, j | 0 <= i < j < |keys| :: keys[i] != keys[j]
  {
    LessIsStrict();
  }
}
