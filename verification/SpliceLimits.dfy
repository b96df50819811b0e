/** Why saving twice needs each of its three conditions: for each one dropped, a
    frontmatter whose second save differs from its first. */
module SpliceLimits {
  import opened Text
  import opened Order
  import opened Frontmatter
  import opened ServerKeys
  import opened Splice
  import opened SpliceLaws

  predicate IsBlankLine(l: Line) {
    l.key.None? && l.text == ""
  }

  /** A key's line. */
  predicate Heads(l: Line, key: string) {
    l.key.Some? && l.key.value.name == key
  }

  /** Splicing a frontmatter given by its blocks. */
  lemma {:induction false} SplicedOfFlat(groups: seq<Group>, replace: Blocks, remove: set<string>)
    requires ValidGroups(groups) && replace.Keys <= SetOf(NamesOf(groups))
    ensures Spliced(Flatten(groups), replace, remove) == SplicedUpTo(groups, replace, remove, |groups|)
  {
    GroupsOfFlatten(groups);
    var new' := replace - SetOf(NamesOf(groups));
    assert new' == map[];
    EmptyIsSorted(Less, new'.Keys, SortedStrings(new'.Keys));
  }

  /** What one block becomes, given the blocks after it. */
  function Piece(g: Group, rest: seq<Group>, replace: Blocks, remove: set<string>, first: bool): seq<Line> {
    (if g.Name() in replace && first then replace[g.Name()] else [])
    + (if Touched(g.Name(), replace, remove) then Leftover(g, rest, Only(g.Name())) else [g.head] + g.tail)
  }

  lemma {:induction false} SaveOne(lines: seq<Line>, g: Group, replace: Blocks, remove: set<string>)
    requires g.Valid() && replace.Keys <= {g.Name()}
    requires lines == [g.head] + g.tail
    ensures Spliced(lines, replace, remove) == Piece(g, [], replace, remove, true)
  {
    hide Spliced, Leftover;
    FlattenOfOne(g);
    assert Flatten([g]) == lines;
    assert NamesOf([g])[0] == g.Name();
    SplicedOfFlat([g], replace, remove);
    assert [g][1..] == [];
    assert SplicedUpTo([g], replace, remove, 0) == [];
    assert SplicedUpTo([g], replace, remove, 1) == SplicedBlock([g], replace, remove, 0);
  }

  lemma {:induction false} SaveTwo(lines: seq<Line>, g: Group, h: Group, replace: Blocks, remove: set<string>)
    requires g.Valid() && h.Valid() && g.Name() != h.Name() && replace.Keys <= {g.Name(), h.Name()}
    requires lines == [g.head] + g.tail + [h.head] + h.tail
    ensures Spliced(lines, replace, remove)
            == Piece(g, [h], replace, remove, true) + Piece(h, [], replace, remove, true)
  {
    hide Spliced, Leftover;
    var all := [g, h];
    assert all[1..] == [h] && all[2..] == [];
    FlattenOfOne(h);
    assert Flatten(all) == lines;
    assert NamesOf(all)[0] == g.Name() && NamesOf(all)[1] == h.Name();
    SplicedOfFlat(all, replace, remove);
    assert SplicedUpTo(all, replace, remove, 0) == [];
    assert SplicedUpTo(all, replace, remove, 1) == SplicedBlock(all, replace, remove, 0);
  }

  /** The same key above and below another. */
  lemma {:induction false} SaveAround(lines: seq<Line>, f: Group, g: Group, replace: Blocks)
    requires f.Valid() && g.Valid() && f.Name() != g.Name() && replace.Keys <= {f.Name(), g.Name()}
    requires lines == [f.head] + f.tail + [g.head] + g.tail + [f.head] + f.tail
    ensures Spliced(lines, replace, {})
            == Piece(f, [g, f], replace, {}, true) + Piece(g, [f], replace, {}, true) + Piece(f, [], replace, {}, false)
  {
    hide Spliced, Leftover;
    var all := [f, g, f];
    assert all[1..] == [g, f] && all[2..] == [f] && all[3..] == [] && [g, f][1..] == [f];
    FlattenOfOne(f);
    assert Flatten([g, f]) == [g.head] + g.tail + [f.head] + f.tail;
    assert Flatten(all) == lines;
    assert NamesOf(all)[0] == f.Name() && NamesOf(all)[1] == g.Name();
    assert SeenBefore(all, 1) == {f.Name()};
    SeenLater(all, 0, 2);
    SplicedOfFlat(all, replace, {});
    assert SplicedUpTo(all, replace, {}, 0) == [];
    assert SplicedUpTo(all, replace, {}, 1) == SplicedBlock(all, replace, {}, 0);
    assert SplicedUpTo(all, replace, {}, 2) == SplicedBlock(all, replace, {}, 0) + SplicedBlock(all, replace, {}, 1);
  }

  lemma {:induction false} PieceOf(g: Group, rest: seq<Group>, replace: Blocks, remove: set<string>, first: bool,
                                   key: string)
    requires g.Name() == key && Touched(key, replace, remove)
    ensures Piece(g, rest, replace, remove, first)
            == (if key in replace && first then replace[key] else []) + Leftover(g, rest, Only(key))
  {
    hide Leftover;
  }

  /** A blank line after a key is the next key's; after the last key it is the key's own. */
  lemma {:induction false} LeftoverOfBlank(l: Line, blank: Line, rest: seq<Group>, key: string)
    requires IsBlankLine(blank) && (rest == [] || rest[0].Name() != key)
    ensures Leftover(Group(l, [blank]), rest, Only(key)) == if rest == [] then [] else [blank]
  {
    assert [blank][..0] == [];
    assert [blank][1..] == [];
  }

  lemma {:induction false} LeftoverOfNone(l: Line, rest: seq<Group>, key: string)
    ensures Leftover(Group(l, []), rest, Only(key)) == []
  {
  }

  /** `block` is what is written for the key. */
  ghost predicate Writes(replace: Blocks, key: string, block: seq<Line>) {
    key in replace && replace[key] == block
  }

  /** A key that is set, with a blank line after it. */
  lemma {:induction false} SetBeforeBlank(l: Line, blank: Line, rest: seq<Group>, replace: Blocks, remove: set<string>,
                                          key: string, block: seq<Line>)
    requires Heads(l, key) && IsBlankLine(blank) && (rest == [] || rest[0].Name() != key)
    requires Writes(replace, key, block)
    ensures Piece(Group(l, [blank]), rest, replace, remove, true) == if rest == [] then block else block + [blank]
  {
    hide Piece, Leftover;
    LeftoverOfBlank(l, blank, rest, key);
    PieceOf(Group(l, [blank]), rest, replace, remove, true, key);
    assert block + [] == block;
  }

  /** A key on one line, set or not. */
  lemma {:induction false} SetOneLine(l: Line, rest: seq<Group>, replace: Blocks, remove: set<string>, key: string,
                                      first: bool)
    requires Heads(l, key)
    ensures Piece(Group(l, []), rest, replace, remove, first)
            == if key in replace then (if first then replace[key] else [])
               else if key in remove then [] else [l]
  {
    hide Leftover;
    LeftoverOfNone(l, rest, key);
    if key in replace {
      assert replace[key] + [] == replace[key];
    }
  }

  /** Removing the last key hands the blank line before it to the key above,
      and the next save takes that line for the key's own. */
  lemma {:induction false} RemovingIsNotSettled(key: string, other: string, blank: Line, l: Line, l': Line, m: Line,
                                                replace: Blocks)
    requires key != other && IsBlankLine(blank) && Heads(l, key) && Heads(l', key) && Heads(m, other)
    requires Writes(replace, key, [l']) && replace.Keys == {key}
    ensures Spliced([l, blank, m], replace, {other}) == [l', blank]
    ensures Spliced([l', blank], replace, {other}) == [l']
  {
    hide Spliced, Piece, Touched;
    SetBeforeBlank(l, blank, [Group(m, [])], replace, {other}, key, [l']);
    SetOneLine(m, [], replace, {other}, other, true);
    SaveTwo([l, blank, m], Group(l, [blank]), Group(m, []), replace, {other});
    SetBeforeBlank(l', blank, [], replace, {other}, key, [l']);
    SaveOne([l', blank], Group(l', [blank]), replace, {other});
  }

  /** A key written twice: its second block goes, and leaves a blank line last. */
  lemma {:induction false} DuplicateIsNotSettled(key: string, other: string, blank: Line, l: Line, l': Line,
                                                 m: Line, m': Line, replace: Blocks)
    requires key != other && IsBlankLine(blank) && Heads(l, key) && Heads(l', key) && Heads(m, other)
            && Heads(m', other)
    requires Writes(replace, key, [l']) && Writes(replace, other, [m']) && replace.Keys == {key, other}
    ensures Spliced([l, m, blank, l], replace, {}) == [l', m', blank]
    ensures Spliced([l', m', blank], replace, {}) == [l', m']
  {
    hide Spliced, Piece, Touched;
    var f, g := Group(l, []), Group(m, [blank]);
    SetOneLine(l, [g, f], replace, {}, key, true);
    SetBeforeBlank(m, blank, [f], replace, {}, other, [m']);
    SetOneLine(l, [], replace, {}, key, false);
    SaveAround([l, m, blank, l], f, g, replace);
    SetOneLine(l', [Group(m', [blank])], replace, {}, key, true);
    SetBeforeBlank(m', blank, [], replace, {}, other, [m']);
    SaveTwo([l', m', blank], Group(l', []), Group(m', [blank]), replace, {});
  }

  /** A rendered block that ends in a blank line gains another at every save. */
  lemma {:induction false} BlankEndIsNotSettled(key: string, other: string, blank: Line, l: Line, l': Line, m: Line,
                                                replace: Blocks)
    requires key != other && IsBlankLine(blank) && Heads(l, key) && Heads(l', key) && Heads(m, other)
    requires Writes(replace, key, [l', blank]) && replace.Keys == {key}
    ensures Spliced([l, m], replace, {}) == [l', blank, m]
    ensures Spliced([l', blank, m], replace, {}) == [l', blank, blank, m]
  {
    hide Spliced, Piece, Touched;
    var h := Group(m, []);
    SetOneLine(l, [h], replace, {}, key, true);
    SetOneLine(m, [], replace, {}, other, true);
    SaveTwo([l, m], Group(l, []), h, replace, {});
    SetBeforeBlank(l', blank, [h], replace, {}, key, [l', blank]);
    SaveTwo([l', blank, m], Group(l', [blank]), h, replace, {});
  }
}
