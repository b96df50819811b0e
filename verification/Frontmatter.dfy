/** The frontmatter of an OKF document, as the line surgery of
    internal/okf/raw.go sees it: lines of text, some of which the YAML parser
    reports as the first line of a top-level key. Values are opaque. */
module Frontmatter {
  import opened Text

  /** A top-level key. `plain` is whether its value decodes as it stands, `readable`
      whether it does once every timestamp in it is taken as text. */
  datatype Key = Key(name: string, readable: bool, plain: bool)

  datatype Line = Line(text: string, key: Option<Key>)

  /** A comment here is a `#` in the first column; an indented one belongs to a value. */
  predicate IsComment(l: Line) {
    l.text != "" && l.text[0] == '#'
  }

  predicate IsBlank(l: Line) {
    Blank(l.text)
  }

  /** One key's line and every line after it up to the next key's. */
  datatype Group = Group(head: Line, tail: seq<Line>) {
    predicate Valid() {
      head.key.Some? && forall i | 0 <= i < |tail| :: tail[i].key.None?
    }
    function Name(): string {
      if head.key.Some? then head.key.value.name else ""
    }
    function Readable(): bool {
      head.key.Some? && head.key.value.readable
    }
  }

  ghost predicate ValidGroups(groups: seq<Group>) {
    forall i | 0 <= i < |groups| :: groups[i].Valid()
  }

  /** The lines before the first key. */
  function Preamble(lines: seq<Line>): (r: seq<Line>)
    ensures |r| <= |lines|
  {
    if lines == [] || lines[0].key.Some? then [] else [lines[0]] + Preamble(lines[1..])
  }

  function Groups(lines: seq<Line>): seq<Group> {
    if lines == [] then []
    else if lines[0].key.Some? then [Group(lines[0], Preamble(lines[1..]))] + Groups(lines[1..])
    else Groups(lines[1..])
  }

  /** The top-level keys, in order. */
  function KeysOf(lines: seq<Line>): seq<Key> {
    if lines == [] then []
    else (if lines[0].key.Some? then [lines[0].key.value] else []) + KeysOf(lines[1..])
  }

  predicate DistinctNames(keys: seq<Key>) {
    forall i, j | 0 <= i < j < |keys| :: keys[i].name != keys[j].name
  }

  /** yaml.Unmarshal into a map: every value decodes and no key comes twice. */
  predicate Decodes(keys: seq<Key>) {
    DistinctNames(keys) && forall k | k in keys :: k.plain
  }

  /** frontmatterMap (internal/okf/parse.go:71-88): the same, with timestamps as text. */
  predicate DecodesAsText(keys: seq<Key>) {
    DistinctNames(keys) && forall k | k in keys :: k.readable
  }

  lemma {:induction false} GroupsAreValid(lines: seq<Line>)
    ensures forall i | 0 <= i < |Preamble(lines)| :: Preamble(lines)[i].key.None?
    ensures ValidGroups(Groups(lines))
  {
    if lines != [] {
      GroupsAreValid(lines[1..]);
    }
  }

  function Flatten(groups: seq<Group>): seq<Line> {
    if groups == [] then [] else [groups[0].head] + groups[0].tail + Flatten(groups[1..])
  }

  lemma {:induction false} GroupsAreTheLines(lines: seq<Line>)
    ensures Preamble(lines) + Flatten(Groups(lines)) == lines
  {
    if lines != [] {
      GroupsAreTheLines(lines[1..]);
      if lines[0].key.Some? {
        assert Groups(lines)[1..] == Groups(lines[1..]);
      }
      assert lines == [lines[0]] + lines[1..];
    }
  }

  /** Lines without a key only lengthen what stands before them. */
  lemma {:induction false} GroupsAfterKeyless(plain: seq<Line>, lines: seq<Line>)
    requires forall i | 0 <= i < |plain| :: plain[i].key.None?
    ensures Preamble(plain + lines) == plain + Preamble(lines)
    ensures Groups(plain + lines) == Groups(lines)
  {
    if plain == [] {
      assert plain + lines == lines;
    } else {
      var all := plain + lines;
      assert all[0] == plain[0] && all[1..] == plain[1..] + lines;
      GroupsAfterKeyless(plain[1..], lines);
      assert Groups(all) == Groups(all[1..]);
      assert Preamble(all) == [plain[0]] + (plain[1..] + Preamble(lines));
    }
  }

  lemma {:induction false} GroupsOfFlatten(groups: seq<Group>)
    requires ValidGroups(groups)
    ensures Preamble(Flatten(groups)) == [] && Groups(Flatten(groups)) == groups
  {
    if groups != [] {
      var g, rest := groups[0], groups[1..];
      var lines := Flatten(groups);
      GroupsOfFlatten(rest);
      assert lines[0] == g.head && lines[1..] == g.tail + Flatten(rest);
      GroupsAfterKeyless(g.tail, Flatten(rest));
      assert Preamble(lines[1..]) == g.tail;
      assert groups == [g] + rest;
    }
  }

  lemma {:induction false} FlattenOfConcat(a: seq<Group>, b: seq<Group>)
    ensures Flatten(a + b) == Flatten(a) + Flatten(b)
  {
    if a == [] {
      assert a + b == b;
    } else {
      assert (a + b)[1..] == a[1..] + b;
      FlattenOfConcat(a[1..], b);
    }
  }

  lemma {:induction false} FlattenOfOne(g: Group)
    ensures Flatten([g]) == [g.head] + g.tail
  {
    assert [g][1..] == [];
  }

  /** A document's lines are regrouped exactly. */
  lemma {:induction false} Regroup(pre: seq<Line>, groups: seq<Group>)
    requires ValidGroups(groups) && forall i | 0 <= i < |pre| :: pre[i].key.None?
    ensures Preamble(pre + Flatten(groups)) == pre && Groups(pre + Flatten(groups)) == groups
  {
    GroupsOfFlatten(groups);
    GroupsAfterKeyless(pre, Flatten(groups));
    assert pre + [] == pre;
  }

  // ------------------------------------------------------------------
  // Which lines go with a key

  /** How many lines at the end of a key's block are not its own: blank lines
      and comments introduce the key that follows; after the last key only
      comments are nobody's. */
  function Trailing(tail: seq<Line>, last: bool): (n: nat)
    ensures n <= |tail|
  {
    if tail == [] then 0
    else
      var l := tail[|tail| - 1];
      if IsComment(l) || (!last && IsBlank(l)) then 1 + Trailing(tail[..|tail| - 1], last) else 0
  }

  /** What stays behind when an owned key is taken out. Nothing does when the
      next key is going away too. */
  function Leftover(g: Group, rest: seq<Group>, owned: string -> bool): (r: seq<Line>)
    ensures |r| <= |g.tail| && r == g.tail[|g.tail| - |r|..]
  {
    if rest != [] && owned(rest[0].Name()) then []
    else g.tail[|g.tail| - Trailing(g.tail, rest == [])..]
  }

  function StripGroups(groups: seq<Group>, owned: string -> bool): seq<Line> {
    if groups == [] then []
    else
      var g, rest := groups[0], groups[1..];
      (if owned(g.Name()) then Leftover(g, rest, owned) else [g.head] + g.tail) + StripGroups(rest, owned)
  }

  /** A frontmatter with the owned keys taken out. */
  function Strip(lines: seq<Line>, owned: string -> bool): seq<Line> {
    Preamble(lines) + StripGroups(Groups(lines), owned)
  }

  // ------------------------------------------------------------------
  // The parser's report, and the ranges computed from it

  /** A key and the 1-based number of its line, as the parser counts. */
  datatype KeyAt = KeyAt(name: string, readable: bool, line: nat)

  datatype Range = Range(from: nat, to: nat)

  function KeysFrom(groups: seq<Group>, at: nat): (r: seq<KeyAt>)
    ensures |r| == |groups|
    ensures forall i | 0 <= i < |r| :: r[i].name == groups[i].Name()
    ensures r != [] ==> r[0].line == at
  {
    if groups == [] then []
    else
      [KeyAt(groups[0].Name(), groups[0].Readable(), at)]
      + KeysFrom(groups[1..], at + 1 + |groups[0].tail|)
  }

  /** The top-level keys, in document order. */
  function MappingKeys(lines: seq<Line>): (r: seq<KeyAt>)
    ensures |r| == |Groups(lines)|
    ensures forall i | 0 <= i < |r| :: r[i].name == Groups(lines)[i].Name()
  {
    KeysFrom(Groups(lines), |Preamble(lines)| + 1)
  }

  /** The lines, counted from 1, that go when the i-th key goes. */
  function BlockRange(lines: seq<Line>, owned: string -> bool, i: nat): Range
    requires i < |Groups(lines)|
  {
    var groups, at := Groups(lines), MappingKeys(lines)[i].line;
    Range(at, at + |groups[i].tail| - |Leftover(groups[i], groups[i + 1..], owned)|)
  }

  function RangesUpTo(lines: seq<Line>, owned: string -> bool, n: nat): seq<Range>
    requires n <= |Groups(lines)|
  {
    if n == 0 then []
    else
      RangesUpTo(lines, owned, n - 1)
      + (if owned(Groups(lines)[n - 1].Name()) then [BlockRange(lines, owned, n - 1)] else [])
  }

  function Size(groups: seq<Group>): nat {
    if groups == [] then 0 else 1 + |groups[0].tail| + Size(groups[1..])
  }

  lemma {:induction false} KeyPosition(groups: seq<Group>, at: nat, i: nat)
    requires i < |groups|
    ensures KeysFrom(groups, at)[i..] == KeysFrom(groups[i..], KeysFrom(groups, at)[i].line)
    ensures KeysFrom(groups, at)[i].line + Size(groups[i..]) == at + Size(groups)
    ensures i + 1 < |groups| ==> KeysFrom(groups, at)[i + 1].line == KeysFrom(groups, at)[i].line + 1 + |groups[i].tail|
  {
    if i == 0 {
      assert groups[0..] == groups;
    } else {
      KeyPosition(groups[1..], at + 1 + |groups[0].tail|, i - 1);
      assert groups[1..][i - 1..] == groups[i..];
      assert KeysFrom(groups, at)[1..] == KeysFrom(groups[1..], at + 1 + |groups[0].tail|);
    }
  }

  lemma {:induction false} SizeIsLength(groups: seq<Group>)
    ensures Size(groups) == |Flatten(groups)|
  {
    if groups != [] {
      SizeIsLength(groups[1..]);
    }
  }

  lemma {:induction false} GroupLines(groups: seq<Group>, i: nat)
    requires i < |groups|
    ensures Flatten(groups) == Flatten(groups[..i]) + [groups[i].head] + groups[i].tail + Flatten(groups[i + 1..])
  {
    assert groups == groups[..i] + groups[i..];
    FlattenOfConcat(groups[..i], groups[i..]);
    assert groups[i..][1..] == groups[i + 1..];
  }

  lemma {:induction false} SliceOf(head: seq<Line>, l: Line, tail: seq<Line>, after: seq<Line>)
    ensures var all := head + [l] + tail + after;
            all[|head|] == l && all[|head| + 1..|head| + 1 + |tail|] == tail
  {
  }

  lemma {:induction false} BlockLines(lines: seq<Line>, i: nat)
    requires i < |Groups(lines)|
    ensures var groups := Groups(lines);
            lines == Preamble(lines) + Flatten(groups[..i]) + [groups[i].head] + groups[i].tail
                + Flatten(groups[i + 1..])
  {
    hide Groups, Preamble, Flatten;
    GroupsAreTheLines(lines);
    GroupLines(Groups(lines), i);
  }

  lemma {:induction false} KeyLine(groups: seq<Group>, at: nat, i: nat)
    requires i < |groups|
    ensures KeysFrom(groups, at)[i].line == at + |Flatten(groups[..i])|
  {
    hide Flatten, KeysFrom;
    KeyPosition(groups, at, i);
    SizeIsLength(groups);
    SizeIsLength(groups[i..]);
    FlattenOfConcat(groups[..i], groups[i..]);
    assert groups == groups[..i] + groups[i..];
  }

  /** Where the i-th key's block sits in the lines. */
  lemma {:induction false} BlockPosition(lines: seq<Line>, i: nat)
    requires i < |Groups(lines)|
    ensures var g := Groups(lines)[i]; var at := MappingKeys(lines)[i].line;
            1 <= at && at + |g.tail| <= |lines| && lines[at - 1] == g.head && lines[at..at + |g.tail|] == g.tail
    ensures i + 1 == |Groups(lines)| ==> MappingKeys(lines)[i].line + |Groups(lines)[i].tail| == |lines|
  {
    hide Groups, Preamble;
    BlockLines(lines, i);
    KeyLine(Groups(lines), |Preamble(lines)| + 1, i);
    var groups := Groups(lines);
    SliceOf(Preamble(lines) + Flatten(groups[..i]), groups[i].head, groups[i].tail, Flatten(groups[i + 1..]));
    if i + 1 == |groups| {
      assert groups[i + 1..] == [];
    }
  }

  lemma {:induction false} NextPosition(lines: seq<Line>, i: nat)
    requires i + 1 < |Groups(lines)|
    ensures MappingKeys(lines)[i + 1].line == MappingKeys(lines)[i].line + 1 + |Groups(lines)[i].tail|
  {
    hide Groups, Preamble, KeysFrom;
    KeyPosition(Groups(lines), |Preamble(lines)| + 1, i);
  }

  lemma {:induction false} KeyOrder(lines: seq<Line>, i: nat, j: nat)
    requires i < j < |Groups(lines)|
    ensures MappingKeys(lines)[i].line + |Groups(lines)[i].tail| < MappingKeys(lines)[j].line
  {
    hide Groups, Preamble, MappingKeys;
    NextPosition(lines, j - 1);
    if i < j - 1 {
      KeyOrder(lines, i, j - 1);
    }
  }

  /** The inner loop of OwnedKeyRanges: a range gives up the lines at its end
      that are not the key's. */
  method Shrink(lines: seq<Line>, from: nat, end: nat, last: bool) returns (to: nat)
    requires from <= end <= |lines|
    ensures from <= to <= end
    ensures to == end - Trailing(lines[from..end], last)
  {
    to := end;
    ghost var tail := lines[from..end];
    while to > from
      invariant from <= to <= end
      invariant Trailing(tail, last) == end - to + Trailing(lines[from..to], last)
    {
      var line := lines[to - 1];
      assert lines[from..to][..to - from - 1] == lines[from..to - 1];
      if last && IsBlank(line) {
        break;
      }
      if !IsBlank(line) && !IsComment(line) {
        break;
      }
      to := to - 1;
    }
  }

  /** internal/okf/raw.go:231-266. */
  method OwnedKeyRanges(lines: seq<Line>, owned: string -> bool) returns (out: seq<Range>)
    ensures out == RangesUpTo(lines, owned, |Groups(lines)|)
  {
    hide Groups, Preamble, BlockRange, RangesUpTo;
    var pairs := MappingKeys(lines);
    hide MappingKeys;
    out := [];
    NoRanges(lines, owned);
    for i := 0 to |pairs|
      invariant out == RangesUpTo(lines, owned, i)
    {
      RangesStep(lines, owned, i);
      if owned(pairs[i].name) {
        var r := OwnedRange(lines, owned, i);
        out := out + [r];
      }
    }
  }

  lemma {:induction false} NoRanges(lines: seq<Line>, owned: string -> bool)
    ensures RangesUpTo(lines, owned, 0) == []
  {
  }

  lemma {:induction false} RangesStep(lines: seq<Line>, owned: string -> bool, i: nat)
    requires i < |Groups(lines)|
    ensures RangesUpTo(lines, owned, i + 1)
            == if owned(Groups(lines)[i].Name()) then RangesUpTo(lines, owned, i) + [BlockRange(lines, owned, i)]
               else RangesUpTo(lines, owned, i)
  {
    hide Groups, BlockRange;
    var before := RangesUpTo(lines, owned, i);
    assert before + [] == before;
  }

  /** One turn of that loop. */
  method OwnedRange(lines: seq<Line>, owned: string -> bool, i: nat) returns (r: Range)
    requires i < |MappingKeys(lines)|
    ensures r == BlockRange(lines, owned, i)
  {
    hide Groups, Preamble, Flatten, Trailing;
    var pairs := MappingKeys(lines);
    BlockPosition(lines, i);
    var from, to, nextOwned, last := pairs[i].line, |lines|, false, i + 1 >= |pairs|;
    if !last {
      NextPosition(lines, i);
      to := pairs[i + 1].line - 1;
      nextOwned := owned(pairs[i + 1].name);
    }
    if !nextOwned {
      to := Shrink(lines, from, to, last);
    }
    r := Range(from, to);
  }
}
