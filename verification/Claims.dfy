/** Export and write-back: the keys this instance appends to a stored document,
    and what a write does with them when they come home
    (internal/okf/raw.go:340-590, 633-642). */
module Claims {
  import opened Text
  import opened Frontmatter
  import opened ServerKeys

  // ------------------------------------------------------------------
  // Appending a rendered block

  /** The column of the first line that is a key rather than blank or a comment. */
  function FrontmatterIndent(lines: seq<Line>): nat {
    if lines == [] then 0
    else
      var trimmed := TrimLeft(lines[0].text, c => c == ' ');
      if trimmed == "" || trimmed[0] == '#' then FrontmatterIndent(lines[1..])
      else |lines[0].text| - |trimmed|
  }

  function Indented(block: seq<Line>, n: nat): (r: seq<Line>)
    ensures |r| == |block|
  {
    seq(|block|, i requires 0 <= i < |block| =>
      if block[i].text == "" then block[i]
      else block[i].(text := seq(n, _ => ' ') + block[i].text))
  }

  /** A block as yaml.Marshal renders it for these keys: it opens with a key,
      holds no other top-level keys, and does not end in a comment. */
  ghost predicate RenderedBlock(block: seq<Line>, owned: string -> bool) {
    && block != [] && block[0].key.Some?
    && (forall i | 0 <= i < |block| && block[i].key.Some? ::
          owned(block[i].key.value.name) && block[i].key.value.readable)
    && !IsComment(block[|block| - 1])
  }

  function Appended(lines: seq<Line>, block: seq<Line>): seq<Line> {
    lines + Indented(block, FrontmatterIndent(lines))
  }

  /** The block goes on only if taking it off again gives the document back. */
  function AppendFrontmatter(doc: Document, block: seq<Line>, owned: string -> bool): Document {
    if !doc.Framed? then doc
    else
      var out := doc.(lines := Appended(doc.lines, block));
      if StripDocument(out, owned) != doc then doc else out
  }

  function WithServerKeys(doc: Document, block: seq<Line>): Document {
    AppendFrontmatter(doc, block, ServerOwned)
  }

  // ------------------------------------------------------------------
  // The text that is appended

  /** Blank but for spaces, or a comment in any column. */
  predicate Passed(text: string) {
    (forall j | 0 <= j < |text| :: text[j] == ' ') || (exists j :: 0 <= j < |text| && CommentFrom(text, j))
  }

  predicate CommentFrom(text: string, j: nat) {
    j < |text| && text[j] == '#' && forall k | 0 <= k < j :: text[k] == ' '
  }

  lemma {:induction false} SpacesCut(text: string)
    ensures var t := TrimLeft(text, c => c == ' ');
            && text[..|text| - |t|] == seq(|text| - |t|, _ => ' ')
            && (t == "" || t[0] == '#' <==> Passed(text))
  {
    var t := TrimLeft(text, c => c == ' ');
    var n := |text| - |t|;
    assert text[..n] == seq(n, _ => ' ');
    if t != "" {
      assert text[n] == t[0];
      if t[0] == '#' {
        assert CommentFrom(text, n);
      }
      if j :| 0 <= j < |text| && CommentFrom(text, j) {
        assert j == n;
      }
    }
  }

  /** The first of the lines that is not passed over; none of those before it is. */
  ghost predicate FirstKept(lines: seq<Line>, i: nat) {
    && i < |lines| && !Passed(lines[i].text)
    && forall j | 0 <= j < i :: Passed(lines[j].text)
  }

  lemma {:induction false} IndentStep(lines: seq<Line>)
    requires lines != []
    ensures Passed(lines[0].text) ==> FrontmatterIndent(lines) == FrontmatterIndent(lines[1..])
    ensures !Passed(lines[0].text) ==>
              var text, n := lines[0].text, FrontmatterIndent(lines);
              n < |text| && text[..n] == seq(n, _ => ' ') && text[n] != ' '
  {
    SpacesCut(lines[0].text);
    hide Passed;
  }

  lemma {:induction false} IndentOf(lines: seq<Line>, i: nat)
    requires FirstKept(lines, i)
    ensures var text, n := lines[i].text, FrontmatterIndent(lines);
            n < |text| && text[..n] == seq(n, _ => ' ') && text[n] != ' '
  {
    hide Passed, FrontmatterIndent;
    IndentStep(lines);
    if i > 0 {
      assert Passed(lines[0].text);
      assert lines[1..][i - 1] == lines[i];
      IndentOf(lines[1..], i - 1);
    }
  }

  /** Where every line is passed over, nothing is put before. */
  lemma {:induction false} NoIndent(lines: seq<Line>)
    requires forall i | 0 <= i < |lines| :: Passed(lines[i].text)
    ensures FrontmatterIndent(lines) == 0
  {
    hide Passed;
    if lines != [] {
      SpacesCut(lines[0].text);
      NoIndent(lines[1..]);
    }
  }

  /** Every line of a rendered block is appended as it is, after as many spaces as stand
      before the first line of the frontmatter that is neither blank nor a comment. */
  lemma {:induction false} AppendedText(lines: seq<Line>, block: seq<Line>, i: nat, k: nat)
    requires FirstKept(lines, i) && k < |block|
    ensures |Appended(lines, block)| == |lines| + |block| && Appended(lines, block)[..|lines|] == lines
    ensures exists n :: 0 <= n < |lines[i].text| && lines[i].text[..n] == seq(n, _ => ' ') && lines[i].text[n] != ' '
                        && Appended(lines, block)[|lines| + k]
                           == if block[k].text == "" then block[k]
                              else Line(seq(n, _ => ' ') + block[k].text, block[k].key)
  {
    IndentOf(lines, i);
    hide Passed;
    var n := FrontmatterIndent(lines);
    assert n < |lines[i].text|;
    assert Appended(lines, block)[|lines| + k] == Indented(block, n)[k];
  }

  // ------------------------------------------------------------------
  // Stripping undoes appending

  lemma {:induction false} IndentedIsRendered(block: seq<Line>, n: nat, owned: string -> bool)
    requires RenderedBlock(block, owned)
    ensures RenderedBlock(Indented(block, n), owned)
  {
    var r, last := Indented(block, n), |block| - 1;
    assert r[0].key == block[0].key;
    assert forall i | 0 <= i < |r| :: r[i].key == block[i].key;
    if block[last].text != "" {
      assert r[last].text[0] == if n == 0 then block[last].text[0] else ' ';
    }
  }

  lemma {:induction false} GroupsOfAppend(lines: seq<Line>, block: seq<Line>)
    requires block != [] && block[0].key.Some?
    ensures Preamble(lines + block) == Preamble(lines)
    ensures Groups(lines + block) == Groups(lines) + Groups(block)
  {
    var all := lines + block;
    if lines == [] {
      assert all == block;
      assert Groups(lines) == [] && [] + Groups(block) == Groups(block);
      assert Preamble(lines) == [] && Preamble(block) == [];
    } else {
      assert all[0] == lines[0] && all[1..] == lines[1..] + block;
      GroupsOfAppend(lines[1..], block);
      GroupsUnfold(all);
      GroupsUnfold(lines);
      hide Groups, Preamble;
      if lines[0].key.Some? {
        var g := Group(lines[0], Preamble(lines[1..]));
        assert [g] + Groups(lines[1..]) + Groups(block) == [g] + (Groups(lines[1..]) + Groups(block));
      }
    }
  }

  lemma {:induction false} GroupsUnfold(lines: seq<Line>)
    requires lines != []
    ensures lines[0].key.Some? ==> Groups(lines) == [Group(lines[0], Preamble(lines[1..]))] + Groups(lines[1..])
    ensures lines[0].key.Some? ==> Preamble(lines) == []
    ensures lines[0].key.None? ==> Groups(lines) == Groups(lines[1..])
    ensures lines[0].key.None? ==> Preamble(lines) == [lines[0]] + Preamble(lines[1..])
  {
  }

  /** No line of a stripped document is an owned key. */
  lemma {:induction false} StripGroupsRemovesOwned(groups: seq<Group>, owned: string -> bool)
    requires ValidGroups(groups)
    ensures !Names(StripGroups(groups, owned), owned)
  {
    if groups != [] {
      var g, rest := groups[0], groups[1..];
      StripGroupsRemovesOwned(rest, owned);
      NamesOfConcat(if owned(g.Name()) then Leftover(g, rest, owned) else [g.head] + g.tail,
                    StripGroups(rest, owned), owned);
    }
  }

  lemma {:induction false} NamesOfConcat(a: seq<Line>, b: seq<Line>, which: string -> bool)
    ensures Names(a + b, which) <==> Names(a, which) || Names(b, which)
  {
    if Names(b, which) {
      var i :| 0 <= i < |b| && b[i].key.Some? && which(b[i].key.value.name);
      assert (a + b)[|a| + i] == b[i];
    }
    if Names(a, which) {
      var i :| 0 <= i < |a| && a[i].key.Some? && which(a[i].key.value.name);
      assert (a + b)[i] == a[i];
    }
  }

  lemma {:induction false} StripRemovesOwned(lines: seq<Line>, owned: string -> bool)
    ensures !Names(Strip(lines, owned), owned)
  {
    GroupsAreValid(lines);
    StripGroupsRemovesOwned(Groups(lines), owned);
    NamesOfConcat(Preamble(lines), StripGroups(Groups(lines), owned), owned);
  }

  /** What owns nothing strips to itself, and what follows is stripped on its own. */
  lemma {:induction false} StripUnowned(groups: seq<Group>, more: seq<Group>, owned: string -> bool)
    requires forall i | 0 <= i < |groups| :: !owned(groups[i].Name())
    ensures StripGroups(groups + more, owned) == Flatten(groups) + StripGroups(more, owned)
  {
    if groups == [] {
      assert groups + more == more;
    } else {
      assert (groups + more)[1..] == groups[1..] + more;
      StripUnowned(groups[1..], more, owned);
    }
  }

  /** A run of owned keys goes whole, if it does not end in a comment. */
  lemma {:induction false} StripAllOwned(groups: seq<Group>, owned: string -> bool)
    requires forall i | 0 <= i < |groups| :: owned(groups[i].Name())
    requires groups != [] ==>
               var t := groups[|groups| - 1].tail; t == [] || !IsComment(t[|t| - 1])
    ensures StripGroups(groups, owned) == []
  {
    if groups != [] {
      StripAllOwned(groups[1..], owned);
    }
  }

  /** The keys of the lines are the keys of the groups. */
  lemma {:induction false} GroupNames(lines: seq<Line>, which: string -> bool, i: nat)
    requires i < |Groups(lines)| && which(Groups(lines)[i].Name())
    ensures Names(lines, which)
  {
    GroupsAreValid(lines);
    GroupsAreTheLines(lines);
    GroupLines(Groups(lines), i);
    var before := Preamble(lines) + Flatten(Groups(lines)[..i]);
    assert lines[|before|] == Groups(lines)[i].head;
  }

  lemma {:induction false} StripOfUnowned(lines: seq<Line>, owned: string -> bool)
    requires !Names(lines, owned)
    ensures Strip(lines, owned) == lines
  {
    hide Groups, Preamble, Leftover;
    var groups := Groups(lines);
    forall i | 0 <= i < |groups|
      ensures !owned(groups[i].Name())
    {
      if owned(groups[i].Name()) {
        GroupNames(lines, owned, i);
      }
    }
    StripUnowned(groups, [], owned);
    assert groups + [] == groups;
    GroupsAreTheLines(lines);
  }

  /** The last line of the last block is the last line. */
  lemma {:induction false} LastLine(lines: seq<Line>)
    requires lines != [] && lines[0].key.Some?
    ensures Groups(lines) != []
    ensures var g := Groups(lines)[|Groups(lines)| - 1];
            lines[|lines| - 1] == if g.tail == [] then g.head else g.tail[|g.tail| - 1]
    decreases |lines|, 0
  {
    var rest := lines[1..];
    GroupsUnfold(lines);
    hide Groups, Preamble;
    if Groups(rest) == [] {
      KeylessIsPreamble(rest);
      assert rest != [] ==> lines[|lines| - 1] == rest[|rest| - 1];
    } else {
      LastOfRest(rest);
      assert Groups(lines)[|Groups(lines)| - 1] == Groups(rest)[|Groups(rest)| - 1];
      assert lines[|lines| - 1] == rest[|rest| - 1];
    }
  }

  lemma {:induction false} KeylessIsPreamble(lines: seq<Line>)
    requires Groups(lines) == []
    ensures Preamble(lines) == lines
  {
    if lines != [] {
      KeylessIsPreamble(lines[1..]);
    }
  }

  /** Where some block is, the last line is its. */
  lemma {:induction false} LastOfRest(lines: seq<Line>)
    requires Groups(lines) != []
    ensures lines != []
    ensures var g := Groups(lines)[|Groups(lines)| - 1];
            lines[|lines| - 1] == if g.tail == [] then g.head else g.tail[|g.tail| - 1]
    decreases |lines|, 1
  {
    SomeLine(lines);
    if lines[0].key.Some? {
      LastLine(lines);
    } else {
      GroupsUnfold(lines);
      hide Groups, Preamble;
      LastOfRest(lines[1..]);
    }
  }

  lemma {:induction false} SomeLine(lines: seq<Line>)
    requires Groups(lines) != []
    ensures lines != []
  {
  }

  /** The property the two operations owe each other. */
  lemma {:induction false} StripUndoesAppend(lines: seq<Line>, block: seq<Line>, owned: string -> bool)
    requires !Names(lines, owned) && RenderedBlock(block, owned)
    ensures Strip(lines + block, owned) == lines
  {
    hide Groups, Preamble, Leftover, Flatten, Names, StripGroups, IsComment;
    var groups, more := Groups(lines), Groups(block);
    GroupsOfAppend(lines, block);
    forall i | 0 <= i < |groups|
      ensures !owned(groups[i].Name())
    {
      if owned(groups[i].Name()) {
        GroupNames(lines, owned, i);
      }
    }
    forall i | 0 <= i < |more|
      ensures owned(more[i].Name())
    {
      if !owned(more[i].Name()) {
        GroupNames(block, (k: string) => !owned(k), i);
      }
    }
    StripUnowned(groups, more, owned);
    LastLine(block);
    StripAllOwned(more, owned);
    GroupsAreTheLines(lines);
  }

  /** The self-check of appendFrontmatter passes exactly for a block mapping
      that holds none of the keys. */
  lemma {:induction false} AppendsExactlyWhenUnowned(doc: Document, block: seq<Line>, owned: string -> bool)
    requires doc.Framed? && RenderedBlock(block, owned)
    ensures AppendFrontmatter(doc, block, owned)
            == if doc.block && !Names(doc.lines, owned)
               then doc.(lines := Appended(doc.lines, block)) else doc
    ensures Appended(doc.lines, block) != doc.lines
  {
    var more := Indented(block, FrontmatterIndent(doc.lines));
    IndentedIsRendered(block, FrontmatterIndent(doc.lines), owned);
    assert |doc.lines + more| > |doc.lines|;
    if doc.block {
      if Names(doc.lines, owned) {
        StripRemovesOwned(doc.lines + more, owned);
      } else {
        StripUndoesAppend(doc.lines, more, owned);
      }
    }
  }

  // ------------------------------------------------------------------
  // MoveServerKeys

  type Said = map<string, Group>

  /** What the readable owned keys of these blocks said, and their names in order. */
  function SaidBy(groups: seq<Group>, n: nat): Said
    requires n <= |groups|
  {
    if n == 0 then map[]
    else
      var said, g := SaidBy(groups, n - 1), groups[n - 1];
      if ServerOwned(g.Name()) && g.Readable() then said[g.Name() := g] else said
  }

  function ClaimedBy(groups: seq<Group>, n: nat): seq<string>
    requires n <= |groups|
  {
    if n == 0 then []
    else
      var claimed, g := ClaimedBy(groups, n - 1), groups[n - 1];
      if ServerOwned(g.Name()) && g.Readable() then claimed + [g.Name()] else claimed
  }

  /** `claim` is whether a claim was read back from the document that was produced. */
  datatype Moved = Moved(doc: Document, claimed: seq<string>, claim: bool)

  /** Whether ClaimOf answers: it decodes the whole frontmatter, so one foreign key
      that does not decode, or that comes twice, hides the claim. */
  predicate ClaimRead(doc: Document) {
    doc.HasKey(IsClaimKey) && Decodes(KeysOf(doc.lines))
  }

  function Move(doc: Document, render: Said -> seq<Line>): Moved {
    var stripped := StripDocument(doc, ServerOwned);
    if !doc.Addressable() || doc.HasKey(IsClaimKey) then Moved(stripped, [], false)
    else
      var groups := Groups(doc.lines);
      var said := SaidBy(groups, |groups|);
      if said == map[] then Moved(stripped, [], false)
      else
        var out := AppendFrontmatter(stripped, render(said), IsClaimKey);
        if !ClaimRead(out) then Moved(doc, [], false)
        else Moved(out, ClaimedBy(groups, |groups|), true)
  }

  /** yaml.Marshal of a claim: the one key `received`, and what the keys said under it,
      all of it text. */
  ghost predicate RenderedClaim(block: seq<Line>) {
    && RenderedBlock(block, IsClaimKey) && block[0].key.value.plain
    && forall i | 0 < i < |block| :: block[i].key.None?
  }

  ghost predicate RendersClaims(render: Said -> seq<Line>) {
    forall said: Said | said != map[] :: RenderedClaim(render(said))
  }

  lemma {:induction false} NamesByGroup(lines: seq<Line>, which: string -> bool)
    ensures Names(lines, which) <==> exists i | 0 <= i < |Groups(lines)| :: which(Groups(lines)[i].Name())
  {
    hide Groups, Preamble;
    var groups := Groups(lines);
    if i :| 0 <= i < |groups| && which(groups[i].Name()) {
      GroupNames(lines, which, i);
    } else if Names(lines, which) {
      StripOfUngrouped(lines, which);
    }
  }

  /** A key line opens a block. */
  lemma {:induction false} StripOfUngrouped(lines: seq<Line>, which: string -> bool)
    requires forall i | 0 <= i < |Groups(lines)| :: !which(Groups(lines)[i].Name())
    ensures !Names(lines, which)
  {
    if lines != [] {
      var groups := Groups(lines);
      if lines[0].key.Some? {
        assert groups[1..] == Groups(lines[1..]);
        assert forall i | 0 <= i < |groups[1..]| :: groups[1..][i] == groups[i + 1];
        assert !which(groups[0].Name());
      }
      StripOfUngrouped(lines[1..], which);
      NamesOfConcat(lines[..1], lines[1..], which);
      assert lines == lines[..1] + lines[1..];
    }
  }

  /** The walk over the keys; found is a claim that is already there. */
  method CollectSaid(groups: seq<Group>) returns (found: bool, said: Said, claimed: seq<string>)
    ensures found <==> exists i | 0 <= i < |groups| :: IsClaimKey(groups[i].Name())
    ensures !found ==> said == SaidBy(groups, |groups|) && claimed == ClaimedBy(groups, |groups|)
  {
    hide ServerOwned;
    found, said, claimed := false, map[], [];
    for i := 0 to |groups|
      invariant said == SaidBy(groups, i) && claimed == ClaimedBy(groups, i)
      invariant !found && forall j | 0 <= j < i :: !IsClaimKey(groups[j].Name())
    {
      if groups[i].Name() == CLAIM_KEY {
        found := true;
        return;
      }
      if ServerOwned(groups[i].Name()) && groups[i].Readable() {
        claimed := claimed + [groups[i].Name()];
        said := said[groups[i].Name() := groups[i]];
      }
    }
  }

  /** internal/okf/raw.go:363-412. */
  method MoveServerKeys(doc: Document, render: Said -> seq<Line>) returns (moved: Moved)
    ensures moved == Move(doc, render)
  {
    hide Groups, Preamble, StripDocument, AppendFrontmatter;
    var stripped := StripKeys(doc, ServerOwned);
    if !doc.Addressable() {
      return Moved(stripped, [], false);
    }
    NamesByGroup(doc.lines, IsClaimKey);
    var found, said, claimed := CollectSaid(Groups(doc.lines));
    if found {
      return Moved(stripped, [], false);
    }
    if said == map[] {
      return Moved(stripped, [], false);
    }
    var out := AppendFrontmatter(stripped, render(said), IsClaimKey);
    if !ClaimRead(out) {
      return Moved(doc, [], false);
    }
    return Moved(out, claimed, true);
  }

  /** A concept as the write path holds it: its extension keys and its document. */
  class Knowledge {
    var attrs: map<string, string>
    var doc: Document

    constructor (attrs: map<string, string>, doc: Document)
      ensures this.attrs == attrs && this.doc == doc
    {
      this.attrs, this.doc := attrs, doc;
    }

    /** internal/okf/raw.go:463-472. */
    method DropClaim()
      modifies this
      ensures attrs == old(attrs) - {CLAIM_KEY}
      ensures doc == StripDocument(old(doc), IsClaimKey)
    {
      attrs := attrs - {CLAIM_KEY};
      if doc == Plain("") {
        return;
      }
      doc := StripKeys(doc, IsClaimKey);
    }
  }

  // ------------------------------------------------------------------
  // What export and write-back keep

  lemma {:induction false} StrippedHasNoKey(doc: Document, owned: string -> bool)
    ensures !StripDocument(doc, owned).HasKey(owned)
  {
    if doc.Framed? && doc.block {
      StripRemovesOwned(doc.lines, owned);
    }
  }

  lemma {:induction false} StripDocumentOfUnowned(doc: Document, owned: string -> bool)
    requires !doc.HasKey(owned)
    ensures StripDocument(doc, owned) == doc
  {
    if doc.Framed? && doc.block {
      StripOfUnowned(doc.lines, owned);
    }
  }

  /** Taking keys out brings in none. */
  lemma {:induction false} StripGroupsAddsNoName(groups: seq<Group>, owned: string -> bool, which: string -> bool)
    requires ValidGroups(groups)
    requires Names(StripGroups(groups, owned), which)
    ensures exists i | 0 <= i < |groups| :: which(groups[i].Name()) && !owned(groups[i].Name())
  {
    if groups != [] {
      var g, rest := groups[0], groups[1..];
      var kept := if owned(g.Name()) then Leftover(g, rest, owned) else [g.head] + g.tail;
      NamesOfConcat(kept, StripGroups(rest, owned), which);
      if Names(StripGroups(rest, owned), which) {
        StripGroupsAddsNoName(rest, owned, which);
        var i :| 0 <= i < |rest| && which(rest[i].Name()) && !owned(rest[i].Name());
        assert groups[i + 1] == rest[i];
      } else {
        assert groups[0] == g;
      }
    }
  }

  lemma {:induction false} StripAddsNoName(lines: seq<Line>, owned: string -> bool, which: string -> bool)
    requires Names(Strip(lines, owned), which)
    ensures Names(lines, which)
  {
    hide Groups, Preamble, StripGroups;
    GroupsAreValid(lines);
    NamesOfConcat(Preamble(lines), StripGroups(Groups(lines), owned), which);
    StripGroupsAddsNoName(Groups(lines), owned, which);
    var i :| 0 <= i < |Groups(lines)| && which(Groups(lines)[i].Name());
    GroupNames(lines, which, i);
  }

  /** The keys this instance does not own. */
  function Foreign(keys: seq<Key>): seq<Key> {
    if keys == [] then []
    else (if ServerOwned(keys[0].name) then [] else [keys[0]]) + Foreign(keys[1..])
  }

  lemma {:induction false} Cons(a: seq<Line>, b: seq<Line>)
    requires a != []
    ensures a == [a[0]] + a[1..] && a + b == [a[0]] + (a[1..] + b)
  {
  }

  lemma {:induction false} KeysStep(first: Line, rest: seq<Line>)
    ensures KeysOf([first] + rest) == (if first.key.Some? then [first.key.value] else []) + KeysOf(rest)
  {
    assert ([first] + rest)[1..] == rest;
  }

  lemma {:induction false} KeysOfConcat(a: seq<Line>, b: seq<Line>)
    ensures KeysOf(a + b) == KeysOf(a) + KeysOf(b)
  {
    hide *;
    if a == [] {
      NoKeys([]);
      assert a + b == b && [] + KeysOf(b) == KeysOf(b);
    } else {
      var first, rest := a[0], a[1..];
      KeysOfConcat(rest, b);
      KeysStep(first, rest);
      KeysStep(first, rest + b);
      Cons(a, b);
      KeysAssoc(if first.key.Some? then [first.key.value] else [], KeysOf(rest), KeysOf(b));
    }
  }

  lemma {:induction false} KeysAssoc(a: seq<Key>, b: seq<Key>, c: seq<Key>)
    ensures a + (b + c) == a + b + c
  {
  }

  lemma {:induction false} NoKeys(lines: seq<Line>)
    requires forall i | 0 <= i < |lines| :: lines[i].key.None?
    ensures KeysOf(lines) == []
  {
    if lines != [] {
      NoKeys(lines[1..]);
    }
  }

  lemma {:induction false} OneKey(head: Line, tail: seq<Line>)
    requires head.key.Some? && forall i | 0 <= i < |tail| :: tail[i].key.None?
    ensures KeysOf([head] + tail) == [head.key.value]
  {
    NoKeys(tail);
    assert ([head] + tail)[1..] == tail;
  }

  lemma {:induction false} ForeignStep(k: Key, rest: seq<Key>)
    ensures Foreign([k] + rest) == if ServerOwned(k.name) then Foreign(rest) else [k] + Foreign(rest)
  {
    assert ([k] + rest)[1..] == rest;
  }

  lemma {:induction false} FlattenKeysStep(groups: seq<Group>)
    requires groups != [] && ValidGroups(groups)
    ensures KeysOf(Flatten(groups)) == [groups[0].head.key.value] + KeysOf(Flatten(groups[1..]))
  {
    var g, rest := groups[0], groups[1..];
    assert Flatten(groups) == [g.head] + g.tail + Flatten(rest);
    OneKey(g.head, g.tail);
    KeysOfConcat([g.head] + g.tail, Flatten(rest));
  }

  lemma {:induction false} StripStep(groups: seq<Group>, owned: string -> bool)
    requires groups != []
    ensures var g, rest := groups[0], groups[1..];
            StripGroups(groups, owned)
            == (if owned(g.Name()) then Leftover(g, rest, owned) else [g.head] + g.tail) + StripGroups(rest, owned)
  {
  }

  lemma {:induction false} LeftoverIsKeyless(g: Group, rest: seq<Group>, owned: string -> bool)
    requires g.Valid()
    ensures forall i | 0 <= i < |Leftover(g, rest, owned)| :: Leftover(g, rest, owned)[i].key.None?
  {
    var kept := Leftover(g, rest, owned);
    assert forall i | 0 <= i < |kept| :: kept[i] == g.tail[|g.tail| - |kept| + i];
  }

  lemma {:induction false} KeysOfStripGroups(groups: seq<Group>)
    requires ValidGroups(groups)
    ensures KeysOf(StripGroups(groups, ServerOwned)) == Foreign(KeysOf(Flatten(groups)))
  {
    if groups != [] {
      var g, rest := groups[0], groups[1..];
      KeysOfStripGroups(rest);
      FlattenKeysStep(groups);
      StripStep(groups, ServerOwned);
      ForeignStep(g.head.key.value, KeysOf(Flatten(rest)));
      OneKey(g.head, g.tail);
      LeftoverIsKeyless(g, rest, ServerOwned);
      NoKeys(Leftover(g, rest, ServerOwned));
      hide KeysOf, Foreign, StripGroups, Flatten, Leftover, ServerOwned;
      KeysOfConcat(if ServerOwned(g.Name()) then Leftover(g, rest, ServerOwned) else [g.head] + g.tail,
                   StripGroups(rest, ServerOwned));
    }
  }

  /** A strip leaves the foreign keys, in order. */
  lemma {:induction false} KeysOfStrip(lines: seq<Line>)
    ensures KeysOf(Strip(lines, ServerOwned)) == Foreign(KeysOf(lines))
  {
    var pre, groups := Preamble(lines), Groups(lines);
    GroupsAreValid(lines);
    GroupsAreTheLines(lines);
    KeysOfStripGroups(groups);
    NoKeys(pre);
    hide KeysOf, Foreign, StripGroups, Flatten, Groups, Preamble;
    KeysOfConcat(pre, StripGroups(groups, ServerOwned));
    KeysOfConcat(pre, Flatten(groups));
    assert [] + KeysOf(Flatten(groups)) == KeysOf(Flatten(groups));
    assert [] + KeysOf(StripGroups(groups, ServerOwned)) == KeysOf(StripGroups(groups, ServerOwned));
  }

  lemma {:induction false} KeysHave(lines: seq<Line>, which: string -> bool)
    ensures Names(lines, which) <==> exists k :: k in KeysOf(lines) && which(k.name)
  {
    if lines != [] {
      KeysHave(lines[1..], which);
      NamesOfConcat(lines[..1], lines[1..], which);
      assert lines == lines[..1] + lines[1..];
      assert lines[..1] == [lines[0]];
      var front := if lines[0].key.Some? then [lines[0].key.value] else [];
      assert KeysOf(lines) == front + KeysOf(lines[1..]);
      if lines[0].key.Some? && which(lines[0].key.value.name) {
        assert front[0] in KeysOf(lines);
      }
    }
  }

  lemma {:induction false} ForeignHas(keys: seq<Key>)
    ensures forall k :: k in Foreign(keys) <==> k in keys && !ServerOwned(k.name)
  {
    if keys != [] {
      ForeignHas(keys[1..]);
      assert keys == [keys[0]] + keys[1..];
    }
  }

  /** One more key, of a name that is not there. */
  lemma {:induction false} DecodesOneMore(keys: seq<Key>, k: Key)
    requires k.plain && forall x | x in keys :: x.name != k.name
    ensures Decodes(keys + [k]) <==> Decodes(keys)
  {
    var all := keys + [k];
    assert forall i | 0 <= i < |keys| :: all[i] == keys[i] && keys[i] in keys;
    if Decodes(all) {
      forall x | x in keys
        ensures x.plain
      {
        assert x in all;
      }
    }
  }

  /** The keys of the document with the claim in it. */
  lemma {:induction false} KeysWithClaim(lines: seq<Line>, block: seq<Line>, n: nat)
    requires RenderedClaim(block) && !Names(lines, IsClaimKey)
    ensures var out := Strip(lines, ServerOwned) + Indented(block, n);
            && Names(out, IsClaimKey)
            && (Decodes(KeysOf(out)) <==> Decodes(Foreign(KeysOf(lines))))
  {
    hide Strip, Foreign, Decodes, KeysOf, ServerOwned;
    var stripped, more := Strip(lines, ServerOwned), Indented(block, n);
    KeysOfStrip(lines);
    KeysOfConcat(stripped, more);
    assert more == [more[0]] + more[1..];
    OneKey(more[0], more[1..]);
    NamesOfConcat(stripped, more, IsClaimKey);
    KeysHave(lines, IsClaimKey);
    ForeignHas(KeysOf(lines));
    DecodesOneMore(Foreign(KeysOf(lines)), more[0].key.value);
  }

  /** Something readable was owned, and no claim was there. */
  predicate Claimable(doc: Document) {
    && doc.Addressable() && !doc.HasKey(IsClaimKey)
    && exists i | 0 <= i < |Groups(doc.lines)| ::
        ServerOwned(Groups(doc.lines)[i].Name()) && Groups(doc.lines)[i].Readable()
  }

  /** The claim goes in and is read back exactly when the foreign keys decode as they
      stand and none comes twice. Otherwise the document is handed back as it came. */
  lemma {:induction false} ClaimGoesIn(doc: Document, render: Said -> seq<Line>)
    requires RendersClaims(render) && Claimable(doc)
    ensures var stripped := StripDocument(doc, ServerOwned);
            var said := SaidBy(Groups(doc.lines), |Groups(doc.lines)|);
            Move(doc, render)
            == if Decodes(Foreign(KeysOf(doc.lines)))
               then Moved(stripped.(lines := Appended(stripped.lines, render(said))),
                          ClaimedBy(Groups(doc.lines), |Groups(doc.lines)|), true)
               else Moved(doc, [], false)
  {
    hide Groups, Preamble, Strip, Decodes, KeysOf, Foreign;
    var groups := Groups(doc.lines);
    var i :| 0 <= i < |groups| && ServerOwned(groups[i].Name()) && groups[i].Readable();
    SaidByOne(groups, |groups|, i);
    var stripped := StripDocument(doc, ServerOwned);
    var block := render(SaidBy(groups, |groups|));
    assert RenderedClaim(block);
    if Names(stripped.lines, IsClaimKey) {
      StripAddsNoName(doc.lines, ServerOwned, IsClaimKey);
    }
    AppendsExactlyWhenUnowned(stripped, block, IsClaimKey);
    KeysWithClaim(doc.lines, block, FrontmatterIndent(stripped.lines));
  }

  /** The line is that of a key which is not this instance's. */
  predicate IsForeign(l: Line) {
    l.key.Some? && !ServerOwned(l.key.value.name)
  }

  /** Every foreign value decodes as it stands, and no foreign key comes twice. */
  predicate ForeignStand(lines: seq<Line>) {
    && (forall i | 0 <= i < |lines| && IsForeign(lines[i]) :: lines[i].key.value.plain)
    && forall i, j | 0 <= i < j < |lines| && IsForeign(lines[i]) && IsForeign(lines[j]) ::
         lines[i].key.value.name != lines[j].key.value.name
  }

  lemma {:induction false} ForeignAre(lines: seq<Line>, k: Key)
    ensures k in Foreign(KeysOf(lines))
            <==> exists i :: 0 <= i < |lines| && IsForeign(lines[i]) && lines[i].key.value == k
  {
    hide ServerOwned;
    if lines != [] {
      ForeignAre(lines[1..], k);
      ForeignFirst(lines);
      if i :| 0 <= i < |lines[1..]| && IsForeign(lines[1..][i]) && lines[1..][i].key.value == k {
        assert lines[i + 1] == lines[1..][i];
      }
      if i :| 0 <= i < |lines| && IsForeign(lines[i]) && lines[i].key.value == k {
        assert i > 0 ==> lines[1..][i - 1] == lines[i];
      }
    }
  }

  lemma {:induction false} ForeignFirst(lines: seq<Line>)
    requires lines != []
    ensures Foreign(KeysOf(lines))
            == if IsForeign(lines[0]) then [lines[0].key.value] + Foreign(KeysOf(lines[1..]))
                else Foreign(KeysOf(lines[1..]))
  {
    hide ServerOwned;
    var rest := KeysOf(lines[1..]);
    if lines[0].key.Some? {
      assert ([lines[0].key.value] + rest)[1..] == rest;
    } else {
      assert [] + rest == rest;
    }
  }

  lemma {:induction false} DistinctFirst(k: Key, keys: seq<Key>)
    ensures DistinctNames([k] + keys) <==> DistinctNames(keys) && forall i | 0 <= i < |keys| :: keys[i].name != k.name
  {
    var all := [k] + keys;
    assert all[0] == k && forall i | 0 < i < |all| :: all[i] == keys[i - 1];
    if DistinctNames(all) {
      forall i | 0 <= i < |keys|
        ensures keys[i].name != k.name
      {
        assert all[0].name != all[i + 1].name;
      }
      forall i, j | 0 <= i < j < |keys|
        ensures keys[i].name != keys[j].name
      {
        assert all[i + 1].name != all[j + 1].name;
      }
    }
  }

  lemma {:induction false} DecodesFirst(k: Key, keys: seq<Key>)
    ensures Decodes([k] + keys) <==> k.plain && Decodes(keys) && forall x | x in keys :: x.name != k.name
  {
    hide DistinctNames;
    DistinctFirst(k, keys);
    assert forall x :: x in [k] + keys <==> x == k || x in keys;
    assert (forall x | x in keys :: x.name != k.name) <==> forall i | 0 <= i < |keys| :: keys[i].name != k.name;
  }

  lemma {:induction false} ForeignStandIs(lines: seq<Line>)
    ensures Decodes(Foreign(KeysOf(lines))) <==> ForeignStand(lines)
  {
    hide ServerOwned, Decodes, Foreign, KeysOf;
    if lines == [] {
      NothingDecodes();
    } else {
      var rest := lines[1..];
      ForeignStandIs(rest);
      ForeignFirst(lines);
      assert forall i | 0 <= i < |rest| :: rest[i] == lines[i + 1];
      StandsFirst(lines);
      if IsForeign(lines[0]) {
        var k := lines[0].key.value;
        DecodesFirst(k, Foreign(KeysOf(rest)));
        forall x
          ensures x in Foreign(KeysOf(rest))
                  <==> exists i :: 0 <= i < |rest| && IsForeign(rest[i]) && rest[i].key.value == x
        {
          ForeignAre(rest, x);
        }
      }
    }
  }

  lemma {:induction false} NothingDecodes()
    ensures Decodes(Foreign(KeysOf([])))
  {
  }

  lemma {:induction false} StandsFirst(lines: seq<Line>)
    requires lines != []
    ensures ForeignStand(lines)
            <==> && ForeignStand(lines[1..])
                 && (IsForeign(lines[0]) ==>
                       && lines[0].key.value.plain
                       && forall i | 0 <= i < |lines[1..]| && IsForeign(lines[1..][i]) ::
                            lines[1..][i].key.value.name != lines[0].key.value.name)
  {
    hide ServerOwned;
    var rest := lines[1..];
    assert forall i | 0 < i < |lines| :: lines[i] == rest[i - 1];
    if ForeignStand(lines) {
      forall i, j | 0 <= i < j < |rest| && IsForeign(rest[i]) && IsForeign(rest[j])
        ensures rest[i].key.value.name != rest[j].key.value.name
      {
        assert lines[i + 1].key.value.name != lines[j + 1].key.value.name;
      }
      forall i | 0 <= i < |rest| && IsForeign(rest[i])
        ensures rest[i].key.value.plain && (IsForeign(lines[0]) ==> rest[i].key.value.name != lines[0].key.value.name)
      {
        assert lines[i + 1].key.value.plain;
      }
    }
  }

  /** A claim is read back exactly where something readable was owned, no claim was there,
      every foreign value decodes as it stands and no foreign key comes twice. */
  lemma {:induction false} ClaimIsReadBackExactlyWhen(doc: Document, render: Said -> seq<Line>)
    requires RendersClaims(render)
    ensures Move(doc, render).claim <==> Claimable(doc) && ForeignStand(doc.lines)
  {
    hide *;
    if Claimable(doc) {
      ClaimableIsFramed(doc);
      ForeignStandIs(doc.lines);
      ClaimGoesIn(doc, render);
    } else {
      MoveClaimsNothing(doc, render);
    }
  }

  lemma {:induction false} ClaimableIsFramed(doc: Document)
    requires Claimable(doc)
    ensures doc.Framed?
  {
    hide Groups, ServerOwned;
  }

  /** The branch that hands the document back with its owned keys still in it. */
  predicate HandedBack(doc: Document) {
    Claimable(doc) && !Decodes(Foreign(KeysOf(doc.lines)))
  }

  lemma {:induction false} SaidByOne(groups: seq<Group>, n: nat, i: nat)
    requires i < n <= |groups| && ServerOwned(groups[i].Name()) && groups[i].Readable()
    ensures groups[i].Name() in SaidBy(groups, n)
  {
    if i < n - 1 {
      SaidByOne(groups, n - 1, i);
    }
  }

  lemma {:induction false} ClaimedNames(groups: seq<Group>, n: nat, name: string)
    requires n <= |groups|
    ensures name in ClaimedBy(groups, n)
            <==> ServerOwned(name) && exists i | 0 <= i < n :: groups[i].Name() == name && groups[i].Readable()
    ensures name in SaidBy(groups, n) <==> name in ClaimedBy(groups, n)
  {
    hide ServerOwned;
    if n > 0 {
      ClaimedNames(groups, n - 1, name);
    }
  }

  lemma {:induction false} SaysNothing(groups: seq<Group>, n: nat)
    requires n <= |groups| && forall i | 0 <= i < n :: !ServerOwned(groups[i].Name())
    ensures SaidBy(groups, n) == map[]
  {
    if n > 0 {
      SaysNothing(groups, n - 1);
    }
  }

  /** A document without owned keys passes through untouched. */
  lemma {:induction false} MoveOfUnowned(doc: Document, render: Said -> seq<Line>)
    requires !doc.HasKey(ServerOwned)
    ensures Move(doc, render) == Moved(doc, [], false)
  {
    StripDocumentOfUnowned(doc, ServerOwned);
    if doc.Addressable() {
      var groups := Groups(doc.lines);
      forall i | 0 <= i < |groups|
        ensures !ServerOwned(groups[i].Name())
      {
        if ServerOwned(groups[i].Name()) {
          GroupNames(doc.lines, ServerOwned, i);
        }
      }
      SaysNothing(groups, |groups|);
    }
  }

  /** Exporting appends for every block mapping. Writing the export back gives
      the stored document again, at once when it held a claim and after DropClaim
      when it did not, exactly where the stored frontmatter decodes as it stands or
      held a claim. Elsewhere the export itself is stored. Whatever the surgery
      declines is not changed in either direction. */
  lemma {:induction false} ExportThenWriteBack(doc: Document, block: seq<Line>, render: Said -> seq<Line>)
    requires !doc.HasKey(ServerOwned)
    requires RenderedBlock(block, ServerOwned) && RendersClaims(render)
    ensures var out := WithServerKeys(doc, block);
            var moved := Move(out, render);
            var back := if moved.claim then StripDocument(moved.doc, IsClaimKey) else moved.doc;
            && out == (if doc.Framed? && doc.block then doc.(lines := Appended(doc.lines, block)) else doc)
            && (moved.claim <==> doc.Framed? && doc.block && !doc.HasKey(IsClaimKey) && Decodes(KeysOf(doc.lines)))
            && (back == doc <==> !doc.Framed? || !doc.block || doc.HasKey(IsClaimKey) || Decodes(KeysOf(doc.lines)))
            && (back != doc ==> back == out)
  {
    if !doc.Framed? || !doc.block {
      if doc.Framed? {
        AppendsExactlyWhenUnowned(doc, block, ServerOwned);
      }
      MoveOfUnowned(doc, render);
    } else {
      WriteBackOfExport(doc, block, render);
    }
  }

  lemma {:induction false} WriteBackOfExport(doc: Document, block: seq<Line>, render: Said -> seq<Line>)
    requires doc.Framed? && doc.block && !Names(doc.lines, ServerOwned)
    requires RenderedBlock(block, ServerOwned) && RendersClaims(render)
    ensures var out := WithServerKeys(doc, block);
            var moved := Move(out, render);
            && out == doc.(lines := Appended(doc.lines, block)) && out != doc
            && (moved.claim <==> !doc.HasKey(IsClaimKey) && Decodes(KeysOf(doc.lines)))
            && (if moved.claim then StripDocument(moved.doc, IsClaimKey) else moved.doc)
               == if doc.HasKey(IsClaimKey) || Decodes(KeysOf(doc.lines)) then doc else out
  {
    hide Groups, Preamble, Strip, Decodes, KeysOf, Foreign;
    var lines, more := doc.lines, Indented(block, FrontmatterIndent(doc.lines));
    var out := doc.(lines := lines + more);
    AppendsExactlyWhenUnowned(doc, block, ServerOwned);
    IndentedIsRendered(block, FrontmatterIndent(lines), ServerOwned);
    StripUndoesAppend(lines, more, ServerOwned);
    NamesOfConcat(lines, more, IsClaimKey);
    GroupsOfAppend(lines, more);
    FirstGroup(more);
    var i := |Groups(lines)|;
    assert Groups(out.lines)[i].head == more[0];
    if !doc.HasKey(IsClaimKey) {
      assert ServerOwned(Groups(out.lines)[i].Name()) && Groups(out.lines)[i].Readable();
      ClaimGoesIn(out, render);
      ForeignOfExport(lines, more);
      if Decodes(KeysOf(lines)) {
        SaidByOne(Groups(out.lines), |Groups(out.lines)|, i);
        var claim := render(SaidBy(Groups(out.lines), |Groups(out.lines)|));
        assert RenderedClaim(claim);
        IndentedIsRendered(claim, FrontmatterIndent(lines), IsClaimKey);
        StripUndoesAppend(lines, Indented(claim, FrontmatterIndent(lines)), IsClaimKey);
      }
    }
  }

  /** The foreign keys of an export are the stored document's keys. */
  lemma {:induction false} ForeignOfExport(lines: seq<Line>, more: seq<Line>)
    requires !Names(lines, ServerOwned) && RenderedBlock(more, ServerOwned)
    ensures Foreign(KeysOf(lines + more)) == KeysOf(lines)
  {
    StripUndoesAppend(lines, more, ServerOwned);
    KeysOfStrip(lines + more);
  }

  lemma {:induction false} FirstGroup(lines: seq<Line>)
    requires lines != [] && lines[0].key.Some?
    ensures Groups(lines) != [] && Groups(lines)[0].head == lines[0]
  {
  }

  /** A write leaves none of this instance's keys, exactly where it does not hand the
      document back. */
  lemma {:induction false} MoveLeavesNoOwnedKey(doc: Document, render: Said -> seq<Line>)
    requires RendersClaims(render)
    ensures Move(doc, render).doc.HasKey(ServerOwned) <==> HandedBack(doc)
    ensures HandedBack(doc) ==> Move(doc, render) == Moved(doc, [], false)
  {
    hide Groups, Preamble, Strip, Decodes, KeysOf, Foreign;
    StrippedHasNoKey(doc, ServerOwned);
    if Claimable(doc) {
      ClaimGoesIn(doc, render);
      var groups := Groups(doc.lines);
      var i :| 0 <= i < |groups| && ServerOwned(groups[i].Name()) && groups[i].Readable();
      SaidByOne(groups, |groups|, i);
      GroupNames(doc.lines, ServerOwned, i);
      var said := SaidBy(groups, |groups|);
      var stripped := StripDocument(doc, ServerOwned);
      var n := FrontmatterIndent(stripped.lines);
      assert RenderedClaim(render(said));
      IndentedIsRendered(render(said), n, IsClaimKey);
      NamesOfConcat(stripped.lines, Indented(render(said), n), ServerOwned);
    } else if doc.Addressable() && !doc.HasKey(IsClaimKey) {
      NothingSaid(Groups(doc.lines), |Groups(doc.lines)|);
    }
  }

  lemma {:induction false} NothingSaid(groups: seq<Group>, n: nat)
    requires n <= |groups| && forall i | 0 <= i < n :: !(ServerOwned(groups[i].Name()) && groups[i].Readable())
    ensures SaidBy(groups, n) == map[] && ClaimedBy(groups, n) == []
  {
    if n > 0 {
      NothingSaid(groups, n - 1);
    }
  }

  /** A second write of what the first one stored changes nothing. */
  lemma {:induction false} MoveIsIdempotent(doc: Document, render: Said -> seq<Line>)
    requires RendersClaims(render)
    ensures Move(Move(doc, render).doc, render) == Moved(Move(doc, render).doc, [], false)
  {
    MoveLeavesNoOwnedKey(doc, render);
    if !HandedBack(doc) {
      MoveOfUnowned(Move(doc, render).doc, render);
    }
  }

  /** An owned key of the document that is neither left in it nor kept under
      `received`, although no claim was there before. */
  ghost predicate Lost(doc: Document, render: Said -> seq<Line>, name: string) {
    && ServerOwned(name) && doc.HasKey(k => k == name) && !doc.HasKey(IsClaimKey)
    && !Move(doc, render).doc.HasKey(k => k == name)
    && name !in Move(doc, render).claimed
  }

  /** A key is lost exactly when no value written under it can be decoded, no claim
      was there and the document is not handed back for another key's sake. */
  lemma {:induction false} LostExactlyWhenUnreadable(doc: Document, render: Said -> seq<Line>, name: string)
    requires RendersClaims(render)
    ensures Lost(doc, render, name)
            <==> && ServerOwned(name) && doc.HasKey(k => k == name) && !doc.HasKey(IsClaimKey) && !HandedBack(doc)
                 && forall i | 0 <= i < |Groups(doc.lines)| && Groups(doc.lines)[i].Name() == name ::
                      !Groups(doc.lines)[i].Readable()
  {
    hide Decodes, KeysOf, Foreign, Groups, Preamble, Strip, Appended;
    MoveLeavesNoOwnedKey(doc, render);
    if ServerOwned(name) && doc.HasKey(k => k == name) && !doc.HasKey(IsClaimKey) && !HandedBack(doc) {
      NamesByGroup(doc.lines, k => k == name);
      ClaimedExactly(doc, render);
      ClaimedNames(Groups(doc.lines), |Groups(doc.lines)|, name);
      hide Move;
      if Move(doc, render).doc.HasKey(k => k == name) {
        NameIsOwned(Move(doc, render).doc, name);
      }
    }
  }

  lemma {:induction false} ClaimedExactly(doc: Document, render: Said -> seq<Line>)
    requires RendersClaims(render) && doc.Addressable() && !doc.HasKey(IsClaimKey) && !HandedBack(doc)
    ensures Move(doc, render).claimed == ClaimedBy(Groups(doc.lines), |Groups(doc.lines)|)
  {
    hide Decodes, KeysOf, Foreign, Groups, Preamble, Strip, Appended;
    if Claimable(doc) {
      ClaimGoesIn(doc, render);
    } else {
      NothingSaid(Groups(doc.lines), |Groups(doc.lines)|);
    }
  }

  lemma {:induction false} NameIsOwned(doc: Document, name: string)
    requires ServerOwned(name) && doc.HasKey(k => k == name)
    ensures doc.HasKey(ServerOwned)
  {
  }

  /** A document of one key of this instance's that cannot be decoded. */
  lemma {:induction false} AloneIsLost(line: Line, rest: string, render: Said -> seq<Line>)
    requires line.key.Some? && ServerOwned(line.key.value.name) && !line.key.value.readable
    requires !IsClaimKey(line.key.value.name)
    ensures var doc := Framed(true, [line], rest);
            && Lost(doc, render, line.key.value.name)
            && Move(doc, render) == Moved(Framed(true, [], rest), [], false)
  {
    hide ServerOwned, IsClaimKey, Groups, Preamble, StripGroups, SaidBy, ClaimedBy;
    var g := Group(line, []);
    OneKeyLine(line);
    NothingSaid([g], 1);
    NothingLeft(g);
    assert [line][0] == line;
  }

  lemma {:induction false} UnreadableKeyIsLost(render: Said -> seq<Line>)
    requires RendersClaims(render)
    ensures var doc := Framed(true, [Line("generated: !!int x", Some(Key("generated", false, false)))], "");
            Lost(doc, render, "generated") && Move(doc, render).doc == Framed(true, [], "")
  {
    var line := Line("generated: !!int x", Some(Key("generated", false, false)));
    GeneratedIsOwned(line.key.value.name);
    AloneIsLost(line, "", render);
    hide Move, ServerOwned, IsClaimKey, Lost;
  }

  lemma {:induction false} GeneratedIsOwned(name: string)
    requires name == "generated"
    ensures ServerOwned(name) && !IsClaimKey(name)
  {
    assert name[0] == 'g' && CLAIM_KEY[0] == 'r';
  }

  lemma {:induction false} OneKeyLine(line: Line)
    requires line.key.Some?
    ensures Groups([line]) == [Group(line, [])] && Preamble([line]) == []
  {
    assert [line][1..] == [];
    assert Groups([]) == [] && Preamble([]) == [];
  }

  lemma {:induction false} NothingLeft(g: Group)
    requires g.tail == [] && ServerOwned(g.Name())
    ensures StripGroups([g], ServerOwned) == []
  {
    assert [g][1..] == [];
    assert StripGroups([], ServerOwned) == [];
  }

  /** The write path decodes the frontmatter, timestamps as text, before it moves keys.
      Of what it lets through nothing is lost, and what is handed back has a foreign
      value that decodes only with its timestamps as text. */
  lemma {:induction false} DecodedDocumentsLoseNothing(doc: Document, render: Said -> seq<Line>, name: string)
    requires RendersClaims(render) && doc.Framed? && DecodesAsText(KeysOf(doc.lines))
    ensures !Lost(doc, render, name)
    ensures HandedBack(doc)
            <==> && doc.Addressable() && !doc.HasKey(IsClaimKey) && doc.HasKey(ServerOwned)
                 && exists k :: k in KeysOf(doc.lines) && !ServerOwned(k.name) && !k.plain
  {
    hide Groups, Preamble, KeysOf, Foreign;
    var groups, keys := Groups(doc.lines), KeysOf(doc.lines);
    GroupsAreKeys(doc.lines);
    ForeignHas(keys);
    ForeignIsDistinct(keys);
    LostExactlyWhenUnreadable(doc, render, name);
    if doc.HasKey(ServerOwned) {
      NamesByGroup(doc.lines, ServerOwned);
    }
    if doc.HasKey(k => k == name) {
      NamesByGroup(doc.lines, k => k == name);
    }
    if HandedBack(doc) {
      var i :| 0 <= i < |groups| && ServerOwned(groups[i].Name()) && groups[i].Readable();
      GroupNames(doc.lines, ServerOwned, i);
    }
  }

  lemma {:induction false} GroupsAreKeys(lines: seq<Line>)
    ensures forall i | 0 <= i < |Groups(lines)| ::
            Groups(lines)[i].head.key.Some? && Groups(lines)[i].head.key.value in KeysOf(lines)
  {
    if lines != [] {
      GroupsAreKeys(lines[1..]);
    }
  }

  lemma {:induction false} ForeignIsDistinct(keys: seq<Key>)
    requires DistinctNames(keys)
    ensures DistinctNames(Foreign(keys))
  {
    if keys != [] {
      var rest := keys[1..];
      ForeignIsDistinct(rest);
      ForeignHas(rest);
      forall k | k in Foreign(rest)
        ensures k.name != keys[0].name
      {
        var i :| 0 <= i < |rest| && rest[i] == k;
        assert keys[i + 1] == k;
      }
    }
  }

  /** A document the write path lets through and that is stored with this instance's
      key in it: `due` decodes only as text. */
  lemma {:induction false} OwnedKeyIsStored(render: Said -> seq<Line>)
    requires RendersClaims(render)
    ensures var doc := Framed(true, [Line("due: !!timestamp soon", Some(Key("due", true, false))),
                                     Line("generated: me", Some(Key("generated", true, true)))], "");
            DecodesAsText(KeysOf(doc.lines)) && Move(doc, render) == Moved(doc, [], false) && doc.HasKey(ServerOwned)
  {
    var due, mine := Key("due", true, false), Key("generated", true, true);
    var a, b := Line("due: !!timestamp soon", Some(due)), Line("generated: me", Some(mine));
    var doc := Framed(true, [a, b], "");
    TwoKeys(a, b);
    DueIsForeign(due, mine);
    OneIsOwned(a, b);
    hide Groups, KeysOf, Preamble, Move, DecodesAsText, Decodes, Names, Foreign;
    assert HandedBack(doc);
    MoveLeavesNoOwnedKey(doc, render);
  }

  lemma {:induction false} DueIsForeign(due: Key, mine: Key)
    requires due == Key("due", true, false) && mine == Key("generated", true, true)
    ensures DecodesAsText([due, mine]) && !Decodes(Foreign([due, mine]))
  {
    ForeignHas([due, mine]);
    assert due in [due, mine] && !ServerOwned("due");
    assert due.name[0] != mine.name[0];
  }

  lemma {:induction false} OneIsOwned(a: Line, b: Line)
    requires a.key.Some? && b.key.Some? && a.key.value.name == "due" && b.key.value.name == "generated"
            && b.key.value.readable
    ensures Claimable(Framed(true, [a, b], ""))
  {
    TwoKeys(a, b);
    NamesByGroup([a, b], IsClaimKey);
    assert a.key.value.name[0] == 'd' && b.key.value.name[0] == 'g' && CLAIM_KEY[0] == 'r';
    hide Groups;
    assert Groups([a, b])[1].Name() == "generated";
  }

  lemma {:induction false} TwoKeys(a: Line, b: Line)
    requires a.key.Some? && b.key.Some?
    ensures KeysOf([a, b]) == [a.key.value, b.key.value]
    ensures Groups([a, b]) == [Group(a, []), Group(b, [])]
  {
    assert [a, b][1..] == [b] && [b][1..] == [];
    assert KeysOf([b]) == [b.key.value];
    assert Preamble([b]) == [] && Groups([b]) == [Group(b, [])];
  }

  // ------------------------------------------------------------------
  // What the claim says

  /** The i-th block is of a key of this instance's and decodes. */
  predicate Told(groups: seq<Group>, i: nat) {
    && i < |groups| && groups[i].head.key.Some? && groups[i].head.key.value.readable
    && groups[i].head.key.value.name in {"generated", "verified", "created_by", "rejected_by", "rejected_at",
                                         "rejected_note", "timestamp", "verified_by", "verified_at"}
  }

  /** m says of each such name what the last block of the first n with that name says. */
  ghost predicate SaysLast(groups: seq<Group>, n: nat, m: Said) {
    && (forall i | 0 <= i < n && Told(groups, i) :: groups[i].head.key.value.name in m)
    && (forall name | name in m :: exists i :: 0 <= i < n && LastTold(groups, n, name, m[name], i))
  }

  ghost predicate LastTold(groups: seq<Group>, n: nat, name: string, g: Group, i: nat) {
    && Told(groups, i) && groups[i].head.key.value.name == name && g == groups[i]
    && forall j | i < j < n && Told(groups, j) :: groups[j].head.key.value.name != name
  }

  /** `at` are the blocks told among the first n, in document order, and names their names. */
  ghost predicate NamesTold(groups: seq<Group>, n: nat, names: seq<string>, at: seq<nat>) {
    && |names| == |at| && (forall x, y | 0 <= x < y < |at| :: at[x] < at[y])
    && (forall x | 0 <= x < |at| :: at[x] < n && Told(groups, at[x]) && names[x] == groups[at[x]].head.key.value.name)
    && (forall i | 0 <= i < n && Told(groups, i) :: i in at)
  }

  lemma {:induction false} ToldIs(groups: seq<Group>, i: nat)
    requires ValidGroups(groups) && i < |groups|
    ensures Told(groups, i) <==> ServerOwned(groups[i].Name()) && groups[i].Readable()
    ensures groups[i].head.key.Some? && groups[i].Name() == groups[i].head.key.value.name
  {
  }

  lemma {:induction false} SaidSaysLast(groups: seq<Group>, n: nat)
    requires ValidGroups(groups) && n <= |groups|
    ensures SaysLast(groups, n, SaidBy(groups, n))
  {
    hide Told, ServerOwned;
    if n > 0 {
      SaidSaysLast(groups, n - 1);
      ToldIs(groups, n - 1);
      var before, m, g := SaidBy(groups, n - 1), SaidBy(groups, n), groups[n - 1];
      forall name | name in m
        ensures exists i :: 0 <= i < n && LastTold(groups, n, name, m[name], i)
      {
        if Told(groups, n - 1) && name == g.Name() {
          assert LastTold(groups, n, name, m[name], n - 1);
        } else {
          var i :| 0 <= i < n - 1 && LastTold(groups, n - 1, name, before[name], i);
          assert LastTold(groups, n, name, m[name], i);
        }
      }
    }
  }

  lemma {:induction false} ToldMore(groups: seq<Group>, n: nat, names: seq<string>, at: seq<nat>)
    requires 0 < n <= |groups| && NamesTold(groups, n - 1, names, at) && Told(groups, n - 1)
    ensures NamesTold(groups, n, names + [groups[n - 1].head.key.value.name], at + [n - 1])
  {
    hide Told;
    ToldKey(groups, n - 1);
    var more := at + [n - 1];
    forall i | 0 <= i < n && Told(groups, i)
      ensures i in more
    {
      if i < n - 1 {
        assert i in at;
      } else {
        assert more[|at|] == i;
      }
    }
  }

  lemma {:induction false} ToldKey(groups: seq<Group>, i: nat)
    requires Told(groups, i)
    ensures groups[i].head.key.Some?
  {
  }

  lemma {:induction false} NoneToldMore(groups: seq<Group>, n: nat, names: seq<string>, at: seq<nat>)
    requires 0 < n <= |groups| && NamesTold(groups, n - 1, names, at) && !Told(groups, n - 1)
    ensures NamesTold(groups, n, names, at)
  {
    hide Told;
  }

  lemma {:induction false} ClaimedAreTold(groups: seq<Group>, n: nat) returns (at: seq<nat>)
    requires ValidGroups(groups) && n <= |groups|
    ensures NamesTold(groups, n, ClaimedBy(groups, n), at)
  {
    hide Told, ServerOwned, NamesTold;
    if n == 0 {
      at := [];
      NoneTold(groups);
    } else {
      at := ClaimedAreTold(groups, n - 1);
      ToldIs(groups, n - 1);
      if Told(groups, n - 1) {
        ToldMore(groups, n, ClaimedBy(groups, n - 1), at);
        at := at + [n - 1];
      } else {
        NoneToldMore(groups, n, ClaimedBy(groups, n - 1), at);
      }
    }
  }

  lemma {:induction false} NoneTold(groups: seq<Group>)
    ensures NamesTold(groups, 0, [], [])
  {
  }

  /** Where a claim goes in, what is appended is the rendering of a map that says of
      exactly the readable keys of this instance's what the last block of each said, and
      the names claimed are those of their blocks in document order. */
  lemma {:induction false} ClaimSaysWhatTheyDid(doc: Document, render: Said -> seq<Line>)
    returns (m: Said, at: seq<nat>)
    requires RendersClaims(render) && Move(doc, render).claim
    ensures var groups, moved := Groups(doc.lines), Move(doc, render);
            && SaysLast(groups, |groups|, m) && NamesTold(groups, |groups|, moved.claimed, at)
            && doc.Framed? && moved.doc == doc.(lines := Appended(Strip(doc.lines, ServerOwned), render(m)))
  {
    var groups := Groups(doc.lines);
    m := SaidBy(groups, |groups|);
    GroupsAreValid(doc.lines);
    SaidSaysLast(groups, |groups|);
    at := ClaimedAreTold(groups, |groups|);
    if !Claimable(doc) {
      MoveClaimsNothing(doc, render);
    } else {
      ClaimGoesIn(doc, render);
    }
  }

  lemma {:induction false} MoveClaimsNothing(doc: Document, render: Said -> seq<Line>)
    requires !Claimable(doc)
    ensures !Move(doc, render).claim
  {
    hide Groups, Preamble, Strip;
    if doc.Addressable() && !doc.HasKey(IsClaimKey) {
      NothingSaid(Groups(doc.lines), |Groups(doc.lines)|);
    }
  }

  // ------------------------------------------------------------------
  // Nothing else moves

  /** The lines that say something: not blank, not a column-0 comment. */
  function Content(lines: seq<Line>): seq<Line> {
    if lines == [] then []
    else (if IsBlank(lines[0]) || IsComment(lines[0]) then [] else [lines[0]]) + Content(lines[1..])
  }

  /** Everything said under these keys, in document order. */
  function ContentOf(groups: seq<Group>, which: string -> bool): seq<Line> {
    if groups == [] then []
    else SaidBlock(groups[0], which) + ContentOf(groups[1..], which)
  }

  function SaidBlock(g: Group, which: string -> bool): seq<Line> {
    if which(g.Name()) then Content([g.head] + g.tail) else []
  }

  lemma {:induction false} ContentStep(first: Line, rest: seq<Line>)
    ensures Content([first] + rest) == (if IsBlank(first) || IsComment(first) then [] else [first]) + Content(rest)
  {
    hide IsBlank, IsComment;
    assert ([first] + rest)[1..] == rest;
  }

  lemma {:induction false} ContentOfConcat(a: seq<Line>, b: seq<Line>)
    ensures Content(a + b) == Content(a) + Content(b)
  {
    if a == [] {
      assert a + b == b;
      assert Content(a) == [] && [] + Content(b) == Content(b);
    } else {
      hide *;
      var first, rest := a[0], a[1..];
      ContentOfConcat(rest, b);
      ContentStep(first, rest);
      ContentStep(first, rest + b);
      Cons(a, b);
    }
  }

  lemma {:induction false} NothingSaidBy(l: Line)
    requires IsComment(l) || IsBlank(l)
    ensures Content([l]) == []
  {
    assert [l][1..] == [];
  }

  lemma {:induction false} TrailingSaysNothing(tail: seq<Line>, last: bool)
    ensures Content(tail[|tail| - Trailing(tail, last)..]) == []
  {
    hide IsComment, IsBlank, Content;
    var n := Trailing(tail, last);
    if n > 0 {
      var front, l := tail[..|tail| - 1], tail[|tail| - 1];
      TrailingSaysNothing(front, last);
      assert tail[|tail| - n..] == front[|front| - (n - 1)..] + [l];
      ContentOfConcat(front[|front| - (n - 1)..], [l]);
      NothingSaidBy(l);
    } else {
      assert tail[|tail|..] == [];
      NothingSaidByNothing();
    }
  }

  lemma {:induction false} NothingSaidByNothing()
    ensures Content([]) == []
  {
  }

  /** A block and keyless lines after it that say nothing. */
  lemma {:induction false} ContentOfBlock(g: Group, after: seq<Line>, which: string -> bool)
    requires g.Valid() && Content(Preamble(after)) == []
    ensures ContentOf(Groups([g.head] + g.tail + after), which)
            == (if which(g.Name()) then Content([g.head] + g.tail) else []) + ContentOf(Groups(after), which)
    ensures Preamble([g.head] + g.tail + after) == []
  {
    hide Groups, Preamble, Content;
    var all, grown := [g.head] + g.tail + after, Group(g.head, g.tail + Preamble(after));
    BlockThen(g, after);
    assert Groups(all)[0] == grown && Groups(all)[1..] == Groups(after);
    assert [grown.head] + grown.tail == [g.head] + g.tail + Preamble(after);
    ContentOfConcat([g.head] + g.tail, Preamble(after));
  }

  lemma {:induction false} BlockThen(g: Group, after: seq<Line>)
    requires g.Valid()
    ensures var all := [g.head] + g.tail + after;
            Preamble(all) == [] && Groups(all) == [Group(g.head, g.tail + Preamble(after))] + Groups(after)
  {
    var all := [g.head] + g.tail + after;
    assert all[0] == g.head && all[1..] == g.tail + after;
    GroupsAfterKeyless(g.tail, after);
  }

  lemma {:induction false} StripGroupsKeepsContent(groups: seq<Group>, owned: string -> bool, which: string -> bool)
    requires ValidGroups(groups)
    ensures var left := StripGroups(groups, owned);
            && Content(Preamble(left)) == []
            && ContentOf(Groups(left), which) == ContentOf(groups, k => which(k) && !owned(k))
  {
    hide Groups, Preamble, Leftover;
    if groups == [] {
      GroupsAfterKeyless([], []);
      assert Preamble([]) == [] by { GroupsAreTheLines([]); }
      assert Groups([]) == [] by { GroupsAreTheLines([]); }
    } else {
      var g, rest := groups[0], groups[1..];
      var after := StripGroups(rest, owned);
      StripGroupsKeepsContent(rest, owned, which);
      if owned(g.Name()) {
        var kept := Leftover(g, rest, owned);
        assert forall i | 0 <= i < |kept| :: kept[i] == g.tail[|g.tail| - |kept| + i];
        GroupsAfterKeyless(kept, after);
        LeftoverSaysNothing(g, rest, owned);
        ContentOfConcat(kept, Preamble(after));
      } else {
        ContentOfBlock(g, after, which);
        assert Content([]) == [];
      }
    }
  }

  lemma {:induction false} LeftoverSaysNothing(g: Group, rest: seq<Group>, owned: string -> bool)
    ensures Content(Leftover(g, rest, owned)) == []
  {
    TrailingSaysNothing(g.tail, rest == []);
  }

  /** Read back key by key, a stripped document says what it said before under
      every key that was not taken out, and nothing under those that were. */
  lemma {:induction false} StripKeepsEverythingElse(lines: seq<Line>, owned: string -> bool, which: string -> bool)
    ensures ContentOf(Groups(Strip(lines, owned)), which)
            == ContentOf(Groups(lines), k => which(k) && !owned(k))
  {
    hide Groups, Preamble, StripGroups;
    GroupsAreValid(lines);
    StripGroupsKeepsContent(Groups(lines), owned, which);
    GroupsAfterKeyless(Preamble(lines), StripGroups(Groups(lines), owned));
  }
}
