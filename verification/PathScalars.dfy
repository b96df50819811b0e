/** What the swapped tokens of internal/okf/pathfields.go read as in every style, a plain
    scalar on one line as section 7.3.3 of YAML 1.2.2 has it; and that the order the edits
    come in is nothing. */
module PathScalars {
  import opened Text
  import opened Order
  import Edits
  import opened PathTokens

  // ------------------------------------------------------------------
  // Plain scalars

  /** nb-char of section 5.1: a printable character, no line break, no byte-order mark. */
  predicate PlainChar(c: char) {
    || c == '\t' || ' ' <= c <= '~' || c == '\U{0085}' || '\U{00A0}' <= c <= '\U{D7FF}'
    || ('\U{E000}' <= c <= '\U{FFFD}' && c != '\U{FEFF}') || '\U{10000}' <= c
  }

  predicate White(c: char) {
    c == ' ' || c == '\t'
  }

  predicate InFlow(c: char) {
    c in [',', '[', ']', '{', '}']
  }

  /** c-indicator of section 5.3. */
  predicate Indicator(c: char) {
    InFlow(c) || c in ['-', '?', ':', '#', '&', '*', '!', '|', '>', '\'', '"', '%', '@', '`']
  }

  /** ns-plain-safe where collections may be in flow style. */
  predicate Safe(c: char) {
    !White(c) && !InFlow(c)
  }

  predicate StartsPlain(v: string)
    requires v != ""
  {
    !White(v[0]) && (Indicator(v[0]) ==> v[0] in ['-', '?', ':'] && |v| > 1 && Safe(v[1]))
  }

  /** What may stand at i: no bracket, no colon before white space, no `#` after it. */
  predicate GoesOn(v: string, i: nat)
    requires i < |v|
  {
    && PlainChar(v[i]) && !InFlow(v[i])
    && (v[i] == ':' ==> i + 1 < |v| && Safe(v[i + 1]))
    && (v[i] == '#' ==> i > 0 && !White(v[i - 1]))
  }

  /** ns-plain of one line, which reads as itself. */
  predicate IsPlain(v: string) {
    v != "" && StartsPlain(v) && !White(v[|v| - 1]) && forall i | 0 <= i < |v| :: GoesOn(v, i)
  }

  /** What a parser makes of a token in any style of one line. */
  function ReadScalar(token: string): Option<string> {
    if token != "" && (token[0] == '"' || token[0] == '\'') then ReadToken(token)
    else if IsPlain(token) then Some(token)
    else None
  }

  // ------------------------------------------------------------------
  // What a printed value reads as

  /** Empty, with a character that plain YAML may read differently, or with white space at
      an end: printed in quotes where the old token had none. */
  predicate Guarded(v: string) {
    || v == "" || IsSpace(v[0]) || IsSpace(v[|v| - 1])
    || exists c | c in v ::
        c in ['#', ':', '\'', '"', '{', '}', '[', ']', ',', '&', '*', '!', '|', '>', '%', '@', '`', '\\']
  }

  /** A dash or a question mark by itself, which starts an entry or a key. */
  predicate StartsEntry(v: string) {
    v != "" && (v[0] == '-' || v[0] == '?') && (|v| > 1 ==> White(v[1]))
  }

  predicate Bare(style: Style, v: string) {
    !Quoted(style) && !Guarded(v)
  }

  lemma {:induction false} GuardedIs(v: string)
    ensures Guarded(v) <==> NeedsQuotes(v)
  {
    MarkedIs(v);
    if v != "" {
      hide IsSpace;
      if !IsSpace(v[0]) && !IsSpace(v[|v| - 1]) {
        SolidEnds(v);
      }
      assert TrimSpace(v) == v ==> !IsSpace(v[0]) && !IsSpace(v[|v| - 1]);
    }
  }

  predicate MarkIn(v: string) {
    exists c | c in v ::
        c in ['#', ':', '\'', '"', '{', '}', '[', ']', ',', '&', '*', '!', '|', '>', '%', '@', '`', '\\']
  }

  lemma {:induction false} MarkedIs(v: string)
    ensures MarkIn(v) <==> exists i | 0 <= i < |v| :: v[i] in "#:'\"{}[],&*!|>%@`\\"
  {
    if i :| 0 <= i < |v| && v[i] in "#:'\"{}[],&*!|>%@`\\" {
      assert v[i] in v;
    }
  }

  lemma {:induction false} BareIsPlain(v: string)
    requires !Guarded(v)
    ensures IsPlain(v) <==> (forall i | 0 <= i < |v| :: PlainChar(v[i])) && !StartsEntry(v)
  {
    hide IsSpace, PlainChar;
    forall i | 0 <= i < |v|
      ensures GoesOn(v, i) <==> PlainChar(v[i])
      ensures Indicator(v[i]) ==> v[i] == '-' || v[i] == '?'
      ensures !InFlow(v[i])
    {
      assert v[i] in v;
    }
    SpacesAreWhite();
  }

  lemma {:induction false} SpacesAreWhite()
    ensures forall c :: White(c) ==> IsSpace(c)
  {
  }

  /** A value printed in any style reads back as itself exactly when, in quotes, it has no
      control character but tabs, and, without, its characters are printable and it does
      not start an entry. */
  lemma {:induction false} PrintedReads(style: Style, v: string)
    ensures ReadScalar(SpellLike(style, v)) == Some(v)
            <==> if Bare(style, v) then (forall i | 0 <= i < |v| :: PlainChar(v[i])) && !StartsEntry(v) else Quotable(v)
  {
    hide Guarded, NeedsQuotes, Quotable, ReadToken, IsPlain, StartsEntry, PlainChar;
    GuardedIs(v);
    if Bare(style, v) {
      BareIsPlain(v);
      BareHasNoQuote(v);
    } else {
      var quoted := if Quoted(style) then style else Plain;
      SpellReads(quoted, v);
      PrintedInQuotes(style, v);
    }
  }

  lemma {:induction false} BareHasNoQuote(v: string)
    requires !Guarded(v)
    ensures v != "" && v[0] != '"' && v[0] != '\''
  {
    hide IsSpace;
    assert v[0] in v;
  }

  lemma {:induction false} PrintedInQuotes(style: Style, v: string)
    requires Quoted(style) || NeedsQuotes(v)
    ensures SpellLike(style, v) == SpellLike(if Quoted(style) then style else Plain, v)
    ensures SpellLike(style, v) != "" && (SpellLike(style, v)[0] == '"' || SpellLike(style, v)[0] == '\'')
  {
    hide NeedsQuotes;
  }

  /** A dash before a blank is printed as it is, and reads as no scalar. */
  lemma {:induction false} EntryIsLost(v: string)
    requires |v| == 3 && v[0] == '-' && v[1] == ' ' && v[2] == 'x'
    ensures SpellLike(Plain, v) == v && ReadScalar(v) == None
  {
    DashIsBare(v);
    hide *;
    GuardedIs(v);
    BareIsPlain(v);
    EntryIsPrinted(v);
  }

  lemma {:induction false} EntryIsPrinted(v: string)
    requires !NeedsQuotes(v) && !IsPlain(v) && v != "" && v[0] == '-'
    ensures SpellLike(Plain, v) == v && ReadScalar(v) == None
  {
    hide NeedsQuotes, IsPlain;
  }

  lemma {:induction false} DashIsBare(v: string)
    requires |v| == 3 && v[0] == '-' && v[1] == ' ' && v[2] == 'x'
    ensures !Guarded(v) && StartsEntry(v)
  {
    LettersAreSolid();
    hide IsSpace;
    forall c | c in v
      ensures c == '-' || c == ' ' || c == 'x'
    {
    }
  }

  lemma {:induction false} LettersAreSolid()
    ensures !IsSpace('-') && !IsSpace('x')
  {
  }

  // ------------------------------------------------------------------
  // The order of the edits

  /** Every token is where the parser says, and of two on one line the left one ends before
      the right one starts: whatever order the edits come in. */
  predicate Parsed(lines: seq<string>, edits: seq<PathEdit>) {
    && (forall e | e in edits :: Found(lines, e.node).Some?)
    && forall a, b | a in edits && b in edits && a.node.line == b.node.line && a.node.column < b.node.column ::
         Found(lines, a.node).value.hi < Found(lines, b.node).value.lo
  }

  lemma {:induction false} ParsedIsPlaced(lines: seq<string>, edits: seq<PathEdit>)
    requires Apart(edits) && Parsed(lines, edits)
    ensures Placed(lines, Sorted(edits))
  {
    hide Found, Sorted, Apart;
    SortedInOrder(edits);
    var sorted := Sorted(edits);
    forall k | 0 <= k < |sorted|
      ensures Found(lines, sorted[k].node).Some?
    {
      assert sorted[k] in sorted;
    }
    forall j, k | 0 <= j < k < |sorted| && sorted[j].node.line == sorted[k].node.line
      ensures Found(lines, sorted[k].node).value.hi < Found(lines, sorted[j].node).value.lo
    {
      assert sorted[j] in sorted && sorted[k] in sorted;
      assert Before(sorted[j], sorted[k]);
    }
  }

  lemma {:induction false} BeforeIsOrder()
    ensures Orders(Before)
  {
  }

  lemma {:induction false} InOrderIs(edits: seq<PathEdit>)
    requires InOrder(edits)
    ensures Increasing(Before, edits)
  {
    hide Before;
  }

  /** What SwapTokens makes of edits does not depend on the order they come in. */
  lemma {:induction false} AnyOrderSwapsAlike(lines: seq<string>, a: seq<PathEdit>, b: seq<PathEdit>)
    requires Apart(a) && Apart(b) && forall x :: x in a <==> x in b
    ensures Sorted(a) == Sorted(b)
  {
    hide *;
    SortedInOrder(a);
    SortedInOrder(b);
    InOrderIs(Sorted(a));
    InOrderIs(Sorted(b));
    BeforeIsOrder();
    IncreasingIsOne(Before, Sorted(a), Sorted(b));
  }

  // ------------------------------------------------------------------
  // What the swapped frontmatter says

  /** The scalar as it stands after the edit. */
  function Now(e: PathEdit): Node {
    e.node.(value := e.value, style := if Quoted(e.node.style) then e.node.style
                                       else if Guarded(e.value) then Double
                                       else Plain)
  }

  /** A line made of head, a value and tail. */
  ghost predicate HoldsAt(line: string, column: int, v: string) {
    exists head: string, tail: string :: line == head + v + tail && |head| == column - 1
  }

  /** A plain scalar is found exactly where its line holds its value at its column. */
  lemma {:induction false} PlainIsFound(lines: seq<string>, node: Node)
    requires node.style.Plain? && node.column >= 1
    ensures Found(lines, node).Some?
            <==> 1 <= node.line <= |lines| && HoldsAt(lines[node.line - 1], node.column, node.value)
    ensures Found(lines, node).Some? ==>
              Found(lines, node).value == Edits.Edit(node.column - 1, node.column - 1 + |node.value|, "")
  {
    hide HoldsAt;
    if 1 <= node.line <= |lines| {
      HoldsIs(lines[node.line - 1], node.column, node.value);
    }
  }

  lemma {:induction false} HoldsIs(line: string, column: int, v: string)
    requires column >= 1
    ensures HoldsAt(line, column, v) <==> column - 1 <= |line| && v <= line[column - 1..]
  {
    if column - 1 <= |line| && v <= line[column - 1..] {
      var head, rest := line[..column - 1], line[column - 1..];
      assert rest == v + rest[|v|..];
      assert line == head + (v + rest[|v|..]) == head + v + rest[|v|..];
      assert |head| == column - 1;
    }
    if HoldsAt(line, column, v) {
      var head: string, tail: string :| line == head + v + tail && |head| == column - 1;
      assert line[|head|..] == v + tail;
    }
  }

  lemma {:induction false} NoBlockIsFound(lines: seq<string>, node: Node)
    ensures Found(lines, node).Some? ==> !node.style.Block?
  {
  }

  lemma {:induction false} PlainEnds(head: string, v: string, tail: string, node: Node)
    requires node.style.Plain? && node.value == v
    ensures TokenEnd(head + v + tail, |head|, node) == Some(|head| + |v|)
  {
    assert (head + v + tail)[|head|..] == v + tail;
  }

  lemma {:induction false} PrintedEnds(e: PathEdit, head: string, tail: string)
    requires !e.node.style.Block? && Clear(e.node.style, tail)
    ensures var token := SpellLike(e.node.style, e.value);
            TokenEnd(head + token + tail, |head|, Now(e)) == Some(|head| + |token|)
  {
    hide Guarded, NeedsQuotes, TokenEnd, DoubleQuotes;
    GuardedIs(e.value);
    match e.node.style
    case Double => DoubleTokenEnds(head, e.value, tail, Now(e));
    case Single => SingleTokenEnds(head, e.value, tail, Now(e));
    case Plain =>
      if Guarded(e.value) {
        DoubleTokenEnds(head, e.value, tail, Now(e));
      } else {
        PlainEnds(head, e.value, tail, Now(e));
      }
  }

  /** After the swap, in whatever order the edits came, every new token stands on its line,
      ends where it was printed to, and reads as the value the edit gave it exactly when
      that value can be printed so. */
  lemma {:induction false} EverySwappedReads(lines: seq<string>, edits: seq<PathEdit>, e: PathEdit)
      returns (head: string, tail: string)
    requires Apart(edits) && Parsed(lines, edits) && e in edits
    ensures 1 <= e.node.line <= |lines|
    ensures var token := SpellLike(e.node.style, e.value);
            && NewLines(lines, Sorted(edits))[e.node.line - 1] == head + token + tail
            && TokenEnd(head + token + tail, |head|, Now(e)) == Some(|head| + |token|)
            && (ReadScalar(token) == Some(e.value)
                <==> if Bare(e.node.style, e.value)
                     then (forall i | 0 <= i < |e.value| :: PlainChar(e.value[i])) && !StartsEntry(e.value)
                     else Quotable(e.value))
  {
    hide *;
    var sorted := Sorted(edits);
    ParsedIsPlaced(lines, edits);
    var k := SomePlace(edits, e);
    head, tail := TokenStays(lines, sorted, k, |sorted|);
    StandsSays(lines, sorted, k, head, tail);
    PrintedEnds(e, head, tail);
    PrintedReads(e.node.style, e.value);
  }

  lemma {:induction false} SomePlace(edits: seq<PathEdit>, e: PathEdit) returns (k: nat)
    requires Apart(edits) && e in edits
    ensures k < |Sorted(edits)| && Sorted(edits)[k] == e
  {
    hide Sorted;
    SortedInOrder(edits);
    k :| 0 <= k < |Sorted(edits)| && Sorted(edits)[k] == e;
  }

  lemma {:induction false} StandsSays(lines: seq<string>, edits: seq<PathEdit>, k: nat, head: string, tail: string)
    requires k < |edits| && Placed(lines, edits) && Stands(lines, edits, k, |edits|, head, tail)
    ensures var e := edits[k];
            && 1 <= e.node.line <= |lines| && !e.node.style.Block? && Clear(e.node.style, tail)
            && NewLines(lines, edits)[e.node.line - 1] == head + SpellLike(e.node.style, e.value) + tail
  {
    hide Found, SpellLike, Clear, NewLine, OnLine;
    NoBlockIsFound(lines, edits[k].node);
  }
}
