/** Swapping path scalars in a frontmatter, token by token: swapTokens, tokenEnd,
    spellLike and doubleQuoted of internal/okf/pathfields.go. The quoted styles
    are read as sections 7.3.1 and 7.3.2 of YAML 1.2.2 have them. */
module PathTokens {
  import opened Text
  import Edits

  /** How a scalar is written: plain, in one of the two quotings, or in a style
      that is not a token on one line. */
  datatype Style = Plain | Double | Single | Block

  /** A scalar as the parser places it: its line from 1, its column from 1. */
  datatype Node = Node(line: int, column: int, value: string, style: Style)

  datatype PathEdit = PathEdit(node: Node, value: string)

  // ------------------------------------------------------------------
  // Printing

  function Escaped(c: char): string {
    if c == '\\' then "\\\\" else if c == '"' then "\\\"" else [c]
  }

  function EscapeAll(v: string): string {
    if v == "" then "" else Escaped(v[0]) + EscapeAll(v[1..])
  }

  function DoubleQuoted(v: string): string {
    "\"" + EscapeAll(v) + "\""
  }

  function DoubleQuotes(v: string): string {
    if v == "" then "" else (if v[0] == '\'' then "''" else [v[0]]) + DoubleQuotes(v[1..])
  }

  predicate NeedsQuotes(v: string) {
    v == "" || (exists i | 0 <= i < |v| :: v[i] in "#:'\"{}[],&*!|>%@`\\") || TrimSpace(v) != v
  }

  function SpellLike(style: Style, v: string): string {
    match style
    case Single => "'" + DoubleQuotes(v) + "'"
    case Double => DoubleQuoted(v)
    case _ => if NeedsQuotes(v) then DoubleQuoted(v) else v
  }

  // ------------------------------------------------------------------
  // Finding the end of a token

  function DoubleEnd(line: string, i: nat): Option<nat>
    decreases |line| - i
  {
    if i >= |line| then None
    else if line[i] == '\\' then DoubleEnd(line, i + 2)
    else if line[i] == '"' then Some(i + 1)
    else DoubleEnd(line, i + 1)
  }

  function SingleEnd(line: string, i: nat): Option<nat>
    decreases |line| - i
  {
    if i >= |line| then None
    else if line[i] != '\'' then SingleEnd(line, i + 1)
    else if i + 1 < |line| && line[i + 1] == '\'' then SingleEnd(line, i + 2)
    else Some(i + 1)
  }

  function TokenEnd(line: string, start: nat, node: Node): Option<nat>
    requires start <= |line|
  {
    match node.style
    case Plain => if node.value <= line[start..] then Some(start + |node.value|) else None
    case Double => if start < |line| && line[start] == '"' then DoubleEnd(line, start + 1) else None
    case Single => if start < |line| && line[start] == '\'' then SingleEnd(line, start + 1) else None
    case Block => None
  }

  /** The scan as the program runs it: an index that moves over escapes. */
  method FindTokenEnd(line: string, start: nat, node: Node) returns (end: Option<nat>)
    requires start <= |line|
    ensures end == TokenEnd(line, start, node)
  {
    match node.style {
      case Plain =>
        if !(node.value <= line[start..]) {
          return None;
        }
        return Some(start + |node.value|);
      case Double =>
        if start == |line| || line[start] != '"' {
          return None;
        }
        var i := start + 1;
        while i < |line|
          invariant start + 1 <= i
          invariant DoubleEnd(line, i) == DoubleEnd(line, start + 1)
        {
          if line[i] == '\\' {
            i := i + 1;
          } else if line[i] == '"' {
            return Some(i + 1);
          }
          i := i + 1;
        }
        return None;
      case Single =>
        if start == |line| || line[start] != '\'' {
          return None;
        }
        var i := start + 1;
        while i < |line|
          invariant start + 1 <= i
          invariant SingleEnd(line, i) == SingleEnd(line, start + 1)
        {
          if line[i] == '\'' {
            if i + 1 < |line| && line[i + 1] == '\'' {
              i := i + 1;
            } else {
              return Some(i + 1);
            }
          }
          i := i + 1;
        }
        return None;
      case Block =>
        return None;
    }
  }

  // ------------------------------------------------------------------
  // Reading a token back

  /** The single-letter escapes of section 5.7. */
  function Unescape(c: char): Option<char> {
    if c == '\\' || c == '"' || c == '/' || c == ' ' then Some(c)
    else if c == 't' || c == '\t' then Some('\t')
    else if c == 'n' then Some('\n')
    else if c == 'r' then Some('\r')
    else if c == '0' then Some('\0')
    else if c == 'a' then Some('\U{0007}')
    else if c == 'b' then Some('\U{0008}')
    else if c == 'v' then Some('\U{000B}')
    else if c == 'f' then Some('\U{000C}')
    else if c == 'e' then Some('\U{001B}')
    else if c == 'N' then Some('\U{0085}')
    else if c == '_' then Some('\U{00A0}')
    else if c == 'L' then Some('\U{2028}')
    else if c == 'P' then Some('\U{2029}')
    else None
  }

  /** The inside of a double-quoted token, up to its closing quote. */
  function ReadDouble(text: string): Option<string> {
    if text == "" then Some("")
    else if text[0] == '"' then None
    else if text[0] == '\\' then
      if |text| == 1 then None
      else
        match Unescape(text[1])
        case None => None
        case Some(c) =>
          match ReadDouble(text[2..])
          case None => None
          case Some(rest) => Some([c] + rest)
    else
      match ReadDouble(text[1..])
      case None => None
      case Some(rest) => Some([text[0]] + rest)
  }

  /** The inside of a single-quoted token: two quotes stand for one. */
  function ReadSingle(text: string): Option<string> {
    if text == "" then Some("")
    else if text[0] != '\'' then
      match ReadSingle(text[1..])
      case None => None
      case Some(rest) => Some([text[0]] + rest)
    else if |text| > 1 && text[1] == '\'' then
      match ReadSingle(text[2..])
      case None => None
      case Some(rest) => Some("'" + rest)
    else None
  }

  /** What may stand in a quoted token on one line: nb-json of section 5.1, a tab and
      everything from the space on. */
  predicate Quotable(v: string) {
    forall i | 0 <= i < |v| :: v[i] == '\t' || v[i] >= ' '
  }

  /** What a parser makes of a quoted token; one that spans lines is folded, which
      is not part of this model, and other control characters are no token's. */
  function ReadToken(token: string): Option<string> {
    if |token| < 2 || token[0] != token[|token| - 1] || !Quotable(token) then None
    else if token[0] == '"' then ReadDouble(token[1..|token| - 1])
    else if token[0] == '\'' then ReadSingle(token[1..|token| - 1])
    else None
  }

  // ------------------------------------------------------------------
  // What is printed is read back

  lemma {:induction false} EscapedReads(v: string)
    ensures ReadDouble(EscapeAll(v)) == Some(v)
  {
    if v != "" {
      EscapedReads(v[1..]);
      var text, rest := EscapeAll(v), EscapeAll(v[1..]);
      assert v == [v[0]] + v[1..];
      if v[0] == '\\' || v[0] == '"' {
        assert text[2..] == rest;
      } else {
        assert text[1..] == rest;
      }
    }
  }

  lemma {:induction false} ReadSingleStep(c: char, text: string)
    requires ReadSingle(text).Some?
    ensures ReadSingle((if c == '\'' then "''" else [c]) + text) == Some([c] + ReadSingle(text).value)
  {
    var whole := (if c == '\'' then "''" else [c]) + text;
    if c == '\'' {
      assert whole[2..] == text;
    } else {
      assert whole[1..] == text;
    }
  }

  lemma {:induction false} QuotesRead(v: string)
    ensures ReadSingle(DoubleQuotes(v)) == Some(v)
  {
    hide ReadSingle;
    if v == "" {
      ReadSingleNothing();
    } else {
      QuotesRead(v[1..]);
      ReadSingleStep(v[0], DoubleQuotes(v[1..]));
      assert v == [v[0]] + v[1..];
    }
  }

  lemma {:induction false} ReadSingleNothing()
    ensures ReadSingle("") == Some("")
  {
  }

  /** Only a value with its quotes doubled reads as that value. */
  lemma {:induction false} ReadSingleExactly(text: string, v: string)
    ensures ReadSingle(text) == Some(v) <==> text == DoubleQuotes(v)
  {
    QuotesRead(v);
    if text != "" && ReadSingle(text).Some? {
      var n := if text[0] == '\'' then 2 else 1;
      ReadSingleExactly(text[n..], ReadSingle(text[n..]).value);
      ReadSingleStep(text[0], text[n..]);
      assert text == text[..n] + text[n..];
      var rest := ReadSingle(text[n..]).value;
      assert ([text[0]] + rest)[1..] == rest;
    }
  }

  predicate Quoted(style: Style) {
    style.Double? || style.Single?
  }

  lemma {:induction false} EscapesKeepQuotable(v: string)
    ensures Quotable(EscapeAll(v)) <==> Quotable(v)
    ensures Quotable(DoubleQuotes(v)) <==> Quotable(v)
  {
    if v != "" {
      EscapesKeepQuotable(v[1..]);
      assert v == [v[0]] + v[1..];
      QuotableConcat(Escaped(v[0]), EscapeAll(v[1..]));
      QuotableConcat(if v[0] == '\'' then "''" else [v[0]], DoubleQuotes(v[1..]));
      QuotableConcat([v[0]], v[1..]);
    }
  }

  lemma {:induction false} QuotableConcat(a: string, b: string)
    ensures Quotable(a + b) <==> Quotable(a) && Quotable(b)
  {
    assert forall i | 0 <= i < |a| :: (a + b)[i] == a[i];
    assert forall i | 0 <= i < |b| :: (a + b)[|a| + i] == b[i];
  }

  /** A value printed in either quoting reads back as itself exactly when it has no
      control character but tabs; so does a plain one that has to be quoted. */
  lemma {:induction false} SpellReads(style: Style, v: string)
    requires Quoted(style) || (style.Plain? && NeedsQuotes(v))
    ensures ReadToken(SpellLike(style, v)) == Some(v) <==> Quotable(v)
  {
    hide NeedsQuotes, Quotable;
    EscapedReads(v);
    QuotesRead(v);
    EscapesKeepQuotable(v);
    var body := if style.Single? then DoubleQuotes(v) else EscapeAll(v);
    var quote := if style.Single? then "'" else "\"";
    var token := quote + body + quote;
    assert token[1..|token| - 1] == body;
    QuotableConcat(quote + body, quote);
    QuotableConcat(quote, body);
    QuoteIsQuotable(quote);
  }

  /** A single-quoted token reads as a value exactly when it is that value printed, with no
      control character but tabs. */
  lemma {:induction false} SingleReadsExactly(token: string, v: string)
    requires token != "" && token[0] == '\''
    ensures ReadToken(token) == Some(v) <==> Quotable(v) && token == SpellLike(Single, v)
  {
    hide Quotable, ReadSingle;
    EscapesKeepQuotable(v);
    var body, printed := DoubleQuotes(v), "'" + DoubleQuotes(v) + "'";
    QuotableConcat("'" + body, "'");
    QuotableConcat("'", body);
    QuoteIsQuotable("'");
    assert printed[1..|printed| - 1] == body;
    if |token| >= 2 {
      var inside := token[1..|token| - 1];
      ReadSingleExactly(inside, v);
      assert token == [token[0]] + inside + [token[|token| - 1]];
      assert ['\''] == "'";
    }
  }

  lemma {:induction false} QuoteIsQuotable(quote: string)
    requires quote == "'" || quote == "\""
    ensures Quotable(quote)
  {
  }

  /** A value that a double-quoted token can say and that is printed as no token: the
      escape is written out. */
  lemma {:induction false} ControlIsLost(style: Style)
    requires Quoted(style)
    ensures ReadToken("\"x.md#\\a\"") == Some("x.md#\U{0007}")
    ensures ReadToken(SpellLike(style, "x.md#\U{0007}")) == None
  {
    var v := "x.md#\U{0007}";
    assert v[5] == '\U{0007}' && !Quotable(v);
    SpelledNotQuotable(style, v);
    BellRead();
  }

  lemma {:induction false} BellRead()
    ensures ReadToken("\"x.md#\\a\"") == Some("x.md#\U{0007}")
  {
    var token, bell := "\"x.md#\\a\"", "\\a";
    EscapeRead(bell);
    ReadDoublePlain("x.md#", bell);
    hide ReadDouble;
    assert token[1..|token| - 1] == "x.md#" + bell;
    assert "x.md#" + ['\U{0007}'] == "x.md#\U{0007}";
  }

  lemma {:induction false} EscapeRead(text: string)
    requires |text| == 2 && text[0] == '\\' && Unescape(text[1]).Some?
    ensures ReadDouble(text) == Some([Unescape(text[1]).value])
  {
    hide Unescape;
    assert text[2..] == "";
    assert ReadDouble("") == Some("");
    var c := Unescape(text[1]).value;
    assert [c] + "" == [c];
  }

  lemma {:induction false} SpelledNotQuotable(style: Style, v: string)
    requires Quoted(style) && !Quotable(v)
    ensures ReadToken(SpellLike(style, v)) == None
  {
    hide Quotable;
    EscapesKeepQuotable(v);
    var body := if style.Single? then DoubleQuotes(v) else EscapeAll(v);
    var quote := if style.Single? then "'" else "\"";
    QuotableConcat(quote + body, quote);
    QuotableConcat(quote, body);
  }

  lemma {:induction false} ReadDoubleFirst(c: char, text: string)
    requires c != '"' && c != '\\' && ReadDouble(text).Some?
    ensures ReadDouble([c] + text) == Some([c] + ReadDouble(text).value)
  {
    hide Unescape;
    assert ([c] + text)[1..] == text;
  }

  lemma {:induction false} ReadDoublePlain(a: string, b: string)
    requires ReadDouble(b).Some? && forall i | 0 <= i < |a| :: a[i] != '"' && a[i] != '\\'
    ensures ReadDouble(a + b) == Some(a + ReadDouble(b).value)
  {
    hide ReadDouble;
    if a == "" {
      assert a + b == b && a + ReadDouble(b).value == ReadDouble(b).value;
    } else {
      ReadDoublePlain(a[1..], b);
      ReadDoubleFirst(a[0], a[1..] + b);
      var rest := ReadDouble(b).value;
      assert a == [a[0]] + a[1..];
      assert [a[0]] + (a[1..] + b) == a + b;
      assert [a[0]] + (a[1..] + rest) == a + rest;
    }
  }

  lemma {:induction false} DoubleEndOf(line: string, i: nat, v: string)
    requires i + |EscapeAll(v)| < |line| && line[i..i + |EscapeAll(v)|] == EscapeAll(v)
            && line[i + |EscapeAll(v)|] == '"'
    ensures DoubleEnd(line, i) == Some(i + |EscapeAll(v)| + 1)
    decreases |v|
  {
    if v != "" {
      var n, k := |EscapeAll(v)|, |Escaped(v[0])|;
      assert line[i..i + n][..k] == Escaped(v[0]) && line[i..i + n][k..] == EscapeAll(v[1..]);
      assert line[i + k..i + k + |EscapeAll(v[1..])|] == EscapeAll(v[1..]);
      assert line[i] == line[i..i + n][0] && (k == 2 ==> line[i + 1] == line[i..i + n][1]);
      DoubleEndOf(line, i + k, v[1..]);
    }
  }

  lemma {:induction false} SingleEndOf(line: string, i: nat, v: string)
    requires i + |DoubleQuotes(v)| < |line| && line[i..i + |DoubleQuotes(v)|] == DoubleQuotes(v)
    requires line[i + |DoubleQuotes(v)|] == '\''
    ensures var end := i + |DoubleQuotes(v)| + 1;
            end == |line| || line[end] != '\'' ==> SingleEnd(line, i) == Some(end)
    ensures var end := i + |DoubleQuotes(v)| + 1;
            end < |line| && line[end] == '\'' ==> SingleEnd(line, i) == SingleEnd(line, end + 1)
    decreases |v|
  {
    if v != "" {
      var n, k := |DoubleQuotes(v)|, if v[0] == '\'' then 2 else 1;
      assert line[i..i + n][k..] == DoubleQuotes(v[1..]);
      assert line[i + k..i + k + |DoubleQuotes(v[1..])|] == DoubleQuotes(v[1..]);
      assert line[i] == line[i..i + n][0] && (k == 2 ==> line[i + 1] == line[i..i + n][1]);
      SingleEndOf(line, i + k, v[1..]);
    }
  }

  lemma {:induction false} SingleEndPast(line: string, i: nat)
    ensures SingleEnd(line, i).Some? ==> i < SingleEnd(line, i).value <= |line|
    decreases |line| - i
  {
    if i < |line| {
      if line[i] != '\'' {
        SingleEndPast(line, i + 1);
      } else {
        SingleEndPast(line, i + 2);
      }
    }
  }

  /** A double-quoted token ends where it was printed to, whatever follows it. */
  lemma {:induction false} DoubleTokenEnds(head: string, v: string, tail: string, node: Node)
    requires node.style.Double?
    ensures TokenEnd(head + SpellLike(Double, v) + tail, |head|, node) == Some(|head| + |SpellLike(Double, v)|)
  {
    var line := head + SpellLike(Double, v) + tail;
    var i, n := |head| + 1, |EscapeAll(v)|;
    assert line[|head|] == '"';
    assert line[i..i + n] == EscapeAll(v);
    assert line[i + n] == '"';
    DoubleEndOf(line, i, v);
  }

  /** A single-quoted one does exactly when no quote follows. */
  lemma {:induction false} SingleTokenEnds(head: string, v: string, tail: string, node: Node)
    requires node.style.Single?
    ensures TokenEnd(head + SpellLike(Single, v) + tail, |head|, node) == Some(|head| + |SpellLike(Single, v)|)
            <==> (tail == "" || tail[0] != '\'')
  {
    var line := head + SpellLike(Single, v) + tail;
    var i, n := |head| + 1, |DoubleQuotes(v)|;
    assert line[|head|] == '\'';
    assert line[i..i + n] == DoubleQuotes(v);
    assert line[i + n] == '\'';
    assert tail != "" ==> line[i + n + 1] == tail[0];
    SingleEndOf(line, i, v);
    if tail != "" {
      SingleEndPast(line, i + n + 2);
    }
  }

  // ------------------------------------------------------------------
  // Swapping the tokens of a frontmatter

  /** The order of the swaps: down the lines, and on a line from right to left. */
  predicate Before(a: PathEdit, b: PathEdit) {
    a.node.line < b.node.line || (a.node.line == b.node.line && a.node.column > b.node.column)
  }

  /** Edits in that order, no two at one place. */
  predicate InOrder(edits: seq<PathEdit>) {
    forall j, k | 0 <= j < k < |edits| :: Before(edits[j], edits[k])
  }

  function Place(edit: PathEdit): (int, int) {
    (edit.node.line, edit.node.column)
  }

  /** SortFunc on edits at different places. */
  function Inserted(edits: seq<PathEdit>, e: PathEdit): seq<PathEdit> {
    if edits == [] || Before(e, edits[0]) then [e] + edits else [edits[0]] + Inserted(edits[1..], e)
  }

  lemma {:induction false} ConsInOrder(e: PathEdit, edits: seq<PathEdit>)
    requires InOrder(edits) && forall x | x in edits :: Before(e, x)
    ensures InOrder([e] + edits)
  {
    var r := [e] + edits;
    forall j, k | 0 <= j < k < |r|
      ensures Before(r[j], r[k])
    {
      assert r[k] == edits[k - 1];
      if j > 0 {
        assert Before(edits[j - 1], edits[k - 1]);
      }
    }
  }

  lemma {:induction false} TailInOrder(edits: seq<PathEdit>)
    requires InOrder(edits) && edits != []
    ensures InOrder(edits[1..]) && forall x | x in edits[1..] :: Before(edits[0], x)
  {
    var r := edits[1..];
    forall j, k | 0 <= j < k < |r|
      ensures Before(r[j], r[k])
    {
      assert Before(edits[j + 1], edits[k + 1]);
    }
    forall x | x in r
      ensures Before(edits[0], x)
    {
      var k :| 0 <= k < |r| && r[k] == x;
      assert Before(edits[0], edits[k + 1]);
    }
  }

  lemma {:induction false} InsertedInOrder(edits: seq<PathEdit>, e: PathEdit)
    requires InOrder(edits) && forall x | x in edits :: Place(x) != Place(e)
    ensures InOrder(Inserted(edits, e)) && forall x :: x in Inserted(edits, e) <==> x == e || x in edits
  {
    hide InOrder;
    if edits == [] {
      ConsInOrder(e, edits);
    } else {
      TailInOrder(edits);
      assert edits == [edits[0]] + edits[1..];
      assert edits[0] in edits;
      if Before(e, edits[0]) {
        ConsInOrder(e, edits);
      } else {
        InsertedInOrder(edits[1..], e);
        ConsInOrder(edits[0], Inserted(edits[1..], e));
      }
    }
  }

  /** No two edits are of the scalar at one place. */
  predicate Apart(edits: seq<PathEdit>) {
    forall j, k | 0 <= j < k < |edits| :: Place(edits[j]) != Place(edits[k])
  }

  function Sorted(edits: seq<PathEdit>): seq<PathEdit> {
    if edits == [] then [] else Inserted(Sorted(edits[1..]), edits[0])
  }

  lemma {:induction false} SortedInOrder(edits: seq<PathEdit>)
    requires Apart(edits)
    ensures InOrder(Sorted(edits)) && forall x :: x in Sorted(edits) <==> x in edits
  {
    if edits != [] {
      assert edits == [edits[0]] + edits[1..];
      assert Apart(edits[1..]) by {
        forall j, k | 0 <= j < k < |edits[1..]|
          ensures Place(edits[1..][j]) != Place(edits[1..][k])
        {
          assert Place(edits[j + 1]) != Place(edits[k + 1]);
        }
      }
      SortedInOrder(edits[1..]);
      forall x | x in Sorted(edits[1..])
        ensures Place(x) != Place(edits[0])
      {
        var k :| 0 <= k < |edits[1..]| && edits[1..][k] == x;
        assert Place(edits[0]) != Place(edits[k + 1]);
      }
      InsertedInOrder(Sorted(edits[1..]), edits[0]);
    }
  }

  // ------------------------------------------------------------------
  // The swap

  /** byteOffset: the place of a column, or none when the line is shorter. */
  function Offset(line: string, col: int): Option<nat> {
    if col <= 0 then Some(0) else if col <= |line| then Some(col) else None
  }

  /** Where a scalar's token is on the frontmatter as it was; None when the line
      is not there, is too short, or does not hold the token. */
  function Found(lines: seq<string>, node: Node): Option<Edits.Edit> {
    if node.line < 1 || node.line > |lines| then None
    else
      match Offset(lines[node.line - 1], node.column - 1)
      case None => None
      case Some(start) =>
        match TokenEnd(lines[node.line - 1], start, node)
        case None => None
        case Some(end) => Some(Edits.Edit(start, end, ""))
  }

  /** The replacements on the i-th line among the first k edits, left to right. */
  function OnLine(lines: seq<string>, edits: seq<PathEdit>, i: nat, k: nat): seq<Edits.Edit>
    requires k <= |edits|
  {
    if k == 0 then []
    else
      var e, before := edits[k - 1], OnLine(lines, edits, i, k - 1);
      if e.node.line != i + 1 || Found(lines, e.node).None? then before
      else [Found(lines, e.node).value.(text := SpellLike(e.node.style, e.value))] + before
  }

  /** The i-th line with the first k edits made, all at once. */
  function NewLine(lines: seq<string>, edits: seq<PathEdit>, i: nat, k: nat): string
    requires i < |lines| && k <= |edits|
  {
    if Edits.Ordered(OnLine(lines, edits, i, k), 0, |lines[i]|) then
      Edits.Substituted(lines[i], OnLine(lines, edits, i, k), 0)
    else lines[i]
  }

  function NewLines(lines: seq<string>, edits: seq<PathEdit>): seq<string> {
    seq(|lines|, i requires 0 <= i < |lines| => NewLine(lines, edits, i, |edits|))
  }

  /** Every token is where the parser says, and between two on one line there is
      something: what a parser grants of the scalars it found. */
  predicate Placed(lines: seq<string>, edits: seq<PathEdit>) {
    && (forall k | 0 <= k < |edits| :: Found(lines, edits[k].node).Some?)
    && (forall j, k | 0 <= j < k < |edits| && edits[j].node.line == edits[k].node.line ::
          Found(lines, edits[k].node).value.hi < Found(lines, edits[j].node).value.lo)
  }

  lemma {:induction false} DoubleEndSame(s: string, t: string, i: nat, lo: nat)
    requires lo <= |s| && lo <= |t| && s[..lo] == t[..lo] && DoubleEnd(s, i).Some? && DoubleEnd(s, i).value <= lo
    ensures DoubleEnd(t, i) == DoubleEnd(s, i)
    decreases |s| - i
  {
    DoubleEndPast(s, i);
    assert s[i] == s[..lo][i] && t[i] == t[..lo][i];
    if s[i] == '\\' {
      DoubleEndSame(s, t, i + 2, lo);
    } else if s[i] != '"' {
      DoubleEndSame(s, t, i + 1, lo);
    }
  }

  lemma {:induction false} DoubleEndPast(line: string, i: nat)
    ensures DoubleEnd(line, i).Some? ==> i < DoubleEnd(line, i).value <= |line|
    decreases |line| - i
  {
    if i < |line| {
      if line[i] == '\\' {
        DoubleEndPast(line, i + 2);
      } else {
        DoubleEndPast(line, i + 1);
      }
    }
  }

  lemma {:induction false} SingleEndSame(s: string, t: string, i: nat, lo: nat)
    requires lo <= |s| && lo <= |t| && s[..lo] == t[..lo] && SingleEnd(s, i).Some? && SingleEnd(s, i).value < lo
    ensures SingleEnd(t, i) == SingleEnd(s, i)
    decreases |s| - i
  {
    SingleEndPast(s, i);
    assert s[i] == s[..lo][i] && t[i] == t[..lo][i];
    if s[i] != '\'' {
      SingleEndSame(s, t, i + 1, lo);
    } else {
      assert s[i + 1] == s[..lo][i + 1] && t[i + 1] == t[..lo][i + 1]
          by { if i + 1 < |s| && s[i + 1] == '\'' { SingleEndPast(s, i + 2); } }
      if s[i + 1] == '\'' {
        SingleEndSame(s, t, i + 2, lo);
      }
    }
  }

  lemma {:induction false} SliceSame(s: string, t: string, start: nat, n: nat, lo: nat)
    requires start + n <= lo <= |s| && lo <= |t| && s[..lo] == t[..lo]
    ensures s[start..][..n] == t[start..][..n]
  {
    assert s[start..][..n] == s[..lo][start..start + n];
    assert t[start..][..n] == t[..lo][start..start + n];
  }

  /** A token keeps its end while only what is right of it changes. */
  lemma {:induction false} TokenEndSame(s: string, t: string, start: nat, lo: nat, node: Node)
    requires start <= lo <= |s| && lo <= |t| && s[..lo] == t[..lo]
    requires TokenEnd(s, start, node).Some? && TokenEnd(s, start, node).value < lo
    ensures TokenEnd(t, start, node) == TokenEnd(s, start, node)
  {
    match node.style
    case Plain =>
      SliceSame(s, t, start, |node.value|, lo);
    case Double =>
      DoubleEndPast(s, start + 1);
      assert s[start] == s[..lo][start] && t[start] == t[..lo][start];
      DoubleEndSame(s, t, start + 1, lo);
    case Single =>
      SingleEndPast(s, start + 1);
      assert s[start] == s[..lo][start] && t[start] == t[..lo][start];
      SingleEndSame(s, t, start + 1, lo);
    case Block =>
  }

  lemma {:induction false} TokenEndFits(line: string, start: nat, node: Node)
    requires start <= |line| && TokenEnd(line, start, node).Some?
    ensures start <= TokenEnd(line, start, node).value <= |line|
  {
    DoubleEndPast(line, start + 1);
    SingleEndPast(line, start + 1);
  }

  /** The leftmost edit made so far on a line is one of the edits, and those on
      the line are in order. */
  lemma {:induction false} OnLineOrdered(lines: seq<string>, edits: seq<PathEdit>, i: nat, k: nat)
    requires k <= |edits| && i < |lines| && Placed(lines, edits)
    ensures var es := OnLine(lines, edits, i, k);
            && Edits.Ordered(es, 0, |lines[i]|)
            && (es != [] ==> exists j ::
                0 <= j < k && edits[j].node.line == i + 1 && Found(lines, edits[j].node).value.lo == es[0].lo)
  {
    hide TokenEnd, SpellLike;
    if k > 0 {
      OnLineOrdered(lines, edits, i, k - 1);
      var e, before := edits[k - 1], OnLine(lines, edits, i, k - 1);
      if e.node.line == i + 1 {
        FoundFits(lines, e.node);
        var found := Found(lines, e.node).value;
        assert ([found.(text := SpellLike(e.node.style, e.value))] + before)[1..] == before;
        if before != [] {
          var j :| 0 <= j < k - 1 && edits[j].node.line == i + 1
              && Found(lines, edits[j].node).value.lo == before[0].lo;
          assert found.hi < before[0].lo;
          OrderedFrom(before, |lines[i]|, found.hi);
        }
      }
    }
  }

  lemma {:induction false} OrderedFrom(es: seq<Edits.Edit>, len: nat, from: int)
    requires Edits.Ordered(es, 0, len) && es != [] && from <= es[0].lo
    ensures Edits.Ordered(es, from, len)
  {
  }

  lemma {:induction false} FoundFits(lines: seq<string>, node: Node)
    requires Found(lines, node).Some?
    ensures 1 <= node.line <= |lines|
    ensures var e := Found(lines, node).value; 0 <= e.lo <= e.hi <= |lines[node.line - 1]|
    ensures Offset(lines[node.line - 1], node.column - 1) == Some(Found(lines, node).value.lo)
    ensures TokenEnd(lines[node.line - 1], Found(lines, node).value.lo, node) == Some(Found(lines, node).value.hi)
  {
    hide TokenEnd;
    TokenEndFits(lines[node.line - 1], Offset(lines[node.line - 1], node.column - 1).value, node);
  }

  /** One more swap, found on the line as it stands by then. */
  lemma {:induction false} SwapStep(lines: seq<string>, edits: seq<PathEdit>, k: nat)
    requires k < |edits| && Placed(lines, edits)
    ensures 1 <= edits[k].node.line <= |lines| && Found(lines, edits[k].node).Some?
    ensures var node := edits[k].node; var i: nat := node.line - 1;
            var e, line := Found(lines, node).value, NewLine(lines, edits, i, k);
            && 0 <= e.lo <= e.hi <= |line| && Offset(line, node.column - 1) == Some(e.lo)
            && TokenEnd(line, e.lo, node) == Some(e.hi)
            && NewLine(lines, edits, i, k + 1) == line[..e.lo] + SpellLike(node.style, edits[k].value) + line[e.hi..]
  {
    hide TokenEnd, SpellLike;
    var node := edits[k].node;
    FoundFits(lines, node);
    var i: nat := node.line - 1;
    var e, before := Found(lines, node).value.(text := SpellLike(node.style, edits[k].value)),
        OnLine(lines, edits, i, k);
    OnLineOrdered(lines, edits, i, k);
    OnLineOrdered(lines, edits, i, k + 1);
    assert OnLine(lines, edits, i, k + 1) == [e] + before;
    assert ([e] + before)[1..] == before;
    Edits.OneMore(lines[i], [e] + before);
    var line := NewLine(lines, edits, i, k);
    if before == [] {
      assert lines[i][0..] == lines[i];
      assert line == lines[i];
    } else {
      var lo: nat := before[0].lo;
      Edits.OrderedFits(before, 0, |lines[i]|);
      Edits.SubstitutedAfter(lines[i], before, 0, lo);
      assert line[..lo] == lines[i][..lo];
      var j :| 0 <= j < k && edits[j].node.line == i + 1 && Found(lines, edits[j].node).value.lo == lo;
      assert e.hi < lo;
      TokenEndSame(lines[i], line, e.lo, lo, node);
    }
  }

  lemma {:induction false} OtherLines(lines: seq<string>, edits: seq<PathEdit>, i: nat, k: nat)
    requires k < |edits| && i < |lines| && edits[k].node.line != i + 1
    ensures NewLine(lines, edits, i, k + 1) == NewLine(lines, edits, i, k)
  {
  }

  /** The lines once the first k swaps are made one after another, each token looked for
      on its line as it then stands; None where one is not found. */
  function SwapUpTo(lines: seq<string>, edits: seq<PathEdit>, k: nat): (r: Option<seq<string>>)
    requires k <= |edits|
    ensures r.Some? ==> |r.value| == |lines|
  {
    if k == 0 then Some(lines)
    else
      match SwapUpTo(lines, edits, k - 1)
      case None => None
      case Some(now) => SwapOne(now, edits[k - 1])
  }

  function SwapOne(now: seq<string>, e: PathEdit): (r: Option<seq<string>>)
    ensures r.Some? ==> |r.value| == |now|
    ensures r.None? <==> Found(now, e.node).None?
  {
    match Found(now, e.node)
    case None => None
    case Some(at) =>
      FoundFits(now, e.node);
      var i := e.node.line - 1;
      Some(now[i := now[i][..at.lo] + SpellLike(e.node.style, e.value) + now[i][at.hi..]])
  }

  /** The k-th token is not on its line when its turn comes. */
  predicate Missing(lines: seq<string>, edits: seq<PathEdit>, k: nat)
    requires k < |edits|
  {
    SwapUpTo(lines, edits, k).Some? && Found(SwapUpTo(lines, edits, k).value, edits[k].node).None?
  }

  lemma {:induction false} SwapUpToStep(lines: seq<string>, edits: seq<PathEdit>, k: nat)
    requires k < |edits|
    ensures SwapUpTo(lines, edits, k + 1).None? <==> SwapUpTo(lines, edits, k).None? || Missing(lines, edits, k)
  {
    hide Found;
  }

  /** The swaps fail exactly when some token is missing at its turn. */
  lemma {:induction false} SwapsFailExactlyWhen(lines: seq<string>, edits: seq<PathEdit>, n: nat)
    requires n <= |edits|
    ensures SwapUpTo(lines, edits, n).None? <==> exists k :: 0 <= k < n && Missing(lines, edits, k)
  {
    hide SwapUpTo, Missing;
    if n > 0 {
      SwapsFailExactlyWhen(lines, edits, n - 1);
      SwapUpToStep(lines, edits, n - 1);
    } else {
      NoSwapYet(lines, edits);
    }
  }

  lemma {:induction false} NoSwapYet(lines: seq<string>, edits: seq<PathEdit>)
    ensures SwapUpTo(lines, edits, 0) == Some(lines)
  {
  }

  /** Where every token is where the parser says, all of them are found and the lines
      are those with all tokens replaced at once. */
  lemma {:induction false} PlacedSwaps(lines: seq<string>, edits: seq<PathEdit>, k: nat)
    requires k <= |edits| && Placed(lines, edits)
    ensures SwapUpTo(lines, edits, k).Some?
    ensures forall i | 0 <= i < |lines| :: SwapUpTo(lines, edits, k).value[i] == NewLine(lines, edits, i, k)
  {
    hide Found, TokenEnd, SpellLike, OnLine, NewLine, Placed;
    if k == 0 {
      NoSwaps(lines, edits);
    } else {
      PlacedSwaps(lines, edits, k - 1);
      var now, e := SwapUpTo(lines, edits, k - 1).value, edits[k - 1];
      SwapStep(lines, edits, k - 1);
      FoundNow(lines, edits, k - 1, now);
      forall i | 0 <= i < |lines|
        ensures SwapUpTo(lines, edits, k).value[i] == NewLine(lines, edits, i, k)
      {
        if i != e.node.line - 1 {
          OtherLines(lines, edits, i, k - 1);
        }
      }
    }
  }

  /** The token stands on its line as it was on the line the parser saw. */
  lemma {:induction false} FoundNow(lines: seq<string>, edits: seq<PathEdit>, k: nat, now: seq<string>)
    requires k < |edits| && Placed(lines, edits) && |now| == |lines|
    requires forall i | 0 <= i < |lines| :: now[i] == NewLine(lines, edits, i, k)
    ensures Found(lines, edits[k].node).Some? && Found(now, edits[k].node).Some?
    ensures var a, b := Found(lines, edits[k].node).value, Found(now, edits[k].node).value; a.lo == b.lo && a.hi == b.hi
  {
    hide TokenEnd, SpellLike, OnLine, NewLine, Placed, Offset;
    SwapStep(lines, edits, k);
    FoundFits(lines, edits[k].node);
  }

  /** Swapping tokens from right to left on each line replaces them all at once: every
      other byte of the frontmatter stays. Where a token is not found, nothing is
      changed. */
  method SwapTokens(fm: string, edits: seq<PathEdit>) returns (out: Option<string>)
    requires Apart(edits)
    ensures var lines, sorted := Split(fm, '\n'), Sorted(edits);
            && (out.Some? <==> SwapUpTo(lines, sorted, |sorted|).Some?)
            && (out.Some? ==> out.value == Join(SwapUpTo(lines, sorted, |sorted|).value, "\n"))
            && (Placed(lines, sorted) ==> out == Some(Join(NewLines(lines, sorted), "\n")))
  {
    hide Found, TokenEnd, SpellLike, OnLine, Sorted, NewLine, Placed;
    ghost var orig := Split(fm, '\n');
    var lines, sorted := Split(fm, '\n'), Sorted(edits);
    for k := 0 to |sorted|
      invariant SwapUpTo(orig, sorted, k) == Some(lines)
    {
      var e := sorted[k];
      FoundSays(lines, e.node);
      var i := e.node.line - 1;
      if i < 0 || i >= |lines| {
        NoneFrom(orig, sorted, k + 1, |sorted|);
        PlacedIsSome(orig, sorted);
        return None;
      }
      var start := Offset(lines[i], e.node.column - 1);
      if start.None? {
        NoneFrom(orig, sorted, k + 1, |sorted|);
        PlacedIsSome(orig, sorted);
        return None;
      }
      OffsetFits(lines[i], e.node.column - 1);
      var end := FindTokenEnd(lines[i], start.value, e.node);
      if end.None? {
        NoneFrom(orig, sorted, k + 1, |sorted|);
        PlacedIsSome(orig, sorted);
        return None;
      }
      TokenEndFits(lines[i], start.value, e.node);
      lines := lines[i := lines[i][..start.value] + SpellLike(e.node.style, e.value) + lines[i][end.value..]];
    }
    if Placed(orig, sorted) {
      PlacedSwaps(orig, sorted, |sorted|);
      assert lines == NewLines(orig, sorted);
    }
    return Some(Join(lines, "\n"));
  }

  lemma {:induction false} PlacedIsSome(lines: seq<string>, edits: seq<PathEdit>)
    ensures Placed(lines, edits) ==> SwapUpTo(lines, edits, |edits|).Some?
  {
    hide Found;
    if Placed(lines, edits) {
      PlacedSwaps(lines, edits, |edits|);
    }
  }

  /** Once a token is not found, the swaps have failed. */
  lemma {:induction false} NoneFrom(lines: seq<string>, edits: seq<PathEdit>, k: nat, n: nat)
    requires k <= n <= |edits| && SwapUpTo(lines, edits, k).None?
    ensures SwapUpTo(lines, edits, n).None?
  {
    hide Found, SwapOne;
    if k < n {
      NoneFrom(lines, edits, k, n - 1);
    }
  }

  /** Where a token is, step by step as the program looks for it. */
  lemma {:induction false} FoundSays(now: seq<string>, node: Node)
    ensures node.line - 1 < 0 || node.line - 1 >= |now| ==> Found(now, node).None?
    ensures 0 <= node.line - 1 < |now| ==>
              match Offset(now[node.line - 1], node.column - 1)
              case None => Found(now, node).None?
              case Some(start) =>
                start <= |now[node.line - 1]|
                && match TokenEnd(now[node.line - 1], start, node)
                   case None => Found(now, node).None?
                   case Some(end) => Found(now, node) == Some(Edits.Edit(start, end, ""))
  {
    hide TokenEnd;
    if 0 <= node.line - 1 < |now| {
      OffsetFits(now[node.line - 1], node.column - 1);
    }
  }

  lemma {:induction false} OffsetFits(line: string, col: int)
    ensures Offset(line, col).Some? ==> Offset(line, col).value <= |line|
  {
  }

  lemma {:induction false} NoSwaps(lines: seq<string>, edits: seq<PathEdit>)
    ensures forall i | 0 <= i < |lines| :: NewLine(lines, edits, i, 0) == lines[i]
  {
    forall i | 0 <= i < |lines|
      ensures NewLine(lines, edits, i, 0) == lines[i]
    {
      assert lines[i][0..] == lines[i];
    }
  }

  // ------------------------------------------------------------------
  // What the swapped frontmatter says

  lemma {:induction false} SingleEndStops(line: string, i: nat)
    requires SingleEnd(line, i).Some?
    ensures var e := SingleEnd(line, i).value; e <= |line| && (e < |line| ==> line[e] != '\'')
    decreases |line| - i
  {
    if line[i] != '\'' {
      SingleEndStops(line, i + 1);
    } else if i + 1 < |line| && line[i + 1] == '\'' {
      SingleEndStops(line, i + 2);
    }
  }

  /** Nothing after the token would be read as part of it. */
  predicate Clear(style: Style, tail: string) {
    style.Single? && tail != "" ==> tail[0] != '\''
  }

  lemma {:induction false} TokenIsClear(line: string, start: nat, node: Node)
    requires start <= |line| && TokenEnd(line, start, node).Some?
    ensures TokenEnd(line, start, node).value <= |line|
    ensures Clear(node.style, line[TokenEnd(line, start, node).value..])
  {
    TokenEndFits(line, start, node);
    if node.style.Single? {
      SingleEndStops(line, start + 1);
    }
  }

  lemma {:induction false} OnLineStep(lines: seq<string>, edits: seq<PathEdit>, k: nat)
    requires k < |edits| && Placed(lines, edits)
    ensures 1 <= edits[k].node.line <= |lines|
    ensures var i: nat := edits[k].node.line - 1; var es := OnLine(lines, edits, i, k + 1);
            && es != [] && es[0].lo == Found(lines, edits[k].node).value.lo
            && (OnLine(lines, edits, i, k) != []
                ==> Found(lines, edits[k].node).value.hi < OnLine(lines, edits, i, k)[0].lo)
  {
    hide TokenEnd, SpellLike;
    FoundFits(lines, edits[k].node);
    var i: nat := edits[k].node.line - 1;
    OnLineOrdered(lines, edits, i, k);
  }

  /** An edit to the left of a token moves it and changes nothing else. */
  lemma {:induction false} EditLeft(line: string, head: string, spelled: string, tail: string, lo: nat, hi: nat,
                                    text: string)
    requires line == head + spelled + tail && lo <= hi <= |head|
    ensures line[..lo] + text + line[hi..] == (line[..lo] + text + head[hi..]) + spelled + tail
  {
    assert line[hi..] == head[hi..] + (spelled + tail);
  }

  lemma {:induction false} OtherOnLine(lines: seq<string>, edits: seq<PathEdit>, i: nat, k: nat)
    requires k < |edits| && i < |lines| && edits[k].node.line != i + 1
    ensures OnLine(lines, edits, i, k + 1) == OnLine(lines, edits, i, k)
  {
  }

  /** The k-th new token stands on its line after `head`, once the first m edits are
      made, and those still to come on that line are to its left. */
  ghost predicate Stands(lines: seq<string>, edits: seq<PathEdit>, k: nat, m: nat, head: string, tail: string)
    requires k < |edits| && m <= |edits|
  {
    var node, i := edits[k].node, edits[k].node.line - 1;
    && 0 <= i < |lines|
    && NewLine(lines, edits, i, m) == head + SpellLike(node.style, edits[k].value) + tail
    && Clear(node.style, tail)
    && OnLine(lines, edits, i, m) != [] && OnLine(lines, edits, i, m)[0].lo <= |head|
  }

  lemma {:induction false} TokenPrinted(lines: seq<string>, edits: seq<PathEdit>, k: nat)
      returns (head: string, tail: string)
    requires k < |edits| && Placed(lines, edits)
    ensures Stands(lines, edits, k, k + 1, head, tail)
  {
    hide TokenEnd, SpellLike, Clear, NewLine, OnLine, Found, Placed, Offset;
    var node := edits[k].node;
    SwapStep(lines, edits, k);
    var e, line := Found(lines, node).value, NewLine(lines, edits, node.line - 1, k);
    head, tail := line[..e.lo], line[e.hi..];
    TokenIsClear(line, e.lo, node);
    OnLineStep(lines, edits, k);
  }

  /** One more edit on the line of a token, to the left of it. */
  lemma {:induction false} TokenMoves(lines: seq<string>, edits: seq<PathEdit>, k: nat, m: nat, head: string,
                                      tail: string)
    returns (r: string)
    requires k < m < |edits| && Placed(lines, edits) && edits[m].node.line == edits[k].node.line
    requires Stands(lines, edits, k, m, head, tail)
    ensures Stands(lines, edits, k, m + 1, r, tail)
  {
    hide TokenEnd, SpellLike, Clear, NewLine, OnLine, Found, Placed, Offset;
    SwapStep(lines, edits, m);
    OnLineStep(lines, edits, m);
    var e, line := Found(lines, edits[m].node).value, NewLine(lines, edits, edits[m].node.line - 1, m);
    var text := SpellLike(edits[m].node.style, edits[m].value);
    r := line[..e.lo] + text + head[e.hi..];
    EditLeft(line, head, SpellLike(edits[k].node.style, edits[k].value), tail, e.lo, e.hi, text);
  }

  lemma {:induction false} TokenRests(lines: seq<string>, edits: seq<PathEdit>, k: nat, m: nat, head: string,
                                      tail: string)
    requires k < m < |edits| && edits[m].node.line != edits[k].node.line
    requires Stands(lines, edits, k, m, head, tail)
    ensures Stands(lines, edits, k, m + 1, head, tail)
  {
    hide SpellLike, Clear, NewLine, OnLine;
    OtherLines(lines, edits, edits[k].node.line - 1, m);
    OtherOnLine(lines, edits, edits[k].node.line - 1, m);
  }

  lemma {:induction false} TokenStays(lines: seq<string>, edits: seq<PathEdit>, k: nat, m: nat)
      returns (head: string, tail: string)
    requires k < m <= |edits| && Placed(lines, edits)
    ensures Stands(lines, edits, k, m, head, tail)
    decreases m
  {
    hide Stands, Placed;
    if m == k + 1 {
      head, tail := TokenPrinted(lines, edits, k);
    } else {
      head, tail := TokenStays(lines, edits, k, m - 1);
      if edits[m - 1].node.line != edits[k].node.line {
        TokenRests(lines, edits, k, m - 1, head, tail);
      } else {
        head := TokenMoves(lines, edits, k, m - 1, head, tail);
      }
    }
  }
}
