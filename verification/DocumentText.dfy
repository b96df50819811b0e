/** Documents as bytes: where the frontmatter ends, and why every edit of the
    line surgery is an edit of the stored text (internal/okf/raw.go:120-142). */
module DocumentText {
  import opened Text
  import opened NormalText
  import opened Frontmatter
  import opened ServerKeys

  const FENCE := "---\n"

  /** strings.Index, as a number past the end when there is no match. */
  function Index(s: string, pattern: string): (i: nat)
    ensures i <= |s| + 1
    ensures i <= |s| ==> i + |pattern| <= |s|
  {
    if pattern <= s then 0 else if s == "" then 1 else Index(s[1..], pattern) + 1
  }

  lemma {:induction false} IndexFinds(s: string, pattern: string)
    requires Index(s, pattern) <= |s|
    ensures pattern <= s[Index(s, pattern)..]
  {
    if pattern <= s {
      assert s[0..] == s;
    } else {
      IndexFinds(s[1..], pattern);
      assert s[1..][Index(s[1..], pattern)..] == s[Index(s, pattern)..];
    }
  }

  datatype Parts = Parts(fm: string, rest: string, ok: bool)

  /** splitFrontmatter, branch by branch. */
  function SplitFrontmatter(s: string): Parts {
    if !(FENCE <= s) then Parts("", s, false)
    else
      var body := s[4..];
      if FENCE <= body then Parts("", body[4..], true)
      else
        var end := Index(body, "\n---\n");
        if end > |body| then
          if HasSuffix(body, "\n---") then Parts("", "", true) else Parts("", s, false)
        else Parts(body[..end + 1], body[end + 5..], true)
  }

  /** Lines of frontmatter as they stand in the file. */
  function Lined(lines: seq<string>): string {
    if lines == [] then "" else lines[0] + "\n" + Lined(lines[1..])
  }

  function Written(fm: string, rest: string): string {
    FENCE + fm + FENCE + rest
  }

  predicate CleanLines(lines: seq<string>) {
    forall i | 0 <= i < |lines| :: '\n' !in lines[i] && lines[i] != "---"
  }

  /** A fence opens a text only when its first line is `---`. */
  lemma {:induction false} FenceIsALine(line: string, more: string)
    requires '\n' !in line
    ensures FENCE <= line + "\n" + more <==> line == "---"
  {
    var s := line + "\n" + more;
    if |line| > 3 {
      assert s[3] == line[3] && line[3] in line;
    } else if |line| < 3 {
      assert s[|line|] == '\n';
    } else {
      assert s[..3] == line && s[3] == '\n';
      assert s[..4] == line + "\n";
    }
  }

  lemma {:induction false} FenceAfterLf(tail: string)
    ensures "\n---\n" <= "\n" + tail <==> FENCE <= tail
  {
    var s := "\n" + tail;
    assert s[1..] == tail;
    if FENCE <= tail {
      assert s == "\n---\n" + tail[4..];
    }
    if "\n---\n" <= s {
      assert s == "\n---\n" + s[5..];
      assert tail == FENCE + s[5..];
    }
  }

  lemma {:induction false} IndexStep(s: string, pattern: string)
    requires s != "" && !(pattern <= s)
    ensures Index(s, pattern) == Index(s[1..], pattern) + 1
  {
  }

  lemma {:induction false} IndexPastLine(line: string, more: string)
    requires '\n' !in line
    ensures Index(line + "\n" + more, "\n---\n") == |line| + Index("\n" + more, "\n---\n")
  {
    var s, pattern := line + "\n" + more, "\n---\n";
    if line == "" {
      assert s == "\n" + more;
    } else {
      assert line[0] in line;
      assert s[0] != pattern[0];
      assert s[1..] == line[1..] + "\n" + more;
      IndexPastLine(line[1..], more);
      IndexStep(s, pattern);
    }
  }

  /** The closing fence is found after the last line. */
  lemma {:induction false} FenceFound(lines: seq<string>, rest: string)
    requires lines != [] && CleanLines(lines)
    ensures Index(Lined(lines) + FENCE + rest, "\n---\n") == |Lined(lines)| - 1
  {
    hide Lined, Index;
    var line, tail := lines[0], Lined(lines[1..]) + FENCE + rest;
    LinedStep(lines, rest);
    IndexPastLine(line, tail);
    FenceAfterLf(tail);
    assert ("\n" + tail)[1..] == tail;
    if |lines| == 1 {
      LinedNone(rest);
      assert lines[1..] == [];
      IndexHere("\n" + tail, "\n---\n");
    } else {
      LinedStep(lines[1..], rest);
      FenceIsALine(lines[1], Lined(lines[1..][1..]) + FENCE + rest);
      IndexStep("\n" + tail, "\n---\n");
      FenceFound(lines[1..], rest);
    }
  }

  lemma {:induction false} LinedStep(lines: seq<string>, rest: string)
    requires lines != []
    ensures Lined(lines) + FENCE + rest == lines[0] + "\n" + (Lined(lines[1..]) + FENCE + rest)
    ensures |Lined(lines)| == |lines[0]| + 1 + |Lined(lines[1..])|
  {
  }

  lemma {:induction false} LinedNone(rest: string)
    ensures Lined([]) == "" && "" + FENCE + rest == FENCE + rest && FENCE <= FENCE + rest
  {
  }

  lemma {:induction false} IndexHere(s: string, pattern: string)
    requires pattern <= s
    ensures Index(s, pattern) == 0
  {
  }

  /** Cutting a document at its fences gives back what was written between and
      after them, whatever the body holds. */
  lemma {:induction false} SplitOfWritten(lines: seq<string>, rest: string)
    requires CleanLines(lines)
    ensures SplitFrontmatter(Written(Lined(lines), rest)) == Parts(Lined(lines), rest, true)
  {
    var fm, s := Lined(lines), Written(Lined(lines), rest);
    var body := s[4..];
    assert body == fm + FENCE + rest;
    if lines == [] {
      assert body == FENCE + rest;
    } else {
      var more := Lined(lines[1..]) + FENCE + rest;
      assert body == lines[0] + "\n" + more;
      FenceIsALine(lines[0], more);
      FenceFound(lines, rest);
      assert body[..|fm|] == fm && body[|fm| + 4..] == rest;
    }
  }

  /** Text whose closing fence is its last line, with no line feed after it. */
  predicate OpenEnded(s: string) {
    && FENCE <= s && !(FENCE <= s[4..])
    && Index(s[4..], "\n---\n") > |s[4..]| && HasSuffix(s[4..], "\n---")
  }

  /** The cut loses nothing exactly when the closing fence has a line feed after it;
      otherwise it loses everything. */
  lemma {:induction false} CutLosesNothingExactlyWhen(s: string)
    requires SplitFrontmatter(s).ok
    ensures Written(SplitFrontmatter(s).fm, SplitFrontmatter(s).rest) == s <==> !OpenEnded(s)
    ensures OpenEnded(s) ==> SplitFrontmatter(s) == Parts("", "", true)
    ensures !OpenEnded(s) ==> var fm := SplitFrontmatter(s).fm; fm == "" || fm[|fm| - 1] == '\n'
  {
    hide Index, HasSuffix;
    var body := s[4..];
    assert s == FENCE + body;
    var end := Index(body, "\n---\n");
    WrittenIs(SplitFrontmatter(s).fm, SplitFrontmatter(s).rest);
    if FENCE <= body {
      FenceFirst(body);
    } else if OpenEnded(s) {
      EndsInDash(body);
      NotTwoFences(s);
    } else {
      IndexFinds(body, "\n---\n");
      CutAt(body, end);
      assert SplitFrontmatter(s).fm == body[..end + 1];
    }
  }

  /** For stored text the cut loses nothing. */
  lemma {:induction false} WrittenOfSplit(s: string)
    requires IsNormal(s) && SplitFrontmatter(s).ok
    ensures Written(SplitFrontmatter(s).fm, SplitFrontmatter(s).rest) == s
    ensures var fm := SplitFrontmatter(s).fm; fm == "" || fm[|fm| - 1] == '\n'
  {
    hide SplitFrontmatter, Written;
    NormalIsClosed(s);
    CutLosesNothingExactlyWhen(s);
  }

  lemma {:induction false} NormalIsClosed(s: string)
    requires IsNormal(s)
    ensures !OpenEnded(s)
  {
    hide Index, HasSuffix, IsNormal;
    if FENCE <= s {
      assert s == FENCE + s[4..];
      NoOpenEnd(s, s[4..]);
    }
  }

  lemma {:induction false} NotTwoFences(s: string)
    requires s != "" && s[|s| - 1] == '-'
    ensures Written("", "") != s
  {
    assert Written("", "")[7] == '\n';
  }

  /** Text that is all lost. */
  lemma {:induction false} OpenEndIsLost()
    ensures OpenEnded("---\na: b\n---") && SplitFrontmatter("---\na: b\n---") == Parts("", "", true)
  {
    var s := "---\na: b\n---";
    var body := "a: b\n---";
    assert s[4..] == body;
    assert body[|body| - 4..] == "\n---";
    assert body[0] == 'a' && FENCE[0] == '-';
    NoFenceIn(body);
  }

  lemma {:induction false} NoFenceIn(body: string)
    requires body == "a: b\n---"
    ensures Index(body, "\n---\n") > |body|
  {
    hide Index;
    if Index(body, "\n---\n") <= |body| {
      IndexFinds(body, "\n---\n");
      FenceNeedsTwoBreaks(body, Index(body, "\n---\n"));
    }
  }

  lemma {:induction false} FenceNeedsTwoBreaks(body: string, at: nat)
    requires at <= |body| && "\n---\n" <= body[at..]
    ensures at + 4 < |body| && body[at] == '\n' && body[at + 4] == '\n'
  {
    assert body[at..][0] == '\n' && body[at..][4] == '\n';
  }

  lemma {:induction false} FenceFirst(body: string)
    requires FENCE <= body
    ensures "" + FENCE + body[4..] == body
  {
  }

  lemma {:induction false} WrittenIs(fm: string, rest: string)
    ensures Written(fm, rest) == FENCE + (fm + FENCE + rest)
  {
  }

  /** Stored text ends in a line feed, so its fence does too. */
  lemma {:induction false} NoOpenEnd(s: string, body: string)
    requires s == FENCE + body && IsNormal(s)
    ensures !HasSuffix(body, "\n---")
  {
    if HasSuffix(body, "\n---") {
      EndsInDash(body);
    }
  }

  lemma {:induction false} EndsInDash(body: string)
    requires HasSuffix(body, "\n---")
    ensures body != "" && body[|body| - 1] == '-'
  {
    assert body[|body| - 1] == body[|body| - 4..][3];
  }

  lemma {:induction false} CutAt(body: string, end: nat)
    requires end <= |body| && "\n---\n" <= body[end..]
    ensures end + 5 <= |body| && body[..end + 1] + FENCE + body[end + 5..] == body
    ensures body[end] == '\n'
  {
    var at := body[end..];
    assert at == "\n---\n" + at[5..];
    assert at[5..] == body[end + 5..];
    assert body == body[..end] + at;
    assert body[..end + 1] == body[..end] + "\n";
    assert "\n---\n" == "\n" + FENCE;
  }

  // ------------------------------------------------------------------
  // The line model is the text

  function Texts(lines: seq<Line>): (r: seq<string>)
    ensures |r| == |lines|
  {
    seq(|lines|, i requires 0 <= i < |lines| => lines[i].text)
  }

  /** The bytes of a document. */
  function TextOf(doc: Document): string {
    match doc
    case Plain(text) => text
    case Framed(_, lines, rest) => Written(Lined(Texts(lines)), rest)
  }

  /** Lines as mappingKeys accepts them: no line break of any kind, no document marker. */
  ghost predicate Addressed(lines: seq<Line>) {
    forall i | 0 <= i < |lines| :: '\n' !in lines[i].text && '\r' !in lines[i].text && lines[i].text != "---"
  }

  lemma {:induction false} TextReadsBack(doc: Document)
    requires doc.Framed? && Addressed(doc.lines)
    ensures SplitFrontmatter(TextOf(doc)) == Parts(Lined(Texts(doc.lines)), doc.rest, true)
  {
    SplitOfWritten(Texts(doc.lines), doc.rest);
  }

  lemma {:induction false} LinedHasNoCr(lines: seq<string>)
    requires forall i | 0 <= i < |lines| :: '\r' !in lines[i]
    ensures '\r' !in Lined(lines)
  {
    if lines != [] {
      LinedHasNoCr(lines[1..]);
    }
  }

  /** Whether a document's text is stored as it is depends on its body alone. */
  lemma {:induction false} NormalByBody(doc: Document)
    requires doc.Framed? && Addressed(doc.lines)
    ensures IsNormal(TextOf(doc)) <==> IsNormalBody(doc.rest)
  {
    var fm, s := Lined(Texts(doc.lines)), TextOf(doc);
    LinedHasNoCr(Texts(doc.lines));
    var head := FENCE + fm + FENCE;
    assert s == head + doc.rest && head[|head| - 1] == '\n' && head[|head| - 2] == '-';
    assert '\r' !in head;
    assert s[0] == '-';
    assert forall i | 0 <= i < |head| :: s[i] == head[i] && head[i] in head;
    if doc.rest != "" {
      assert s[|s| - 1] == doc.rest[|doc.rest| - 1];
      assert s[|s| - 2] == if |doc.rest| > 1 then doc.rest[|doc.rest| - 2] else '\n';
    }
    NoCrlfOfTail(head, doc.rest);
  }

  predicate IsNormalBody(rest: string) {
    rest == "" || (|rest| > 1 && rest[|rest| - 1] == '\n' && !IsLineEnd(rest[|rest| - 2]) && NoCrlf(rest))
  }

  lemma {:induction false} NoCrlfOfTail(head: string, rest: string)
    requires '\r' !in head
    ensures NoCrlf(head + rest) <==> NoCrlf(rest)
  {
    var s := head + rest;
    if NoCrlf(rest) {
      forall i | 0 < i < |s| && s[i] == '\n'
        ensures s[i - 1] != '\r'
      {
        if i <= |head| {
          assert s[i - 1] == head[i - 1] && head[i - 1] in head;
        } else {
          assert s[i] == rest[i - |head|] && s[i - 1] == rest[i - 1 - |head|];
        }
      }
    }
    if NoCrlf(s) {
      forall i | 0 < i < |rest| && rest[i] == '\n'
        ensures rest[i - 1] != '\r'
      {
        assert s[|head| + i] == rest[i] && s[|head| + i - 1] == rest[i - 1];
      }
    }
  }

  /** So an edit of the frontmatter of a stored document yields text that is
      stored as it is, and that reads back as the edited lines and the same body. */
  lemma {:induction false} EditIsStoredAsItIs(doc: Document, lines: seq<Line>)
    requires doc.Framed? && Addressed(doc.lines) && Addressed(lines) && IsNormal(TextOf(doc))
    ensures var out := doc.(lines := lines);
            && Normalized(TextOf(out)) == TextOf(out)
            && SplitFrontmatter(TextOf(out)) == Parts(Lined(Texts(lines)), doc.rest, true)
  {
    var out := doc.(lines := lines);
    NormalByBody(doc);
    NormalByBody(out);
    NormalIsFixed(TextOf(out));
    TextReadsBack(out);
  }
}
