/** A rewrite of a line's targets changes what its links say and nothing else:
    the reader of the rewritten line finds the same links, with the same words,
    each naming what the rewriter made of its target. */
module LinkMeaning {
  import opened Text
  import opened Edits
  import opened LinkScan
  import opened LinkEdit
  import opened LinkApart
  import opened LinkRead
  import opened LinkRewrite

  lemma {:induction false} ApartMatch(s: string, i: nat, k: nat)
    requires i <= |s| && ApartFrom(s, Spans(s, 0), i) && k < |Scan(s, i)|
    ensures StandsApart(s, Spans(s, 0), Scan(s, i)[k])
    decreases |s| - i
  {
    hide MatchAt, StandsApart, BracketApart, Spans;
    match MatchAt(s, i)
    case Some(m) =>
      assert Scan(s, i)[1..] == Scan(s, m.end);
      if k > 0 {
        ApartMatch(s, m.end, k - 1);
      }
    case None =>
      ApartMatch(s, i + 1, k);
  }

  /** One link of a line being edited: its target becomes v. */
  ghost predicate Edited(s: string, t: string, m: Match, v: string) {
    0 <= m.hi && LinkApart.Edit(s, t, m, m.hi, v) && Spans(t, 0) == MoveSpans(Spans(s, 0), m.lo, Delta(m, m.hi, v))
  }

  // ------------------------------------------------------------------
  // What the other links say

  lemma {:induction false} InCodeBefore(s: string, t: string, m: Match, v: string, n: Match)
    requires Edited(s, t, m, v) && n.start < n.end <= m.start && StandsApart(s, Spans(s, 0), n)
    ensures InCode(Spans(t, 0), n.start, n.end) <==> InCode(Spans(s, 0), n.start, n.end)
  {
    hide Spans, MoveSpans, CodeAt, InCode, Disjoint, NoTicks, Replaced, Printable;
    var d, spans := Delta(m, m.hi, v), Spans(s, 0);
    if InCode(spans, n.start, n.end) {
      MovedInCode(spans, m.lo - 2, m.lo, m.end, d, n.start, n.end);
    } else {
      MovedCodeAt(spans, m.lo - 2, m.lo, m.end, d, n.start);
      if InCode(Spans(t, 0), n.start, n.end) {
        InCodeStart(Spans(t, 0), n.start, n.end);
      }
    }
  }

  lemma {:induction false} InCodeAfter(s: string, t: string, m: Match, v: string, n: Match)
    requires Edited(s, t, m, v) && m.end <= n.start < n.end && StandsApart(s, Spans(s, 0), n)
    ensures var d := Delta(m, m.hi, v);
            InCode(Spans(t, 0), n.start + d, n.end + d) <==> InCode(Spans(s, 0), n.start, n.end)
  {
    hide Spans, MoveSpans, CodeAt, InCode, Disjoint, NoTicks, Replaced, Printable;
    var d, spans := Delta(m, m.hi, v), Spans(s, 0);
    if InCode(spans, n.start, n.end) {
      MovedInCode(spans, m.lo - 2, m.lo, m.end, d, n.start, n.end);
    } else {
      MovedCodeAt(spans, m.lo - 2, m.lo, m.end, d, n.start);
      if InCode(Spans(t, 0), n.start + d, n.end + d) {
        InCodeStart(Spans(t, 0), n.start + d, n.end + d);
      }
    }
  }

  /** The shape every match of a scan has. */
  ghost predicate Shaped(s: string, n: Match) {
    0 <= n.start && n.start <= n.Bracket() && n.Bracket() + 1 <= n.lo - 2 && n.lo < n.hi < n.end <= |s|
  }

  lemma {:induction false} SaysBefore(s: string, t: string, m: Match, v: string, n: Match)
    requires Edited(s, t, m, v) && Shaped(s, n) && n.end <= m.start && StandsApart(s, Spans(s, 0), n)
    ensures Says(t, n) == Says(s, n)
  {
    hide Spans, MoveSpans, CodeAt, InCode, NoTicks, Printable, Blanked, Bound;
    InCodeBefore(s, t, m, v, n);
    if !InCode(Spans(s, 0), n.start, n.end) {
      BoundAfter(s, n.Bracket());
      BlankedBefore(s, t, n.Bracket() + 1, n.lo - 2, m.lo, m.hi, v);
      assert t[n.lo..n.hi] == s[n.lo..n.hi];
    }
  }

  lemma {:induction false} SaysAfter(s: string, t: string, m: Match, v: string, n: Match)
    requires Edited(s, t, m, v) && Shaped(s, n) && m.end <= n.start && StandsApart(s, Spans(s, 0), n)
    ensures Says(t, n.Shift(Delta(m, m.hi, v))) == Says(s, n)
  {
    hide Spans, MoveSpans, CodeAt, InCode, Disjoint, NoTicks, Printable, Blanked;
    var d := Delta(m, m.hi, v);
    InCodeAfter(s, t, m, v, n);
    if !InCode(Spans(s, 0), n.start, n.end) {
      assert SameFrom(s, t, n.Bracket() + 1, d);
      BlankedShift(s, t, n.Bracket() + 1, n.lo - 2, d);
      assert t[n.lo + d..n.hi + d] == s[n.lo..n.hi];
    }
  }

  lemma {:induction false} SaysSelf(s: string, t: string, m: Match, v: string)
    requires Edited(s, t, m, v) && Shaped(s, m)
    ensures var d := Delta(m, m.hi, v);
            && Says(s, m).Some? && Says(s, m).value.target == s[m.lo..m.hi] && Says(s, m).value.image == m.image
            && Says(t, m.(hi := m.hi + d, end := m.end + d)) == Some(Says(s, m).value.(target := v))
  {
    hide Spans, MoveSpans, CodeAt, InCode, NoTicks, Printable, Blanked, Bound;
    var d, spans := Delta(m, m.hi, v), Spans(s, 0);
    MovedCodeAt(spans, m.lo - 2, m.lo, m.end, d, m.start);
    if InCode(Spans(t, 0), m.start, m.end + d) {
      InCodeStart(Spans(t, 0), m.start, m.end + d);
    }
    BoundAfter(s, m.Bracket());
    BlankedBefore(s, t, m.Bracket() + 1, m.lo - 2, m.lo, m.hi, v);
    assert t[m.lo..m.hi + d] == v;
  }

  lemma {:induction false} ScanShaped(s: string, k: nat)
    requires k < |Scan(s, 0)|
    ensures Shaped(s, Scan(s, 0)[k])
  {
    ScanMatches(s, 0, k);
  }

  lemma {:induction false} ScanOrdered(s: string, i: nat, j: nat, k: nat)
    requires i <= |s| && j < k < |Scan(s, i)|
    ensures Scan(s, i)[j].end <= Scan(s, i)[k].start
    decreases k - j
  {
    hide Scan;
    ScanMatches(s, i, j);
    ScanMatches(s, i, k);
    var m := Scan(s, i)[j];
    assert Scan(s, i)[k] == Scan(s, i)[j + 1..][k - j - 1];
    ScanMatches(s, m.end, k - j - 1);
  }

  /** The matches after an edit of the k-th. */
  function Moved(ms: seq<Match>, k: nat, d: int, j: nat): Match
    requires j < |ms|
  {
    if j < k then ms[j] else if j == k then ms[j].(hi := ms[j].hi + d, end := ms[j].end + d) else ms[j].Shift(d)
  }

  lemma {:induction false} ShiftAllAt(ms: seq<Match>, d: int, j: nat)
    requires j < |ms|
    ensures ShiftAll(ms, d)[j] == ms[j].Shift(d)
  {
    if j > 0 {
      ShiftAllAt(ms[1..], d, j - 1);
    }
  }

  lemma {:induction false} MovedAt(ms: seq<Match>, k: nat, d: int, m: Match, r: seq<Match>, j: nat)
    requires k < |ms| && m == Moved(ms, k, d, k) && r == ms[..k] + [m] + ShiftAll(ms[k + 1..], d) && j < |ms|
    ensures |r| == |ms| && r[j] == Moved(ms, k, d, j)
  {
    if j > k {
      ShiftAllAt(ms[k + 1..], d, j - k - 1);
    }
  }

  /** What the edit of the k-th link needs. */
  ghost predicate Editable(s: string, k: nat, v: string) {
    && Apart(s) && k < |Scan(s, 0)| && !InCode(Spans(s, 0), Scan(s, 0)[k].start, Scan(s, 0)[k].end)
    && Printable(v) && v != ""
  }

  function EditedLine(s: string, k: nat, v: string): string
    requires Editable(s, k, v)
  {
    ScanShaped(s, k);
    var m := Scan(s, 0)[k];
    s[..m.lo] + v + s[m.hi..]
  }

  lemma {:induction false} EditedIs(s: string, k: nat, v: string)
    requires Editable(s, k, v)
    ensures Edited(s, EditedLine(s, k, v), Scan(s, 0)[k], v)
  {
    hide Scan, MatchAt, Apart, StandsApart, InCode, CodeAt, Printable;
    var m, t := Scan(s, 0)[k], EditedLine(s, k, v);
    ScanShaped(s, k);
    ReplacedByConcat(s, m.lo, m.hi, v);
    ApartWhole(s);
    ApartMatch(s, 0, k);
    SpansStart(s, 0);
    ScanCloses(s, k);
    EditedSpans(s, t, m, v);
  }

  lemma {:induction false} ApartWhole(s: string)
    requires Apart(s)
    ensures ApartFrom(s, Spans(s, 0), 0)
  {
  }

  lemma {:induction false} ScanCloses(s: string, k: nat)
    requires k < |Scan(s, 0)|
    ensures var m := Scan(s, 0)[k]; 0 <= m.start && m.start + 2 < m.lo < m.hi && m.end == m.hi + 1 <= |s|
  {
    hide Scan, MatchAt;
    ScanMatches(s, 0, k);
    MatchEnds(s, Scan(s, 0)[k].start);
  }

  lemma {:induction false} MatchEnds(s: string, i: nat)
    requires i < |s| && MatchAt(s, i).Some?
    ensures MatchAt(s, i).value.end == MatchAt(s, i).value.hi + 1
  {
  }

  lemma {:induction false} EditedSpans(s: string, t: string, m: Match, v: string)
    requires 0 <= m.hi && LinkApart.Edit(s, t, m, m.hi, v)
    ensures Spans(t, 0) == MoveSpans(Spans(s, 0), m.lo, Delta(m, m.hi, v))
  {
    hide Spans, MoveSpans, Replaced, Printable, CodeAt, InCode;
    SpansEdited(s, t, 0, m.lo, m.hi, v);
  }

  /** One edit: the line's other links say what they said, the edited one names
      v, and the line can be read and edited as before. */
  lemma {:induction false} OneEdit(s: string, k: nat, v: string, j: nat)
    requires Editable(s, k, v) && j < |Scan(s, 0)|
    ensures var t, n, d := EditedLine(s, k, v), Scan(s, 0)[j], Delta(Scan(s, 0)[k], Scan(s, 0)[k].hi, v);
            && Apart(t) && |Scan(t, 0)| == |Scan(s, 0)|
            && Scan(t, 0)[j] == Moved(Scan(s, 0), k, d, j)
            && (j != k ==> Says(t, Scan(t, 0)[j]) == Says(s, n))
            && (j == k ==> Says(s, n).Some? && Says(t, Scan(t, 0)[j]) == Some(Says(s, n).value.(target := v)))
  {
    hide Scan, Spans, MatchAt, Apart, StandsApart, InCode, CodeAt, Printable, EditedLine, Says, Edited;
    var ms, m, n, t := Scan(s, 0), Scan(s, 0)[k], Scan(s, 0)[j], EditedLine(s, k, v);
    var d := Delta(m, m.hi, v);
    EditedIs(s, k, v);
    ScanShaped(s, k);
    ScanShaped(s, j);
    ApartWhole(s);
    ApartMatch(s, 0, j);
    LineEdited(s, k, v);
    MovedAt(ms, k, d, Moved(ms, k, d, k), Scan(t, 0), j);
    if j < k {
      ScanOrdered(s, 0, j, k);
      SaysBefore(s, t, m, v, n);
    } else if j > k {
      ScanOrdered(s, 0, k, j);
      SaysAfter(s, t, m, v, n);
    } else {
      SaysSelf(s, t, m, v);
    }
  }

  lemma {:induction false} LineEdited(s: string, k: nat, v: string)
    requires Editable(s, k, v)
    ensures var t, ms, d := EditedLine(s, k, v), Scan(s, 0), Delta(Scan(s, 0)[k], Scan(s, 0)[k].hi, v);
            Apart(t) && Scan(t, 0) == ms[..k] + [Moved(ms, k, d, k)] + ShiftAll(ms[k + 1..], d)
  {
    hide Scan, Spans, MatchAt, StandsApart, InCode, CodeAt, Printable, EditedLine;
    EditedIs(s, k, v);
    ScanShaped(s, k);
    var t, m := EditedLine(s, k, v), Scan(s, 0)[k];
    ScanEdited(s, t, 0, k, m, m.hi, v);
    ApartEdited(s, t, 0, k, m.hi, v);
  }

  // ------------------------------------------------------------------
  // All edits, from the last link to the first

  /** A rewriter that keeps a target readable: what it makes of a target without
      white space, `)` or backtick has none either, and is not empty. */
  ghost predicate Tame(f: Rewriter) {
    forall target {:trigger f(target)} :: target != "" && Printable(target) ==> f(target) != "" && Printable(f(target))
  }

  /** The line once the links from the k-th on are rewritten. */
  function LineFrom(s: string, f: Rewriter, k: nat): string
    requires k <= |Scan(s, 0)|
  {
    EditsFromOrdered(s, f, k);
    Substituted(s, EditsFrom(s, Scan(s, 0), f, k), 0)
  }

  lemma {:induction false} EditsFromOrdered(s: string, f: Rewriter, k: nat)
    requires k <= |Scan(s, 0)|
    ensures Ordered(EditsFrom(s, Scan(s, 0), f, k), 0, |s|)
  {
    if k < |Scan(s, 0)| {
      ScanShaped(s, k);
    }
    EditsOrdered(s, f, k, 0);
  }

  lemma {:induction false} LineStep(s: string, f: Rewriter, k: nat)
    requires k < |Scan(s, 0)|
    ensures var m, t := Scan(s, 0)[k], LineFrom(s, f, k + 1);
            && Shaped(s, m)
            && (EditOf(s, m, f) == [] ==> LineFrom(s, f, k) == t)
            && (EditOf(s, m, f) != [] ==>
                  m.hi <= |t| && LineFrom(s, f, k) == t[..m.lo] + f(Target(s, m)) + t[m.hi..])
  {
    hide Scan, EditOf, Substituted;
    var ms := Scan(s, 0);
    var m, rest := ms[k], EditsFrom(s, ms, f, k + 1);
    ScanShaped(s, k);
    EditsFromOrdered(s, f, k);
    EditsFromOrdered(s, f, k + 1);
    EditOfIs(s, m, f);
    if EditOf(s, m, f) == [] {
      assert [] + rest == rest;
    } else {
      var edits := EditsFrom(s, ms, f, k);
      assert edits[1..] == rest;
      OneMore(s, edits);
    }
  }

  lemma {:induction false} EditOfIs(s: string, m: Match, f: Rewriter)
    ensures EditOf(s, m, f) == [] || EditOf(s, m, f) == [Edits.Edit(m.lo, m.hi, f(Target(s, m)))]
    ensures EditOf(s, m, f) != [] ==> Rewrites(s, m)
    ensures EditOf(s, m, f) == [] && Shaped(s, m) ==> Retold(Says(s, m), f) == Says(s, m)
    ensures Rewrites(s, m) && Shaped(s, m)
            ==> Retold(Says(s, m), f) == Some(Says(s, m).value.(target := f(Target(s, m))))
  {
    hide Spans, InCode, Target, Blanked;
  }

  lemma {:induction false} TargetReadable(s: string, k: nat)
    requires Apart(s) && k < |Scan(s, 0)| && !InCode(Spans(s, 0), Scan(s, 0)[k].start, Scan(s, 0)[k].end)
    ensures Target(s, Scan(s, 0)[k]) != "" && Printable(Target(s, Scan(s, 0)[k]))
  {
    hide Scan, Spans, CodeAt, InCode, Apart, Disjoint;
    ScanShaped(s, k);
    ApartWhole(s);
    ApartMatch(s, 0, k);
    var m := Scan(s, 0)[k];
    ScanMatches(s, 0, k);
    MatchIsLink(s, m.start);
    LinkParts(s, m.Bracket());
    forall i | 0 <= i < |Target(s, m)|
      ensures !Stops(Target(s, m)[i]) && Target(s, m)[i] != '`'
    {
      RunHasNoStop(s, m.lo, m.lo + i);
    }
  }

  /** How far the rewrite has come, for the j-th link. */
  ghost predicate Retells(s: string, f: Rewriter, k: nat, j: nat, t: string)
    requires k <= |Scan(s, 0)| && j < |Scan(s, 0)|
  {
    && Apart(t) && |Scan(t, 0)| == |Scan(s, 0)|
    && (j < k ==> Scan(t, 0)[j] == Scan(s, 0)[j])
    && Says(t, Scan(t, 0)[j]) == if j < k then Says(s, Scan(s, 0)[j]) else Retold(Says(s, Scan(s, 0)[j]), f)
  }

  lemma {:induction false} RewriteOne(s: string, f: Rewriter, k: nat, j: nat, t: string)
    requires Tame(f) && Apart(s) && k < |Scan(s, 0)| && j < |Scan(s, 0)| && Retells(s, f, k + 1, j, t)
            && Retells(s, f, k + 1, k, t)
    requires t == LineFrom(s, f, k + 1)
    ensures Retells(s, f, k, j, LineFrom(s, f, k))
  {
    hide Scan, Spans, Apart, InCode, EditOf, Printable, LineFrom, Blanked, Says, Target;
    var m := Scan(s, 0)[k];
    LineStep(s, f, k);
    EditOfIs(s, m, f);
    if EditOf(s, m, f) != [] {
      var v := f(Target(s, m));
      SaysWhat(s, m);
      SaysWhat(t, m);
      TargetReadable(s, k);
      OneEdit(t, k, v, j);
      OneEdit(t, k, v, k);
    }
  }

  lemma {:induction false} SaysWhat(s: string, m: Match)
    requires Shaped(s, m) || Says(s, m).Some?
    ensures Says(s, m).Some? <==> !InCode(Spans(s, 0), m.start, m.end)
    ensures Says(s, m).Some? ==> Says(s, m).value.target == Target(s, m) && Says(s, m).value.image == m.image
  {
    hide InCode, Spans, Blanked;
  }

  lemma {:induction false} RewriteMany(s: string, f: Rewriter, k: nat, j: nat)
    requires Tame(f) && Apart(s) && k <= |Scan(s, 0)| && j < |Scan(s, 0)|
    ensures Retells(s, f, k, j, LineFrom(s, f, k))
    decreases |Scan(s, 0)| - k
  {
    hide Scan, Spans, Apart, Says;
    if k == |Scan(s, 0)| {
      assert EditsFrom(s, Scan(s, 0), f, k) == [];
      assert LineFrom(s, f, k) == s[0..];
      assert s[0..] == s;
    } else {
      RewriteMany(s, f, k + 1, j);
      RewriteMany(s, f, k + 1, k);
      RewriteOne(s, f, k, j, LineFrom(s, f, k + 1));
    }
  }

  // ------------------------------------------------------------------
  // What a reader of the line finds

  /** The links on a line of prose: code spans blanked first, then the scan. */
  function ReadLine(s: string): seq<Found> {
    Reads(Blanked(s, 0, |s|), 0)
  }

  function Listed(said: Option<Found>): seq<Found> {
    match said
    case Some(found) => [found]
    case None => []
  }

  /** What the matches from the k-th on say. */
  function Said(s: string, k: nat): seq<Found>
    requires k <= |Scan(s, 0)|
    decreases |Scan(s, 0)| - k
  {
    if k == |Scan(s, 0)| then [] else Listed(Says(s, Scan(s, 0)[k])) + Said(s, k + 1)
  }

  function KeptOf(s: string, m: Match): seq<Found>
    requires Shaped(s, m)
  {
    if InCode(Spans(s, 0), m.start, m.end) then []
    else [Found(m.image, Blanked(s, m.Bracket() + 1, m.lo - 2), s[m.lo..m.hi])]
  }

  lemma {:induction false} KeptStep(s: string, i: nat)
    requires i < |s|
    ensures match MatchAt(s, i)
            case Some(m) => Shaped(s, m) && KeptReads(s, i) == KeptOf(s, m) + KeptReads(s, m.end)
            case None => KeptReads(s, i) == KeptReads(s, i + 1)
  {
    hide LinkAt, Blanked, Spans, InCode;
  }

  lemma {:induction false} SaidStep(s: string, k: nat)
    requires k < |Scan(s, 0)|
    ensures Said(s, k) == Listed(Says(s, Scan(s, 0)[k])) + Said(s, k + 1)
  {
    hide Scan, Says, Listed;
  }

  lemma {:induction false} KeptIsSaid(s: string, i: nat, k: nat)
    requires i <= |s| && k <= |Scan(s, 0)| && Scan(s, 0)[k..] == Scan(s, i)
    ensures KeptReads(s, i) == Said(s, k)
    decreases |s| - i
  {
    hide *;
    if i < |s| {
      KeptStep(s, i);
      ScanStep(s, i);
      match MatchAt(s, i)
      case Some(m) =>
        assert Scan(s, 0)[k..][0] == m && Scan(s, 0)[k..][1..] == Scan(s, m.end);
        assert Scan(s, 0)[k + 1..] == Scan(s, 0)[k..][1..];
        KeptIsSaid(s, m.end, k + 1);
        SaysListed(s, m);
        SaidStep(s, k);
      case None =>
        KeptIsSaid(s, i + 1, k);
    } else {
      NothingSaid(s, k);
    }
  }

  lemma {:induction false} NothingSaid(s: string, k: nat)
    requires k <= |Scan(s, 0)| && Scan(s, 0)[k..] == Scan(s, |s|)
    ensures KeptReads(s, |s|) == [] == Said(s, k)
  {
    assert Scan(s, |s|) == [];
    assert k == |Scan(s, 0)|;
  }

  lemma {:induction false} SaysListed(s: string, m: Match)
    requires Shaped(s, m)
    ensures Listed(Says(s, m)) == KeptOf(s, m)
  {
    hide Spans, InCode, Blanked;
  }

  lemma {:induction false} ReadLineIsSaid(s: string)
    requires Apart(s)
    ensures ReadLine(s) == Said(s, 0)
  {
    hide Scan, Bound, Said, KeptReads;
    BoundStart(s);
    ApartWhole(s);
    ReadersAgree(s, 0);
    assert Scan(s, 0)[0..] == Scan(s, 0);
    KeptIsSaid(s, 0, 0);
  }

  function RetoldAll(found: seq<Found>, f: Rewriter): (r: seq<Found>)
    ensures |r| == |found|
  {
    if found == [] then [] else [RetoldOne(found[0], f)] + RetoldAll(found[1..], f)
  }

  lemma {:induction false} SaidRetold(s: string, f: Rewriter, k: nat, t: string)
    requires k <= |Scan(s, 0)| == |Scan(t, 0)|
    requires forall j | 0 <= j < |Scan(s, 0)| :: Retells(s, f, 0, j, t)
    ensures Said(t, k) == RetoldAll(Said(s, k), f)
    decreases |Scan(s, 0)| - k
  {
    hide Scan, Says, Apart;
    if k < |Scan(s, 0)| {
      SaidRetold(s, f, k + 1, t);
      assert Retells(s, f, 0, k, t);
      var said, rest := Says(s, Scan(s, 0)[k]), Said(s, k + 1);
      assert Says(t, Scan(t, 0)[k]) == Retold(said, f);
      match said
      case Some(found) => assert ([found] + rest)[1..] == rest;
      case None => assert [] + rest == rest;
    }
  }

  lemma {:induction false} RewrittenIsLine(s: string, f: Rewriter)
    ensures Rewritten(s, f) == LineFrom(s, f, 0)
  {
  }

  /** The rewriter's reading of a line and the reader's agree: after the rewrite
      the reader finds the links it found before, in the same order and with the
      same words, every target that is not an image's passed through f. */
  lemma {:induction false} RewriteKeepsReading(s: string, f: Rewriter)
    requires Apart(s) && Tame(f)
    ensures Apart(Rewritten(s, f)) && ReadLine(Rewritten(s, f)) == RetoldAll(ReadLine(s), f)
  {
    hide Scan, Says, Apart, Rewritten, LineFrom, ReadLine, Said;
    RewrittenIsLine(s, f);
    var t := Rewritten(s, f);
    forall j | 0 <= j < |Scan(s, 0)|
      ensures Retells(s, f, 0, j, t)
    {
      RewriteMany(s, f, 0, j);
    }
    if |Scan(s, 0)| == 0 {
      LineWithoutLinks(s, f);
    } else {
      assert Retells(s, f, 0, 0, t);
    }
    ReadLineIsSaid(s);
    ReadLineIsSaid(t);
    SaidRetold(s, f, 0, t);
  }

  lemma {:induction false} LineWithoutLinks(s: string, f: Rewriter)
    requires |Scan(s, 0)| == 0
    ensures Rewritten(s, f) == s
  {
    hide Scan;
    assert s[0..] == s;
  }
}
