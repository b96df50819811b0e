/** The distance between command names: editDistance and nearestCommand of
    cmd/ochakai/main.go. A string here is its bytes. */
module EditDistance {
  import opened Order

  // ------------------------------------------------------------------
  // Edit scripts

  /** One single-byte edit, at a place of the text it is applied to. */
  datatype Edit = Delete(at: nat) | Insert(at: nat, byte: char) | Replace(at: nat, byte: char)

  predicate Fits(s: string, e: Edit) {
    if e.Insert? then e.at <= |s| else e.at < |s|
  }

  function Apply(s: string, e: Edit): string
    requires Fits(s, e)
  {
    match e
    case Delete(i) => s[..i] + s[i + 1..]
    case Insert(i, c) => s[..i] + [c] + s[i..]
    case Replace(i, c) => s[..i] + [c] + s[i + 1..]
  }

  /** The script turns a into b. */
  predicate Turns(a: string, script: seq<Edit>, b: string)
    decreases |script|
  {
    if script == [] then a == b
    else Fits(a, script[0]) && Turns(Apply(a, script[0]), script[1..], b)
  }

  // ------------------------------------------------------------------
  // The recursive distance

  function Min(a: nat, b: nat): nat {
    if a < b then a else b
  }

  function Lev(a: string, b: string): nat {
    if a == "" then |b|
    else if b == "" then |a|
    else
      var a', b' := a[..|a| - 1], b[..|b| - 1];
      var cost := if a[|a| - 1] == b[|b| - 1] then 0 else 1;
      Min(Min(Lev(a', b) + 1, Lev(a, b') + 1), Lev(a', b') + cost)
  }

  // ------------------------------------------------------------------
  // Alignments: a script read as a way of writing a above b

  datatype Column = Pair(over: char, under: char) | Over(over: char) | Under(under: char)

  function Upper(cols: seq<Column>): string {
    if cols == [] then ""
    else
      var c := cols[|cols| - 1];
      Upper(cols[..|cols| - 1]) + if c.Under? then "" else [c.over]
  }

  function Lower(cols: seq<Column>): string {
    if cols == [] then ""
    else
      var c := cols[|cols| - 1];
      Lower(cols[..|cols| - 1]) + if c.Over? then "" else [c.under]
  }

  function CostOf(c: Column): nat {
    if c.Pair? && c.over == c.under then 0 else 1
  }

  function Cost(cols: seq<Column>): nat {
    if cols == [] then 0 else Cost(cols[..|cols| - 1]) + CostOf(cols[|cols| - 1])
  }

  lemma {:induction false} LevSnoc(a: string, x: char, b: string, y: char)
    ensures Lev(a + [x], b) <= Lev(a, b) + 1
    ensures Lev(a, b + [y]) <= Lev(a, b) + 1
    ensures Lev(a + [x], b + [y]) <= Lev(a, b) + if x == y then 0 else 1
  {
    assert (a + [x])[..|a|] == a && (b + [y])[..|b|] == b;
    if b == "" {
      assert Lev(a, b) == |a| by { LevEmpty(a); }
    }
  }

  lemma {:induction false} LevEmpty(a: string)
    ensures Lev(a, "") == |a| && Lev("", a) == |a|
  {
  }

  /** No alignment is cheaper than the distance. */
  lemma {:induction false} LevIsLeast(cols: seq<Column>)
    ensures Lev(Upper(cols), Lower(cols)) <= Cost(cols)
  {
    if cols != [] {
      var rest, c := cols[..|cols| - 1], cols[|cols| - 1];
      LevIsLeast(rest);
      var u, l := Upper(rest), Lower(rest);
      match c
      case Pair(x, y) => LevSnoc(u, x, l, y);
      case Over(x) =>
        LevSnoc(u, x, l, 'a');
        assert l + "" == l;
      case Under(y) =>
        LevSnoc(u, 'a', l, y);
        assert u + "" == u;
    }
  }

  lemma {:induction false} SnocIs(cols: seq<Column>, c: Column)
    ensures var r := cols + [c];
            && Cost(r) == Cost(cols) + CostOf(c)
            && Upper(r) == Upper(cols) + (if c.Under? then "" else [c.over])
            && Lower(r) == Lower(cols) + (if c.Over? then "" else [c.under])
  {
    assert (cols + [c])[..|cols|] == cols;
  }

  lemma {:induction false} AllOver(a: string) returns (cols: seq<Column>)
    ensures Upper(cols) == a && Lower(cols) == "" && Cost(cols) == |a|
  {
    if a == "" {
      cols := [];
    } else {
      var rest := AllOver(a[..|a| - 1]);
      cols := rest + [Over(a[|a| - 1])];
      SnocIs(rest, Over(a[|a| - 1]));
    }
  }

  lemma {:induction false} AllUnder(b: string) returns (cols: seq<Column>)
    ensures Upper(cols) == "" && Lower(cols) == b && Cost(cols) == |b|
  {
    if b == "" {
      cols := [];
    } else {
      var rest := AllUnder(b[..|b| - 1]);
      cols := rest + [Under(b[|b| - 1])];
      SnocIs(rest, Under(b[|b| - 1]));
    }
  }

  /** Some alignment costs exactly the distance. */
  lemma {:induction false} Best(a: string, b: string) returns (cols: seq<Column>)
    ensures Upper(cols) == a && Lower(cols) == b && Cost(cols) == Lev(a, b)
  {
    hide Upper, Lower, Cost;
    if a == "" {
      cols := AllUnder(b);
    } else if b == "" {
      cols := AllOver(a);
    } else {
      var a', b', x, y := a[..|a| - 1], b[..|b| - 1], a[|a| - 1], b[|b| - 1];
      assert a == a' + [x] && b == b' + [y];
      var rest: seq<Column>, c: Column;
      if Lev(a, b) == Lev(a', b) + 1 {
        rest := Best(a', b);
        c := Over(x);
      } else if Lev(a, b) == Lev(a, b') + 1 {
        rest := Best(a, b');
        c := Under(y);
      } else {
        rest := Best(a', b');
        c := Pair(x, y);
      }
      cols := rest + [c];
      SnocIs(rest, c);
    }
  }

  // ------------------------------------------------------------------
  // A metric

  function Flip(cols: seq<Column>): seq<Column> {
    if cols == [] then []
    else
      Flip(cols[..|cols| - 1])
      + [match cols[|cols| - 1]
         case Pair(x, y) => Pair(y, x)
         case Over(x) => Under(x)
         case Under(y) => Over(y)]
  }

  lemma {:induction false} FlipIs(cols: seq<Column>)
    ensures Upper(Flip(cols)) == Lower(cols) && Lower(Flip(cols)) == Upper(cols) && Cost(Flip(cols)) == Cost(cols)
  {
    if cols != [] {
      var rest, c := cols[..|cols| - 1], cols[|cols| - 1];
      FlipIs(rest);
      SnocIs(Flip(rest), Flip(cols)[|Flip(cols)| - 1]);
      assert Flip(cols)[..|Flip(cols)| - 1] == Flip(rest);
    }
  }

  lemma {:induction false} Symmetric(a: string, b: string)
    ensures Lev(a, b) == Lev(b, a)
  {
    hide Lev, Cost, Upper, Lower;
    var p := Best(a, b);
    var q := Best(b, a);
    FlipIs(p);
    FlipIs(q);
    LevIsLeast(Flip(p));
    LevIsLeast(Flip(q));
  }

  lemma {:induction false} ZeroExactlyWhenEqual(a: string, b: string)
    ensures Lev(a, b) == 0 <==> a == b
  {
    if a != "" && b != "" {
      ZeroExactlyWhenEqual(a[..|a| - 1], b[..|b| - 1]);
      assert a == a[..|a| - 1] + [a[|a| - 1]] && b == b[..|b| - 1] + [b[|b| - 1]];
    }
  }

  /** Two alignments with a common middle, read as one. */
  lemma {:induction false} Compose(p: seq<Column>, q: seq<Column>) returns (r: seq<Column>)
    requires Lower(p) == Upper(q)
    ensures Upper(r) == Upper(p) && Lower(r) == Lower(q) && Cost(r) <= Cost(p) + Cost(q)
    decreases |p| + |q|
  {
    hide Lev;
    if p != [] && p[|p| - 1].Over? {
      assert Lower(p) == Lower(p[..|p| - 1]) + "" == Lower(p[..|p| - 1]);
      var rest := Compose(p[..|p| - 1], q);
      r := rest + [p[|p| - 1]];
      SnocIs(rest, p[|p| - 1]);
    } else if q != [] && q[|q| - 1].Under? {
      assert Upper(q) == Upper(q[..|q| - 1]) + "" == Upper(q[..|q| - 1]);
      var rest := Compose(p, q[..|q| - 1]);
      r := rest + [q[|q| - 1]];
      SnocIs(rest, q[|q| - 1]);
    } else if p == [] || q == [] {
      ComposeEmpty(p, q);
      r := [];
    } else {
      ComposeLast(p, q);
      var rest := Compose(p[..|p| - 1], q[..|q| - 1]);
      r := ComposeColumn(p, q, rest);
    }
  }

  lemma {:induction false} ComposeEmpty(p: seq<Column>, q: seq<Column>)
    requires Lower(p) == Upper(q) && (p == [] || q == [])
    requires p != [] ==> !p[|p| - 1].Over?
    requires q != [] ==> !q[|q| - 1].Under?
    ensures p == [] && q == []
  {
  }

  lemma {:induction false} ComposeLast(p: seq<Column>, q: seq<Column>)
    requires Lower(p) == Upper(q) && p != [] && q != [] && !p[|p| - 1].Over? && !q[|q| - 1].Under?
    ensures Lower(p[..|p| - 1]) == Upper(q[..|q| - 1]) && p[|p| - 1].under == q[|q| - 1].over
  {
    var x, y := Lower(p[..|p| - 1]), Upper(q[..|q| - 1]);
    assert Lower(p) == x + [p[|p| - 1].under] && Upper(q) == y + [q[|q| - 1].over];
    assert Lower(p)[..|x|] == x && Upper(q)[..|y|] == y && |x| == |y|;
    assert Lower(p)[|x|] == p[|p| - 1].under;
  }

  lemma {:induction false} ComposeColumn(p: seq<Column>, q: seq<Column>, rest: seq<Column>) returns (r: seq<Column>)
    requires p != [] && q != [] && !p[|p| - 1].Over? && !q[|q| - 1].Under? && p[|p| - 1].under == q[|q| - 1].over
    requires Upper(rest) == Upper(p[..|p| - 1]) && Lower(rest) == Lower(q[..|q| - 1])
    requires Cost(rest) <= Cost(p[..|p| - 1]) + Cost(q[..|q| - 1])
    ensures Upper(r) == Upper(p) && Lower(r) == Lower(q) && Cost(r) <= Cost(p) + Cost(q)
  {
    var c, d := p[|p| - 1], q[|q| - 1];
    if c.Under? && d.Over? {
      r := rest;
      assert Upper(p) == Upper(rest) + "" && Lower(q) == Lower(rest) + "";
    } else {
      var e := if c.Pair? then (if d.Pair? then Pair(c.over, d.under) else Over(c.over)) else Under(d.under);
      r := rest + [e];
      SnocIs(rest, e);
    }
  }

  lemma {:induction false} Triangle(a: string, b: string, c: string)
    ensures Lev(a, c) <= Lev(a, b) + Lev(b, c)
  {
    hide Lev, Cost, Upper, Lower;
    var p := Best(a, b);
    var q := Best(b, c);
    var r := Compose(p, q);
    LevIsLeast(r);
  }

  lemma {:induction false} Bounds(a: string, b: string)
    ensures |a| - |b| <= Lev(a, b) && |b| - |a| <= Lev(a, b)
    ensures Lev(a, b) <= if |a| < |b| then |b| else |a|
  {
    if a != "" && b != "" {
      Bounds(a[..|a| - 1], b);
      Bounds(a, b[..|b| - 1]);
      Bounds(a[..|a| - 1], b[..|b| - 1]);
    }
  }

  // ------------------------------------------------------------------
  // The shortest edit script

  lemma {:induction false} CommonPrefix(p: string, a: string, b: string)
    ensures Lev(p + a, p + b) <= Lev(a, b)
  {
    if a == "" && b == "" {
      ZeroExactlyWhenEqual(p + a, p + b);
    } else if b == "" {
      CommonPrefix(p, a[..|a| - 1], b);
      assert p + a == (p + a[..|a| - 1]) + [a[|a| - 1]];
      LevSnoc(p + a[..|a| - 1], a[|a| - 1], p + b, 'a');
    } else if a == "" {
      CommonPrefix(p, a, b[..|b| - 1]);
      assert p + b == (p + b[..|b| - 1]) + [b[|b| - 1]];
      LevSnoc(p + a, 'a', p + b[..|b| - 1], b[|b| - 1]);
    } else {
      var a', b', x, y := a[..|a| - 1], b[..|b| - 1], a[|a| - 1], b[|b| - 1];
      assert p + a == (p + a') + [x] && p + b == (p + b') + [y];
      CommonPrefix(p, a', b);
      CommonPrefix(p, a, b');
      CommonPrefix(p, a', b');
      LevSnoc(p + a', x, p + b, y);
      LevSnoc(p + a, x, p + b', y);
      LevSnoc(p + a', x, p + b', y);
    }
  }

  lemma {:induction false} CommonSuffix(a: string, b: string, s: string)
    ensures Lev(a + s, b + s) <= Lev(a, b)
    decreases |s|
  {
    hide Lev;
    if s == "" {
      assert a + s == a && b + s == b;
    } else {
      var s', x := s[..|s| - 1], s[|s| - 1];
      CommonSuffix(a, b, s');
      assert a + s == (a + s') + [x] && b + s == (b + s') + [x];
      LevSnoc(a + s', x, b + s', x);
    }
  }

  /** One edit moves a text by at most one. */
  lemma {:induction false} EditIsOne(a: string, e: Edit)
    requires Fits(a, e)
    ensures Lev(a, Apply(a, e)) <= 1
  {
    hide Lev;
    var i := e.at;
    match e
    case Delete(_) => Around(a[..i], [a[i]], "", a[i + 1..]);
      assert a == a[..i] + ([a[i]] + a[i + 1..]) && "" + a[i + 1..] == a[i + 1..];
    case Insert(_, c) => Around(a[..i], "", [c], a[i..]);
      assert a == a[..i] + a[i..] && "" + a[i..] == a[i..] && a[..i] + ([c] + a[i..]) == a[..i] + [c] + a[i..];
    case Replace(_, c) => Around(a[..i], [a[i]], [c], a[i + 1..]);
      assert a == a[..i] + ([a[i]] + a[i + 1..]) && a[..i] + ([c] + a[i + 1..]) == a[..i] + [c] + a[i + 1..];
  }

  lemma {:induction false} Around(p: string, a: string, b: string, s: string)
    requires |a| <= 1 && |b| <= 1
    ensures Lev(p + (a + s), p + (b + s)) <= 1
  {
    hide Lev;
    Bounds(a, b);
    CommonSuffix(a, b, s);
    CommonPrefix(p, a + s, b + s);
  }

  /** No script is shorter than the distance. */
  lemma {:induction false} NoShorterScript(a: string, script: seq<Edit>, b: string)
    requires Turns(a, script, b)
    ensures Lev(a, b) <= |script|
    decreases |script|
  {
    hide Lev;
    if script == [] {
      ZeroExactlyWhenEqual(a, b);
    } else {
      var c := Apply(a, script[0]);
      NoShorterScript(c, script[1..], b);
      EditIsOne(a, script[0]);
      Triangle(a, c, b);
    }
  }

  lemma {:induction false} ApplyBefore(a: string, x: char, e: Edit)
    requires Fits(a, e)
    ensures Fits(a + [x], e) && Apply(a + [x], e) == Apply(a, e) + [x]
  {
  }

  lemma {:induction false} TurnsBefore(a: string, script: seq<Edit>, b: string, x: char)
    requires Turns(a, script, b)
    ensures Turns(a + [x], script, b + [x])
    decreases |script|
  {
    if script != [] {
      ApplyBefore(a, x, script[0]);
      TurnsBefore(Apply(a, script[0]), script[1..], b, x);
    }
  }

  lemma {:induction false} TurnsThen(a: string, script: seq<Edit>, b: string, e: Edit)
    requires Turns(a, script, b) && Fits(b, e)
    ensures Turns(a, script + [e], Apply(b, e))
    decreases |script|
  {
    if script == [] {
      assert [] + [e] == [e] && [e][1..] == [];
    } else {
      TurnsThen(Apply(a, script[0]), script[1..], b, e);
      assert (script + [e])[1..] == script[1..] + [e];
    }
  }

  lemma {:induction false} EditsAtEnd(b: string, x: char, y: char)
    ensures Fits(b + [x], Replace(|b|, y)) && Apply(b + [x], Replace(|b|, y)) == b + [y]
    ensures Fits(b, Insert(|b|, y)) && Apply(b, Insert(|b|, y)) == b + [y]
    ensures Fits(b + [x], Delete(|b|)) && Apply(b + [x], Delete(|b|)) == b
  {
  }

  /** Some script is exactly as long as the distance: an alignment read from left
      to right. */
  lemma {:induction false} ScriptOf(cols: seq<Column>) returns (script: seq<Edit>)
    ensures Turns(Upper(cols), script, Lower(cols)) && |script| == Cost(cols)
  {
    hide Turns, Apply, Fits;
    if cols == [] {
      script := [];
      assert Turns("", [], "") by { NothingTurns(""); }
    } else {
      var rest, c := cols[..|cols| - 1], cols[|cols| - 1];
      var before := ScriptOf(rest);
      var u, l := Upper(rest), Lower(rest);
      match c
      case Pair(x, y) =>
        TurnsBefore(u, before, l, x);
        EditsAtEnd(l, x, y);
        if x == y {
          script := before;
        } else {
          script := before + [Replace(|l|, y)];
          TurnsThen(u + [x], before, l + [x], Replace(|l|, y));
        }
      case Over(x) =>
        TurnsBefore(u, before, l, x);
        EditsAtEnd(l, x, x);
        script := before + [Delete(|l|)];
        TurnsThen(u + [x], before, l + [x], Delete(|l|));
        assert l + "" == l;
      case Under(y) =>
        EditsAtEnd(l, y, y);
        script := before + [Insert(|l|, y)];
        TurnsThen(u, before, l, Insert(|l|, y));
        assert u + "" == u;
    }
  }

  lemma {:induction false} NothingTurns(a: string)
    ensures Turns(a, [], a)
  {
  }

  lemma {:induction false} ShortestScript(a: string, b: string) returns (script: seq<Edit>)
    ensures Turns(a, script, b) && |script| == Lev(a, b)
    ensures forall other | Turns(a, other, b) :: |script| <= |other|
  {
    hide Lev, Turns, Upper, Lower, Cost;
    var cols := Best(a, b);
    script := ScriptOf(cols);
    forall other | Turns(a, other, b)
      ensures |script| <= |other|
    {
      NoShorterScript(a, other, b);
    }
  }

  // ------------------------------------------------------------------
  // The program

  lemma {:induction false} LevStep(a: string, b: string, i: nat, j: nat)
    requires 0 < i <= |a| && 0 < j <= |b|
    ensures Lev(a[..i], b[..j])
            == Min(Min(Lev(a[..i - 1], b[..j]) + 1, Lev(a[..i], b[..j - 1]) + 1),
                   Lev(a[..i - 1], b[..j - 1]) + if a[i - 1] == b[j - 1] then 0 else 1)
  {
    assert a[..i][..i - 1] == a[..i - 1] && b[..j][..j - 1] == b[..j - 1];
  }

  lemma {:induction false} LevEdge(a: string, b: string, i: nat, j: nat)
    requires i <= |a| && j <= |b|
    ensures Lev(a[..0], b[..j]) == j && Lev(a[..i], b[..0]) == i
  {
    assert a[..0] == "" && b[..0] == "";
  }

  /** The first n cells of a row hold distances from i bytes of a. */
  ghost predicate Row(row: array<nat>, a: string, i: nat, b: string, n: nat)
    requires i <= |a| && n <= |b| + 1 == row.Length
    reads row
  {
    forall j | 0 <= j < n :: row[j] == Lev(a[..i], b[..j])
  }

  method EditDistance(a: string, b: string) returns (d: nat)
    ensures d == Lev(a, b)
  {
    hide Lev, Min;
    var prev := new nat[|b| + 1](_ => 0);
    var curr := new nat[|b| + 1](_ => 0);
    for j := 0 to prev.Length
      invariant forall k | 0 <= k < j :: prev[k] == Lev(a[..0], b[..k])
    {
      LevEdge(a, b, 0, j);
      prev[j] := j;
    }
    for i := 1 to |a| + 1
      invariant prev.Length == curr.Length == |b| + 1 && prev != curr && fresh(prev) && fresh(curr)
      invariant Row(prev, a, i - 1, b, |b| + 1)
    {
      LevEdge(a, b, i, 0);
      curr[0] := i;
      for j := 1 to |b| + 1
        invariant Row(prev, a, i - 1, b, |b| + 1)
        invariant Row(curr, a, i, b, j)
      {
        var cost := 1;
        if a[i - 1] == b[j - 1] {
          cost := 0;
        }
        LevStep(a, b, i, j);
        curr[j] := Min(Min(prev[j] + 1, curr[j - 1] + 1), prev[j - 1] + cost);
      }
      prev, curr := curr, prev;
    }
    assert a[..|a|] == a && b[..|b|] == b;
    d := prev[|b|];
  }

  // ------------------------------------------------------------------
  // The nearest command

  predicate Near(cmd: string, name: string) {
    Lev(cmd, name) < |cmd| / 3 + 1
  }

  /** The name to suggest: the first in the alphabet of those nearest. */
  ghost predicate Nearest(cmd: string, names: set<string>, best: string) {
    && best in names && Near(cmd, best)
    && forall name | name in names ::
         Lev(cmd, best) < Lev(cmd, name)
         || (Lev(cmd, best) == Lev(cmd, name) && (best == name || Less(best, name)))
  }

  lemma {:induction false} NearestIsOne(cmd: string, names: set<string>, p: string, q: string)
    requires Nearest(cmd, names, p) && Nearest(cmd, names, q)
    ensures p == q
  {
    hide Lev, Less;
    if p != q {
      LessIsTransitive(p, q, p);
      LessIsIrreflexive(p);
    }
  }

  /** What the loop knows after the first n names. */
  ghost predicate Leads(cmd: string, names: seq<string>, n: nat, best: string, bound: nat)
    requires n <= |names|
  {
    && bound <= |cmd| / 3 + 1
    && (bound == |cmd| / 3 + 1 ==> best == "")
    && (bound < |cmd| / 3 + 1 ==> exists k :: 0 <= k < n && LeadsAt(cmd, names, n, best, bound, k))
    && forall i | 0 <= i < n :: bound <= Lev(cmd, names[i])
  }

  ghost predicate LeadsAt(cmd: string, names: seq<string>, n: nat, best: string, bound: nat, k: nat)
    requires k < n <= |names|
  {
    names[k] == best && Lev(cmd, best) == bound && forall i | 0 <= i < k :: bound < Lev(cmd, names[i])
  }

  method NearestCommand(cmd: string, admin: seq<string>, client: set<string>) returns (best: string)
    ensures var names := (set name | name in admin) + client;
            if exists name :: name in names && Near(cmd, name) then Nearest(cmd, names, best) else best == ""
  {
    hide Lev, Less, Leads, Nearest, Near, SortedStrings;
    var bound: nat;
    best, bound := "", |cmd| / 3 + 1;
    var names := SortStrings((set name | name in admin) + client);
    LeadsNone(cmd, names);
    for i := 0 to |names|
      invariant Leads(cmd, names, i, best, bound)
    {
      var d := EditDistance(cmd, names[i]);
      LeadsOn(cmd, names, i, best, bound, d);
      if d < bound {
        best, bound := names[i], d;
      }
    }
    LeaderIsNearest(cmd, (set name | name in admin) + client, names, best, bound);
  }

  lemma {:induction false} LeadsNone(cmd: string, names: seq<string>)
    ensures Leads(cmd, names, 0, "", |cmd| / 3 + 1)
  {
  }

  /** One more name considered. */
  lemma {:induction false} LeadsOn(cmd: string, names: seq<string>, i: nat, best: string, bound: nat, d: nat)
    requires i < |names| && Leads(cmd, names, i, best, bound) && d == Lev(cmd, names[i])
    ensures if d < bound then Leads(cmd, names, i + 1, names[i], d) else Leads(cmd, names, i + 1, best, bound)
  {
    hide Lev;
    if d < bound {
      assert LeadsAt(cmd, names, i + 1, names[i], d, i);
    } else if bound < |cmd| / 3 + 1 {
      var k: nat :| k < i && LeadsAt(cmd, names, i, best, bound, k);
      assert LeadsAt(cmd, names, i + 1, best, bound, k);
    }
  }

  lemma {:induction false} LeaderIsNearest(cmd: string, all: set<string>, names: seq<string>, best: string, bound: nat)
    requires IsSorted(Less, all, names) && Leads(cmd, names, |names|, best, bound)
    ensures if exists name :: name in all && Near(cmd, name) then Nearest(cmd, all, best) else best == ""
  {
    hide Lev, Less;
    if bound < |cmd| / 3 + 1 {
      var k: nat :| k < |names| && LeadsAt(cmd, names, |names|, best, bound, k);
      assert best in names;
      forall name | name in all
        ensures Lev(cmd, best) < Lev(cmd, name)
                || (Lev(cmd, best) == Lev(cmd, name) && (best == name || Less(best, name)))
      {
        var i :| 0 <= i < |names| && names[i] == name;
        assert k < i ==> Less(names[k], names[i]);
      }
    } else {
      forall name | name in all
        ensures !Near(cmd, name)
      {
        var i :| 0 <= i < |names| && names[i] == name;
      }
    }
  }
}
