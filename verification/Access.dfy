/** The access policy: Under, ValidateAccessRules and AccessPolicyVersion of
    internal/domain/access.go. The version is modelled by the text that is hashed. */
module Access {
  import opened Text
  import opened Order
  import opened LinkTarget

  datatype Rule = Rule(prefix: string, principal: string, mayWrite: bool, mayAdmin: bool)

  const MAX_RULES := 1000

  // ------------------------------------------------------------------
  // Scope

  predicate Under(id: string, prefix: string) {
    prefix == "" || id == prefix || prefix + "/" <= id
  }

  /** The segments of a path; the root has none. */
  function Segments(path: string): seq<string> {
    if path == "" then [] else Split(path, '/')
  }

  /** A scope covers a path exactly when its segments lead the path's. */
  lemma {:induction false} UnderIsSegments(id: string, prefix: string)
    ensures Under(id, prefix) <==> Segments(prefix) <= Segments(id)
  {
    hide Split;
    if prefix != "" && Under(id, prefix) && id != prefix {
      var rest := id[|prefix| + 1..];
      assert id == prefix + ['/'] + rest;
      SplitOfConcat(prefix, '/', rest);
    }
    if prefix != "" && Segments(prefix) <= Segments(id) {
      SplitNotEmpty(prefix);
      var a, b := Split(prefix, '/'), Split(id, '/');
      assert id != "" by { assert Segments(prefix) != []; }
      JoinOfSplit(prefix, '/');
      JoinOfSplit(id, '/');
      var rest := b[|a|..];
      assert b == a + rest;
      if rest == [] {
        assert b == a;
      } else {
        JoinOfConcat(a, rest, ['/']);
        assert "/" == ['/'];
        assert prefix + "/" <= prefix + "/" + Join(rest, ['/']);
      }
    }
  }

  lemma {:induction false} SplitNotEmpty(s: string)
    ensures Split(s, '/') != []
  {
  }

  lemma {:induction false} SegmentsTell(a: string, b: string)
    requires Segments(a) == Segments(b)
    ensures a == b
  {
    hide Split;
    SplitNotEmpty(a);
    SplitNotEmpty(b);
    JoinOfSplit(a, '/');
    JoinOfSplit(b, '/');
  }

  /** Scopes are ordered, the root above all. */
  lemma {:induction false} UnderIsOrder(a: string, b: string, c: string)
    ensures Under(a, a) && Under(a, "")
    ensures Under(a, b) && Under(b, a) ==> a == b
    ensures Under(a, b) && Under(b, c) ==> Under(a, c)
  {
    hide Segments;
    UnderIsSegments(a, b);
    UnderIsSegments(b, a);
    UnderIsSegments(b, c);
    UnderIsSegments(a, c);
    if Under(a, b) && Under(b, a) {
      assert Segments(a) == Segments(b);
      SegmentsTell(a, b);
    }
  }

  /** Two scopes that cover one path lie one in the other. */
  lemma {:induction false} ScopesNest(id: string, p: string, q: string)
    requires Under(id, p) && Under(id, q)
    ensures Under(p, q) || Under(q, p)
  {
    hide Segments;
    UnderIsSegments(id, p);
    UnderIsSegments(id, q);
    UnderIsSegments(p, q);
    UnderIsSegments(q, p);
    var s := Segments(id);
    assert Segments(p) == s[..|Segments(p)|] && Segments(q) == s[..|Segments(q)|];
  }

  // ------------------------------------------------------------------
  // Validation

  function Normalized(prefix: string): string {
    TrimSlashes(TrimSpace(prefix))
  }

  predicate ValidSegment(s: string) {
    s != "" && |s| <= 128 && s[0] != '.' && forall i | 0 <= i < |s| :: s[i] >= ' ' && s[i] != '\U{007F}' && s[i] != '/'
  }

  predicate ValidPrefix(prefix: string) {
    prefix == "" || (|prefix| <= 512 && forall seg | seg in Split(prefix, '/') :: ValidSegment(seg))
  }

  function ColonAt(s: string, i: nat): (j: nat)
    requires i <= |s|
    ensures i <= j <= |s|
    decreases |s| - i
  {
    if i == |s| || s[i] == ':' then i else ColonAt(s, i + 1)
  }

  predicate ValidPrincipal(s: string) {
    s == "*" ||
    (var j := ColonAt(s, 0);
     && j < |s| && (s[..j] == "human" || s[..j] == "process") && s[j + 1..] != "" && |s| <= 320
     && forall i | 0 <= i < |s| :: s[i] != ' ' && s[i] != '\t' && s[i] != '\r' && s[i] != '\n')
  }

  datatype Refusal = TooMany | BadPrefix | AdminAtRoot | BadPrincipal | Duplicate

  datatype Validated = Valid(rules: seq<Rule>) | Invalid(why: Refusal)

  function Read(r: Rule): Rule {
    Rule(Normalized(r.prefix), TrimSpace(r.principal), r.mayWrite || r.mayAdmin, r.mayAdmin)
  }

  function Fault(r: Rule): Option<Refusal> {
    if r.prefix != "" && !ValidPrefix(r.prefix) then Some(BadPrefix)
    else if r.mayAdmin && r.prefix == "" then Some(AdminAtRoot)
    else if !ValidPrincipal(r.principal) then Some(BadPrincipal)
    else None
  }

  predicate SamePair(a: Rule, b: Rule) {
    a.prefix == b.prefix && a.principal == b.principal
  }

  predicate RuleLess(a: Rule, b: Rule) {
    if a.prefix != b.prefix then Less(a.prefix, b.prefix) else Less(a.principal, b.principal)
  }

  function SortRules(s: seq<Rule>): seq<Rule> {
    Sort(RuleLess, s)
  }

  predicate Pairwise(s: seq<Rule>) {
    forall i, j | 0 <= i < j < |s| :: !SamePair(s[i], s[j])
  }

  /** Every rule, read, is a valid one, and no two are for one prefix and principal. */
  predicate AllValid(rules: seq<Rule>) {
    && |rules| <= MAX_RULES
    && (forall i | 0 <= i < |rules| :: Fault(Read(rules[i])).None?)
    && (forall i, j | 0 <= i < j < |rules| :: !SamePair(Read(rules[i]), Read(rules[j])))
  }

  function ReadUpTo(rules: seq<Rule>, n: nat): (r: seq<Rule>)
    requires n <= |rules|
    ensures |r| == n
  {
    seq(n, i requires 0 <= i < n => Read(rules[i]))
  }

  predicate HasPair(s: seq<Rule>, p: (string, string)) {
    exists i | 0 <= i < |s| :: (s[i].prefix, s[i].principal) == p
  }

  lemma {:induction false} PairAt(s: seq<Rule>, p: (string, string)) returns (i: nat)
    requires HasPair(s, p)
    ensures i < |s| && (s[i].prefix, s[i].principal) == p
  {
    i :| 0 <= i < |s| && (s[i].prefix, s[i].principal) == p;
  }

  lemma {:induction false} PairMore(s: seq<Rule>, r: Rule, p: (string, string))
    ensures HasPair(s + [r], p) <==> HasPair(s, p) || p == (r.prefix, r.principal)
  {
    var t := s + [r];
    if HasPair(s, p) {
      var i := PairAt(s, p);
      assert t[i] == s[i];
    }
    if p == (r.prefix, r.principal) {
      assert t[|s|] == r;
    }
  }

  lemma {:induction false} PairwiseMore(s: seq<Rule>, r: Rule)
    requires Pairwise(s) && !HasPair(s, (r.prefix, r.principal))
    ensures Pairwise(s + [r])
  {
  }

  // ------------------------------------------------------------------
  // What a validated policy grants

  predicate HasSpace(s: string) {
    ' ' in s || '\t' in s || '\r' in s || '\n' in s
  }

  /** kind:name with no white space in it, of at most 320 characters. */
  predicate Names(principal: string, kind: string) {
    kind + ":" < principal && |principal| <= 320 && !HasSpace(principal)
  }

  /** Segments of at most 128 characters, none empty, hidden or with a control character. */
  predicate PlainPath(p: string) {
    |p| <= 512 && forall seg | seg in Split(p, '/') ::
      0 < |seg| <= 128 && seg[0] != '.' && forall c | c in seg :: c >= ' ' && c != '\U{007F}'
  }

  /** The path p once white space, then slashes, are cut from the ends of the prefix. */
  ghost predicate IsScopeOf(prefix: string, p: string) {
    exists m :: TrimsTo(prefix, IsSpace, m) && TrimsTo(m, IsSlash, p)
  }

  /** What the rule given is granted as: who may administer may write. */
  ghost predicate IsGrantOf(given: Rule, r: Rule) {
    && IsScopeOf(given.prefix, r.prefix) && TrimsTo(given.principal, IsSpace, r.principal)
    && r.mayAdmin == given.mayAdmin && (r.mayWrite <==> given.mayWrite || given.mayAdmin)
  }

  /** A grant below the root or at it, where nobody administers, to everybody or to one
      person or process. */
  predicate MayStand(r: Rule) {
    && (if r.prefix == "" then !r.mayAdmin else PlainPath(r.prefix))
    && (r.principal == "*" || Names(r.principal, "human") || Names(r.principal, "process"))
  }

  ghost predicate Stands(given: Rule) {
    exists r :: IsGrantOf(given, r) && MayStand(r)
  }

  ghost predicate Clash(a: Rule, b: Rule) {
    exists p, q :: IsScopeOf(a.prefix, p) && IsScopeOf(b.prefix, p)
      && TrimsTo(a.principal, IsSpace, q) && TrimsTo(b.principal, IsSpace, q)
  }

  /** At most a thousand rules, each of which may stand, no two for one scope and
      principal. */
  ghost predicate Acceptable(rules: seq<Rule>) {
    && |rules| <= 1000 && (forall i | 0 <= i < |rules| :: Stands(rules[i]))
    && forall i, j | 0 <= i < j < |rules| :: !Clash(rules[i], rules[j])
  }

  lemma {:induction false} TrimSlashesIs(s: string, t: string)
    ensures TrimsTo(s, IsSlash, t) <==> t == TrimSlashes(s)
  {
    hide TrimRight, TrimLeft, TrimsTo;
    TrimIs(s, IsSlash, t);
  }

  lemma {:induction false} ScopeIs(prefix: string, p: string)
    ensures IsScopeOf(prefix, p) <==> p == Normalized(prefix)
  {
    hide TrimSpace, TrimSlashes, TrimsTo, IsSpace, IsSlash;
    var m := TrimSpace(prefix);
    TrimSpaceIs(prefix, m);
    TrimSlashesIs(m, p);
    if IsScopeOf(prefix, p) {
      var m' :| TrimsTo(prefix, IsSpace, m') && TrimsTo(m', IsSlash, p);
      TrimSpaceIs(prefix, m');
    }
  }

  lemma {:induction false} GrantIs(given: Rule, r: Rule)
    ensures IsGrantOf(given, r) <==> r == Read(given)
  {
    hide TrimSpace, TrimsTo, IsSpace, IsScopeOf, Normalized;
    ScopeIs(given.prefix, r.prefix);
    TrimSpaceIs(given.principal, r.principal);
  }

  lemma {:induction false} ClashIs(a: Rule, b: Rule)
    ensures Clash(a, b) <==> SamePair(Read(a), Read(b))
  {
    hide TrimSpace, TrimsTo, IsSpace, IsScopeOf, Normalized;
    var p, q := Normalized(a.prefix), TrimSpace(a.principal);
    ScopeIs(a.prefix, p);
    ScopeIs(b.prefix, p);
    TrimSpaceIs(a.principal, q);
    TrimSpaceIs(b.principal, q);
    if Clash(a, b) {
      var p', q' :| IsScopeOf(a.prefix, p') && IsScopeOf(b.prefix, p')
                    && TrimsTo(a.principal, IsSpace, q') && TrimsTo(b.principal, IsSpace, q');
      ScopeIs(a.prefix, p');
      ScopeIs(b.prefix, p');
      TrimSpaceIs(a.principal, q');
      TrimSpaceIs(b.principal, q');
    }
  }

  lemma {:induction false} ColonIs(s: string, i: nat)
    requires i <= |s|
    ensures var j := ColonAt(s, i); (j < |s| ==> s[j] == ':') && forall k | i <= k < j :: s[k] != ':'
    decreases |s| - i
  {
    if i < |s| && s[i] != ':' {
      ColonIs(s, i + 1);
    }
  }

  lemma {:induction false} KindIs(s: string, kind: string)
    requires ':' !in kind
    ensures var j := ColonAt(s, 0); (j < |s| && s[..j] == kind <==> kind + ":" <= s)
  {
    ColonIs(s, 0);
    var j := ColonAt(s, 0);
    if kind + ":" <= s {
      assert s[|kind|] == ':';
      assert forall k | 0 <= k < |kind| :: s[k] == kind[k] && kind[k] in kind;
      assert s[..j] == kind;
    }
    if j < |s| && s[..j] == kind {
      assert kind + ":" == s[..j + 1];
    }
  }

  lemma {:induction false} SpaceIs(s: string)
    ensures !HasSpace(s)
            <==> forall i | 0 <= i < |s| :: s[i] != ' ' && s[i] != '\t' && s[i] != '\r' && s[i] != '\n'
  {
  }

  lemma {:induction false} PrincipalIs(s: string)
    ensures ValidPrincipal(s) <==> s == "*" || Names(s, "human") || Names(s, "process")
  {
    hide ColonAt;
    KindIs(s, "human");
    KindIs(s, "process");
    SpaceIs(s);
    if ColonAt(s, 0) < |s| {
      assert s[ColonAt(s, 0) + 1..] == "" <==> |s| == ColonAt(s, 0) + 1;
    }
  }

  lemma {:induction false} PathIs(p: string)
    requires p != ""
    ensures ValidPrefix(p) <==> PlainPath(p)
  {
    forall seg | seg in Split(p, '/')
      ensures ValidSegment(seg)
              <==> 0 < |seg| <= 128 && seg[0] != '.' && forall c | c in seg :: c >= ' ' && c != '\U{007F}'
    {
      assert '/' !in seg;
      if forall c | c in seg :: c >= ' ' && c != '\U{007F}' {
        forall i | 0 <= i < |seg|
          ensures seg[i] >= ' ' && seg[i] != '\U{007F}' && seg[i] != '/'
        {
          assert seg[i] in seg;
        }
      }
    }
  }

  lemma {:induction false} StandsIs(given: Rule)
    ensures Stands(given) <==> Fault(Read(given)).None?
  {
    hide IsGrantOf, Read, ValidPrefix, PlainPath, ValidPrincipal, Names;
    var r := Read(given);
    GrantIs(given, r);
    forall x | IsGrantOf(given, x)
      ensures x == r
    {
      GrantIs(given, x);
    }
    PrincipalIs(r.principal);
    if r.prefix != "" {
      PathIs(r.prefix);
    }
  }

  lemma {:induction false} AcceptableIs(rules: seq<Rule>)
    ensures Acceptable(rules) <==> AllValid(rules)
  {
    hide Stands, Fault, Read, Clash, SamePair;
    forall i | 0 <= i < |rules|
      ensures Stands(rules[i]) <==> Fault(Read(rules[i])).None?
    {
      StandsIs(rules[i]);
    }
    forall i, j | 0 <= i < j < |rules|
      ensures Clash(rules[i], rules[j]) <==> SamePair(Read(rules[i]), Read(rules[j]))
    {
      ClashIs(rules[i], rules[j]);
    }
  }

  /** The rules made of the given ones, one for each: the i-th of them is the at[i]-th. */
  ghost predicate OneForEach(given: seq<Rule>, out: seq<Rule>, at: seq<nat>) {
    && |at| == |given| == |out| && (forall i | 0 <= i < |at| :: at[i] < |out| && IsGrantOf(given[i], out[at[i]]))
    && forall i, j | 0 <= i < j < |at| :: at[i] != at[j]
  }

  /** By prefix, then by principal. */
  ghost predicate InTheirOrder(s: seq<Rule>) {
    forall i, j | 0 <= i < j < |s| ::
      Less(s[i].prefix, s[j].prefix) || (s[i].prefix == s[j].prefix && Less(s[i].principal, s[j].principal))
  }

  /** The grants of the given rules, one for each, in order. */
  ghost predicate IsPolicyOf(given: seq<Rule>, out: seq<Rule>) {
    InTheirOrder(out) && exists at :: OneForEach(given, out, at)
  }

  lemma {:induction false} PolicyIs(rules: seq<Rule>)
    requires AllValid(rules)
    ensures IsPolicyOf(rules, SortRules(ReadUpTo(rules, |rules|)))
  {
    hide Fault, Read, SortRules, IsGrantOf, Less;
    var read := ReadUpTo(rules, |rules|);
    var out := SortRules(read);
    SortRulesKeeps(read);
    OrderIs(out);
    forall i | 0 <= i < |rules|
      ensures read[i] in out && IsGrantOf(rules[i], read[i])
    {
      GrantIs(rules[i], read[i]);
      assert read[i] in read;
    }
    var at := seq(|rules|, i requires 0 <= i < |rules| => IndexIn(out, read[i]));
    assert OneForEach(rules, out, at);
  }

  lemma {:induction false} OrderIs(s: seq<Rule>)
    requires InOrder(s)
    ensures InTheirOrder(s)
  {
    hide Less;
    forall i, j | 0 <= i < j < |s|
      ensures Less(s[i].prefix, s[j].prefix) || (s[i].prefix == s[j].prefix && Less(s[i].principal, s[j].principal))
    {
      assert RuleLess(s[i], s[j]);
    }
  }

  ghost function IndexIn(s: seq<Rule>, r: Rule): (k: nat)
    requires r in s
    ensures k < |s| && s[k] == r
  {
    var k: nat :| k < |s| && s[k] == r;
    k
  }

  /** A policy is accepted exactly when it may be, and comes back as its grants. */
  method ValidateAccessRules(rules: seq<Rule>) returns (v: Validated)
    ensures v.Valid? <==> Acceptable(rules)
    ensures v.Valid? ==> IsPolicyOf(rules, v.rules)
    ensures v.Valid? <==> AllValid(rules)
    ensures v.Valid? ==> v.rules == SortRules(ReadUpTo(rules, |rules|))
  {
    hide ValidPrefix, ValidPrincipal, Normalized, TrimSpace, SortRules, Acceptable, IsPolicyOf;
    AcceptableIs(rules);
    if |rules| > MAX_RULES {
      return Invalid(TooMany);
    }
    var seen: set<(string, string)> := {};
    var out: seq<Rule> := [];
    for n := 0 to |rules|
      invariant out == ReadUpTo(rules, n)
      invariant forall i | 0 <= i < n :: Fault(Read(rules[i])).None?
      invariant Pairwise(out)
      invariant forall p :: p in seen <==> HasPair(out, p)
    {
      var r := Read(rules[n]);
      var fault := Fault(r);
      if fault.Some? {
        return Invalid(fault.value);
      }
      if (r.prefix, r.principal) in seen {
        ghost var i := PairAt(out, (r.prefix, r.principal));
        assert SamePair(Read(rules[i]), Read(rules[n]));
        return Invalid(Duplicate);
      }
      forall p
        ensures HasPair(out + [r], p) <==> HasPair(out, p) || p == (r.prefix, r.principal)
      {
        PairMore(out, r, p);
      }
      PairwiseMore(out, r);
      seen := seen + {(r.prefix, r.principal)};
      out := out + [r];
    }
    assert forall i, j | 0 <= i < j < |rules| :: SamePair(Read(rules[i]), Read(rules[j])) <==> SamePair(out[i], out[j]);
    PolicyIs(rules);
    return Valid(SortRules(out));
  }

  // ------------------------------------------------------------------
  // The order of a policy

  ghost predicate InOrder(s: seq<Rule>) {
    Increasing(RuleLess, s)
  }

  lemma {:induction false} RuleLessOrders(a: Rule, b: Rule, c: Rule)
    ensures !RuleLess(a, a)
    ensures RuleLess(a, b) && RuleLess(b, c) ==> RuleLess(a, c)
    ensures RuleLess(a, b) || RuleLess(b, a) || SamePair(a, b)
    ensures RuleLess(a, b) ==> !SamePair(a, b)
  {
    hide Less;
    LessIsIrreflexive(a.prefix);
    LessIsIrreflexive(a.principal);
    LessIsTotal(a.prefix, b.prefix);
    LessIsTotal(a.principal, b.principal);
    if RuleLess(a, b) && RuleLess(b, c) {
      if a.prefix == b.prefix && b.prefix == c.prefix {
        LessIsTransitive(a.principal, b.principal, c.principal);
      } else if a.prefix != b.prefix && b.prefix != c.prefix {
        LessIsTransitive(a.prefix, b.prefix, c.prefix);
      }
    }
  }

  lemma {:induction false} RuleLessIsOrder()
    ensures Orders(RuleLess)
  {
    hide RuleLess;
    forall a: Rule, b: Rule, c: Rule | RuleLess(a, b) && RuleLess(b, c)
      ensures RuleLess(a, c)
    {
      RuleLessOrders(a, b, c);
    }
    forall a: Rule
      ensures !RuleLess(a, a)
    {
      RuleLessOrders(a, a, a);
    }
  }

  lemma {:induction false} SortRulesKeeps(s: seq<Rule>)
    requires Pairwise(s)
    ensures InOrder(SortRules(s)) && forall x :: x in SortRules(s) <==> x in s
    ensures |SortRules(s)| == |s|
  {
    hide SamePair, RuleLess;
    RuleLessIsOrder();
    forall i, j | 0 <= i < j < |s|
      ensures RuleLess(s[i], s[j]) || RuleLess(s[j], s[i])
    {
      RuleLessOrders(s[i], s[j], s[i]);
    }
    SortIsIncreasing(RuleLess, s);
    SortHas(RuleLess, s);
  }

  lemma {:induction false} OrderIsOne(a: seq<Rule>, b: seq<Rule>)
    requires InOrder(a) && InOrder(b) && forall x :: x in a <==> x in b
    ensures a == b
  {
    hide RuleLess;
    RuleLessIsOrder();
    IncreasingIsOne(RuleLess, a, b);
  }

  // ------------------------------------------------------------------
  // The text that is hashed

  function Level(r: Rule): string {
    if r.mayAdmin then "rwa" else if r.mayWrite then "rw" else "r"
  }

  const NUL := '\U{0000}'

  function Line(r: Rule): string {
    r.prefix + [NUL] + r.principal + [NUL] + Level(r)
  }

  function Lines(s: seq<Rule>): string {
    if s == [] then "" else Line(s[0]) + "\n" + Lines(s[1..])
  }

  function VersionText(rules: seq<Rule>): string {
    Lines(SortRules(rules))
  }

  method AccessPolicyVersion(rules: seq<Rule>) returns (text: string)
    ensures text == VersionText(rules)
  {
    var sorted := SortRules(rules);
    hide Lines, Line;
    text := "";
    assert sorted[0..] == sorted;
    assert text + Lines(sorted) == Lines(sorted);
    for i := 0 to |sorted|
      invariant text + Lines(sorted[i..]) == Lines(sorted)
    {
      var r := sorted[i];
      var write := "r";
      if r.mayAdmin {
        write := "rwa";
      } else if r.mayWrite {
        write := "rw";
      }
      LinesStep(sorted, i, text);
      text := text + (r.prefix + [NUL] + r.principal + [NUL] + write + "\n");
    }
    assert sorted[|sorted|..] == [];
    NoLines(text);
  }

  lemma {:induction false} LinesStep(s: seq<Rule>, i: nat, text: string)
    requires i < |s|
    ensures text + Lines(s[i..])
            == text + (s[i].prefix + [NUL] + s[i].principal + [NUL] + Level(s[i]) + "\n") + Lines(s[i + 1..])
  {
    assert s[i..][1..] == s[i + 1..];
    var line, rest := Line(s[i]) + "\n", Lines(s[i + 1..]);
    assert text + (line + rest) == text + line + rest;
  }

  lemma {:induction false} NoLines(text: string)
    ensures Lines([]) == "" && text + "" == text
  {
  }

  /** What a grant says: the flags that do not show in the level are set aside. */
  function Grant(r: Rule): (string, string, string) {
    (r.prefix, r.principal, Level(r))
  }

  ghost predicate Grants(s: seq<Rule>, g: (string, string, string)) {
    exists r :: r in s && Grant(r) == g
  }

  /** The two make the same grants. */
  ghost predicate SameGrants(a: seq<Rule>, b: seq<Rule>) {
    forall g :: Grants(a, g) <==> Grants(b, g)
  }

  /** A rule as validation leaves it, as far as the text is concerned: no NUL in the
      prefix and no line break anywhere. */
  predicate Clean(r: Rule) {
    NUL !in r.prefix && '\n' !in r.prefix && '\n' !in r.principal
  }

  lemma {:induction false} CutAtFirst(a: string, b: string, c: char, x: string, y: string)
    requires c !in a && c !in b && a + [c] + x == b + [c] + y
    ensures a == b && x == y
  {
    hide Split;
    SplitAtSeparator(a, c, x);
    SplitAtSeparator(b, c, y);
    assert a == ([a] + Split(x, c))[0] == b;
    assert x == (a + [c] + x)[|a| + 1..] == (b + [c] + y)[|b| + 1..] == y;
  }

  lemma {:induction false} CutAtLast(x: string, y: string, c: char, a: string, b: string)
    requires c !in a && c !in b && x + [c] + a == y + [c] + b
    ensures a == b && x == y
  {
    hide Split;
    SplitOfConcat(x, c, a);
    SplitOfConcat(y, c, b);
    SplitWithoutSeparator(a, c);
    SplitWithoutSeparator(b, c);
    var p, q := Split(x, c) + [a], Split(y, c) + [b];
    assert p[|p| - 1] == a && q[|q| - 1] == b;
    assert x == (x + [c] + a)[..|x|] == (y + [c] + b)[..|y|] == y;
  }

  /** A line tells its grant, even where the principal has a NUL in it. */
  lemma {:induction false} LineTells(a: Rule, b: Rule)
    requires Clean(a) && Clean(b) && Line(a) == Line(b)
    ensures Grant(a) == Grant(b)
  {
    var x, y := a.principal + [NUL] + Level(a), b.principal + [NUL] + Level(b);
    assert Line(a) == a.prefix + [NUL] + x && Line(b) == b.prefix + [NUL] + y;
    CutAtFirst(a.prefix, b.prefix, NUL, x, y);
    CutAtLast(a.principal, b.principal, NUL, Level(a), Level(b));
  }

  lemma {:induction false} LineHasNoBreak(r: Rule)
    requires Clean(r)
    ensures '\n' !in Line(r)
  {
  }

  /** The text tells the grants, in order. */
  lemma {:induction false} LinesTell(a: seq<Rule>, b: seq<Rule>)
    requires (forall r | r in a :: Clean(r)) && (forall r | r in b :: Clean(r)) && Lines(a) == Lines(b)
    ensures |a| == |b| && forall i | 0 <= i < |a| :: Grant(a[i]) == Grant(b[i])
  {
    hide Line, Grant, Clean;
    if a != [] && b != [] {
      LineHasNoBreak(a[0]);
      LineHasNoBreak(b[0]);
      assert "\n" == ['\n'];
      CutAtFirst(Line(a[0]), Line(b[0]), '\n', Lines(a[1..]), Lines(b[1..]));
      LineTells(a[0], b[0]);
      LinesTell(a[1..], b[1..]);
      forall i | 0 <= i < |a|
        ensures Grant(a[i]) == Grant(b[i])
      {
        if i > 0 {
          assert Grant(a[1..][i - 1]) == Grant(b[1..][i - 1]);
        }
      }
    }
  }

  lemma {:induction false} LinesSame(a: seq<Rule>, b: seq<Rule>)
    requires |a| == |b| && forall i | 0 <= i < |a| :: Grant(a[i]) == Grant(b[i])
    ensures Lines(a) == Lines(b)
  {
    hide Grant, Line;
    if a != [] {
      LineSame(a[0], b[0]);
      forall i | 0 <= i < |a[1..]|
        ensures Grant(a[1..][i]) == Grant(b[1..][i])
      {
        assert Grant(a[i + 1]) == Grant(b[i + 1]);
      }
      LinesSame(a[1..], b[1..]);
    }
  }

  lemma {:induction false} LineSame(a: Rule, b: Rule)
    requires Grant(a) == Grant(b)
    ensures Line(a) == Line(b)
  {
  }

  // ------------------------------------------------------------------
  // The version is of the set of grants

  /** The order the rules arrive in is nothing to the version. */
  lemma {:induction false} VersionIgnoresOrder(a: seq<Rule>, b: seq<Rule>)
    requires Pairwise(a) && Pairwise(b) && forall r :: r in a <==> r in b
    ensures VersionText(a) == VersionText(b)
  {
    hide InOrder, Pairwise;
    SortRulesKeeps(a);
    SortRulesKeeps(b);
    OrderIsOne(SortRules(a), SortRules(b));
  }

  /** The rule with its flags as the level tells them. */
  function Plain(r: Rule): Rule {
    r.(mayWrite := r.mayWrite || r.mayAdmin)
  }

  function PlainAll(s: seq<Rule>): (r: seq<Rule>)
    ensures |r| == |s|
  {
    seq(|s|, i requires 0 <= i < |s| => Plain(s[i]))
  }

  lemma {:induction false} PlainTells(a: Rule, b: Rule)
    ensures Grant(Plain(a)) == Grant(a)
    ensures Grant(a) == Grant(b) <==> Plain(a) == Plain(b)
    ensures RuleLess(Plain(a), Plain(b)) <==> RuleLess(a, b)
  {
  }

  lemma {:induction false} PlainInOrder(s: seq<Rule>)
    requires InOrder(s)
    ensures InOrder(PlainAll(s)) && forall x :: x in PlainAll(s) <==> exists r :: r in s && Plain(r) == x
  {
    hide RuleLess, Plain;
    forall i, j | 0 <= i < j < |s|
      ensures RuleLess(PlainAll(s)[i], PlainAll(s)[j])
    {
      PlainTells(s[i], s[j]);
    }
    forall x
      ensures x in PlainAll(s) <==> exists r :: r in s && Plain(r) == x
    {
      if x in PlainAll(s) {
        var i :| 0 <= i < |s| && PlainAll(s)[i] == x;
        assert s[i] in s;
      }
      if exists r :: r in s && Plain(r) == x {
        var r :| r in s && Plain(r) == x;
        var i :| 0 <= i < |s| && s[i] == r;
        assert PlainAll(s)[i] == x;
      }
    }
  }

  /** Two policies have one version exactly when they make the same grants. */
  lemma {:induction false} VersionTellsGrants(a: seq<Rule>, b: seq<Rule>)
    requires Pairwise(a) && Pairwise(b) && (forall r | r in a :: Clean(r)) && (forall r | r in b :: Clean(r))
    ensures VersionText(a) == VersionText(b) <==> SameGrants(a, b)
  {
    hide InOrder, Pairwise, Grant, Clean, Lines, SortRules;
    SortRulesKeeps(a);
    SortRulesKeeps(b);
    var x, y := SortRules(a), SortRules(b);
    GrantsOfSame(a, x);
    GrantsOfSame(b, y);
    if Lines(x) == Lines(y) {
      LinesTell(x, y);
      ListedGrants(x, y);
      GrantsMeet(a, x, b, y);
    }
    if SameGrants(a, b) {
      GrantsMeet(x, a, y, b);
      PlainMeet(x, y);
      LinesSame(x, y);
    }
  }

  lemma {:induction false} ListedGrants(x: seq<Rule>, y: seq<Rule>)
    requires |x| == |y| && forall i | 0 <= i < |x| :: Grant(x[i]) == Grant(y[i])
    ensures SameGrants(x, y)
  {
    hide Grant;
    forall g
      ensures Grants(x, g) <==> Grants(y, g)
    {
      ListedGrant(x, y, g);
      ListedGrant(y, x, g);
    }
  }

  lemma {:induction false} ListedGrant(x: seq<Rule>, y: seq<Rule>, g: (string, string, string))
    requires |x| == |y| && forall i | 0 <= i < |x| :: Grant(x[i]) == Grant(y[i])
    ensures Grants(x, g) ==> Grants(y, g)
  {
    hide Grant;
    if !Grants(x, g) {
      return;
    }
    var r :| r in x && Grant(r) == g;
    var i :| 0 <= i < |x| && x[i] == r;
    assert y[i] in y;
  }

  lemma {:induction false} GrantsOfSame(a: seq<Rule>, x: seq<Rule>)
    requires forall r :: r in a <==> r in x
    ensures SameGrants(a, x)
  {
    hide Grant;
  }

  lemma {:induction false} GrantsMeet(a: seq<Rule>, x: seq<Rule>, b: seq<Rule>, y: seq<Rule>)
    requires (SameGrants(a, x) || SameGrants(x, a)) && SameGrants(x, y) && (SameGrants(b, y) || SameGrants(y, b))
    ensures SameGrants(a, b)
  {
    hide Grants;
  }

  lemma {:induction false} PlainMeet(x: seq<Rule>, y: seq<Rule>)
    requires InOrder(x) && InOrder(y) && SameGrants(x, y)
    ensures |x| == |y| && forall i | 0 <= i < |x| :: Grant(x[i]) == Grant(y[i])
  {
    hide InOrder, Grant, Plain;
    PlainInOrder(x);
    PlainInOrder(y);
    forall p
      ensures p in PlainAll(x) <==> p in PlainAll(y)
    {
      PlainCross(x, y, p);
      PlainCross(y, x, p);
    }
    OrderIsOne(PlainAll(x), PlainAll(y));
    forall i | 0 <= i < |x|
      ensures Grant(x[i]) == Grant(y[i])
    {
      assert PlainAll(x)[i] == PlainAll(y)[i];
      PlainTells(x[i], y[i]);
    }
  }

  lemma {:induction false} PlainCross(x: seq<Rule>, y: seq<Rule>, p: Rule)
    requires SameGrants(x, y) || SameGrants(y, x)
    requires forall q :: q in PlainAll(x) <==> exists r :: r in x && Plain(r) == q
    requires forall q :: q in PlainAll(y) <==> exists r :: r in y && Plain(r) == q
    ensures p in PlainAll(x) ==> p in PlainAll(y)
  {
    hide Grant, Plain, PlainAll;
    if p in PlainAll(x) {
      var r :| r in x && Plain(r) == p;
      assert Grants(x, Grant(r));
      assert Grants(y, Grant(r));
      var q :| q in y && Grant(q) == Grant(r);
      PlainTells(r, q);
    }
  }

  // ------------------------------------------------------------------
  // Validated policies

  lemma {:induction false} ValidIsClean(r: Rule)
    requires Fault(r).None?
    ensures Clean(r)
  {
    hide Split;
    if r.prefix != "" {
      JoinOfSplit(r.prefix, '/');
      SegmentsClean(Split(r.prefix, '/'));
    }
    assert '\n' !in r.principal by {
      if r.principal == "*" {
      } else {
        forall i | 0 <= i < |r.principal|
          ensures r.principal[i] != '\n'
        {
        }
      }
    }
  }

  lemma {:induction false} SegmentsClean(segs: seq<string>)
    requires forall seg | seg in segs :: ValidSegment(seg)
    ensures NUL !in Join(segs, ['/']) && '\n' !in Join(segs, ['/'])
  {
    if segs != [] {
      assert segs[0] in segs;
      SegmentClean(segs[0]);
      if |segs| > 1 {
        SegmentsClean(segs[1..]);
      }
    }
  }

  lemma {:induction false} SegmentClean(s: string)
    requires ValidSegment(s)
    ensures NUL !in s && '\n' !in s
  {
    forall i | 0 <= i < |s|
      ensures s[i] != NUL && s[i] != '\n'
    {
    }
  }

  /** Two policies that validate have one version exactly when they make the same
      grants. */
  lemma {:induction false} ValidatedVersions(a: seq<Rule>, b: seq<Rule>)
    requires AllValid(a) && AllValid(b)
    ensures var x, y := SortRules(ReadUpTo(a, |a|)), SortRules(ReadUpTo(b, |b|));
            VersionText(x) == VersionText(y) <==> SameGrants(x, y)
  {
    hide SortRules, Fault, Read, Clean, SamePair;
    ValidatedRules(a);
    ValidatedRules(b);
    VersionTellsGrants(SortRules(ReadUpTo(a, |a|)), SortRules(ReadUpTo(b, |b|)));
  }

  lemma {:induction false} ValidatedRules(a: seq<Rule>)
    requires AllValid(a)
    ensures var x := SortRules(ReadUpTo(a, |a|)); Pairwise(x) && InOrder(x) && forall r | r in x ::
            Clean(r) && Fault(r).None?
  {
    hide SortRules, Fault, Read, Clean, SamePair, RuleLess;
    var read := ReadUpTo(a, |a|);
    assert Pairwise(read);
    SortRulesKeeps(read);
    var x := SortRules(read);
    forall r | r in x
      ensures Clean(r) && Fault(r).None?
    {
      var i :| 0 <= i < |read| && read[i] == r;
      assert read[i] == Read(a[i]);
      ValidIsClean(r);
    }
    forall i, j | 0 <= i < j < |x|
      ensures !SamePair(x[i], x[j])
    {
      RuleLessOrders(x[i], x[j], x[i]);
    }
  }

  // ------------------------------------------------------------------
  // Reading back

  lemma {:induction false} TrimSlashesKeeps(s: string)
    ensures var t := TrimSlashes(s); t != "" ==> t[0] != '/' && t[|t| - 1] != '/'
    ensures (s != "" ==> s[0] != '/' && s[|s| - 1] != '/') ==> TrimSlashes(s) == s
    ensures |TrimSlashes(s)| <= |s|
  {
    var l := TrimLeft(s, IsSlash);
    var r := TrimRight(l, IsSlash);
    if r != "" {
      assert r[0] == l[0];
    }
  }

  lemma {:induction false} TrimSpaceShrinks(s: string)
    ensures |TrimSpace(s)| <= |s| && (|TrimSpace(s)| == |s| ==> TrimSpace(s) == s)
  {
  }

  /** A prefix that was read reads back as itself exactly when no white space was left
      just inside the slashes that were cut off. */
  lemma {:induction false} ReadsBackExactly(prefix: string)
    ensures var p := Normalized(prefix); Normalized(p) == p <==> TrimSpace(p) == p
  {
    hide TrimSpace, TrimSlashes;
    var p := Normalized(prefix);
    TrimSlashesKeeps(TrimSpace(prefix));
    TrimSlashesKeeps(p);
    TrimSlashesKeeps(TrimSpace(p));
    TrimSpaceShrinks(p);
  }

  lemma {:induction false} TrimLeftStep(s: string, cut: char -> bool)
    requires s != ""
    ensures cut(s[0]) ==> TrimLeft(s, cut) == TrimLeft(s[1..], cut)
    ensures !cut(s[0]) ==> TrimLeft(s, cut) == s
  {
  }

  lemma {:induction false} TrimRightNone(s: string, cut: char -> bool)
    requires s != "" && !cut(s[|s| - 1])
    ensures TrimRight(s, cut) == s
  {
  }

  lemma {:induction false} SpaceFacts()
    ensures IsSpace(' ') && !IsSpace('a') && !IsSpace('/')
  {
  }

  lemma {:induction false} SlashCut()
    ensures TrimSlashes("/ a") == " a"
  {
    hide TrimLeft, TrimRight;
    assert "/ a"[1..] == " a";
    TrimLeftStep("/ a", IsSlash);
    TrimLeftStep(" a", IsSlash);
    TrimRightNone(" a", IsSlash);
  }

  lemma {:induction false} SpaceCut()
    ensures TrimSpace(" a") == "a"
  {
    hide TrimLeft, TrimRight, IsSpace;
    SpaceFacts();
    assert " a"[1..] == "a";
    TrimLeftStep(" a", IsSpace);
    TrimLeftStep("a", IsSpace);
    TrimRightNone("a", IsSpace);
  }

  lemma {:induction false} LiteralsRead()
    ensures Normalized("/ a") == " a" && Normalized(" a") == "a" && TrimSpace("*") == "*"
  {
    hide TrimSpace, TrimSlashes, IsSpace;
    SpaceFacts();
    SolidEnds("/ a");
    SlashCut();
    SpaceCut();
    TrimSlashesKeeps("a");
    StarIsSolid();
    SolidEnds("*");
  }

  lemma {:induction false} StarIsSolid()
    ensures !IsSpace('*')
  {
  }

  lemma {:induction false} SpacePrefixIsValid()
    ensures ValidPrefix(" a") && ValidPrefix("a")
  {
    SplitWithoutSeparator(" a", '/');
    SplitWithoutSeparator("a", '/');
  }

  /** A policy of one rule. */
  function OneRule(prefix: string, principal: string): seq<Rule> {
    [Rule(prefix, principal, true, false)]
  }

  lemma {:induction false} SortOne(r: Rule)
    ensures SortRules([r]) == [r]
  {
    assert [r][..0] == [];
    assert Sort(RuleLess, []) == [];
  }

  lemma {:induction false} OneRuleStands(prefix: string, principal: string)
    requires TrimSpace(principal) == principal && ValidPrincipal(principal) && ValidPrefix(Normalized(prefix))
    ensures AllValid(OneRule(prefix, principal))
    ensures ReadUpTo(OneRule(prefix, principal), 1) == OneRule(Normalized(prefix), principal)
    ensures SortRules(OneRule(Normalized(prefix), principal)) == OneRule(Normalized(prefix), principal)
  {
    hide TrimSpace, ValidPrefix, ValidPrincipal, Normalized, SortRules;
    SortOne(OneRule(Normalized(prefix), principal)[0]);
  }

  lemma {:induction false} SpacesRead(prefix: string, read: string, principal: string)
    requires Normalized(prefix) == read && TrimSpace(principal) == principal
    requires ValidPrincipal(principal) && ValidPrefix(read)
    ensures AllValid(OneRule(prefix, principal))
    ensures SortRules(ReadUpTo(OneRule(prefix, principal), 1)) == OneRule(read, principal)
  {
    hide TrimSpace, ValidPrefix, ValidPrincipal, Normalized, SortRules, AllValid, ReadUpTo;
    OneRuleStands(prefix, principal);
  }

  /** "/ a" is read as " a", and " a" as "a": a policy that validates, read back and
      sent again, is another policy. */
  lemma {:induction false} SpaceInsideIsLost()
    ensures AllValid(OneRule("/ a", "*")) && SortRules(ReadUpTo(OneRule("/ a", "*"), 1)) == OneRule(" a", "*")
    ensures AllValid(OneRule(" a", "*")) && SortRules(ReadUpTo(OneRule(" a", "*"), 1)) == OneRule("a", "*")
  {
    hide *;
    LiteralsRead();
    SpacePrefixIsValid();
    StarStands();
    SpacesRead("/ a", " a", "*");
    SpacesRead(" a", "a", "*");
  }

  lemma {:induction false} StarStands()
    ensures ValidPrincipal("*")
  {
  }
}
