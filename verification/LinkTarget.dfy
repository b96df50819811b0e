/** What one link target means: resolveTarget and splitFragment of
    internal/domain/links.go, and the two target rewriters. */
module LinkTarget {
  import opened Text
  import opened Paths
  import opened LinkScan
  import opened LinkEdit
  import opened LinkRewrite

  predicate IsFrag(c: char) {
    c == '#' || c == '?'
  }

  /** The end of the path part of a target. */
  function FragAt(t: string, i: nat): (j: nat)
    requires i <= |t|
    ensures i <= j <= |t|
    ensures j < |t| ==> IsFrag(t[j])
    ensures forall k | i <= k < j :: !IsFrag(t[k])
    decreases |t| - i
  {
    if i == |t| || IsFrag(t[i]) then i else FragAt(t, i + 1)
  }

  function PathPart(t: string): string {
    t[..FragAt(t, 0)]
  }

  function Fragment(t: string): string {
    t[FragAt(t, 0)..]
  }

  predicate IsLetter(c: char) {
    'a' <= c <= 'z' || 'A' <= c <= 'Z'
  }

  predicate SchemeTail(t: string, i: nat)
    requires i <= |t|
    decreases |t| - i
  {
    i < |t|
    && (t[i] == ':'
        || ((IsLetter(t[i]) || '0' <= t[i] <= '9' || t[i] == '+' || t[i] == '.' || t[i] == '-')
            && SchemeTail(t, i + 1)))
  }

  /** schemeRe: a letter, then letters, digits, `+`, `.` or `-`, then a colon. */
  predicate HasScheme(t: string) {
    t != "" && IsLetter(t[0]) && SchemeTail(t, 1)
  }

  /** A letter, and up to the colon at i letters, digits, `+`, `.` or `-`. */
  predicate SchemeEnds(t: string, i: nat) {
    && 0 < i < |t| && t[i] == ':' && ('a' <= t[0] <= 'z' || 'A' <= t[0] <= 'Z')
    && forall k | 0 < k < i ::
      'a' <= t[k] <= 'z' || 'A' <= t[k] <= 'Z' || '0' <= t[k] <= '9' || t[k] in ['+', '.', '-']
  }

  /** What schemeRe matches. */
  lemma {:induction false} SchemeIs(t: string)
    ensures HasScheme(t) <==> exists i: nat :: SchemeEnds(t, i)
  {
    if t != "" {
      if SchemeTail(t, 1) {
        var i := SchemeTailEnds(t, 1);
        assert HasScheme(t) ==> SchemeEnds(t, i);
      }
      if i: nat :| SchemeEnds(t, i) {
        SchemeTailIs(t, 1, i);
      }
    }
  }

  lemma {:induction false} SchemeTailEnds(t: string, i: nat) returns (j: nat)
    requires i <= |t| && SchemeTail(t, i)
    ensures i <= j < |t| && t[j] == ':'
    ensures forall k | i <= k < j :: IsLetter(t[k]) || '0' <= t[k] <= '9' || t[k] in ['+', '.', '-']
    decreases |t| - i
  {
    j := i;
    if t[i] != ':' {
      j := SchemeTailEnds(t, i + 1);
    }
  }

  lemma {:induction false} SchemeTailIs(t: string, i: nat, j: nat)
    requires i <= j < |t| && t[j] == ':'
    requires forall k | i <= k < j :: IsLetter(t[k]) || '0' <= t[k] <= '9' || t[k] in ['+', '.', '-']
    ensures SchemeTail(t, i)
    decreases j - i
  {
    if i < j {
      SchemeTailIs(t, i + 1, j);
    }
  }

  predicate IsSlash(c: char) {
    c == '/'
  }

  function TrimSlashes(t: string): string {
    TrimRight(TrimLeft(t, IsSlash), IsSlash)
  }

  function DirOf(id: string): string {
    if Dir(id) == "." then "" else Dir(id)
  }

  /** The concept a target names when it is read at id; "" when it names none. */
  function Resolve(id: string, target: string): string {
    var p := PathPart(target);
    if p == "" || HasScheme(p) || !HasSuffix(p, ".md") then ""
    else
      var rest := p[..|p| - 3];
      if rest != "" && rest[0] == '/' then TrimSlashes(rest)
      else
        var joined := Join2(DirOf(id), rest);
        if joined == "." || ".." <= joined then "" else joined
  }

  /** RewriteBodyLinks on one target. */
  function MoveTarget(id: string, oldID: string, newID: string): Rewriter {
    target =>
      if Resolve(id, PathPart(target)) != oldID then PathPart(target) + Fragment(target)
      else "/" + newID + ".md" + Fragment(target)
  }

  /** AbsolutizeBodyLinks on one target. */
  function AbsoluteTarget(id: string): Rewriter {
    target =>
      var p := PathPart(target);
      if p == "" || p[0] == '/' || HasScheme(p) then target
      else if Resolve(id, p) == "" then target
      else "/" + Resolve(id, p) + ".md" + Fragment(target)
  }

  // ------------------------------------------------------------------
  // What can be written into a link and read back

  predicate NoFrag(v: string) {
    forall i | 0 <= i < |v| :: !IsFrag(v[i])
  }

  /** An id that a link can name: nothing in it ends a target, opens a code span
      or starts a fragment, and no slash is at either end. */
  predicate Plain(v: string) {
    Printable(v) && NoFrag(v) && (v != "" ==> v[0] != '/' && v[|v| - 1] != '/')
  }

  /** The same, character by character. */
  predicate PlainText(v: string) {
    && (forall c | c in v :: c !in [')', '`', '#', '?', ' ', '\t', '\n', '\r', '\U{000C}'])
    && (v != "" ==> v[0] != '/' && v[|v| - 1] != '/')
  }

  lemma {:induction false} PlainIs(v: string)
    ensures Plain(v) <==> PlainText(v)
  {
    if Plain(v) {
      forall c | c in v
        ensures c !in [')', '`', '#', '?', ' ', '\t', '\n', '\r', '\U{000C}']
      {
        var i :| 0 <= i < |v| && v[i] == c;
        assert !Stops(v[i]) && !IsFrag(v[i]);
      }
    }
    if PlainText(v) {
      forall i | 0 <= i < |v|
        ensures !Stops(v[i]) && v[i] != '`' && !IsFrag(v[i])
      {
        assert v[i] in v;
      }
    }
  }

  lemma {:induction false} NoFragIs(v: string)
    ensures NoFrag(v) <==> '#' !in v && '?' !in v
  {
  }

  lemma {:induction false} FragAtIs(t: string, i: nat, j: nat)
    requires i <= j <= |t| && (forall k | i <= k < j :: !IsFrag(t[k])) && (j < |t| ==> IsFrag(t[j]))
    ensures FragAt(t, i) == j
    decreases j - i
  {
    if i < j {
      FragAtIs(t, i + 1, j);
    }
  }

  /** A target splits where its path part ends. */
  lemma {:induction false} PartsOf(p: string, frag: string)
    requires NoFrag(p) && (frag != "" ==> IsFrag(frag[0]))
    ensures PathPart(p + frag) == p && Fragment(p + frag) == frag
  {
    FragAtIs(p + frag, 0, |p|);
  }

  lemma {:induction false} FragmentStarts(t: string)
    ensures NoFrag(PathPart(t)) && (Fragment(t) != "" ==> IsFrag(Fragment(t)[0]))
    ensures PathPart(t) + Fragment(t) == t
    ensures PathPart(PathPart(t)) == PathPart(t)
  {
    PartsOf(PathPart(t), "");
    assert PathPart(t) + "" == PathPart(t);
  }

  lemma {:induction false} TrimNothing(v: string)
    requires v != "" ==> v[0] != '/' && v[|v| - 1] != '/'
    ensures TrimSlashes("/" + v) == v
  {
    assert ("/" + v)[1..] == v;
  }

  /** "/v.md", with any fragment, names v wherever it is read. */
  lemma {:induction false} AbsoluteResolves(id: string, v: string, frag: string)
    requires NoFrag(v) && (v != "" ==> v[0] != '/' && v[|v| - 1] != '/') && (frag != "" ==> IsFrag(frag[0]))
    ensures Resolve(id, "/" + v + ".md" + frag) == v
  {
    hide PathPart, TrimSlashes, Join2, DirOf;
    var p := "/" + v + ".md";
    PartsOf(p, frag);
    assert p[..|p| - 3] == "/" + v;
    assert p[|p| - 3..] == ".md";
    TrimNothing(v);
  }

  /** What a target that is not an absolute one may resolve to. */
  lemma {:induction false} ResolveParts(id: string, target: string)
    ensures Resolve(id, PathPart(target)) == Resolve(id, target)
  {
    hide PathPart, HasScheme, TrimSlashes, Join2, DirOf;
    FragmentStarts(target);
  }

  // ------------------------------------------------------------------
  // The move of one concept

  function Renamed(r: string, oldID: string, newID: string): string {
    if r == oldID then newID else r
  }

  /** The rewritten target names the new id exactly where the old one named the
      old id, and otherwise is the same text. */
  lemma {:induction false} MoveTargetResolves(id: string, oldID: string, newID: string, target: string)
    requires Plain(newID)
    ensures var t := MoveTarget(id, oldID, newID)(target);
            && Resolve(id, t) == Renamed(Resolve(id, target), oldID, newID)
            && (Resolve(id, target) != oldID ==> t == target)
  {
    hide Resolve, PathPart, Fragment;
    ResolveParts(id, target);
    FragmentStarts(target);
    AbsoluteResolves(id, newID, Fragment(target));
  }

  lemma {:induction false} PrintableParts(target: string)
    requires Printable(target)
    ensures Printable(PathPart(target)) && Printable(Fragment(target))
  {
  }

  lemma {:induction false} PrintableConcat(a: string, b: string)
    requires Printable(a) && Printable(b)
    ensures Printable(a + b)
  {
  }

  lemma {:induction false} SpelledPrintable(v: string, frag: string)
    requires Printable(v) && Printable(frag)
    ensures "/" + v + ".md" + frag != "" && Printable("/" + v + ".md" + frag)
  {
    PrintableConcat("/", v);
    PrintableConcat("/" + v, ".md");
    PrintableConcat("/" + v + ".md", frag);
  }

  // ------------------------------------------------------------------
  // Making a target absolute

  /** The directory of id can be written into a link. */
  predicate PlainDir(id: string) {
    Printable(DirOf(id)) && NoFrag(DirOf(id)) && (DirOf(id) != "" ==> DirOf(id)[0] != '/')
  }

  lemma {:induction false} PlainFrom(r: string, a: string, b: string)
    requires Printable(a) && NoFrag(a) && Printable(b) && NoFrag(b) && From(r, a + "/" + b)
    ensures Printable(r) && NoFrag(r)
  {
    forall i | 0 <= i < |r|
      ensures !Stops(r[i]) && r[i] != '`' && !IsFrag(r[i])
    {
      assert r[i] in r;
    }
  }

  lemma {:induction false} FromLonger(r: string, a: string, b: string)
    requires From(r, a) || From(r, b)
    ensures From(r, a + "/" + b)
  {
  }

  /** What a relative target resolves to can be written into a link. */
  lemma {:induction false} RelativePlain(id: string, p: string)
    requires PlainDir(id) && Printable(p) && NoFrag(p) && p != "" && p[0] != '/'
    ensures Plain(Resolve(id, p))
  {
    hide Clean, Dir, From, HasScheme;
    FragmentStarts(p);
    PartsOf(p, "");
    assert p + "" == p;
    if Resolve(id, p) != "" {
      var rest := p[..|p| - 3];
      var dir := DirOf(id);
      if dir == "" {
        CleanShape(rest);
        FromLonger(Clean(rest), dir, rest);
      } else if rest == "" {
        CleanShape(dir);
        FromLonger(Clean(dir), dir, rest);
      } else {
        CleanShape(dir + "/" + rest);
      }
      PlainFrom(Resolve(id, p), dir, rest);
    }
  }

  /** A target that resolves keeps its meaning everywhere once it is absolute. */
  lemma {:induction false} AbsoluteTargetResolves(id: string, target: string, id': string)
    requires PlainDir(id) && Printable(target)
    ensures var t := AbsoluteTarget(id)(target);
            && (Resolve(id, target) != "" ==> Resolve(id', t) == Resolve(id, target))
            && (Resolve(id, target) == "" ==> t == target)
            && (target != "" ==> t != "") && Printable(t)
  {
    hide Resolve, PathPart, Fragment, HasScheme, PlainDir;
    var p, frag := PathPart(target), Fragment(target);
    ResolveParts(id, target);
    ResolveParts(id', target);
    FragmentStarts(target);
    PrintableParts(target);
    if p == "" || HasScheme(p) {
      NamesNothing(id, target);
    } else if p[0] == '/' {
      RootedResolves(id, id', target);
    } else {
      RelativePlain(id, p);
      AbsoluteResolves(id', Resolve(id, p), frag);
      SpelledPrintable(Resolve(id, p), frag);
    }
  }

  lemma {:induction false} NamesNothing(id: string, target: string)
    requires PathPart(target) == "" || HasScheme(PathPart(target))
    ensures Resolve(id, target) == ""
  {
  }

  lemma {:induction false} RootedResolves(id: string, id': string, target: string)
    requires PathPart(target) != "" && PathPart(target)[0] == '/'
    ensures Resolve(id, target) == Resolve(id', target)
  {
    var p := PathPart(target);
    if HasSuffix(p, ".md") {
      assert p[|p| - 3..][0] == '.';
    }
  }

  /** A second time changes nothing. */
  lemma {:induction false} AbsoluteTargetTwice(id: string, target: string)
    ensures AbsoluteTarget(id)(AbsoluteTarget(id)(target)) == AbsoluteTarget(id)(target)
  {
    hide Resolve, HasScheme;
    var t := AbsoluteTarget(id)(target);
    if t != target {
      var r := Resolve(id, PathPart(target));
      assert t[0] == '/';
      assert !IsFrag(t[0]);
      assert PathPart(t)[0] == '/';
    }
  }

  lemma {:induction false} MoveTargetTwice(id: string, oldID: string, newID: string, target: string)
    requires Plain(newID)
    ensures var f := MoveTarget(id, oldID, newID); f(f(target)) == f(target)
  {
    hide Resolve, PathPart, Fragment;
    var f := MoveTarget(id, oldID, newID);
    ResolveParts(id, target);
    FragmentStarts(target);
    var t := f(target);
    MoveTargetResolves(id, oldID, newID, target);
    MoveTargetResolves(id, oldID, newID, t);
    if Resolve(id, target) == oldID {
      MovedParts(newID, Fragment(target));
      ResolveParts(id, t);
    }
  }

  lemma {:induction false} MovedParts(newID: string, frag: string)
    requires NoFrag(newID) && (frag != "" ==> IsFrag(frag[0]))
    ensures PathPart("/" + newID + ".md" + frag) == "/" + newID + ".md" && Fragment("/" + newID + ".md" + frag) == frag
  {
    PartsOf("/" + newID + ".md", frag);
  }
}
