/** Path-valued frontmatter fields that follow a move: internal/domain/pathfields.go. */
module PathMoves {
  import opened Text
  import opened Paths
  import opened LinkTarget

  /** One rename: an object, or with a trailing slash everything under a directory. */
  datatype Move = Move(source: string, dest: string)

  function ConceptMoves(oldID: string, newID: string): seq<Move> {
    [Move(oldID + ".md", newID + ".md"), Move(oldID + "/", newID + "/")]
  }

  function PrefixMoves(oldPrefix: string, newPrefix: string): seq<Move> {
    [Move(oldPrefix + "/", newPrefix + "/")]
  }

  // ------------------------------------------------------------------
  // The program

  /** The bundle path a value names when it is read at id. */
  function Resolved(id: string, value: string): Option<string> {
    var target := PathPart(TrimSpace(value));
    if target == "" || HasScheme(target) then None
    else
      var p := if target[0] == '/' then Clean(target[1..]) else Join2(DirOf(id), target);
      if p == "." || p == "" || ".." <= p then None else Some(p)
  }

  function MovedBy(m: Move, p: string): Option<string> {
    if HasSuffix(m.source, "/") && m.source <= p then Some(m.dest + p[|m.source|..])
    else if p == m.source then Some(m.dest)
    else None
  }

  /** Where the first rename that carries p takes it. */
  function Moved(moves: seq<Move>, p: string): Option<string> {
    if moves == [] then None
    else if MovedBy(moves[0], p).Some? then MovedBy(moves[0], p)
    else Moved(moves[1..], p)
  }

  predicate LooksRelative(target: string) {
    && !("/" <= target) && ' ' !in target && '\t' !in target && '\n' !in target
    && ("./" <= target || "../" <= target || '/' in target)
  }

  function MovePathValue(id: string, value: string, moves: seq<Move>, absolutize: bool): (string, bool) {
    var target, frag := PathPart(TrimSpace(value)), Fragment(TrimSpace(value));
    match Resolved(id, value)
    case None => (value, false)
    case Some(p) =>
      match Moved(moves, p)
      case Some(q) => ("/" + q + frag, true)
      case None => if absolutize && LooksRelative(target) then ("/" + p + frag, true) else (value, false)
  }

  /** A value is changed exactly when it names a path that a rename carries, or one to be
      spelled from the root that is written as a relative path: with a slash in it, none
      at its start, and no white space. */
  lemma {:induction false} ChangesExactlyWhen(id: string, value: string, moves: seq<Move>, absolutize: bool)
    ensures var (r, changed), target := MovePathValue(id, value, moves, absolutize), PathPart(TrimSpace(value));
            && (changed <==> && Resolved(id, value).Some?
                             && (Moved(moves, Resolved(id, value).value).Some?
                                 || (absolutize && '/' in target && target[0] != '/'
                                     && forall c | c in target :: c != ' ' && c != '\t' && c != '\n')))
            && (!changed ==> r == value) && (changed ==> target != "" && !HasScheme(target))
  {
    hide Moved, TrimSpace, PathPart, HasScheme, Clean, Join2, DirOf;
    var target := PathPart(TrimSpace(value));
    if "./" <= target || "../" <= target {
      assert target[1] == '/' || target[2] == '/';
    }
  }

  // ------------------------------------------------------------------
  // Paths a value can name

  /** The last character of q and what follows it. */
  function LastOf(q: string, frag: string): char
    requires q != ""
  {
    if frag == "" then q[|q| - 1] else frag[|frag| - 1]
  }

  /** A path that "/q" followed by frag names wherever it is read. */
  predicate Spellable(q: string, frag: string) {
    q != "" && q != "." && Clean(q) == q && NoFrag(q) && !(".." <= q) && !IsSpace(LastOf(q, frag))
  }

  lemma {:induction false} AbsoluteReads(id: string, q: string, frag: string)
    requires Spellable(q, frag) && (frag != "" ==> IsFrag(frag[0]))
    ensures Resolved(id, "/" + q + frag) == Some(q)
    ensures PathPart(TrimSpace("/" + q + frag)) == "/" + q && Fragment(TrimSpace("/" + q + frag)) == frag
  {
    hide Clean, IsPath, IsSpace, Join2, DirOf, TrimSpace, PathPart, Fragment;
    SlashIsSolid();
    var text := "/" + q + frag;
    assert text[|text| - 1] == LastOf(q, frag);
    SolidEnds(text);
    NoFragSlash(q);
    PartsOf("/" + q, frag);
    assert ("/" + q)[1..] == q;
    SlashHasNoScheme(q);
  }

  lemma {:induction false} TrimmedIsFront(text: string)
    requires text != "" && !IsSpace(text[0])
    ensures TrimSpace(text) != "" && TrimSpace(text) <= text
  {
    hide IsSpace;
    assert TrimLeft(text, IsSpace) == text;
  }

  lemma {:induction false} StopsBefore(target: string, text: string, k: nat)
    requires target <= text && NoFrag(target) && k < |text| && IsFrag(text[k])
    ensures |target| <= k
  {
  }

  /** Only a path that can be spelled is read back from "/q" and its fragment. */
  lemma {:induction false} ReadIsSpellable(id: string, q: string, frag: string)
    requires frag != "" ==> IsFrag(frag[0]) && !IsSpace(frag[|frag| - 1])
    requires Resolved(id, "/" + q + frag) == Some(q)
    ensures Spellable(q, frag)
  {
    hide Clean, IsSpace, Join2, DirOf, TrimSpace, HasScheme;
    SlashIsSolid();
    var text := "/" + q + frag;
    TrimmedIsFront(text);
    var whole := TrimSpace(text);
    var target := PathPart(whole);
    assert target == text[..|target|];
    assert target[0] == '/';
    var t := target[1..];
    CleanIsNoLonger(t);
    if frag != "" {
      assert text[1 + |q|] == frag[0];
      StopsBefore(target, text, 1 + |q|);
    }
    assert t == text[1..][..|t|] == q;
    assert frag == "" ==> whole == text;
    assert forall i | 0 <= i < |q| :: q[i] == whole[i + 1];
  }

  /** A value in absolute form names the path written into it exactly when that path
      can be spelled. */
  lemma {:induction false} ReadsExactly(id: string, q: string, frag: string)
    requires frag != "" ==> IsFrag(frag[0]) && !IsSpace(frag[|frag| - 1])
    ensures Resolved(id, "/" + q + frag) == Some(q) <==> Spellable(q, frag)
  {
    hide Resolved, Spellable;
    if Spellable(q, frag) {
      AbsoluteReads(id, q, frag);
    }
    if Resolved(id, "/" + q + frag) == Some(q) {
      ReadIsSpellable(id, q, frag);
    }
  }

  /** A spellable path made of plain segments: what a bundle holds. */
  predicate Nameable(q: string, frag: string) {
    q != "" && IsPath(q) && NoFrag(q) && !(".." <= q) && !IsSpace(LastOf(q, frag))
  }

  lemma {:induction false} NameableIsSpellable(q: string, frag: string)
    requires Nameable(q, frag)
    ensures Spellable(q, frag)
  {
    hide Clean, IsPath;
    CleanOfPath(q);
  }

  lemma {:induction false} SlashIsSolid()
    ensures !IsSpace('/')
  {
  }

  lemma {:induction false} NoFragSlash(q: string)
    requires NoFrag(q)
    ensures NoFrag("/" + q)
  {
  }

  lemma {:induction false} SlashHasNoScheme(q: string)
    ensures !HasScheme("/" + q)
  {
  }

  lemma {:induction false} FragmentOf(value: string)
    ensures var frag := Fragment(TrimSpace(value)); frag != "" ==> IsFrag(frag[0]) && !IsSpace(frag[|frag| - 1])
  {
    hide TrimSpace, IsSpace;
    FragmentStarts(TrimSpace(value));
  }

  // ------------------------------------------------------------------
  // A value follows the move

  /** A value that names something a move carries names, from anywhere, where it was
      carried to, exactly when that path can be spelled; any other value is left alone
      or, when absolutized, names from anywhere what it named, exactly when that can be
      spelled. */
  lemma {:induction false} ValueFollows(id: string, value: string, moves: seq<Move>, absolutize: bool, id': string)
    ensures var (value', changed) := MovePathValue(id, value, moves, absolutize);
            var frag := Fragment(TrimSpace(value));
            match Resolved(id, value)
            case None => value' == value && !changed
            case Some(p) =>
              match Moved(moves, p)
              case Some(q) => changed && (Resolved(id', value') == Some(q) <==> Spellable(q, frag))
              case None =>
                && (!changed ==> value' == value)
                && (changed <==> absolutize && LooksRelative(PathPart(TrimSpace(value))))
                && (changed ==> (Resolved(id', value') == Some(p) <==> Spellable(p, frag)))
  {
    hide Resolved, Spellable, LooksRelative, Moved, PathPart, Fragment, TrimSpace;
    FragmentOf(value);
    var frag := Fragment(TrimSpace(value));
    match Resolved(id, value)
    case None =>
    case Some(p) =>
      match Moved(moves, p)
      case Some(q) => ReadsExactly(id', q, frag);
      case None => ReadsExactly(id', p, frag);
  }

  // ------------------------------------------------------------------
  // The renames of one concept

  predicate Carries(m: Move, p: string) {
    MovedBy(m, p).Some?
  }

  /** a is b, or lies in the directory of that name. */
  predicate Under(a: string, b: string) {
    a == b || b + "/" <= a
  }

  /** What the two renames do to a path, in one look. */
  lemma {:induction false} ConceptMoved(oldID: string, newID: string, p: string)
    ensures Moved(ConceptMoves(oldID, newID), p)
            == if p == oldID + ".md" then Some(newID + ".md")
               else if oldID + "/" <= p then Some(newID + "/" + p[|oldID| + 1..])
               else None
    ensures !(Carries(ConceptMoves(oldID, newID)[0], p) && Carries(ConceptMoves(oldID, newID)[1], p))
  {
    var moves := ConceptMoves(oldID, newID);
    assert moves[1..] == [moves[1]] && moves[1..][1..] == [];
    var doc, dir := oldID + ".md", oldID + "/";
    assert doc[|doc| - 1..] == "d" && dir[|dir| - 1..] == "/";
    assert !HasSuffix(doc, "/") by { assert "d" != "/"; }
    assert HasSuffix(dir, "/");
    assert doc[|oldID|] == '.' && dir[|oldID|] == '/';
    if dir <= p {
      assert p[|oldID|] == '/';
    }
    assert Moved(moves[1..], p) == MovedBy(moves[1], p);
  }

  /** A concept path or file carried by the move. */
  predicate CarriedBy(oldID: string, p: string) {
    p == oldID + ".md" || oldID + "/" <= p
  }

  lemma {:induction false} CarriedTo(oldID: string, newID: string, p: string)
    requires CarriedBy(oldID, p)
    ensures Moved(ConceptMoves(oldID, newID), p).Some?
    ensures CarriedBy(newID, Moved(ConceptMoves(oldID, newID), p).value)
    ensures Moved(ConceptMoves(newID, oldID), Moved(ConceptMoves(oldID, newID), p).value) == Some(p)
  {
    hide Moved;
    ConceptMoved(oldID, newID, p);
    var q := Moved(ConceptMoves(oldID, newID), p).value;
    ConceptMoved(newID, oldID, q);
    if p != oldID + ".md" {
      assert q == newID + "/" + p[|oldID| + 1..];
      assert q[|newID|] == '/';
      assert (newID + ".md")[|newID|] == '.';
      assert q[|newID| + 1..] == p[|oldID| + 1..];
      assert oldID + "/" + p[|oldID| + 1..] == p;
    }
  }

  /** The move undone: every path is back where it was, unless something was under
      the destination already. */
  lemma {:induction false} MoveUndone(oldID: string, newID: string, p: string)
    requires !CarriedBy(newID, p) || CarriedBy(oldID, p)
    ensures var there := Moved(ConceptMoves(oldID, newID), p);
            var q := if there.Some? then there.value else p;
            var back := Moved(ConceptMoves(newID, oldID), q);
            (if back.Some? then back.value else q) == p
  {
    hide Moved;
    ConceptMoved(oldID, newID, p);
    if CarriedBy(oldID, p) {
      CarriedTo(oldID, newID, p);
    } else {
      ConceptMoved(newID, oldID, p);
    }
  }

  /** Something was under the destination, and the way back takes it along. */
  lemma {:induction false} MoveNotUndone(oldID: string, newID: string, p: string)
    requires CarriedBy(newID, p) && !CarriedBy(oldID, p)
    ensures Moved(ConceptMoves(oldID, newID), p) == None
    ensures Moved(ConceptMoves(newID, oldID), p).Some?
    ensures oldID != newID ==> Moved(ConceptMoves(newID, oldID), p).value != p
  {
    hide Moved;
    ConceptMoved(oldID, newID, p);
    CarriedTo(newID, oldID, p);
  }

  // ------------------------------------------------------------------
  // A second run

  function MovedTo(oldID: string, newID: string, p: string): string {
    match Moved(ConceptMoves(oldID, newID), p)
    case Some(q) => q
    case None => p
  }

  /** No path is carried twice. */
  ghost predicate SettlesAtOnce(oldID: string, newID: string) {
    forall p | CarriedBy(oldID, p) :: !CarriedBy(oldID, MovedTo(oldID, newID, p))
  }

  lemma {:induction false} NoSlashInSuffix(b: string, k: nat)
    requires |b| <= k < |b| + 3
    ensures (b + ".md")[k] != '/'
  {
  }

  lemma {:induction false} DocUnder(a: string, b: string)
    ensures a + "/" <= b + ".md" ==> a + "/" <= b
  {
    var d := b + ".md";
    if a + "/" <= d {
      assert d[|a|] == (a + "/")[|a|] == '/';
      if |a| < |b| {
        assert d[..|a| + 1] == b[..|a| + 1];
      } else {
        NoSlashInSuffix(b, |a|);
      }
    }
  }

  lemma {:induction false} DocInDir(a: string, b: string, rest: string)
    ensures a + ".md" == b + "/" + rest ==> b + "/" <= a
  {
    var d := a + ".md";
    if d == b + "/" + rest {
      assert d[|b|] == '/' && d[..|b| + 1] == b + "/";
      if |b| < |a| {
        assert d[..|b| + 1] == a[..|b| + 1];
      } else {
        NoSlashInSuffix(a, |b|);
      }
    }
  }

  lemma {:induction false} PrefixesCompare(a: string, b: string, s: string)
    requires a <= s && b <= s
    ensures a <= b || b <= a
  {
  }

  lemma {:induction false} DirsCompare(a: string, b: string)
    ensures a + "/" <= b + "/" ==> a + "/" <= b || a == b
  {
    if a + "/" <= b + "/" {
      if |a| < |b| {
        assert b[..|a| + 1] == (b + "/")[..|a| + 1];
      } else {
        assert a == (a + "/")[..|a|] == (b + "/")[..|b|] == b;
      }
    }
  }

  lemma {:induction false} DirInDir(a: string, b: string, rest: string)
    ensures a + "/" <= b + "/" + rest ==> Under(a, b) || Under(b, a)
  {
    var q := b + "/" + rest;
    if a + "/" <= q {
      assert q[..|b| + 1] == b + "/";
      PrefixesCompare(a + "/", b + "/", q);
      DirsCompare(a, b);
      DirsCompare(b, a);
    }
  }

  /** Where neither id lies under the other, what was carried stays. */
  lemma {:induction false} StaysWhereCarried(oldID: string, newID: string, p: string)
    requires !Under(oldID, newID) && !Under(newID, oldID) && CarriedBy(oldID, p)
    ensures !CarriedBy(oldID, MovedTo(oldID, newID, p))
  {
    hide Moved;
    ConceptMoved(oldID, newID, p);
    if p == oldID + ".md" {
      assert (oldID + ".md")[..|oldID|] == oldID && (newID + ".md")[..|newID|] == newID;
      assert |oldID| == |newID| ==> (oldID + ".md")[..|oldID|] == oldID;
      SameDoc(oldID, newID);
      DocUnder(oldID, newID);
    } else {
      var rest := p[|oldID| + 1..];
      DocInDir(oldID, newID, rest);
      DirInDir(oldID, newID, rest);
    }
  }

  lemma {:induction false} SameDoc(a: string, b: string)
    ensures a + ".md" == b + ".md" ==> a == b
  {
    if a + ".md" == b + ".md" {
      assert |a| == |b|;
      assert a == (a + ".md")[..|a|] == (b + ".md")[..|b|] == b;
    }
  }

  /** A second run moves nothing exactly when neither id is the other or lies in
      its directory. It is not enough that the destination is outside the source:
      moving "n/x" to "n" carries "n/x/x.md" to "n/x.md", which a second run
      carries on. */
  lemma {:induction false} SettlesExactlyWhenApart(oldID: string, newID: string)
    ensures SettlesAtOnce(oldID, newID) <==> !Under(oldID, newID) && !Under(newID, oldID)
  {
    hide Moved;
    if !Under(oldID, newID) && !Under(newID, oldID) {
      forall p | CarriedBy(oldID, p)
        ensures !CarriedBy(oldID, MovedTo(oldID, newID, p))
      {
        StaysWhereCarried(oldID, newID, p);
      }
    } else if Under(newID, oldID) {
      var p := oldID + ".md";
      ConceptMoved(oldID, newID, p);
      if newID != oldID {
        assert oldID + "/" <= newID + ".md" by { assert (newID + ".md")[..|newID|] == newID; }
      }
      assert CarriedBy(oldID, p) && CarriedBy(oldID, MovedTo(oldID, newID, p));
    } else {
      var x := oldID[|newID| + 1..];
      assert oldID == newID + "/" + x;
      var p := oldID + "/" + (x + ".md");
      ConceptMoved(oldID, newID, p);
      assert p[|oldID|] == '/' && (oldID + ".md")[|oldID|] == '.';
      assert p[|oldID| + 1..] == x + ".md";
      assert newID + "/" + (x + ".md") == oldID + ".md";
      assert CarriedBy(oldID, p) && CarriedBy(oldID, MovedTo(oldID, newID, p));
    }
  }

  // ------------------------------------------------------------------
  // Moves between ids that a link can spell

  /** An id whose paths can be named. */
  predicate NameableID(id: string) {
    IsPath(id) && NoFrag(id) && !(".." <= id)
  }

  lemma {:induction false} DocCarried(oldID: string, newID: string, frag: string)
    requires NameableID(newID) && Nameable(oldID + ".md", frag)
    ensures Nameable(newID + ".md", frag)
  {
    hide IsSpace, IsPath;
    DocIsPath(newID);
    IsPathNotEmpty(newID);
    DocNameable(newID);
  }

  lemma {:induction false} DirCarried(oldID: string, newID: string, rest: string, frag: string)
    requires NameableID(newID) && Nameable(oldID + "/" + rest, frag)
    ensures Nameable(newID + "/" + rest, frag)
  {
    hide IsSpace, IsPath;
    PathConcat(oldID, rest);
    PathConcat(newID, rest);
    IsPathNotEmpty(rest);
    IsPathNotEmpty(newID);
    DirNameable(newID, rest, oldID + "/" + rest);
    assert (newID + "/" + rest)[|newID| + |rest|] == rest[|rest| - 1] == (oldID + "/" + rest)[|oldID| + |rest|];
  }

  /** What a move carries stays nameable. */
  lemma {:induction false} CarriedIsNameable(oldID: string, newID: string, p: string, frag: string)
    requires NameableID(newID) && Nameable(p, frag) && CarriedBy(oldID, p)
    ensures Moved(ConceptMoves(oldID, newID), p).Some?
    ensures Nameable(Moved(ConceptMoves(oldID, newID), p).value, frag)
  {
    hide Moved, Nameable, NameableID;
    ConceptMoved(oldID, newID, p);
    if p == oldID + ".md" {
      DocCarried(oldID, newID, frag);
    } else {
      var rest := p[|oldID| + 1..];
      assert p == oldID + "/" + rest;
      DirCarried(oldID, newID, rest, frag);
    }
  }

  lemma {:induction false} IsPathNotEmpty(t: string)
    requires IsPath(t)
    ensures t != "" && t != "."
  {
    CleanOfPath(t);
  }

  lemma {:induction false} DocNameable(id: string)
    requires NoFrag(id) && !(".." <= id) && id != "" && id != "."
    ensures NoFrag(id + ".md") && !(".." <= id + ".md")
  {
    var d := id + ".md";
    assert |id| >= 2 ==> d[..2] == id[..2];
    if |id| == 1 {
      assert d[0] == id[0];
      assert id[0] == '.' ==> id == ".";
    }
  }

  lemma {:induction false} DirNameable(id: string, rest: string, p: string)
    requires NoFrag(id) && !(".." <= id) && id != "" && id != "." && NoFrag(p) && |rest| <= |p|
            && rest == p[|p| - |rest|..]
    ensures NoFrag(id + "/" + rest) && !(".." <= id + "/" + rest)
  {
    var d := id + "/" + rest;
    assert |id| >= 2 ==> d[..2] == id[..2];
    if |id| == 1 {
      assert d[1] == '/';
    }
    forall i | 0 <= i < |d|
      ensures !IsFrag(d[i])
    {
      if i > |id| {
        assert d[i] == rest[i - |id| - 1];
      }
    }
  }

  lemma {:induction false} DocIsPath(id: string)
    requires IsPath(id)
    ensures IsPath(id + ".md")
  {
    SplitSuffix(id, ".md");
    var a, b := Split(id, '/'), Split(id + ".md", '/');
    forall k | 0 <= k < |b|
      ensures b[k] != "" && b[k] != "." && b[k] != ".."
    {
      if k == |b| - 1 {
        assert |b[k]| > 3;
      } else {
        assert b[k] == a[k];
      }
    }
  }

  lemma {:induction false} SplitSuffix(id: string, suffix: string)
    requires '/' !in suffix
    ensures var a := Split(id, '/');
            Split(id + suffix, '/') == a[..|a| - 1] + [a[|a| - 1] + suffix]
  {
    if id == "" {
      assert id + suffix == suffix;
      SplitWithoutSeparator(suffix, '/');
    } else {
      assert (id + suffix)[1..] == id[1..] + suffix && (id + suffix)[0] == id[0];
      SplitSuffix(id[1..], suffix);
      var tail := Split(id[1..], '/');
      if |tail| == 1 && id[0] != '/' {
        assert Split(id + suffix, '/') == [[id[0]] + (tail[0] + suffix)];
        assert [id[0]] + (tail[0] + suffix) == [id[0]] + tail[0] + suffix;
      }
    }
  }

  /** A move between nameable ids, seen from any concept: a value that named what
      is carried names it where it went, and after the move back it names it where
      it was. */
  lemma {:induction false} ValueThereAndBack(id: string, value: string, oldID: string, newID: string, id': string,
                                             id'': string)
    requires NameableID(oldID) && NameableID(newID)
    requires Resolved(id, value).Some? && CarriedBy(oldID, Resolved(id, value).value)
    requires Nameable(Resolved(id, value).value, Fragment(TrimSpace(value)))
    ensures var there := MovePathValue(id, value, ConceptMoves(oldID, newID), false).0;
            var back := MovePathValue(id', there, ConceptMoves(newID, oldID), false).0;
            && Resolved(id', there) == Moved(ConceptMoves(oldID, newID), Resolved(id, value).value)
            && Resolved(id'', back) == Resolved(id, value)
  {
    hide Resolved, Nameable, Spellable, Moved, PathPart, Fragment, TrimSpace, MovePathValue, NameableID,
        ConceptMoves, CarriedBy;
    var p, frag := Resolved(id, value).value, Fragment(TrimSpace(value));
    CarriedIsNameable(oldID, newID, p, frag);
    CarriedTo(oldID, newID, p);
    var q := Moved(ConceptMoves(oldID, newID), p).value;
    ValueFollows(id, value, ConceptMoves(oldID, newID), false, id');
    var there := MovePathValue(id, value, ConceptMoves(oldID, newID), false).0;
    ValueSpelled(id, value, ConceptMoves(oldID, newID));
    FragmentOf(value);
    NameableIsSpellable(p, frag);
    NameableIsSpellable(q, frag);
    AbsoluteReads(id', q, frag);
    ValueFollows(id', there, ConceptMoves(newID, oldID), false, id'');
  }

  lemma {:induction false} ValueSpelled(id: string, value: string, moves: seq<Move>)
    requires Resolved(id, value).Some? && Moved(moves, Resolved(id, value).value).Some?
    ensures MovePathValue(id, value, moves, false).0
            == "/" + Moved(moves, Resolved(id, value).value).value + Fragment(TrimSpace(value))
  {
    hide Resolved, Moved, PathPart, Fragment, TrimSpace;
  }

  lemma {:induction false} DocMoves(id: string, oldID: string, newID: string)
    requires NameableID(oldID)
    ensures MovePathValue(id, "/" + oldID + ".md", ConceptMoves(oldID, newID), false).0 == "/" + newID + ".md"
  {
    hide Moved, Resolved, IsPath, IsSpace, PathPart, Fragment, TrimSpace, ConceptMoves;
    var p := oldID + ".md";
    DocIsPath(oldID);
    IsPathNotEmpty(oldID);
    DocNameable(oldID);
    LetterIsSolid();
    NameableIsSpellable(p, "");
    AbsoluteReads(id, p, "");
    assert "/" + p + "" == "/" + oldID + ".md";
    ConceptMoved(oldID, newID, p);
    assert "/" + (newID + ".md") + "" == "/" + newID + ".md";
  }

  /** An id with a fragment character cannot be followed: the moved value is cut
      where it stands. */
  lemma {:induction false} HashIsLost(id: string, oldID: string, newID: string)
    requires NameableID(oldID) && !NoFrag(newID)
    ensures var there := MovePathValue(id, "/" + oldID + ".md", ConceptMoves(oldID, newID), false).0;
            there == "/" + newID + ".md" && Resolved(id, there) != Some(newID + ".md")
  {
    hide Resolved, MovePathValue, IsPath, IsSpace, Clean;
    DocMoves(id, oldID, newID);
    ReadsExactly(id, newID + ".md", "");
    assert "/" + (newID + ".md") + "" == "/" + newID + ".md";
    FragStays(newID, ".md");
  }

  lemma {:induction false} FragStays(a: string, b: string)
    ensures NoFrag(a + b) <==> NoFrag(a) && NoFrag(b)
  {
    assert forall i | 0 <= i < |a| :: (a + b)[i] == a[i];
    assert forall i | 0 <= i < |b| :: (a + b)[|a| + i] == b[i];
  }

  lemma {:induction false} LetterIsSolid()
    ensures !IsSpace('d')
  {
  }
}
