/** Which path values follow a move: the exact condition for a value, for the move of
    a concept and for the move of a directory (internal/domain/pathfields.go). */
module PathFollows {
  import opened Text
  import opened Paths
  import opened LinkTarget
  import opened PathMoves

  /** An id as the bundle's rules allow: plain segments, no climbing. */
  predicate IsID(id: string) {
    IsPath(id) && !(".." <= id)
  }

  /** What lies under a carried directory, when its own absolute form can be read back. */
  predicate PlainRest(rest: string, frag: string) {
    rest != "" && NoFrag(rest) && !IsSpace(LastOf(rest, frag))
  }

  // ------------------------------------------------------------------
  // A resolved path is made of plain segments

  lemma {:induction false} CleanKeepsRoot(p: string)
    ensures p != "" && p[0] == '/' ==> Clean(p)[0] == '/'
  {
  }

  lemma {:induction false} ResolvedIsPath(id: string, value: string)
    requires Resolved(id, value).Some? && Resolved(id, value).value[0] != '/'
    ensures IsPath(Resolved(id, value).value)
  {
    hide Clean, TrimSpace, PathPart, HasScheme, DirOf;
    var target := PathPart(TrimSpace(value));
    var dir := DirOf(id);
    var t := if target[0] == '/' then target[1..] else if dir == "" then target else dir + "/" + target;
    assert Resolved(id, value).value == Clean(t);
    CleanKeepsRoot(t);
    CleanIsPath(t);
  }

  lemma {:induction false} PathStarts(id: string, rest: string)
    requires IsPath(id)
    ensures id != "" && id[0] != '/' && (id + rest)[0] != '/'
  {
    hide IsPath;
    CleanOfPath(id);
  }

  /** The part of a carried path below the moved directory. */
  lemma {:induction false} RestIsPath(id: string, value: string, oldID: string)
    requires IsID(oldID) && Resolved(id, value).Some? && oldID + "/" <= Resolved(id, value).value
    ensures var rest := Resolved(id, value).value[|oldID| + 1..];
            Resolved(id, value).value == oldID + "/" + rest && IsPath(rest) && rest != ""
  {
    hide Resolved, IsPath;
    var p := Resolved(id, value).value;
    var rest := p[|oldID| + 1..];
    assert p == oldID + "/" + rest;
    PathStarts(oldID, "/" + rest);
    assert p == oldID + ("/" + rest);
    ResolvedIsPath(id, value);
    PathConcat(oldID, rest);
    IsPathNotEmpty(rest);
  }

  // ------------------------------------------------------------------
  // Where a moved value can be spelled

  lemma {:induction false} NoClimb(id: string, more: string)
    requires IsID(id) && more != "" && (more[0] == '/' || |more| > 2)
    ensures !(".." <= id + more) || (id == "." && more[0] == '.')
  {
    hide IsPath;
    CleanOfPath(id);
    assert |id| >= 2 ==> (id + more)[..2] == id[..2];
    if |id| == 1 {
      assert (id + more)[0] == id[0] && (id + more)[1] == more[0];
    }
  }

  lemma {:induction false} DocSpellable(newID: string, frag: string)
    requires IsID(newID) && (frag != "" ==> !IsSpace(frag[|frag| - 1]))
    ensures Spellable(newID + ".md", frag) <==> NoFrag(newID)
  {
    hide Clean, IsPath, IsSpace;
    DocIsPath(newID);
    CleanOfPath(newID + ".md");
    IsPathNotEmpty(newID);
    NoClimb(newID, ".md");
    FragStays(newID, ".md");
    LetterIsSolid();
  }

  lemma {:induction false} DirSpellable(newID: string, rest: string, frag: string)
    requires IsID(newID) && IsPath(rest) && rest != ""
    ensures Spellable(newID + "/" + rest, frag) <==> NoFrag(newID) && PlainRest(rest, frag)
  {
    hide Clean, IsPath, IsSpace;
    var q := newID + "/" + rest;
    assert q == newID + ("/" + rest);
    PathConcat(newID, rest);
    CleanOfPath(q);
    IsPathNotEmpty(newID);
    NoClimb(newID, "/" + rest);
    FragStays(newID, "/" + rest);
    FragStays("/", rest);
    assert q[|q| - 1] == rest[|rest| - 1];
  }

  // ------------------------------------------------------------------
  // The move of a concept

  /** The value names, from id', where what it named was carried to. */
  predicate Follows(id: string, value: string, moves: seq<Move>, absolutize: bool, id': string) {
    && Resolved(id, value).Some? && Moved(moves, Resolved(id, value).value).Some?
    && Resolved(id', MovePathValue(id, value, moves, absolutize).0) == Moved(moves, Resolved(id, value).value)
  }

  /** The value names the moved document, or a path under the moved directory that has
      no `#` or `?` below it and does not end in white space with no fragment after it. */
  predicate NamesPlainly(id: string, value: string, oldID: string) {
    Resolved(id, value).Some? &&
    var p := Resolved(id, value).value;
    || p == oldID + ".md"
    || (oldID + "/" <= p && PlainRest(p[|oldID| + 1..], Fragment(TrimSpace(value))))
  }

  /** A value that names what the move carries follows it, whatever concept it is read
      from, exactly when the new id has no `#` or `?` and the value names plainly. */
  lemma {:induction false} FollowsExactly(id: string, value: string, oldID: string, newID: string, absolutize: bool,
                                          id': string)
    requires IsID(oldID) && IsID(newID)
    requires Resolved(id, value).Some? && CarriedBy(oldID, Resolved(id, value).value)
    ensures Follows(id, value, ConceptMoves(oldID, newID), absolutize, id')
            <==> NoFrag(newID) && NamesPlainly(id, value, oldID)
  {
    hide Resolved, Moved, MovePathValue, Spellable, PathPart, Fragment, TrimSpace, IsPath, ConceptMoves, PlainRest;
    var p, frag := Resolved(id, value).value, Fragment(TrimSpace(value));
    ConceptMoved(oldID, newID, p);
    ValueFollows(id, value, ConceptMoves(oldID, newID), absolutize, id');
    FragmentOf(value);
    if p == oldID + ".md" {
      DocSpellable(newID, frag);
    } else {
      RestIsPath(id, value, oldID);
      DirSpellable(newID, p[|oldID| + 1..], frag);
    }
  }

  ghost predicate EveryValueFollows(oldID: string, newID: string) {
    forall id, value, id' | NamesPlainly(id, value, oldID) :: Follows(id, value, ConceptMoves(oldID, newID), false, id')
  }

  lemma {:induction false} PlainlyIsCarried(id: string, value: string, oldID: string)
    requires NamesPlainly(id, value, oldID)
    ensures Resolved(id, value).Some? && CarriedBy(oldID, Resolved(id, value).value)
  {
    hide Resolved, PlainRest;
  }

  /** A concept's move takes along every value that names what it carries plainly,
      exactly when the new id has no `#` or `?`. */
  lemma {:induction false} MoveIsFollowedExactlyWhenPlain(oldID: string, newID: string)
    requires IsID(oldID) && IsID(newID)
    ensures EveryValueFollows(oldID, newID) <==> '#' !in newID && '?' !in newID
  {
    NoFragIs(newID);
    hide NamesPlainly, Follows, IsID, Resolved, CarriedBy;
    if NoFrag(newID) {
      forall id, value, id' | NamesPlainly(id, value, oldID)
        ensures Follows(id, value, ConceptMoves(oldID, newID), false, id')
      {
        PlainlyIsCarried(id, value, oldID);
        FollowsExactly(id, value, oldID, newID, false, id');
      }
    }
    if EveryValueFollows(oldID, newID) {
      var id, value := SomeValue(oldID);
      PlainlyIsCarried(id, value, oldID);
      FollowsExactly(id, value, oldID, newID, false, id);
    }
  }

  // ------------------------------------------------------------------
  // A value that names something carried: "y" read in the directory

  lemma {:induction false} SomeValue(oldID: string) returns (id: string, value: string)
    requires IsID(oldID)
    ensures NamesPlainly(id, value, oldID)
  {
    hide IsID, Resolved, IsSpace, TrimSpace, Fragment;
    id, value := oldID + "/x", "y";
    ResolvedY(oldID);
    SolidY();
    PartsOfY();
    assert (oldID + "/y")[..|oldID| + 1] == oldID + "/";
    assert (oldID + "/y")[|oldID| + 1..] == "y";
  }

  lemma {:induction false} ResolvedY(oldID: string)
    requires IsID(oldID)
    ensures Resolved(oldID + "/x", "y") == Some(oldID + "/y")
  {
    hide Clean, IsPath, IsSpace, TrimSpace, HasScheme, PathPart, DirOf;
    DirOfChild(oldID);
    SolidY();
    PartsOfY();
    NoSchemeInY();
    PathY();
    assert oldID + "/" + "y" == oldID + "/y";
    PathConcat(oldID, "y");
    CleanOfPath(oldID + "/y");
    CleanOfPath(oldID);
    NoClimb(oldID, "/y");
  }

  lemma {:induction false} SolidY()
    ensures TrimSpace("y") == "y" && !IsSpace('y')
  {
    LetterIsSolidY();
    hide IsSpace, TrimSpace;
    SolidEnds("y");
  }

  lemma {:induction false} LetterIsSolidY()
    ensures !IsSpace('y')
  {
  }

  lemma {:induction false} PartsOfY()
    ensures PathPart("y") == "y" && Fragment("y") == "" && NoFrag("y")
  {
    hide PathPart, Fragment;
    PartsOf("y", "");
    assert "y" + "" == "y";
  }

  lemma {:induction false} NoSchemeInY()
    ensures !HasScheme("y")
  {
    assert !SchemeTail("y", 1);
  }

  lemma {:induction false} PathY()
    ensures IsPath("y")
  {
    SplitWithoutSeparator("y", '/');
  }

  lemma {:induction false} DirOfChild(id: string)
    requires IsID(id)
    ensures DirOf(id + "/x") == id
  {
    hide Clean, IsPath;
    assert id + "/x" == id + "/" + "x";
    UpToLast(id + "/", "x");
    CleanSlashEnd(id);
    IsPathNotEmpty(id);
  }

  lemma {:induction false} UpToLast(a: string, b: string)
    requires a != "" && a[|a| - 1] == '/' && |b| == 1 && b[0] != '/'
    ensures UpToSlash(a + b) == a
  {
    assert (a + b)[..|a|] == a;
    assert TrimRight(a, NotSlash) == a;
  }

  /** A slash at the end goes. */
  lemma {:induction false} CleanSlashEnd(id: string)
    requires IsPath(id)
    ensures Clean(id + "/") == id
  {
    hide Split;
    var segs := Split(id, '/');
    SplitOfConcat(id, '/', "");
    assert id + ['/'] + "" == id + "/";
    SplitWithoutSeparator("", '/');
    CleanOfPath(id);
    var more := segs + [""];
    assert Split(id + "/", '/') == more;
    CleanUpToFront(segs, more, |segs|);
    assert CleanSegments(id + "/") == CleanSegments(id);
  }

  lemma {:induction false} CleanUpToFront(a: seq<string>, b: seq<string>, n: nat)
    requires n <= |a| <= |b| && a == b[..|a|]
    ensures CleanUpTo(a, false, n) == CleanUpTo(b, false, n)
  {
    if n > 0 {
      CleanUpToFront(a, b, n - 1);
    }
  }

  // ------------------------------------------------------------------
  // The move of a directory

  /** What the one rename does to a path. */
  lemma {:induction false} PrefixMoved(oldPrefix: string, newPrefix: string, p: string)
    ensures Moved(PrefixMoves(oldPrefix, newPrefix), p)
            == if oldPrefix + "/" <= p then Some(newPrefix + "/" + p[|oldPrefix| + 1..]) else None
  {
    var moves, dir := PrefixMoves(oldPrefix, newPrefix), oldPrefix + "/";
    assert moves[1..] == [];
    assert dir[|dir| - 1..] == "/";
  }

  function PrefixMovedTo(oldPrefix: string, newPrefix: string, p: string): string {
    match Moved(PrefixMoves(oldPrefix, newPrefix), p)
    case Some(q) => q
    case None => p
  }

  /** The way back restores a path exactly when it was carried or lay outside the
      destination. */
  lemma {:induction false} DirectoryMoveUndone(oldPrefix: string, newPrefix: string, p: string)
    ensures PrefixMovedTo(newPrefix, oldPrefix, PrefixMovedTo(oldPrefix, newPrefix, p)) == p
            <==> oldPrefix + "/" <= p || !(newPrefix + "/" <= p)
  {
    hide Moved;
    PrefixMoved(oldPrefix, newPrefix, p);
    var q := PrefixMovedTo(oldPrefix, newPrefix, p);
    PrefixMoved(newPrefix, oldPrefix, q);
    if oldPrefix + "/" <= p {
      assert q[..|newPrefix| + 1] == newPrefix + "/" && q[|newPrefix| + 1..] == p[|oldPrefix| + 1..];
      assert p == oldPrefix + "/" + p[|oldPrefix| + 1..];
    } else if newPrefix + "/" <= p {
      var back := PrefixMovedTo(newPrefix, oldPrefix, p);
      assert back[..|oldPrefix| + 1] == oldPrefix + "/";
    }
  }

  /** A second run of a directory's move carries nothing, exactly when neither directory
      lies in the other. */
  lemma {:induction false} DirectoryMoveSettles(oldPrefix: string, newPrefix: string)
    ensures (forall p | oldPrefix + "/" <= p :: !(oldPrefix + "/" <= PrefixMovedTo(oldPrefix, newPrefix, p)))
            <==> !Under(oldPrefix, newPrefix) && !Under(newPrefix, oldPrefix)
  {
    hide Moved;
    var a, b := oldPrefix + "/", newPrefix + "/";
    if !Under(oldPrefix, newPrefix) && !Under(newPrefix, oldPrefix) {
      forall p | a <= p
        ensures !(a <= PrefixMovedTo(oldPrefix, newPrefix, p))
      {
        PrefixMoved(oldPrefix, newPrefix, p);
        DirInDir(oldPrefix, newPrefix, p[|oldPrefix| + 1..]);
      }
    } else {
      var rest := if Under(newPrefix, oldPrefix) then "x" else a[|b|..];
      var p := a + rest;
      PrefixMoved(oldPrefix, newPrefix, p);
      var q := PrefixMovedTo(oldPrefix, newPrefix, p);
      assert p[|oldPrefix| + 1..] == rest && q == b + rest;
      if Under(newPrefix, oldPrefix) {
        assert q[..|b|] == b && a <= b;
      }
      assert a <= p && a <= q;
    }
  }
}
