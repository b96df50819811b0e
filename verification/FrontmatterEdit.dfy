/** The write half of the structured face: SetFrontmatterKeys
    (internal/okf/frontmatter.go:101-268). */
module FrontmatterEdit {
  import opened Text
  import opened Order
  import opened Frontmatter
  import opened ServerKeys
  import opened Claims
  import opened Splice
  import opened SpliceLaws

  datatype Refusal = ServerOwnedKey | NoFrontmatter | NotAMapping | NotAKey | WouldNotParse | DidNotReadBack

  datatype Edited = Ok(doc: Document) | Refused(why: Refusal)

  /** What renderKey accepts as a key. */
  predicate WritableKey(key: string) {
    key != "" && ':' !in key && '\n' !in key && '#' !in key
  }

  /** topLevelKeys: an empty frontmatter has none, and a block that is not a
      mapping with keys is not answered for. */
  function TopLevelKeys(doc: Document): Option<seq<string>> {
    if doc.Framed? && doc.lines == [] then Some([])
    else if doc.Addressable() then Some(NamesOf(Groups(doc.lines)))
    else None
  }

  /** Whether the produced document says what was asked for. */
  method VerifySpliced(out: Document, set': set<string>, unset: seq<string>) returns (r: Option<Refusal>)
    ensures set' == {} && unset == [] ==> r == None
    ensures set' != {} || unset != [] ==>
              && (r == Some(WouldNotParse) <==> TopLevelKeys(out) == None)
              && (r == None <==> TopLevelKeys(out).Some?
                                 && (forall k | k in set' :: k in TopLevelKeys(out).value)
                                 && (forall k | k in unset :: k !in TopLevelKeys(out).value))
    ensures r in {None, Some(WouldNotParse), Some(DidNotReadBack)}
  {
    if |set'| == 0 && unset == [] {
      return None;
    }
    var keys := TopLevelKeys(out);
    if keys.None? {
      return Some(WouldNotParse);
    }
    var left := set';
    while left != {}
      invariant left <= set' && forall k | k in set' && k !in left :: k in keys.value
      decreases left
    {
      var k :| k in left;
      if k !in keys.value {
        return Some(DidNotReadBack);
      }
      left := left - {k};
    }
    for i := 0 to |unset|
      invariant forall j | 0 <= j < i :: unset[j] !in keys.value
    {
      if unset[i] in keys.value {
        return Some(DidNotReadBack);
      }
    }
    return None;
  }

  /** What a caller can see before asking: no key of this instance's, keys that
      can be written, and a frontmatter that is a mapping or empty. */
  predicate Askable(doc: Document, set': set<string>, unset: seq<string>) {
    && (forall k | k in set' :: !ServerOwned(k) && k != "" && forall c | c in k :: c !in [':', '\n', '#'])
    && (forall k | k in unset :: !ServerOwned(k))
    && doc.Framed? && TopLevelKeys(doc).Some?
  }

  method SetFrontmatterKeys(doc: Document, set': Blocks, unset: seq<string>) returns (r: Edited)
    requires ValidBlocks(set')
    ensures r.Ok? ==> Askable(doc, set'.Keys, unset)
    ensures r.Ok? ==> r.doc == Framed(true, Spliced(doc.lines, set', SetOf(unset)), doc.rest)
    ensures r.Ok? <==> && Askable(doc, set'.Keys, unset)
                       && ((set' == map[] && unset == [])
                           || Honoured(Framed(true, Spliced(doc.lines, set', SetOf(unset)), doc.rest), set'.Keys,
                               unset))
  {
    hide Groups, Spliced;
    if k :| k in set' && ServerOwned(k) {
      return Refused(ServerOwnedKey);
    }
    for i := 0 to |unset|
      invariant forall j | 0 <= j < i :: !ServerOwned(unset[j])
    {
      if ServerOwned(unset[i]) {
        return Refused(ServerOwnedKey);
      }
    }
    if doc.Plain? {
      return Refused(NoFrontmatter);
    }
    var present := TopLevelKeys(doc);
    if present.None? {
      return Refused(NotAMapping);
    }
    if k :| k in set' && !WritableKey(k) {
      return Refused(NotAKey);
    }
    NoGroups();
    assert present.value == NamesOf(Groups(doc.lines));
    var lines := SpliceKeys(doc.lines, present.value, set', SetOf(unset));
    var out := Framed(true, lines, doc.rest);
    var bad := VerifySpliced(out, set'.Keys, unset);
    if bad.Some? {
      return Refused(bad.value);
    }
    return Ok(out);
  }

  lemma {:induction false} NoGroups()
    ensures Groups([]) == [] && NamesOf([]) == [] && Preamble([]) == []
  {
  }

  /** The document reads back as carrying every set key and no unset one. */
  ghost predicate Honoured(out: Document, set': set<string>, unset: seq<string>) {
    && TopLevelKeys(out).Some?
    && (forall k | k in set' :: k in TopLevelKeys(out).value)
    && (forall k | k in unset :: k !in TopLevelKeys(out).value)
  }

  /** The read-back refuses exactly two requests: one that sets and unsets the
      same key, and one that leaves comments or blank lines with no key at all. */
  lemma {:induction false} HonouredExactlyWhen(doc: Document, set': Blocks, unset: seq<string>)
    requires ValidBlocks(set') && doc.Framed?
    ensures var out := Framed(true, Spliced(doc.lines, set', SetOf(unset)), doc.rest);
            Honoured(out, set'.Keys, unset)
            <==> && (forall k | k in unset :: k !in set')
                 && (out.lines == []
                     || set' != map[]
                     || exists k | k in NamesOf(Groups(doc.lines)) :: k !in unset)
  {
    hide Groups, Spliced, NamesOf;
    var out := Framed(true, Spliced(doc.lines, set', SetOf(unset)), doc.rest);
    var names, names' := NamesOf(Groups(doc.lines)), NamesOf(Groups(out.lines));
    NoGroups();
    forall k
      ensures k in names' <==> k in set' || (k in names && k !in unset)
    {
      EachKeyOnce(doc.lines, set', SetOf(unset), k);
      CountIsMember(names, k, |names|);
      CountIsMember(names', k, |names'|);
      assert names[..|names|] == names && names'[..|names'|] == names';
    }
    assert |names'| == |Groups(out.lines)|;
    assert TopLevelKeys(out).Some? ==> TopLevelKeys(out).value == names';
    if names' != [] {
      assert names'[0] in names';
    }
    if set' != map[] {
      var k :| k in set';
      assert k in names';
    }
  }

  lemma {:induction false} CountIsMember(names: seq<string>, k: string, n: nat)
    requires n <= |names|
    ensures Count(names, k, n) > 0 <==> k in names[..n]
  {
    if n > 0 {
      CountIsMember(names, k, n - 1);
      assert names[..n] == names[..n - 1] + [names[n - 1]];
    }
  }
}
