/** What folding shards promises (foldShards of cmd/ochakai/seed.go): no table is
    lost or counted twice, no two entries share a name, and folding again changes
    nothing. */
module ShardLaws {
  import opened Text
  import opened Order
  import opened Shards

  // ------------------------------------------------------------------
  // Names

  lemma {:induction false} FoldIsDistinct(date: IsDate, tables: seq<Table>, out: seq<Table>)
    requires IsFold(date, tables, out)
    ensures Shards.Distinct(out)
  {
    hide TableLess, InFold;
    forall i, j | 0 <= i < j < |out|
      ensures out[i].schema != out[j].schema || out[i].name != out[j].name
    {
      assert TableLess(out[i], out[j]);
      LessOfSameName(out[i], out[j]);
    }
  }

  lemma {:induction false} LessOfSameName(a: Table, b: Table)
    ensures TableLess(a, b) ==> a.schema != b.schema || a.name != b.name
  {
    hide Less;
    LessIsIrreflexive(a.name);
  }

  // ------------------------------------------------------------------
  // Every table once

  /** The entry holds the table as one of its shards. */
  predicate Holds(entry: Table, t: Table) {
    entry.schema == t.schema && entry.name + Suffix(t) == t.name && Suffix(t) in entry.shards
  }

  lemma {:induction false} EntryHolds(date: IsDate, tables: seq<Table>, k: Key, entry: Table, i: nat)
    requires IsEntry(date, tables, k, entry) && i < |tables| && KeyOf(date, tables[i]) == Some(k)
    ensures Holds(entry, tables[i])
  {
    hide IsShard;
    MembersAre(date, tables, k, |tables|);
    assert i in Group(date, tables, k);
    NameIsStemAndSuffix(date, tables[i]);
    assert Suffix(tables[i]) in SuffixesOf(tables, Group(date, tables, k));
  }

  /** A table that was folded is no longer listed itself. */
  lemma {:induction false} FoldedIsGone(date: IsDate, tables: seq<Table>, i: nat)
    requires Shards.Distinct(tables) && i < |tables| && Folded(date, tables, i)
    ensures !InFold(date, tables, tables[i])
  {
    hide KeyOf, Folds, Folded;
    var t := tables[i];
    forall j | 0 <= j < |tables| && tables[j] == t
      ensures Folded(date, tables, j)
    {
      SameTable(tables, i, j);
    }
    forall k | Folds(date, tables, k)
      ensures !IsEntry(date, tables, k, t)
    {
      if IsEntry(date, tables, k, t) {
        EntryIsNoShard(date, tables, k, t);
        FoldedIsShard(date, tables, i);
      }
    }
  }

  lemma {:induction false} SameTable(tables: seq<Table>, i: nat, j: nat)
    requires Shards.Distinct(tables) && i < |tables| && j < |tables|
    requires tables[i].schema == tables[j].schema && tables[i].name == tables[j].name
    ensures i == j
  {
  }

  lemma {:induction false} FoldedIsShard(date: IsDate, tables: seq<Table>, i: nat)
    requires i < |tables| && Folded(date, tables, i)
    ensures KeyOf(date, tables[i]).Some?
  {
  }

  lemma {:induction false} EntryIsNoShard(date: IsDate, tables: seq<Table>, k: Key, t: Table)
    requires Folds(date, tables, k) && IsEntry(date, tables, k, t)
    ensures KeyOf(date, t) == None
  {
    hide KeyOf, Named;
    MembersAre(date, tables, k, |tables|);
    var i := Group(date, tables, k)[0];
    assert i in Group(date, tables, k);
    StemIsNoShard(date, tables[i], t);
  }

  /** A folded table is one shard of one entry, and no longer listed; any other table
      is listed as it was. */
  lemma {:induction false} EveryTableOnce(date: IsDate, tables: seq<Table>, out: seq<Table>, i: nat)
    requires Shards.Distinct(tables) && IsFold(date, tables, out) && i < |tables|
    ensures !Folded(date, tables, i) ==> tables[i] in out
    ensures Folded(date, tables, i)
            ==> tables[i] !in out && exists entry :: entry in out && |entry.shards| >= 2 && Holds(entry, tables[i])
  {
    hide KeyOf, Folded, Folds, Shards.Distinct, Holds;
    if Folded(date, tables, i) {
      FoldedIsGone(date, tables, i);
      var k := FoldedKey(date, tables, i);
      var entry := SomeEntry(date, tables, k);
      assert InFold(date, tables, entry);
      EntryHolds(date, tables, k, entry, i);
      EntryHasTwo(date, tables, k, entry);
    } else {
      assert InFold(date, tables, tables[i]);
    }
  }

  lemma {:induction false} FoldedKey(date: IsDate, tables: seq<Table>, i: nat) returns (k: Key)
    requires i < |tables| && Folded(date, tables, i)
    ensures KeyOf(date, tables[i]) == Some(k) && Folds(date, tables, k)
  {
    k := KeyOf(date, tables[i]).value;
  }

  lemma {:induction false} SomeEntry(date: IsDate, tables: seq<Table>, k: Key) returns (t: Table)
    requires Folds(date, tables, k)
    ensures IsEntry(date, tables, k, t)
  {
    hide KeyOf;
    MembersAre(date, tables, k, |tables|);
    var members := Group(date, tables, k);
    var i := SomeLatest(tables, members, |members|);
    t := Table(k.schema, k.stem, tables[i].columns, SortedStrings(SuffixesOf(tables, members)));
    assert IsLatest(tables, members, i);
  }

  lemma {:induction false} SomeLatest(tables: seq<Table>, members: seq<nat>, n: nat) returns (i: nat)
    requires 0 < n <= |members| && forall j | j in members :: j < |tables|
    ensures i in members && i < |tables|
    ensures forall x | 0 <= x < n :: members[x] < |tables| && !Less(tables[i].name, tables[members[x]].name)
  {
    hide Less;
    var last := members[n - 1];
    assert last in members;
    LessIsIrreflexive(tables[last].name);
    if n == 1 {
      i := last;
    } else {
      i := SomeLatest(tables, members, n - 1);
      if Less(tables[i].name, tables[last].name) {
        forall x | 0 <= x < n - 1
          ensures !Less(tables[last].name, tables[members[x]].name)
        {
          if Less(tables[last].name, tables[members[x]].name) {
            LessIsTransitive(tables[i].name, tables[last].name, tables[members[x]].name);
          }
        }
        i := last;
      }
    }
  }

  /** Two shards of one entry have two dates. */
  lemma {:induction false} EntryHasTwo(date: IsDate, tables: seq<Table>, k: Key, t: Table)
    requires Shards.Distinct(tables) && Folds(date, tables, k) && IsEntry(date, tables, k, t)
    ensures |t.shards| >= 2
  {
    hide IsShard, Suffix;
    MembersAre(date, tables, k, |tables|);
    var members := Group(date, tables, k);
    var i, j := members[0], members[1];
    assert i in members && j in members;
    NameIsStemAndSuffix(date, tables[i]);
    NameIsStemAndSuffix(date, tables[j]);
    assert Suffix(tables[i]) != Suffix(tables[j]) by {
      if Suffix(tables[i]) == Suffix(tables[j]) {
        SameTable(tables, i, j);
      }
    }
    assert Suffix(tables[i]) in SuffixesOf(tables, members) && Suffix(tables[j]) in SuffixesOf(tables, members);
    assert Suffix(tables[i]) in t.shards && Suffix(tables[j]) in t.shards;
    TwoIn(t.shards, Suffix(tables[i]), Suffix(tables[j]));
  }

  lemma {:induction false} TwoIn(s: seq<string>, a: string, b: string)
    requires a in s && b in s && a != b
    ensures |s| >= 2
  {
  }

  lemma {:induction false} ConcatIsOne(a: string, b: string, s: string)
    requires a + s == b + s
    ensures a == b
  {
    assert |a| == |b|;
    assert a == (a + s)[..|a|] == (b + s)[..|b|] == b;
  }

  // ------------------------------------------------------------------
  // Which tables fold

  /** stem, which does not end in a digit, followed by a date of eight digits; only the
      stem's end may be a line break. */
  predicate Dated(date: IsDate, name: string, stem: string) {
    && stem != "" && !('0' <= stem[|stem| - 1] <= '9') && '\n' !in stem[..|stem| - 1]
    && stem <= name && |name| == |stem| + 8 && date(name[|stem|..])
    && forall c | c in name[|stem|..] :: '0' <= c <= '9'
  }

  /** Another table of the schema is dated with the stem. */
  predicate HasSibling(date: IsDate, tables: seq<Table>, i: nat, stem: string)
    requires i < |tables|
  {
    exists j :: 0 <= j < |tables| && j != i && tables[j].schema == tables[i].schema && Dated(date, tables[j].name, stem)
  }

  predicate HasTable(tables: seq<Table>, schema: string, name: string) {
    exists t :: t in tables && t.schema == schema && t.name == name
  }

  lemma {:induction false} DatedIs(date: IsDate, t: Table, stem: string)
    ensures KeyOf(date, t) == Some(Key(t.schema, stem)) <==> Dated(date, t.name, stem)
  {
    if Dated(date, t.name, stem) {
      DatedIsShard(date, t.name, stem);
    }
    if KeyOf(date, t) == Some(Key(t.schema, stem)) {
      ShardIsDated(date, t.name, stem);
    }
  }

  lemma {:induction false} DatedIsShard(date: IsDate, name: string, stem: string)
    requires Dated(date, name, stem)
    ensures IsShard(date, name) && name[..|name| - 8] == stem
  {
    var suffix := name[|stem|..];
    forall i | |stem| <= i < |name|
      ensures Digit(name[i])
    {
      assert name[i] == suffix[i - |stem|] && suffix[i - |stem|] in suffix;
    }
    assert name[..|name| - 8] == stem;
    assert name[..|name| - 9] == stem[..|stem| - 1];
    assert name[|name| - 9] == stem[|stem| - 1];
  }

  lemma {:induction false} ShardIsDated(date: IsDate, name: string, stem: string)
    requires IsShard(date, name) && name[..|name| - 8] == stem
    ensures Dated(date, name, stem)
  {
    var suffix := name[|stem|..];
    assert forall i | |stem| <= i < |name| :: name[i] == suffix[i - |stem|];
    assert stem[|stem| - 1] == name[|name| - 9];
    assert stem[..|stem| - 1] == name[..|name| - 9];
  }

  lemma {:induction false} AnotherMember(date: IsDate, tables: seq<Table>, k: Key, i: nat)
    requires i in Group(date, tables, k)
    ensures |Group(date, tables, k)| >= 2 <==> exists j :: j in Group(date, tables, k) && j != i
  {
    hide KeyOf;
    MembersAre(date, tables, k, |tables|);
    var g := Group(date, tables, k);
    if |g| >= 2 {
      assert g[0] in g && g[1] in g;
    }
  }

  /** A table is folded away exactly when it is dated, another of its schema is dated
      with its stem, and none is named by the stem. */
  lemma {:induction false} FoldsExactlyWhen(date: IsDate, tables: seq<Table>, out: seq<Table>, i: nat)
    requires Shards.Distinct(tables) && IsFold(date, tables, out) && i < |tables|
    ensures tables[i] !in out
            <==> exists stem :: Dated(date, tables[i].name, stem) && HasSibling(date, tables, i, stem)
                           && !HasTable(tables, tables[i].schema, stem)
  {
    hide IsFold, Folded, Dated, KeyOf, Group;
    EveryTableOnce(date, tables, out, i);
    if KeyOf(date, tables[i]).Some? {
      var k := KeyOf(date, tables[i]).value;
      SchemaOf(date, tables[i]);
      FoldedIs(date, tables, i, k);
      forall stem
        ensures Dated(date, tables[i].name, stem) <==> stem == k.stem
      {
        DatedIs(date, tables[i], stem);
      }
    } else {
      forall stem
        ensures !Dated(date, tables[i].name, stem)
      {
        DatedIs(date, tables[i], stem);
      }
      UnkeyedStays(date, tables, i);
    }
  }

  lemma {:induction false} SchemaOf(date: IsDate, t: Table)
    ensures KeyOf(date, t).Some? ==> KeyOf(date, t).value.schema == t.schema
  {
  }

  lemma {:induction false} UnkeyedStays(date: IsDate, tables: seq<Table>, i: nat)
    requires i < |tables| && KeyOf(date, tables[i]).None?
    ensures !Folded(date, tables, i)
  {
  }

  lemma {:induction false} FoldedIs(date: IsDate, tables: seq<Table>, i: nat, k: Key)
    requires i < |tables| && KeyOf(date, tables[i]) == Some(k) && k.schema == tables[i].schema
    ensures Folded(date, tables, i) <==> HasSibling(date, tables, i, k.stem) && !HasTable(tables, k.schema, k.stem)
  {
    hide Dated, KeyOf, Group;
    MembersAre(date, tables, k, |tables|);
    GroupIs(date, tables, k);
    AnotherMember(date, tables, k, i);
    forall j | 0 <= j < |tables|
      ensures j in Group(date, tables, k) <==> tables[j].schema == k.schema && Dated(date, tables[j].name, k.stem)
    {
      DatedIs(date, tables[j], k.stem);
      SchemaOf(date, tables[j]);
    }
    NamedIs(tables, k);
  }

  lemma {:induction false} GroupIs(date: IsDate, tables: seq<Table>, k: Key)
    ensures Group(date, tables, k) == Members(date, tables, k, |tables|)
  {
  }

  lemma {:induction false} NamedIs(tables: seq<Table>, k: Key)
    ensures Named(tables, k) <==> HasTable(tables, k.schema, k.stem)
  {
    if HasTable(tables, k.schema, k.stem) {
      var t :| t in tables && t.schema == k.schema && t.name == k.stem;
      var i :| 0 <= i < |tables| && tables[i] == t;
    }
    if Named(tables, k) {
      var i :| 0 <= i < |tables| && tables[i].schema == k.schema && tables[i].name == k.stem;
      assert tables[i] in tables;
    }
  }

  /** Only one entry holds it. */
  lemma {:induction false} HeldByOne(date: IsDate, tables: seq<Table>, out: seq<Table>, a: Table, b: Table, t: Table)
    requires IsFold(date, tables, out) && a in out && b in out && Holds(a, t) && Holds(b, t)
    ensures a == b
  {
    hide IsFold, Suffix;
    FoldIsDistinct(date, tables, out);
    var i :| 0 <= i < |out| && out[i] == a;
    var j :| 0 <= j < |out| && out[j] == b;
    ConcatIsOne(a.name, b.name, Suffix(t));
    SameTable(out, i, j);
  }

  /** Everything an entry holds is a table of the listing that was folded into it;
      the suffixes are sorted, and the columns are those of the latest. */
  lemma {:induction false} EntriesAreTrue(date: IsDate, tables: seq<Table>, k: Key, t: Table, s: string)
    requires IsEntry(date, tables, k, t) && Folds(date, tables, k) && s in t.shards
    ensures Increasing(Less, t.shards)
    ensures exists i :: 0 <= i < |tables| && Folded(date, tables, i) && tables[i].schema == t.schema
               && tables[i].name == t.name + s
    ensures exists i: nat :: i < |tables| && tables[i].columns == t.columns && KeyOf(date, tables[i]) == Some(k)
              && forall j | 0 <= j < |tables| && KeyOf(date, tables[j]) == Some(k) ::
                  !Less(tables[i].name, tables[j].name)
  {
    hide IsShard, Suffix, Less;
    var members := Group(date, tables, k);
    MembersAre(date, tables, k, |tables|);
    assert s in SuffixesOf(tables, members);
    var i :| i in members && i < |tables| && Suffix(tables[i]) == s;
    NameIsStemAndSuffix(date, tables[i]);
    assert Folded(date, tables, i);
    var l: nat :| l < |tables| && IsLatest(tables, members, l) && t.columns == tables[l].columns;
    forall j | 0 <= j < |tables| && KeyOf(date, tables[j]) == Some(k)
      ensures !Less(tables[l].name, tables[j].name)
    {
      assert j in members;
    }
  }

  // ------------------------------------------------------------------
  // Folding again

  lemma {:induction false} NothingLeftToFold(date: IsDate, tables: seq<Table>, out: seq<Table>, k: Key)
    requires Shards.Distinct(tables) && IsFold(date, tables, out)
    ensures !Folds(date, out, k)
  {
    hide KeyOf, Named, InOrder, Less;
    if Folds(date, out, k) {
      var members := Group(date, out, k);
      MembersAre(date, out, k, |out|);
      var x, y := members[0], members[1];
      assert x in members && y in members;
      var i := StillListed(date, tables, out, x);
      var j := StillListed(date, tables, out, y);
      FoldIsDistinct(date, tables, out);
      DistinctTables(out, x, y);
      TwoMembers(date, tables, k, i, j);
      StemListed(date, tables, out, k, i);
    }
  }

  lemma {:induction false} DistinctTables(out: seq<Table>, x: nat, y: nat)
    requires Shards.Distinct(out) && x < y < |out|
    ensures out[x] != out[y]
  {
  }

  /** A shard in the folded listing was left there. */
  lemma {:induction false} StillListed(date: IsDate, tables: seq<Table>, out: seq<Table>, x: nat) returns (i: nat)
    requires IsFold(date, tables, out) && x < |out| && KeyOf(date, out[x]).Some?
    ensures i < |tables| && tables[i] == out[x] && !Folded(date, tables, i)
  {
    hide KeyOf, Folds, Folded, IsEntry, InOrder;
    assert out[x] in out;
    if exists k :: Folds(date, tables, k) && IsEntry(date, tables, k, out[x]) {
      var k :| Folds(date, tables, k) && IsEntry(date, tables, k, out[x]);
      EntryIsNoShard(date, tables, k, out[x]);
    }
    i :| 0 <= i < |tables| && tables[i] == out[x] && !Folded(date, tables, i);
  }

  lemma {:induction false} TwoMembers(date: IsDate, tables: seq<Table>, k: Key, i: nat, j: nat)
    requires i < |tables| && j < |tables| && tables[i] != tables[j]
    requires KeyOf(date, tables[i]) == Some(k) && KeyOf(date, tables[j]) == Some(k)
    ensures |Group(date, tables, k)| >= 2
  {
    hide KeyOf;
    MembersAre(date, tables, k, |tables|);
    var members := Group(date, tables, k);
    assert i in members && j in members;
    var x :| 0 <= x < |members| && members[x] == i;
    var y :| 0 <= y < |members| && members[y] == j;
  }

  /** Shards that stayed because their stem is a table's name find it still there. */
  lemma {:induction false} StemListed(date: IsDate, tables: seq<Table>, out: seq<Table>, k: Key, i: nat)
    requires IsFold(date, tables, out) && i < |tables| && !Folded(date, tables, i) && KeyOf(date, tables[i]) == Some(k)
    requires |Group(date, tables, k)| >= 2
    ensures Named(out, k)
  {
    hide InOrder, Less;
    assert Named(tables, k);
    var m :| 0 <= m < |tables| && tables[m].schema == k.schema && tables[m].name == k.stem;
    StemIsNoShard(date, tables[i], tables[m]);
    assert InFold(date, tables, tables[m]);
    assert tables[m] in out;
    var x :| 0 <= x < |out| && out[x] == tables[m];
  }

  /** Folding a folded listing gives it back. */
  lemma {:induction false} FoldTwice(date: IsDate, tables: seq<Table>, out: seq<Table>, again: seq<Table>)
    requires Shards.Distinct(tables) && IsFold(date, tables, out) && IsFold(date, out, again)
    ensures again == out
  {
    hide InOrder, KeyOf, Folds, IsEntry, Shards.Distinct;
    forall t
      ensures InFold(date, out, t) <==> t in out
    {
      forall k
        ensures !Folds(date, out, k)
      {
        NothingLeftToFold(date, tables, out, k);
      }
      if t in out {
        var x :| 0 <= x < |out| && out[x] == t;
        assert !Folded(date, out, x);
      }
    }
    OrderedIsOne(again, out);
  }
}
