/** Folding date-sharded tables into one entry each: foldShards of
    cmd/ochakai/seed.go. Which eight digits are a date is given. */
module Shards {
  import opened Text
  import opened Order

  datatype Table = Table(schema: string, name: string, columns: seq<string>, shards: seq<string>)

  type IsDate = string -> bool

  datatype Key = Key(schema: string, stem: string)

  // ------------------------------------------------------------------
  // Shard names

  predicate Digit(c: char) {
    '0' <= c <= '9'
  }

  /** The expression for shard names, then the calendar: a stem that does not end in a
      digit, then a date of eight. */
  predicate IsShard(date: IsDate, name: string) {
    && |name| >= 9
    && (forall i | |name| - 8 <= i < |name| :: Digit(name[i]))
    && !Digit(name[|name| - 9]) && '\n' !in name[..|name| - 9]
    && date(name[|name| - 8..])
  }

  function KeyOf(date: IsDate, t: Table): Option<Key> {
    if IsShard(date, t.name) then Some(Key(t.schema, t.name[..|t.name| - 8])) else None
  }

  function Suffix(t: Table): string {
    if |t.name| >= 8 then t.name[|t.name| - 8..] else ""
  }

  /** What a folded entry is named is no shard's name. */
  lemma {:induction false} StemIsNoShard(date: IsDate, t: Table, u: Table)
    requires KeyOf(date, t).Some? && u.name == KeyOf(date, t).value.stem
    ensures KeyOf(date, u) == None
  {
    assert u.name[|u.name| - 1] == t.name[|t.name| - 9];
  }

  lemma {:induction false} NameIsStemAndSuffix(date: IsDate, t: Table)
    requires KeyOf(date, t).Some?
    ensures t.name == KeyOf(date, t).value.stem + Suffix(t) && t.schema == KeyOf(date, t).value.schema
  {
  }

  // ------------------------------------------------------------------
  // The groups

  /** The tables among the first n that are shards of one stem. */
  function Members(date: IsDate, tables: seq<Table>, k: Key, n: nat): seq<nat>
    requires n <= |tables|
  {
    if n == 0 then []
    else Members(date, tables, k, n - 1) + if KeyOf(date, tables[n - 1]) == Some(k) then [n - 1] else []
  }

  function Group(date: IsDate, tables: seq<Table>, k: Key): seq<nat> {
    Members(date, tables, k, |tables|)
  }

  lemma {:induction false} MembersAre(date: IsDate, tables: seq<Table>, k: Key, n: nat)
    requires n <= |tables|
    ensures forall i :: i in Members(date, tables, k, n) <==> 0 <= i < n && KeyOf(date, tables[i]) == Some(k)
    ensures forall x, y | 0 <= x < y < |Members(date, tables, k, n)| ::
              Members(date, tables, k, n)[x] < Members(date, tables, k, n)[y]
  {
    hide KeyOf;
    if n > 0 {
      MembersAre(date, tables, k, n - 1);
      var before := Members(date, tables, k, n - 1);
      forall x | 0 <= x < |before|
        ensures before[x] < n - 1
      {
        assert before[x] in before;
      }
    }
  }

  predicate Named(tables: seq<Table>, k: Key) {
    exists i | 0 <= i < |tables| :: tables[i].schema == k.schema && tables[i].name == k.stem
  }

  /** Two or more shards, and no table of the stem's own name. */
  predicate Folds(date: IsDate, tables: seq<Table>, k: Key) {
    |Group(date, tables, k)| >= 2 && !Named(tables, k)
  }

  predicate Folded(date: IsDate, tables: seq<Table>, i: nat)
    requires i < |tables|
  {
    KeyOf(date, tables[i]).Some? && Folds(date, tables, KeyOf(date, tables[i]).value)
  }

  function SuffixesOf(tables: seq<Table>, members: seq<nat>): set<string> {
    set i | i in members && i < |tables| :: Suffix(tables[i])
  }

  /** A member no other of which has a greater name. */
  ghost predicate IsLatest(tables: seq<Table>, members: seq<nat>, i: nat) {
    && i in members && i < |tables|
    && forall j | j in members && j < |tables| :: !Less(tables[i].name, tables[j].name)
  }

  /** What a group is folded into. */
  ghost predicate IsEntry(date: IsDate, tables: seq<Table>, k: Key, t: Table) {
    var members := Group(date, tables, k);
    && t.schema == k.schema && t.name == k.stem
    && t.shards == SortedStrings(SuffixesOf(tables, members))
    && exists i: nat :: i < |tables| && IsLatest(tables, members, i) && t.columns == tables[i].columns
  }

  /** What is in the listing once it is folded. */
  ghost predicate InFold(date: IsDate, tables: seq<Table>, t: Table) {
    || (exists i :: 0 <= i < |tables| && tables[i] == t && !Folded(date, tables, i))
    || (exists k :: Folds(date, tables, k) && IsEntry(date, tables, k, t))
  }

  predicate TableLess(a: Table, b: Table) {
    if a.schema != b.schema then Less(a.schema, b.schema) else Less(a.name, b.name)
  }

  ghost predicate InOrder(s: seq<Table>) {
    Increasing(TableLess, s)
  }

  /** No two tables of one name in one schema: what gathering the columns gives. */
  predicate Distinct(tables: seq<Table>) {
    forall i, j | 0 <= i < j < |tables| :: tables[i].schema != tables[j].schema || tables[i].name != tables[j].name
  }

  /** The folded listing. */
  ghost predicate IsFold(date: IsDate, tables: seq<Table>, out: seq<Table>) {
    InOrder(out) && forall t :: t in out <==> InFold(date, tables, t)
  }

  // ------------------------------------------------------------------
  // The listing is one

  lemma {:induction false} TableLessOrders(a: Table, b: Table, c: Table)
    ensures !TableLess(a, a)
    ensures TableLess(a, b) && TableLess(b, c) ==> TableLess(a, c)
    ensures TableLess(a, b) || TableLess(b, a) || (a.schema == b.schema && a.name == b.name)
  {
    hide Less;
    LessIsIrreflexive(a.schema);
    LessIsIrreflexive(a.name);
    LessIsTotal(a.schema, b.schema);
    LessIsTotal(a.name, b.name);
    if TableLess(a, b) && TableLess(b, c) {
      if a.schema == b.schema && b.schema == c.schema {
        LessIsTransitive(a.name, b.name, c.name);
      } else if a.schema != b.schema && b.schema != c.schema {
        LessIsTransitive(a.schema, b.schema, c.schema);
        if a.schema == c.schema {
          LessIsIrreflexive(a.schema);
        }
      }
    }
  }

  lemma {:induction false} TableLessIsOrder()
    ensures Orders(TableLess)
  {
    hide TableLess;
    forall a: Table, b: Table, c: Table | TableLess(a, b) && TableLess(b, c)
      ensures TableLess(a, c)
    {
      TableLessOrders(a, b, c);
    }
    forall a: Table
      ensures !TableLess(a, a)
    {
      TableLessOrders(a, a, a);
    }
  }

  lemma {:induction false} OrderedIsOne(a: seq<Table>, b: seq<Table>)
    requires InOrder(a) && InOrder(b) && forall t :: t in a <==> t in b
    ensures a == b
  {
    hide TableLess;
    TableLessIsOrder();
    IncreasingIsOne(TableLess, a, b);
  }

  /** The fold does not depend on the order in which a map hands out its groups. */
  lemma {:induction false} FoldIsOne(date: IsDate, tables: seq<Table>, a: seq<Table>, b: seq<Table>)
    requires IsFold(date, tables, a) && IsFold(date, tables, b)
    ensures a == b
  {
    hide InFold, InOrder;
    OrderedIsOne(a, b);
  }

  // ------------------------------------------------------------------
  // The program

  function At(groups: map<Key, seq<nat>>, k: Key): seq<nat> {
    if k in groups then groups[k] else []
  }

  method GroupShards(date: IsDate, tables: seq<Table>) returns (groups: map<Key, seq<nat>>)
    ensures forall k :: At(groups, k) == Group(date, tables, k)
    ensures forall k | k in groups :: groups[k] != []
  {
    NoMembers(date, tables);
    hide KeyOf, Members;
    groups := map[];
    for i := 0 to |tables|
      invariant forall k :: At(groups, k) == Members(date, tables, k, i)
      invariant forall k | k in groups :: groups[k] != []
    {
      var k := KeyOf(date, tables[i]);
      ghost var before := groups;
      if k.Some? {
        groups := groups[k.value := At(groups, k.value) + [i]];
      }
      forall x
        ensures At(groups, x) == Members(date, tables, x, i + 1)
      {
        assert At(before, x) == Members(date, tables, x, i);
        MembersStep(date, tables, x, i);
      }
    }
  }

  lemma {:induction false} NoMembers(date: IsDate, tables: seq<Table>)
    ensures forall k :: Members(date, tables, k, 0) == []
  {
  }

  lemma {:induction false} MembersStep(date: IsDate, tables: seq<Table>, k: Key, i: nat)
    requires i < |tables|
    ensures Members(date, tables, k, i + 1)
            == if KeyOf(date, tables[i]) == Some(k) then Members(date, tables, k, i) + [i]
                else Members(date, tables, k, i)
  {
    hide KeyOf;
    assert Members(date, tables, k, i) + [] == Members(date, tables, k, i);
  }

  method NamesOf(tables: seq<Table>) returns (named: set<Key>)
    ensures forall k :: k in named <==> Named(tables, k)
  {
    named := {};
    for i := 0 to |tables|
      invariant forall k :: k in named <==> Named(tables[..i], k)
    {
      forall k
        ensures Named(tables[..i + 1], k) <==> Named(tables[..i], k) || k == Key(tables[i].schema, tables[i].name)
      {
        assert tables[..i + 1] == tables[..i] + [tables[i]];
        NamedOneMore(tables[..i], tables[i], k);
      }
      named := named + {Key(tables[i].schema, tables[i].name)};
    }
    assert tables[..|tables|] == tables;
  }

  lemma {:induction false} NamedOneMore(tables: seq<Table>, t: Table, k: Key)
    ensures Named(tables + [t], k) <==> Named(tables, k) || k == Key(t.schema, t.name)
  {
    var all := tables + [t];
    if Named(tables, k) {
      var i :| 0 <= i < |tables| && tables[i].schema == k.schema && tables[i].name == k.stem;
      assert all[i] == tables[i];
    }
    if k == Key(t.schema, t.name) {
      assert all[|tables|] == t;
    }
  }

  /** The suffixes of a group, and its latest member. */
  method Latest(tables: seq<Table>, members: seq<nat>) returns (suffixes: set<string>, latest: nat)
    requires members != [] && forall i | i in members :: i < |tables|
    ensures suffixes == SuffixesOf(tables, members)
    ensures latest < |tables| && IsLatest(tables, members, latest)
  {
    hide Less, Suffix;
    suffixes := {};
    latest := members[0];
    assert members[0] in members;
    LessIsIrreflexive(tables[latest].name);
    for x := 0 to |members|
      invariant suffixes == SuffixesOf(tables, members[..x])
      invariant latest < |tables| && latest in members
      invariant forall y | 0 <= y < x :: members[y] < |tables| && !Less(tables[latest].name, tables[members[y]].name)
    {
      var i := members[x];
      assert i in members;
      assert members[..x + 1] == members[..x] + [i];
      suffixes := suffixes + {Suffix(tables[i])};
      LessIsIrreflexive(tables[i].name);
      if Less(tables[latest].name, tables[i].name) {
        forall y | 0 <= y < x
          ensures members[y] < |tables| && !Less(tables[i].name, tables[members[y]].name)
        {
          if Less(tables[i].name, tables[members[y]].name) {
            LessIsTransitive(tables[latest].name, tables[i].name, tables[members[y]].name);
          }
        }
        latest := i;
      }
    }
    assert members[..|members|] == members;
  }

  function SortTables(s: seq<Table>): seq<Table> {
    Sort(TableLess, s)
  }

  lemma {:induction false} SortTablesKeeps(s: seq<Table>)
    requires Distinct(s)
    ensures InOrder(SortTables(s)) && |SortTables(s)| == |s| && forall u :: u in SortTables(s) <==> u in s
  {
    hide TableLess;
    TableLessIsOrder();
    forall i, j | 0 <= i < j < |s|
      ensures TableLess(s[i], s[j]) || TableLess(s[j], s[i])
    {
      TableLessOrders(s[i], s[j], s[i]);
    }
    SortIsIncreasing(TableLess, s);
    SortHas(TableLess, s);
  }

  /** One group folded. */
  method Fold(date: IsDate, tables: seq<Table>, k: Key, members: seq<nat>) returns (t: Table)
    requires members == Group(date, tables, k) && members != []
    ensures IsEntry(date, tables, k, t)
  {
    hide Less, KeyOf;
    MembersAre(date, tables, k, |tables|);
    var suffixes, latest := Latest(tables, members);
    var shards := SortStrings(suffixes);
    t := Table(k.schema, k.stem, tables[latest].columns, shards);
  }

  ghost predicate FromGroup(date: IsDate, tables: seq<Table>, done: set<Key>, t: Table) {
    exists k :: k in done && Folds(date, tables, k) && IsEntry(date, tables, k, t)
  }

  ghost predicate HasEntry(date: IsDate, tables: seq<Table>, out: seq<Table>, k: Key) {
    exists t :: t in out && IsEntry(date, tables, k, t)
  }

  /** The entries made so far. */
  ghost predicate Entries(date: IsDate, tables: seq<Table>, done: set<Key>, out: seq<Table>) {
    && (forall t | t in out :: FromGroup(date, tables, done, t))
    && (forall k | k in done && Folds(date, tables, k) :: HasEntry(date, tables, out, k))
    && Distinct(out)
  }

  lemma {:induction false} FromMore(date: IsDate, tables: seq<Table>, done: set<Key>, k: Key, t: Table)
    requires FromGroup(date, tables, done, t)
    ensures FromGroup(date, tables, done + {k}, t)
  {
    hide Folds, IsEntry;
    var j :| j in done && Folds(date, tables, j) && IsEntry(date, tables, j, t);
    assert j in done + {k};
  }

  lemma {:induction false} FromThis(date: IsDate, tables: seq<Table>, done: set<Key>, k: Key, t: Table)
    requires Folds(date, tables, k) && IsEntry(date, tables, k, t)
    ensures FromGroup(date, tables, done + {k}, t)
  {
    hide Folds, IsEntry;
    assert k in done + {k};
  }

  lemma {:induction false} HasMore(date: IsDate, tables: seq<Table>, out: seq<Table>, t: Table, k: Key)
    ensures HasEntry(date, tables, out, k) ==> HasEntry(date, tables, out + [t], k)
    ensures IsEntry(date, tables, k, t) ==> HasEntry(date, tables, out + [t], k)
  {
    hide IsEntry;
    assert t in out + [t];
    if HasEntry(date, tables, out, k) {
      var u :| u in out && IsEntry(date, tables, k, u);
      assert u in out + [t];
    }
  }

  lemma {:induction false} FromNames(date: IsDate, tables: seq<Table>, done: set<Key>, t: Table)
    requires FromGroup(date, tables, done, t)
    ensures Key(t.schema, t.name) in done && !Named(tables, Key(t.schema, t.name))
  {
    hide IsEntry;
    var j :| j in done && Folds(date, tables, j) && IsEntry(date, tables, j, t);
    EntryNames(date, tables, j, t);
  }

  lemma {:induction false} DistinctMore(out: seq<Table>, t: Table)
    requires Distinct(out) && forall u | u in out :: u.schema != t.schema || u.name != t.name
    ensures Distinct(out + [t])
  {
    var r := out + [t];
    forall i, j | 0 <= i < j < |r|
      ensures r[i].schema != r[j].schema || r[i].name != r[j].name
    {
      assert out[i] in out;
      assert j < |out| ==> r[j] == out[j];
    }
  }

  lemma {:induction false} EntriesMore(date: IsDate, tables: seq<Table>, done: set<Key>, out: seq<Table>, k: Key,
                                       t: Table)
    requires Entries(date, tables, done, out) && k !in done && Folds(date, tables, k) && IsEntry(date, tables, k, t)
    ensures Entries(date, tables, done + {k}, out + [t])
  {
    hide Folds, IsEntry, FromGroup, HasEntry, Distinct;
    FromThis(date, tables, done, k, t);
    EntryNames(date, tables, k, t);
    forall u | u in out
      ensures FromGroup(date, tables, done + {k}, u) && (u.schema != t.schema || u.name != t.name)
    {
      FromMore(date, tables, done, k, u);
      FromNames(date, tables, done, u);
    }
    forall j | j in done + {k} && Folds(date, tables, j)
      ensures HasEntry(date, tables, out + [t], j)
    {
      HasMore(date, tables, out, t, j);
    }
    DistinctMore(out, t);
  }

  lemma {:induction false} EntryNames(date: IsDate, tables: seq<Table>, k: Key, t: Table)
    requires IsEntry(date, tables, k, t)
    ensures k == Key(t.schema, t.name)
  {
  }

  lemma {:induction false} EntriesSkip(date: IsDate, tables: seq<Table>, done: set<Key>, out: seq<Table>, k: Key)
    requires Entries(date, tables, done, out) && !Folds(date, tables, k)
    ensures Entries(date, tables, done + {k}, out)
  {
    hide Folds, FromGroup, HasEntry, Distinct;
    forall u | u in out
      ensures FromGroup(date, tables, done + {k}, u)
    {
      FromMore(date, tables, done, k, u);
    }
  }

  lemma {:induction false} EntriesNone(date: IsDate, tables: seq<Table>)
    ensures Entries(date, tables, {}, [])
  {
  }

  /** The groups that fold, in whatever order the map hands them out. */
  method FoldGroups(date: IsDate, tables: seq<Table>, groups: map<Key, seq<nat>>, named: set<Key>)
    returns (out: seq<Table>, folded: set<nat>)
    requires forall k :: At(groups, k) == Group(date, tables, k)
    requires forall k :: k in named <==> Named(tables, k)
    ensures Entries(date, tables, groups.Keys, out)
    ensures forall i :: i in folded
               <==> exists k :: k in groups && Folds(date, tables, k) && i in Group(date, tables, k)
  {
    hide Entries, IsEntry, Members, Named;
    out, folded := [], {};
    EntriesNone(date, tables);
    var left := groups.Keys;
    assert groups.Keys - left == {};
    while left != {}
      invariant left <= groups.Keys
      invariant Entries(date, tables, groups.Keys - left, out)
      invariant forall i :: i in folded
                   <==> exists k :: k in groups.Keys - left && Folds(date, tables, k) && i in Group(date, tables, k)
      decreases left
    {
      var k :| k in left;
      var members := groups[k];
      ghost var done := groups.Keys - left;
      assert members == At(groups, k);
      if |members| < 2 || k in named {
        EntriesSkip(date, tables, done, out, k);
      } else {
        var t := Fold(date, tables, k, members);
        EntriesMore(date, tables, done, out, k, t);
        out := out + [t];
        folded := folded + set i | i in members;
      }
      assert groups.Keys - (left - {k}) == done + {k};
      left := left - {k};
    }
    assert groups.Keys - left == groups.Keys;
  }

  function UnfoldedUpTo(tables: seq<Table>, folded: set<nat>, n: nat): seq<Table>
    requires n <= |tables|
  {
    if n == 0 then [] else UnfoldedUpTo(tables, folded, n - 1) + if n - 1 !in folded then [tables[n - 1]] else []
  }

  method FoldShards(date: IsDate, tables: seq<Table>) returns (out: seq<Table>)
    requires Distinct(tables)
    ensures IsFold(date, tables, out)
  {
    hide KeyOf, Entries, InFold, InOrder;
    var groups := GroupShards(date, tables);
    var named := NamesOf(tables);
    var entries, folded := FoldGroups(date, tables, groups, named);
    var all := entries;
    for i := 0 to |tables|
      invariant all == entries + UnfoldedUpTo(tables, folded, i)
    {
      if i !in folded {
        all := all + [tables[i]];
      }
    }
    GroupsHold(date, tables, groups, folded);
    AllDistinct(date, tables, groups.Keys, entries, folded);
    AllAreFold(date, tables, groups.Keys, entries, folded);
    SortTablesKeeps(all);
    out := SortTables(all);
  }

  /** The folded indices are those of tables whose group folds. */
  lemma {:induction false} GroupsHold(date: IsDate, tables: seq<Table>, groups: map<Key, seq<nat>>, folded: set<nat>)
    requires forall k :: At(groups, k) == Group(date, tables, k)
    requires forall i :: i in folded
                <==> exists k :: k in groups && Folds(date, tables, k) && i in Group(date, tables, k)
    ensures forall i | 0 <= i < |tables| :: i in folded <==> Folded(date, tables, i)
    ensures forall k | Folds(date, tables, k) :: k in groups
  {
    hide KeyOf, Named, Members;
    forall k | Folds(date, tables, k)
      ensures k in groups
    {
      assert At(groups, k) == Group(date, tables, k);
    }
    forall i | 0 <= i < |tables|
      ensures i in folded <==> Folded(date, tables, i)
    {
      if i in folded {
        var k :| k in groups && Folds(date, tables, k) && i in Group(date, tables, k);
        MembersAre(date, tables, k, |tables|);
      }
      if Folded(date, tables, i) {
        var k := KeyOf(date, tables[i]).value;
        MembersAre(date, tables, k, |tables|);
        assert k in groups;
      }
    }
  }

  lemma {:induction false} UnfoldedAre(tables: seq<Table>, folded: set<nat>, n: nat)
    requires n <= |tables|
    ensures forall t :: t in UnfoldedUpTo(tables, folded, n)
               <==> exists i :: 0 <= i < n && i !in folded && tables[i] == t
  {
    if n > 0 {
      UnfoldedAre(tables, folded, n - 1);
      forall t
        ensures t in UnfoldedUpTo(tables, folded, n) <==> exists i :: 0 <= i < n && i !in folded && tables[i] == t
      {
        if t in UnfoldedUpTo(tables, folded, n - 1) {
          var i :| 0 <= i < n - 1 && i !in folded && tables[i] == t;
        }
      }
    }
  }

  lemma {:induction false} UnfoldedDistinct(tables: seq<Table>, folded: set<nat>, n: nat)
    requires n <= |tables| && Distinct(tables)
    ensures Distinct(UnfoldedUpTo(tables, folded, n))
  {
    if n > 0 {
      UnfoldedDistinct(tables, folded, n - 1);
      UnfoldedAre(tables, folded, n - 1);
      var before := UnfoldedUpTo(tables, folded, n - 1);
      forall x | 0 <= x < |before|
        ensures before[x].schema != tables[n - 1].schema || before[x].name != tables[n - 1].name
      {
        assert before[x] in before;
      }
    }
  }

  lemma {:induction false} AllDistinct(date: IsDate, tables: seq<Table>, done: set<Key>, entries: seq<Table>,
                                       folded: set<nat>)
    requires Distinct(tables) && Entries(date, tables, done, entries)
    ensures Distinct(entries + UnfoldedUpTo(tables, folded, |tables|))
  {
    hide IsEntry, FromGroup, HasEntry, Distinct;
    UnfoldedDistinct(tables, folded, |tables|);
    UnfoldedAre(tables, folded, |tables|);
    var rest := UnfoldedUpTo(tables, folded, |tables|);
    forall x, y | 0 <= x < |entries| && 0 <= y < |rest|
      ensures entries[x].schema != rest[y].schema || entries[x].name != rest[y].name
    {
      assert entries[x] in entries && rest[y] in rest;
      FromNames(date, tables, done, entries[x]);
      var i :| 0 <= i < |tables| && i !in folded && tables[i] == rest[y];
    }
    DistinctConcat(entries, rest);
  }

  lemma {:induction false} DistinctConcat(a: seq<Table>, b: seq<Table>)
    requires Distinct(a) && Distinct(b)
    requires forall x, y | 0 <= x < |a| && 0 <= y < |b| :: a[x].schema != b[y].schema || a[x].name != b[y].name
    ensures Distinct(a + b)
  {
    var r := a + b;
    forall i, j | 0 <= i < j < |r|
      ensures r[i].schema != r[j].schema || r[i].name != r[j].name
    {
      if j < |a| {
        assert r[i] == a[i] && r[j] == a[j];
      } else if i < |a| {
        assert r[i] == a[i] && r[j] == b[j - |a|];
      } else {
        assert r[i] == b[i - |a|] && r[j] == b[j - |a|];
      }
    }
  }

  lemma {:induction false} AllAreFold(date: IsDate, tables: seq<Table>, done: set<Key>, entries: seq<Table>,
                                      folded: set<nat>)
    requires Distinct(tables) && Entries(date, tables, done, entries)
    requires forall i | 0 <= i < |tables| :: i in folded <==> Folded(date, tables, i)
    requires forall k | Folds(date, tables, k) :: k in done
    ensures forall t :: t in entries + UnfoldedUpTo(tables, folded, |tables|) <==> InFold(date, tables, t)
  {
    hide IsEntry, Folded, Folds, Distinct, FromGroup, HasEntry;
    UnfoldedAre(tables, folded, |tables|);
    var rest := UnfoldedUpTo(tables, folded, |tables|);
    forall t
      ensures t in entries + rest <==> InFold(date, tables, t)
    {
      if t in entries {
        SomeEntry(date, tables, done, t);
      }
      if exists k :: Folds(date, tables, k) && IsEntry(date, tables, k, t) {
        var k :| Folds(date, tables, k) && IsEntry(date, tables, k, t);
        EntryIn(date, tables, done, entries, k, t);
      }
    }
  }

  lemma {:induction false} SomeEntry(date: IsDate, tables: seq<Table>, done: set<Key>, t: Table)
    requires FromGroup(date, tables, done, t)
    ensures exists k :: Folds(date, tables, k) && IsEntry(date, tables, k, t)
  {
    hide IsEntry, Folds;
  }

  /** A group is folded into one entry: its latest member is one. */
  lemma {:induction false} EntryIsOne(date: IsDate, tables: seq<Table>, k: Key, t: Table, u: Table)
    requires Distinct(tables) && IsEntry(date, tables, k, t) && IsEntry(date, tables, k, u)
    ensures t == u
  {
    hide Less, IsShard;
    var members := Group(date, tables, k);
    MembersAre(date, tables, k, |tables|);
    var i: nat :| i < |tables| && IsLatest(tables, members, i) && t.columns == tables[i].columns;
    var j: nat :| j < |tables| && IsLatest(tables, members, j) && u.columns == tables[j].columns;
    LessIsTotal(tables[i].name, tables[j].name);
    assert i in members && j in members;
    assert tables[i].schema == tables[j].schema;
  }

  lemma {:induction false} EntryIn(date: IsDate, tables: seq<Table>, done: set<Key>, entries: seq<Table>, k: Key,
                                   t: Table)
    requires Distinct(tables)
    requires Entries(date, tables, done, entries) && k in done && Folds(date, tables, k) && IsEntry(date, tables, k, t)
    ensures t in entries
  {
    hide Folds, Distinct, IsEntry, FromGroup;
    var u :| u in entries && IsEntry(date, tables, k, u);
    EntryIsOne(date, tables, k, t, u);
  }
}
