/** Grouping a schema listing by table: gatherSeedTables of cmd/ochakai/seed.go. */
module SeedTables {
  import opened Text
  import opened Order
  import opened Shards

  /** One row of the listing. */
  datatype Column = Column(schema: string, table: string, column: string)

  function Dotted(schema: string, table: string): string {
    schema + "." + table
  }

  function KeyOfRow(c: Column): string {
    Dotted(c.schema, c.table)
  }

  function KeyOfTable(t: Table): string {
    Dotted(t.schema, t.name)
  }

  predicate Counts(c: Column) {
    c.table != "" && c.column != ""
  }

  /** The columns among the first n whose dotted name is key, in order. */
  function Under(cols: seq<Column>, key: string, n: nat): seq<string>
    requires n <= |cols|
  {
    if n == 0 then []
    else Under(cols, key, n - 1) + if Counts(cols[n - 1]) && KeyOfRow(cols[n - 1]) == key then [cols[n - 1].column]
        else []
  }

  /** Row x is the first that counts under its dotted name. */
  predicate Opens(cols: seq<Column>, x: nat)
    requires x < |cols|
  {
    Counts(cols[x]) && forall y | 0 <= y < x && Counts(cols[y]) :: KeyOfRow(cols[y]) != KeyOfRow(cols[x])
  }

  /** The rows among the first n that open a table, in order. */
  function Openers(cols: seq<Column>, n: nat): (r: seq<nat>)
    requires n <= |cols|
    ensures forall i | 0 <= i < |r| :: r[i] < n
  {
    if n == 0 then [] else Openers(cols, n - 1) + if Opens(cols, n - 1) then [n - 1] else []
  }

  /** The table row x opens, as the first n rows fill it. */
  function TableAt(cols: seq<Column>, x: nat, n: nat): Table
    requires x < n <= |cols|
  {
    Table(cols[x].schema, cols[x].table, Under(cols, KeyOfRow(cols[x]), n), [])
  }

  function TableOf(cols: seq<Column>, n: nat, i: nat): Table
    requires n <= |cols| && i < |Openers(cols, n)|
  {
    TableAt(cols, Openers(cols, n)[i], n)
  }

  function TablesOf(cols: seq<Column>, n: nat): seq<Table>
    requires n <= |cols|
  {
    seq(|Openers(cols, n)|, i requires 0 <= i < |Openers(cols, n)| => TableOf(cols, n, i))
  }

  lemma {:induction false} RowCounts(c: Column)
    ensures Counts(c) <==> c.table != "" && c.column != ""
  {
  }

  // ------------------------------------------------------------------
  // The openers

  lemma {:induction false} OpenersAre(cols: seq<Column>, n: nat)
    requires n <= |cols|
    ensures forall x :: x in Openers(cols, n) <==> 0 <= x < n && Opens(cols, x)
    ensures forall i, j | 0 <= i < j < |Openers(cols, n)| ::
              KeyOfRow(cols[Openers(cols, n)[i]]) != KeyOfRow(cols[Openers(cols, n)[j]])
  {
    hide KeyOfRow, Counts;
    if n > 0 {
      OpenersAre(cols, n - 1);
      var before := Openers(cols, n - 1);
      forall i | 0 <= i < |before| && Opens(cols, n - 1)
        ensures KeyOfRow(cols[before[i]]) != KeyOfRow(cols[n - 1])
      {
        assert before[i] in before;
      }
    }
  }

  /** Some row opens the table of a row that counts. */
  lemma {:induction false} OpenerOf(cols: seq<Column>, x: nat) returns (y: nat)
    requires x < |cols| && Counts(cols[x])
    ensures y <= x && Opens(cols, y) && KeyOfRow(cols[y]) == KeyOfRow(cols[x])
  {
    hide KeyOfRow, Counts;
    if Opens(cols, x) {
      y := x;
    } else {
      var z: nat :| z < x && Counts(cols[z]) && KeyOfRow(cols[z]) == KeyOfRow(cols[x]);
      y := OpenerOf(cols, z);
    }
  }

  lemma {:induction false} NothingUnder(cols: seq<Column>, n: nat, key: string)
    requires n <= |cols| && forall x | 0 <= x < n && Counts(cols[x]) :: KeyOfRow(cols[x]) != key
    ensures Under(cols, key, n) == []
  {
    hide KeyOfRow, Counts;
    if n > 0 {
      NothingUnder(cols, n - 1, key);
    }
  }

  lemma {:induction false} UnderStep(cols: seq<Column>, n: nat, key: string)
    requires n < |cols|
    ensures Under(cols, key, n + 1)
            == if Counts(cols[n]) && KeyOfRow(cols[n]) == key then Under(cols, key, n) + [cols[n].column]
                else Under(cols, key, n)
  {
    assert Under(cols, key, n) + [] == Under(cols, key, n);
  }

  // ------------------------------------------------------------------
  // The program

  /** Where each dotted name's table is. */
  ghost predicate Indexed(cols: seq<Column>, n: nat, index: map<string, nat>)
    requires n <= |cols|
  {
    && (forall i | 0 <= i < |Openers(cols, n)| ::
          KeyOfRow(cols[Openers(cols, n)[i]]) in index && index[KeyOfRow(cols[Openers(cols, n)[i]])] == i)
    && (forall k | k in index :: exists i :: 0 <= i < |Openers(cols, n)| && KeyOfRow(cols[Openers(cols, n)[i]]) == k)
  }

  /** A row that does not count changes nothing. */
  lemma {:induction false} SkippedRow(cols: seq<Column>, n: nat)
    requires n < |cols| && !Counts(cols[n])
    ensures Openers(cols, n + 1) == Openers(cols, n) && TablesOf(cols, n + 1) == TablesOf(cols, n)
  {
    hide KeyOfRow;
    forall i | 0 <= i < |Openers(cols, n)|
      ensures TableOf(cols, n + 1, i) == TableOf(cols, n, i)
    {
      UnderStep(cols, n, KeyOfRow(cols[Openers(cols, n)[i]]));
    }
  }

  lemma {:induction false} OpenersStep(cols: seq<Column>, n: nat)
    requires n < |cols|
    ensures Openers(cols, n + 1) == if Opens(cols, n) then Openers(cols, n) + [n] else Openers(cols, n)
  {
    hide Opens;
    assert Openers(cols, n) + [] == Openers(cols, n);
  }

  /** Row n opens a table exactly when its name is not indexed. */
  lemma {:induction false} OpensWhenNew(cols: seq<Column>, n: nat, index: map<string, nat>)
    requires n < |cols| && Counts(cols[n]) && Indexed(cols, n, index)
    ensures Opens(cols, n) <==> KeyOfRow(cols[n]) !in index
  {
    hide KeyOfRow, Counts, Openers;
    OpenersAre(cols, n);
    var key, before := KeyOfRow(cols[n]), Openers(cols, n);
    if key in index {
      var i :| 0 <= i < |before| && KeyOfRow(cols[before[i]]) == key;
      assert before[i] in before;
      assert !Opens(cols, n);
    } else if !Opens(cols, n) {
      var y: nat :| y < n && Counts(cols[y]) && KeyOfRow(cols[y]) == key;
      var z := OpenerOf(cols, y);
      OpenerIndexed(cols, n, index, z);
    }
  }

  lemma {:induction false} OpenerIndexed(cols: seq<Column>, n: nat, index: map<string, nat>, z: nat)
    requires z < n <= |cols| && Indexed(cols, n, index) && Opens(cols, z)
    ensures KeyOfRow(cols[z]) in index
  {
    hide KeyOfRow, Counts, Openers, Opens;
    OpenersAre(cols, n);
    var before := Openers(cols, n);
    assert z in before;
    var i :| 0 <= i < |before| && before[i] == z;
    assert KeyOfRow(cols[before[i]]) in index;
  }

  /** The first row of a name opens its table. */
  lemma {:induction false} OpeningRow(cols: seq<Column>, n: nat, index: map<string, nat>)
    requires n < |cols| && Counts(cols[n]) && Indexed(cols, n, index) && KeyOfRow(cols[n]) !in index
    ensures TablesOf(cols, n + 1) == TablesOf(cols, n) + [Table(cols[n].schema, cols[n].table, [cols[n].column], [])]
    ensures Indexed(cols, n + 1, index[KeyOfRow(cols[n]) := |Openers(cols, n)|])
  {
    OpensWhenNew(cols, n, index);
    OpenersStep(cols, n);
    OpenedTable(cols, n);
    hide KeyOfRow, Counts, Openers, Opens, Under, TableAt;
    var key, before, after := KeyOfRow(cols[n]), Openers(cols, n), Openers(cols, n + 1);
    assert after == before + [n];
    forall i | 0 <= i < |before|
      ensures TableOf(cols, n + 1, i) == TableOf(cols, n, i)
    {
      assert KeyOfRow(cols[before[i]]) in index;
      OtherTable(cols, n, before[i]);
    }
    IndexedMore(cols, n, index);
  }

  lemma {:induction false} OpenedTable(cols: seq<Column>, n: nat)
    requires n < |cols| && Opens(cols, n)
    ensures TableAt(cols, n, n + 1) == Table(cols[n].schema, cols[n].table, [cols[n].column], [])
  {
    hide KeyOfRow, Counts;
    NothingUnder(cols, n, KeyOfRow(cols[n]));
    UnderStep(cols, n, KeyOfRow(cols[n]));
    assert [] + [cols[n].column] == [cols[n].column];
  }

  lemma {:induction false} OtherTable(cols: seq<Column>, n: nat, x: nat)
    requires x < n < |cols| && KeyOfRow(cols[x]) != KeyOfRow(cols[n])
    ensures TableAt(cols, x, n + 1) == TableAt(cols, x, n)
  {
    hide KeyOfRow, Counts;
    UnderStep(cols, n, KeyOfRow(cols[x]));
  }

  lemma {:induction false} IndexedMore(cols: seq<Column>, n: nat, index: map<string, nat>)
    requires n < |cols| && Indexed(cols, n, index) && KeyOfRow(cols[n]) !in index
            && Openers(cols, n + 1) == Openers(cols, n) + [n]
    ensures Indexed(cols, n + 1, index[KeyOfRow(cols[n]) := |Openers(cols, n)|])
  {
    hide KeyOfRow, Openers;
    var before, after := Openers(cols, n), Openers(cols, n + 1);
    var more := index[KeyOfRow(cols[n]) := |before|];
    forall i | 0 <= i < |after|
      ensures KeyOfRow(cols[after[i]]) in more && more[KeyOfRow(cols[after[i]])] == i
    {
      if i < |before| {
        assert KeyOfRow(cols[before[i]]) in index && index[KeyOfRow(cols[before[i]])] == i;
      }
    }
    forall k | k in more
      ensures exists i :: 0 <= i < |after| && KeyOfRow(cols[after[i]]) == k
    {
      if k in index {
        var i :| 0 <= i < |before| && KeyOfRow(cols[before[i]]) == k;
        assert KeyOfRow(cols[after[i]]) == k;
      } else {
        assert KeyOfRow(cols[after[|before|]]) == k;
      }
    }
  }

  /** A later row of a name goes to the table its first row opened. */
  lemma {:induction false} LaterRow(cols: seq<Column>, n: nat, index: map<string, nat>, i: nat)
    requires n < |cols| && Counts(cols[n]) && Indexed(cols, n, index) && KeyOfRow(cols[n]) in index
            && i == index[KeyOfRow(cols[n])]
    ensures Openers(cols, n + 1) == Openers(cols, n) && i < |Openers(cols, n)|
    ensures var t := TableOf(cols, n, i);
            TablesOf(cols, n + 1) == TablesOf(cols, n)[i := t.(columns := t.columns + [cols[n].column])]
  {
    OpensWhenNew(cols, n, index);
    OpenersStep(cols, n);
    hide KeyOfRow, Counts, Openers, Opens, Under;
    var key, before := KeyOfRow(cols[n]), Openers(cols, n);
    var x :| 0 <= x < |before| && KeyOfRow(cols[before[x]]) == key;
    assert x == i;
    var t := TableOf(cols, n, i);
    forall j | 0 <= j < |before|
      ensures TableOf(cols, n + 1, j) == if j == i then t.(columns := t.columns + [cols[n].column])
              else TableOf(cols, n, j)
    {
      UnderStep(cols, n, KeyOfRow(cols[before[j]]));
      assert KeyOfRow(cols[before[j]]) in index;
    }
  }

  lemma {:induction false} NothingYet(cols: seq<Column>)
    ensures TablesOf(cols, 0) == [] && Openers(cols, 0) == [] && Indexed(cols, 0, map[])
  {
  }

  /** The tables of the listing, in the order of schema and name. */
  method Gather(cols: seq<Column>) returns (tables: seq<Table>)
    ensures tables == SortTables(TablesOf(cols, |cols|))
  {
    hide KeyOfRow, Indexed, TablesOf, Openers, Counts, Opens, TableOf;
    var index: map<string, nat> := map[];
    tables := [];
    NothingYet(cols);
    for n := 0 to |cols|
      invariant tables == TablesOf(cols, n) && Indexed(cols, n, index)
    {
      var c := cols[n];
      RowCounts(c);
      if c.table == "" || c.column == "" {
        SkippedRow(cols, n);
        SameIndex(cols, n, index);
        continue;
      }
      var key := KeyOfRow(c);
      if key !in index {
        SizeIs(cols, n);
        OpeningRow(cols, n, index);
        index := index[key := |tables|];
        tables := tables + [Table(c.schema, c.table, [c.column], [])];
      } else {
        var i := index[key];
        LaterRow(cols, n, index, i);
        SameIndex(cols, n, index);
        TableThere(cols, n, i);
        tables := tables[i := tables[i].(columns := tables[i].columns + [c.column])];
      }
    }
    tables := SortTables(tables);
  }

  lemma {:induction false} SizeIs(cols: seq<Column>, n: nat)
    requires n <= |cols|
    ensures |TablesOf(cols, n)| == |Openers(cols, n)|
  {
  }

  lemma {:induction false} SameIndex(cols: seq<Column>, n: nat, index: map<string, nat>)
    requires n < |cols| && Openers(cols, n + 1) == Openers(cols, n) && Indexed(cols, n, index)
    ensures Indexed(cols, n + 1, index)
  {
    hide Openers;
  }

  lemma {:induction false} TableThere(cols: seq<Column>, n: nat, i: nat)
    requires n <= |cols| && i < |Openers(cols, n)|
    ensures |TablesOf(cols, n)| == |Openers(cols, n)| && TablesOf(cols, n)[i] == TableOf(cols, n, i)
  {
    hide Openers;
  }

  // ------------------------------------------------------------------
  // What is listed

  lemma {:induction false} TablesAre(cols: seq<Column>, t: Table)
    ensures t in TablesOf(cols, |cols|)
            <==> exists x :: 0 <= x < |cols| && Opens(cols, x) && t == TableAt(cols, x, |cols|)
  {
    hide KeyOfRow, Opens, Openers, TableAt;
    var n := |cols|;
    OpenersAre(cols, n);
    if t in TablesOf(cols, n) {
      var i :| 0 <= i < |TablesOf(cols, n)| && TablesOf(cols, n)[i] == t;
      assert Openers(cols, n)[i] in Openers(cols, n);
    }
    if x :| 0 <= x < |cols| && Opens(cols, x) && t == TableAt(cols, x, n) {
      var i :| 0 <= i < |Openers(cols, n)| && Openers(cols, n)[i] == x;
      assert TablesOf(cols, n)[i] == t;
    }
  }

  lemma {:induction false} DottedApart(cols: seq<Column>)
    ensures forall i, j | 0 <= i < j < |TablesOf(cols, |cols|)| ::
              KeyOfTable(TablesOf(cols, |cols|)[i]) != KeyOfTable(TablesOf(cols, |cols|)[j])
  {
    hide Dotted, Opens, Openers;
    OpenersAre(cols, |cols|);
    forall i | 0 <= i < |Openers(cols, |cols|)|
      ensures KeyOfTable(TablesOf(cols, |cols|)[i]) == KeyOfRow(cols[Openers(cols, |cols|)[i]])
    {
    }
  }

  lemma {:induction false} DottedIsDistinct(tables: seq<Table>)
    requires forall i, j | 0 <= i < j < |tables| :: KeyOfTable(tables[i]) != KeyOfTable(tables[j])
    ensures Shards.Distinct(tables)
  {
  }

  /** What is gathered can be folded, and is in order: no two tables have one name in
      one schema. Every table listed is one some row opens, with the columns of all rows
      of its dotted name, in the order of the rows; and no other is listed. */
  lemma {:induction false} GatheredIs(cols: seq<Column>, t: Table)
    ensures var tables := SortTables(TablesOf(cols, |cols|));
            && Shards.Distinct(tables) && InOrder(tables)
            && (t in tables <==> exists x :: 0 <= x < |cols| && Opens(cols, x) && t == TableAt(cols, x, |cols|))
  {
    hide Opens, TableAt, TablesOf, KeyOfTable, SortTables, InOrder;
    var all := TablesOf(cols, |cols|);
    DottedApart(cols);
    DottedIsDistinct(all);
    SortTablesKeeps(all);
    TablesAre(cols, t);
    OrderIsDistinct(SortTables(all));
  }

  lemma {:induction false} OrderIsDistinct(s: seq<Table>)
    requires InOrder(s)
    ensures Shards.Distinct(s)
  {
    hide Less;
    forall i, j | 0 <= i < j < |s|
      ensures s[i].schema != s[j].schema || s[i].name != s[j].name
    {
      assert TableLess(s[i], s[j]);
      LessIsIrreflexive(s[i].name);
    }
  }

  // ------------------------------------------------------------------
  // A dot in a name is not told from the dot between names

  /** A row that names a table and a column. */
  predicate IsRow(c: Column) {
    c.table != "" && c.column != ""
  }

  /** The columns of one table of one schema among the first n rows. */
  function Own(cols: seq<Column>, schema: string, table: string, n: nat): seq<string>
    requires n <= |cols|
  {
    if n == 0 then []
    else
      var c := cols[n - 1];
      Own(cols, schema, table, n - 1) + if IsRow(c) && c.schema == schema && c.table == table then [c.column] else []
  }

  /** No two rows that count have one dotted name and two schemas. */
  predicate DotsTell(cols: seq<Column>) {
    forall x, y | 0 <= x < |cols| && 0 <= y < |cols| && IsRow(cols[x]) && IsRow(cols[y])
        && KeyOfRow(cols[x]) == KeyOfRow(cols[y]) ::
      cols[x].schema == cols[y].schema && cols[x].table == cols[y].table
  }

  /** Every table of the rows is listed under its own names with exactly its columns. */
  ghost predicate ListsEveryTable(cols: seq<Column>, tables: seq<Table>) {
    forall x | 0 <= x < |cols| && IsRow(cols[x]) :: TrueTable(cols, x) in tables
  }

  function TrueTable(cols: seq<Column>, x: nat): Table
    requires x < |cols|
  {
    Table(cols[x].schema, cols[x].table, Own(cols, cols[x].schema, cols[x].table, |cols|), [])
  }

  lemma {:induction false} UnderIsOwn(cols: seq<Column>, x: nat, n: nat)
    requires DotsTell(cols) && x < |cols| && IsRow(cols[x]) && n <= |cols|
    ensures Under(cols, KeyOfRow(cols[x]), n) == Own(cols, cols[x].schema, cols[x].table, n)
  {
    hide Dotted;
    if n > 0 {
      UnderIsOwn(cols, x, n - 1);
    }
  }

  lemma {:induction false} OneOfEachName(cols: seq<Column>, t: Table, u: Table)
    requires t in TablesOf(cols, |cols|) && u in TablesOf(cols, |cols|) && KeyOfTable(t) == KeyOfTable(u)
    ensures t == u
  {
    hide TablesOf, KeyOfTable;
    var all := TablesOf(cols, |cols|);
    DottedApart(cols);
    var i :| 0 <= i < |all| && all[i] == t;
    var j :| 0 <= j < |all| && all[j] == u;
  }

  lemma {:induction false} TrueTableKey(cols: seq<Column>, x: nat)
    requires x < |cols|
    ensures KeyOfTable(TrueTable(cols, x)) == KeyOfRow(cols[x])
  {
  }

  lemma {:induction false} ListedWhereDotsTell(cols: seq<Column>, x: nat)
    requires DotsTell(cols) && x < |cols| && IsRow(cols[x])
    ensures TrueTable(cols, x) in TablesOf(cols, |cols|)
  {
    hide Dotted, TablesOf, KeyOfRow;
    var y := OpenerOf(cols, x);
    UnderIsOwn(cols, y, |cols|);
    TablesAre(cols, TrueTable(cols, x));
    assert TableAt(cols, y, |cols|) == TrueTable(cols, x);
  }

  /** The listing has every table of the rows, with exactly its columns, exactly when no
      two rows that count spell one dotted name out of two schemas. */
  lemma {:induction false} ListsEveryTableExactlyWhen(cols: seq<Column>)
    ensures ListsEveryTable(cols, SortTables(TablesOf(cols, |cols|))) <==> DotsTell(cols)
  {
    hide Counts, IsRow, KeyOfRow, TablesOf, SortTables, TrueTable;
    var all := TablesOf(cols, |cols|);
    DottedApart(cols);
    DottedIsDistinct(all);
    SortTablesKeeps(all);
    if DotsTell(cols) {
      forall x | 0 <= x < |cols| && IsRow(cols[x])
        ensures TrueTable(cols, x) in all
      {
        ListedWhereDotsTell(cols, x);
      }
    }
    if ListsEveryTable(cols, SortTables(all)) {
      forall x, y | 0 <= x < |cols| && 0 <= y < |cols| && IsRow(cols[x]) && IsRow(cols[y])
          && KeyOfRow(cols[x]) == KeyOfRow(cols[y])
        ensures cols[x].schema == cols[y].schema && cols[x].table == cols[y].table
      {
        TrueTableKey(cols, x);
        TrueTableKey(cols, y);
        OneOfEachName(cols, TrueTable(cols, x), TrueTable(cols, y));
        TrueTableNames(cols, x);
        TrueTableNames(cols, y);
      }
    }
  }

  /** Then nothing else is listed. */
  lemma {:induction false} ListsNothingElse(cols: seq<Column>, t: Table)
    requires DotsTell(cols) && t in SortTables(TablesOf(cols, |cols|))
    ensures exists x :: 0 <= x < |cols| && IsRow(cols[x]) && t == TrueTable(cols, x)
  {
    hide Dotted, TablesOf, KeyOfRow, SortTables, InOrder;
    GatheredIs(cols, t);
    var x :| 0 <= x < |cols| && Opens(cols, x) && t == TableAt(cols, x, |cols|);
    UnderIsOwn(cols, x, |cols|);
    assert t == TrueTable(cols, x);
  }

  lemma {:induction false} TrueTableNames(cols: seq<Column>, x: nat)
    requires x < |cols|
    ensures TrueTable(cols, x).schema == cols[x].schema && TrueTable(cols, x).name == cols[x].table
  {
  }

  /** Two tables that become one: the second is not listed, and its column is given to
      the first. */
  lemma {:induction false} DotsAreTakenForOthers()
    ensures var cols := [Column("a.b", "c", "x"), Column("a", "b.c", "y")];
            SortTables(TablesOf(cols, 2)) == [Table("a.b", "c", ["x", "y"], [])]
  {
    var cols := [Column("a.b", "c", "x"), Column("a", "b.c", "y")];
    SameDots(cols[0], cols[1]);
    TwoRows(cols);
    var t := Table("a.b", "c", ["x", "y"], []);
    assert TablesOf(cols, 2) == [TableOf(cols, 2, 0)] == [t];
    assert [t][..0] == [];
    assert Sort(TableLess, []) == [];
  }

  lemma {:induction false} SameDots(a: Column, b: Column)
    requires a == Column("a.b", "c", "x") && b == Column("a", "b.c", "y")
    ensures KeyOfRow(a) == KeyOfRow(b) && Counts(a) && Counts(b)
  {
    assert KeyOfRow(a) == "a.b.c" == KeyOfRow(b);
  }

  lemma {:induction false} TwoRows(cols: seq<Column>)
    requires |cols| == 2 && Counts(cols[0]) && Counts(cols[1]) && KeyOfRow(cols[0]) == KeyOfRow(cols[1])
    ensures Openers(cols, 2) == [0] && Under(cols, KeyOfRow(cols[0]), 2) == [cols[0].column, cols[1].column]
  {
    hide KeyOfRow, Counts;
    var key := KeyOfRow(cols[0]);
    assert Openers(cols, 0) == [] && Under(cols, key, 0) == [];
    UnderStep(cols, 0, key);
    UnderStep(cols, 1, key);
    assert Opens(cols, 0) && !Opens(cols, 1);
    assert Openers(cols, 1) == [0];
  }
}
