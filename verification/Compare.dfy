/** Whether two query results hold the same rows: compareResults and sameRows of
    cmd/ochakai/eval.go. How a cell is normalised (numbers to nine significant
    digits) is given. */
module Compare {
  import opened Text
  import opened Order

  type Row = seq<string>

  type Normal = string -> string

  const UNIT := '\U{001F}'

  // ------------------------------------------------------------------
  // The key of a row

  function Cells(norm: Normal, row: Row): (r: Row)
    ensures |r| == |row|
  {
    seq(|row|, i requires 0 <= i < |row| => norm(row[i]))
  }

  /** sort.Strings, which keeps equal cells. */
  function SortCells(s: Row): Row {
    Sort(Less, s)
  }

  function Key(norm: Normal, row: Row, anyOrder: bool): string {
    Join(if anyOrder then SortCells(Cells(norm, row)) else Cells(norm, row), [UNIT])
  }

  function Keys(norm: Normal, rows: seq<Row>, anyOrder: bool): (r: seq<string>)
    ensures |r| == |rows|
  {
    seq(|rows|, i requires 0 <= i < |rows| => Key(norm, rows[i], anyOrder))
  }

  // ------------------------------------------------------------------
  // The program

  function At(count: map<string, nat>, k: string): nat {
    if k in count then count[k] else 0
  }

  method CountKeys(keys: seq<string>) returns (count: map<string, nat>)
    ensures forall k :: At(count, k) == multiset(keys)[k]
  {
    count := map[];
    for i := 0 to |keys|
      invariant forall k :: At(count, k) == multiset(keys[..i])[k]
    {
      assert keys[..i + 1] == keys[..i] + [keys[i]];
      count := count[keys[i] := At(count, keys[i]) + 1];
    }
    assert keys[..|keys|] == keys;
  }

  method TakeKeys(count: map<string, nat>, keys: seq<string>, ghost all: multiset<string>) returns (same: bool)
    requires forall k :: At(count, k) == all[k]
    ensures same <==> multiset(keys) <= all
  {
    var left: map<string, nat> := count;
    for i := 0 to |keys|
      invariant forall k :: At(left, k) + multiset(keys[..i])[k] == all[k]
    {
      assert keys[..i + 1] == keys[..i] + [keys[i]];
      assert multiset(keys) == multiset(keys[..i + 1]) + multiset(keys[i + 1..]) by {
        assert keys == keys[..i + 1] + keys[i + 1..];
      }
      if At(left, keys[i]) == 0 {
        assert multiset(keys)[keys[i]] > all[keys[i]];
        return false;
      }
      left := left[keys[i] := At(left, keys[i]) - 1];
    }
    assert keys[..|keys|] == keys;
    return true;
  }

  method SameRows(norm: Normal, a: seq<Row>, b: seq<Row>, anyOrder: bool) returns (same: bool)
    ensures same <==> multiset(Keys(norm, b, anyOrder)) <= multiset(Keys(norm, a, anyOrder))
  {
    hide Key;
    var count := CountKeys(Keys(norm, a, anyOrder));
    same := TakeKeys(count, Keys(norm, b, anyOrder), multiset(Keys(norm, a, anyOrder)));
  }

  datatype Result = Result(fields: nat, rows: seq<Row>, total: int)

  datatype Outcome = TooLarge | Mismatch | Match

  ghost predicate SameKeys(norm: Normal, a: seq<Row>, b: seq<Row>, anyOrder: bool) {
    multiset(Keys(norm, a, anyOrder)) == multiset(Keys(norm, b, anyOrder))
  }

  method CompareResults(norm: Normal, want: Result, got: Result) returns (o: Outcome)
    ensures o.TooLarge? <==> |want.rows| < want.total || |got.rows| < got.total
    ensures o.Match? <==>
              && |want.rows| >= want.total && |got.rows| >= got.total
              && |want.rows| == |got.rows| && want.fields == got.fields
              && (SameKeys(norm, want.rows, got.rows, false) || SameKeys(norm, want.rows, got.rows, true))
  {
    hide Key, Keys;
    if |want.rows| < want.total || |got.rows| < got.total {
      return TooLarge;
    }
    if |want.rows| != |got.rows| {
      return Mismatch;
    }
    if want.fields != got.fields {
      return Mismatch;
    }
    KeysWeigh(norm, want.rows, got.rows, false);
    KeysWeigh(norm, want.rows, got.rows, true);
    var same := SameRows(norm, want.rows, got.rows, false);
    if same {
      return Match;
    }
    same := SameRows(norm, want.rows, got.rows, true);
    return if same then Match else Mismatch;
  }

  /** Between lists of one length, one way round is enough. */
  lemma {:induction false} KeysWeigh(norm: Normal, a: seq<Row>, b: seq<Row>, anyOrder: bool)
    requires |a| == |b|
    ensures multiset(Keys(norm, b, anyOrder)) <= multiset(Keys(norm, a, anyOrder)) <==> SameKeys(norm, a, b, anyOrder)
  {
    hide Key;
    var x, y := multiset(Keys(norm, a, anyOrder)), multiset(Keys(norm, b, anyOrder));
    assert |x| == |a| && |y| == |b|;
    if y <= x {
      assert x == y + (x - y);
      assert |x - y| == 0;
    }
  }

  // ------------------------------------------------------------------
  // What a key says of its row

  /** Every row has n cells, none with the unit separator in it. */
  predicate Regular(norm: Normal, rows: seq<Row>, n: nat) {
    forall row | row in rows :: |row| == n && forall c | c in row :: UNIT !in norm(c)
  }

  lemma {:induction false} KeyIsRow(norm: Normal, a: Row, b: Row)
    requires |a| == |b| && (forall c | c in a :: UNIT !in norm(c)) && (forall c | c in b :: UNIT !in norm(c))
    ensures Key(norm, a, false) == Key(norm, b, false) <==> Cells(norm, a) == Cells(norm, b)
  {
    CellsClean(norm, a);
    CellsClean(norm, b);
    JoinTells(Cells(norm, a), Cells(norm, b));
  }

  lemma {:induction false} CellsClean(norm: Normal, a: Row)
    requires forall c | c in a :: UNIT !in norm(c)
    ensures forall p | p in Cells(norm, a) :: UNIT !in p
  {
    forall p | p in Cells(norm, a)
      ensures UNIT !in p
    {
      var i :| 0 <= i < |a| && Cells(norm, a)[i] == p;
      assert a[i] in a;
    }
  }

  lemma {:induction false} JoinTells(a: Row, b: Row)
    requires |a| == |b| && (forall p | p in a :: UNIT !in p) && (forall p | p in b :: UNIT !in p)
    ensures Join(a, [UNIT]) == Join(b, [UNIT]) <==> a == b
  {
    if a != [] {
      SplitOfJoin(a, UNIT);
      SplitOfJoin(b, UNIT);
    }
  }

  // ------------------------------------------------------------------
  // Sorted cells

  predicate Ascending(s: Row) {
    forall i, j | 0 <= i < j < |s| :: !Less(s[j], s[i])
  }

  lemma {:induction false} AscendingCons(x: string, s: Row)
    ensures Ascending([x] + s) <==> Ascending(s) && forall y | y in s :: !Less(y, x)
  {
    var r := [x] + s;
    if Ascending(r) {
      forall i, j | 0 <= i < j < |s|
        ensures !Less(s[j], s[i])
      {
        assert !Less(r[j + 1], r[i + 1]);
      }
      forall y | y in s
        ensures !Less(y, x)
      {
        var k :| 0 <= k < |s| && s[k] == y;
        assert !Less(r[k + 1], r[0]);
      }
    }
    if Ascending(s) && forall y | y in s :: !Less(y, x) {
      forall i, j | 0 <= i < j < |r|
        ensures !Less(r[j], r[i])
      {
        assert r[j] == s[j - 1];
        if i > 0 {
          assert !Less(s[j - 1], s[i - 1]);
        }
      }
    }
  }

  lemma {:induction false} NotLessTransitive(a: string, b: string, c: string)
    requires !Less(b, a) && !Less(c, b)
    ensures !Less(c, a)
  {
    hide Less;
    LessIsTotal(a, b);
    LessIsTotal(b, c);
    if Less(c, a) {
      if a == b {
      } else {
        LessIsTransitive(c, a, b);
      }
    }
  }

  lemma {:induction false} LessNotBack(a: string, b: string)
    requires Less(a, b)
    ensures !Less(b, a)
  {
    hide Less;
    if Less(b, a) {
      LessIsTransitive(a, b, a);
      LessIsIrreflexive(a);
    }
  }

  lemma {:induction false} InsertAscends(s: Row, x: string)
    requires Ascending(s)
    ensures Ascending(Insert(Less, s, x))
  {
    hide Less, Ascending;
    if s == [] {
      AscendingCons(x, s);
    } else {
      assert s == [s[0]] + s[1..];
      AscendingCons(s[0], s[1..]);
      if Less(x, s[0]) {
        LessNotBack(x, s[0]);
        forall y | y in s
          ensures !Less(y, x)
        {
          if y in s[1..] {
            NotLessTransitive(x, s[0], y);
          }
        }
        AscendingCons(x, s);
      } else {
        InsertAscends(s[1..], x);
        InsertHas(Less, s[1..], x);
        AscendingCons(s[0], Insert(Less, s[1..], x));
      }
    }
  }

  lemma {:induction false} SortAscends(s: Row)
    ensures Ascending(Sort(Less, s))
  {
    hide Less, Ascending;
    if s == [] {
      NoneAscend();
    } else {
      SortAscends(s[..|s| - 1]);
      InsertAscends(Sort(Less, s[..|s| - 1]), s[|s| - 1]);
    }
  }

  lemma {:induction false} SortIs(s: Row)
    ensures multiset(SortCells(s)) == multiset(s) && Ascending(SortCells(s)) && |SortCells(s)| == |s|
    ensures forall y :: y in SortCells(s) <==> y in s
  {
    hide Less, Ascending;
    SortAscends(s);
    SortHas(Less, s);
  }

  lemma {:induction false} NoneAscend()
    ensures Ascending([])
  {
  }

  lemma {:induction false} FirstIsLeast(a: Row, y: string)
    requires Ascending(a) && y in a
    ensures !Less(y, a[0])
  {
    hide Less;
    LessIsIrreflexive(a[0]);
    var k :| 0 <= k < |a| && a[k] == y;
    if k > 0 {
      assert !Less(a[k], a[0]);
    }
  }

  /** Sorted cells are told by what cells there are. */
  lemma {:induction false} AscendingIsOne(a: Row, b: Row)
    requires Ascending(a) && Ascending(b) && multiset(a) == multiset(b)
    ensures a == b
  {
    hide Less, Ascending;
    assert |multiset(a)| == |a| && |multiset(b)| == |b|;
    if a != [] {
      assert a == [a[0]] + a[1..] && b == [b[0]] + b[1..];
      AscendingCons(a[0], a[1..]);
      AscendingCons(b[0], b[1..]);
      assert a[0] in multiset(b) && b[0] in multiset(a);
      FirstIsLeast(a, b[0]);
      FirstIsLeast(b, a[0]);
      LessIsTotal(a[0], b[0]);
      assert multiset(a[1..]) == multiset(a) - multiset{a[0]};
      assert multiset(b[1..]) == multiset(b) - multiset{b[0]};
      AscendingIsOne(a[1..], b[1..]);
    }
  }

  lemma {:induction false} SortTells(a: Row, b: Row)
    ensures SortCells(a) == SortCells(b) <==> multiset(a) == multiset(b)
  {
    hide SortCells, Ascending;
    SortIs(a);
    SortIs(b);
    if multiset(a) == multiset(b) {
      AscendingIsOne(SortCells(a), SortCells(b));
    }
  }

  /** With the column order set aside, a key is the multiset of its row's cells. */
  lemma {:induction false} KeyIsCells(norm: Normal, a: Row, b: Row)
    requires |a| == |b| && (forall c | c in a :: UNIT !in norm(c)) && (forall c | c in b :: UNIT !in norm(c))
    ensures Key(norm, a, true) == Key(norm, b, true) <==> multiset(Cells(norm, a)) == multiset(Cells(norm, b))
  {
    hide SortCells, Cells, Join;
    CellsClean(norm, a);
    CellsClean(norm, b);
    SortIs(Cells(norm, a));
    SortIs(Cells(norm, b));
    JoinTells(SortCells(Cells(norm, a)), SortCells(Cells(norm, b)));
    SortTells(Cells(norm, a), Cells(norm, b));
  }

  // ------------------------------------------------------------------
  // Multisets of rows

  function Without<T>(s: seq<T>, i: nat): seq<T>
    requires i < |s|
  {
    s[..i] + s[i + 1..]
  }

  lemma {:induction false} WithoutOne<T>(s: seq<T>, i: nat)
    requires i < |s|
    ensures multiset(s) == multiset(Without(s, i)) + multiset{s[i]} && |Without(s, i)| == |s| - 1
    ensures multiset(Without(s, i)) == multiset(s) - multiset{s[i]}
  {
    assert s == s[..i] + [s[i]] + s[i + 1..];
  }

  lemma {:induction false} WithoutAt<T>(s: seq<T>, i: nat, x: nat)
    requires i < |s| && x < |s| - 1
    ensures Without(s, i)[x] == s[if x < i then x else x + 1]
  {
  }

  lemma {:induction false} CrossWithout<K, V>(ka: seq<K>, va: seq<V>, kb: seq<K>, vb: seq<V>, i: nat, j: nat)
    requires |ka| == |va| && |kb| == |vb| && i < |ka| && j < |kb|
    requires forall x, y | 0 <= x < |ka| && 0 <= y < |kb| && ka[x] == kb[y] :: va[x] == vb[y]
    ensures |Without(ka, i)| == |Without(va, i)| && |Without(kb, j)| == |Without(vb, j)|
    ensures forall x, y | 0 <= x < |Without(ka, i)| && 0 <= y < |Without(kb, j)|
            && Without(ka, i)[x] == Without(kb, j)[y] ::
              Without(va, i)[x] == Without(vb, j)[y]
  {
    WithoutOne(ka, i);
    WithoutOne(va, i);
    WithoutOne(kb, j);
    WithoutOne(vb, j);
    hide Without;
    forall x, y | 0 <= x < |Without(ka, i)| && 0 <= y < |Without(kb, j)| && Without(ka, i)[x] == Without(kb, j)[y]
      ensures Without(va, i)[x] == Without(vb, j)[y]
    {
      WithoutAt(ka, i, x);
      WithoutAt(va, i, x);
      WithoutAt(kb, j, y);
      WithoutAt(vb, j, y);
    }
  }

  /** Lists that hold the same keys hold the same values, where equal keys mean
      equal values. */
  lemma {:induction false} Transfer<K, V>(ka: seq<K>, va: seq<V>, kb: seq<K>, vb: seq<V>)
    requires |ka| == |va| && |kb| == |vb| && multiset(ka) == multiset(kb)
    requires forall i, j | 0 <= i < |ka| && 0 <= j < |kb| && ka[i] == kb[j] :: va[i] == vb[j]
    ensures multiset(va) == multiset(vb)
    decreases |ka|
  {
    hide Without;
    assert |multiset(ka)| == |ka| && |multiset(kb)| == |kb|;
    if |ka| > 0 {
      assert ka[0] in multiset(kb);
      var j :| 0 <= j < |kb| && kb[j] == ka[0];
      assert va[0] == vb[j];
      WithoutOne(ka, 0);
      WithoutOne(kb, j);
      WithoutOne(va, 0);
      WithoutOne(vb, j);
      CrossWithout(ka, va, kb, vb, 0, j);
      Transfer(Without(ka, 0), Without(va, 0), Without(kb, j), Without(vb, j));
    }
  }

  function NormRows(norm: Normal, rows: seq<Row>): (r: seq<Row>)
    ensures |r| == |rows|
  {
    seq(|rows|, i requires 0 <= i < |rows| => Cells(norm, rows[i]))
  }

  function Bags(norm: Normal, rows: seq<Row>): (r: seq<multiset<string>>)
    ensures |r| == |rows|
  {
    seq(|rows|, i requires 0 <= i < |rows| => multiset(Cells(norm, rows[i])))
  }

  /** By position, two results match exactly when they hold the same normalised rows
      the same number of times. */
  lemma {:induction false} PositionalIsMultiset(norm: Normal, a: seq<Row>, b: seq<Row>, n: nat)
    requires Regular(norm, a, n) && Regular(norm, b, n)
    ensures SameKeys(norm, a, b, false) <==> multiset(NormRows(norm, a)) == multiset(NormRows(norm, b))
  {
    hide Cells, Key;
    var ka, kb, va, vb := Keys(norm, a, false), Keys(norm, b, false), NormRows(norm, a), NormRows(norm, b);
    forall i, j | 0 <= i < |a| && 0 <= j < |b|
      ensures ka[i] == kb[j] <==> va[i] == vb[j]
    {
      assert a[i] in a && b[j] in b;
      KeyIsRow(norm, a[i], b[j]);
    }
    if multiset(ka) == multiset(kb) {
      Transfer(ka, va, kb, vb);
    }
    if multiset(va) == multiset(vb) {
      Transfer(va, ka, vb, kb);
    }
  }

  /** With the column order set aside, exactly when they hold the same bags of cells
      the same number of times. */
  lemma {:induction false} AnyOrderIsBags(norm: Normal, a: seq<Row>, b: seq<Row>, n: nat)
    requires Regular(norm, a, n) && Regular(norm, b, n)
    ensures SameKeys(norm, a, b, true) <==> multiset(Bags(norm, a)) == multiset(Bags(norm, b))
  {
    hide Cells, Key;
    var ka, kb, va, vb := Keys(norm, a, true), Keys(norm, b, true), Bags(norm, a), Bags(norm, b);
    forall i, j | 0 <= i < |a| && 0 <= j < |b|
      ensures ka[i] == kb[j] <==> va[i] == vb[j]
    {
      assert a[i] in a && b[j] in b;
      KeyIsCells(norm, a[i], b[j]);
    }
    if multiset(ka) == multiset(kb) {
      Transfer(ka, va, kb, vb);
    }
    if multiset(va) == multiset(vb) {
      Transfer(va, ka, vb, kb);
    }
  }

  /** A match by position is a match in any column order: the first of the two tests
      decides nothing on its own. */
  lemma {:induction false} PositionalImpliesAnyOrder(norm: Normal, a: seq<Row>, b: seq<Row>, n: nat)
    requires Regular(norm, a, n) && Regular(norm, b, n) && SameKeys(norm, a, b, false)
    ensures SameKeys(norm, a, b, true)
  {
    hide Cells, Key, Keys;
    PositionalIsMultiset(norm, a, b, n);
    AnyOrderIsBags(norm, a, b, n);
    Transfer(NormRows(norm, a), Bags(norm, a), NormRows(norm, b), Bags(norm, b));
  }

  /** The order of the rows is nothing to either mode. */
  lemma {:induction false} RowOrderIsNothing(norm: Normal, a: seq<Row>, b: seq<Row>, anyOrder: bool)
    requires multiset(a) == multiset(b)
    ensures SameKeys(norm, a, b, anyOrder)
  {
    hide Key;
    Transfer(a, Keys(norm, a, anyOrder), b, Keys(norm, b, anyOrder));
  }

  // ------------------------------------------------------------------
  // Columns in another order

  /** The columns of a row in the order perm says. */
  function Rearranged(row: Row, perm: seq<nat>): (r: Row)
    requires forall k | k in perm :: k < |row|
    ensures |r| == |perm|
  {
    seq(|perm|, i requires 0 <= i < |perm| => assert perm[i] in perm; row[perm[i]])
  }

  function Upto(n: nat): (r: seq<nat>)
    ensures |r| == n && forall i | 0 <= i < n :: r[i] == i
  {
    seq(n, i => i)
  }

  predicate IsPermutation(perm: seq<nat>, n: nat) {
    multiset(perm) == multiset(Upto(n))
  }

  lemma {:induction false} PermutationFits(perm: seq<nat>, n: nat)
    requires IsPermutation(perm, n)
    ensures |perm| == n && forall k | k in perm :: k < n
  {
    assert |multiset(perm)| == |perm| && |multiset(Upto(n))| == n;
    forall k | k in perm
      ensures k < n
    {
      assert k in multiset(perm);
      assert k in Upto(n);
    }
  }

  lemma {:induction false} RearrangedBag(norm: Normal, row: Row, perm: seq<nat>)
    requires IsPermutation(perm, |row|) && forall k | k in perm :: k < |row|
    ensures multiset(Cells(norm, Rearranged(row, perm))) == multiset(Cells(norm, row))
  {
    PermutationFits(perm, |row|);
    var ids := Upto(|row|);
    var r := Cells(norm, Rearranged(row, perm));
    forall i, j | 0 <= i < |perm| && 0 <= j < |ids| && perm[i] == ids[j]
      ensures r[i] == Cells(norm, row)[j]
    {
    }
    Transfer(perm, r, ids, Cells(norm, row));
  }

  /** A result with its columns in another order, one order for all rows, matches. */
  lemma {:induction false} ColumnOrderIsNothing(norm: Normal, a: seq<Row>, b: seq<Row>, perm: seq<nat>, n: nat)
    requires Regular(norm, a, n) && Regular(norm, b, n) && IsPermutation(perm, n) && |a| == |b|
    requires forall k | k in perm :: k < n
    requires forall i | 0 <= i < |a| :: a[i] in a && b[i] == Rearranged(a[i], perm)
    ensures SameKeys(norm, a, b, true)
  {
    hide Cells, Key, Keys, Rearranged, IsPermutation;
    AnyOrderIsBags(norm, a, b, n);
    forall i | 0 <= i < |a|
      ensures Bags(norm, a)[i] == Bags(norm, b)[i]
    {
      RearrangedBag(norm, a[i], perm);
    }
    assert Bags(norm, a) == Bags(norm, b);
  }

  lemma {:induction false} PairCells(norm: Normal, x: string, y: string)
    ensures Cells(norm, [x, y]) == [norm(x), norm(y)]
  {
  }

  lemma {:induction false} PairRows(norm: Normal, p: Row, q: Row)
    ensures NormRows(norm, [p, q]) == [Cells(norm, p), Cells(norm, q)]
    ensures Bags(norm, [p, q]) == [multiset(Cells(norm, p)), multiset(Cells(norm, q))]
  {
    hide Cells;
  }

  lemma {:induction false} PairRegular(norm: Normal, p: Row, q: Row)
    requires |p| == 2 && |q| == 2
    requires forall c | c in p || c in q :: UNIT !in norm(c)
    ensures Regular(norm, [p, q], 2)
  {
  }

  lemma {:induction false} PairBags<T>(p: T, q: T)
    requires p != q
    ensures multiset([p, p]) != multiset([p, q])
  {
    assert multiset([p, p])[q] == 0 && multiset([p, q])[q] == 1;
  }

  lemma {:induction false} SwappedBag(p: string, q: string)
    ensures multiset([p, q]) == multiset([q, p])
  {
  }

  /** But rows are rearranged one by one: two results match although no one order of
      the columns makes the one of the other. */
  lemma {:induction false} RowByRow(norm: Normal, x: string, y: string)
    requires norm(x) != norm(y) && UNIT !in norm(x) && UNIT !in norm(y)
    ensures var a, b := [[x, y], [x, y]], [[x, y], [y, x]];
            SameKeys(norm, a, b, true) && !SameKeys(norm, a, b, false)
    ensures forall perm: seq<nat> | forall k | k in perm :: k < 2 ::
              [Rearranged([x, y], perm), Rearranged([x, y], perm)] != [[x, y], [y, x]]
  {
    hide Key, Keys, Cells, Bags, NormRows, Regular, Rearranged;
    var p, q := [x, y], [y, x];
    PairCells(norm, x, y);
    PairCells(norm, y, x);
    assert p[0] != q[0] by { assert x != y; }
    PairRegular(norm, p, p);
    PairRegular(norm, p, q);
    AnyOrderIsBags(norm, [p, p], [p, q], 2);
    PositionalIsMultiset(norm, [p, p], [p, q], 2);
    PairRows(norm, p, p);
    PairRows(norm, p, q);
    SwappedBag(norm(x), norm(y));
    assert [norm(x), norm(y)][0] != [norm(y), norm(x)][0];
    PairBags(Cells(norm, p), Cells(norm, q));
    forall perm: seq<nat> | forall k | k in perm :: k < 2
      ensures [Rearranged(p, perm), Rearranged(p, perm)] != [p, q]
    {
      var r := Rearranged(p, perm);
      assert [r, r][0] == [r, r][1];
    }
  }
}
