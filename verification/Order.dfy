/** Sorting, as `sort.Strings` and `sort.Slice` leave their argument: the order
    of the result does not depend on the order the elements came in. */
module Order {

  /** Byte order, which for UTF-8 is the order of the characters. */
  predicate Less(a: string, b: string) {
    b != "" && (a == "" || a[0] < b[0] || (a[0] == b[0] && Less(a[1..], b[1..])))
  }

  /** a and b are alike before k, where a ends or has the lesser character. */
  predicate LessAt(a: string, b: string, k: nat) {
    k <= |a| && k < |b| && a[..k] == b[..k] && (k < |a| ==> a[k] < b[k])
  }

  lemma {:induction false} LessIsAtTheFirstDifference(a: string, b: string)
    ensures Less(a, b) <==> exists k: nat :: LessAt(a, b, k)
  {
    if a == "" {
      assert b != "" ==> LessAt(a, b, 0);
    } else if b != "" {
      LessIsAtTheFirstDifference(a[1..], b[1..]);
      if Less(a, b) {
        if a[0] < b[0] {
          assert LessAt(a, b, 0);
        } else {
          var k: nat :| LessAt(a[1..], b[1..], k);
          assert a[..k + 1] == [a[0]] + a[1..][..k] && b[..k + 1] == [b[0]] + b[1..][..k];
          assert LessAt(a, b, k + 1);
        }
      }
      if k: nat :| LessAt(a, b, k) {
        if k > 0 {
          assert a[0] == a[..k][0] == b[..k][0] == b[0];
          assert a[1..][..k - 1] == a[..k][1..] && b[1..][..k - 1] == b[..k][1..];
          assert LessAt(a[1..], b[1..], k - 1);
        }
      }
    }
  }

  lemma {:induction false} LessIsTotal(a: string, b: string)
    ensures Less(a, b) || Less(b, a) || a == b
  {
    if a != "" && b != "" && a[0] == b[0] {
      LessIsTotal(a[1..], b[1..]);
      if a[1..] == b[1..] {
        assert a == [a[0]] + a[1..] == [b[0]] + b[1..] == b;
      }
    }
  }

  lemma {:induction false} LessIsTransitive(a: string, b: string, c: string)
    requires Less(a, b) && Less(b, c)
    ensures Less(a, c)
  {
    if a != "" && a[0] == b[0] && b[0] == c[0] {
      LessIsTransitive(a[1..], b[1..], c[1..]);
    }
  }

  lemma {:induction false} LessIsIrreflexive(a: string)
    ensures !Less(a, a)
  {
    if a != "" {
      LessIsIrreflexive(a[1..]);
    }
  }

  ghost predicate Orders<T(!new)>(less: (T, T) -> bool) {
    && (forall a, b, c :: less(a, b) && less(b, c) ==> less(a, c))
    && (forall a :: !less(a, a))
  }

  ghost predicate StrictOrder<T(!new)>(less: (T, T) -> bool) {
    Orders(less) && forall a, b :: less(a, b) || less(b, a) || a == b
  }

  lemma {:induction false} LessIsStrict()
    ensures StrictOrder(Less)
  {
    forall a, b
      ensures Less(a, b) || Less(b, a) || a == b
    {
      LessIsTotal(a, b);
    }
    forall a, b, c | Less(a, b) && Less(b, c)
      ensures Less(a, c)
    {
      LessIsTransitive(a, b, c);
    }
    forall a: string
      ensures !Less(a, a)
    {
      LessIsIrreflexive(a);
    }
  }

  ghost predicate Increasing<T>(less: (T, T) -> bool, s: seq<T>) {
    forall i, j | 0 <= i < j < |s| :: less(s[i], s[j])
  }

  /** The elements of the set, in order. */
  ghost predicate IsSorted<T(!new)>(less: (T, T) -> bool, s: set<T>, r: seq<T>) {
    Increasing(less, r) && (forall x :: x in r <==> x in s)
  }

  lemma {:induction false} EmptyIsSorted<T(!new)>(less: (T, T) -> bool, s: set<T>, r: seq<T>)
    requires IsSorted(less, s, r)
    ensures r == [] <==> s == {}
  {
    if r != [] {
      assert r[0] in r;
    }
  }

  lemma {:induction false} IncreasingCons<T(!new)>(less: (T, T) -> bool, x: T, s: seq<T>)
    ensures Increasing(less, [x] + s) <==> Increasing(less, s) && forall y | y in s :: less(x, y)
  {
    var t := [x] + s;
    if Increasing(less, t) {
      forall i, j | 0 <= i < j < |s|
        ensures less(s[i], s[j])
      {
        assert less(t[i + 1], t[j + 1]);
      }
      forall y | y in s
        ensures less(x, y)
      {
        var k :| 0 <= k < |s| && s[k] == y;
        assert less(t[0], t[k + 1]);
      }
    }
    if Increasing(less, s) && forall y | y in s :: less(x, y) {
      forall i, j | 0 <= i < j < |t|
        ensures less(t[i], t[j])
      {
        assert t[j] == s[j - 1];
        if i > 0 {
          assert less(s[i - 1], s[j - 1]);
        }
      }
    }
  }

  /** What is in increasing order is told by its elements. */
  lemma {:induction false} IncreasingIsOne<T(!new)>(less: (T, T) -> bool, a: seq<T>, b: seq<T>)
    requires Orders(less) && Increasing(less, a) && Increasing(less, b) && forall x :: x in a <==> x in b
    ensures a == b
  {
    if a == [] {
      SomeElement(b);
    } else {
      SomeElement(a);
      SomeElement(b);
      assert a == [a[0]] + a[1..] && b == [b[0]] + b[1..];
      IncreasingCons(less, a[0], a[1..]);
      IncreasingCons(less, b[0], b[1..]);
      hide Increasing;
      forall x
        ensures x in a[1..] <==> x in b[1..]
      {
        assert x in a <==> x == a[0] || x in a[1..];
        assert x in b <==> x == b[0] || x in b[1..];
      }
      IncreasingIsOne(less, a[1..], b[1..]);
    }
  }

  lemma {:induction false} SomeElement<T>(s: seq<T>)
    ensures s != [] ==> s[0] in s
  {
  }

  /** Where x belongs in a sorted sequence: after its equals. */
  function Insert<T>(less: (T, T) -> bool, s: seq<T>, x: T): seq<T> {
    if s == [] || less(x, s[0]) then [x] + s else [s[0]] + Insert(less, s[1..], x)
  }

  lemma {:induction false} InsertHas<T>(less: (T, T) -> bool, s: seq<T>, x: T)
    ensures |Insert(less, s, x)| == |s| + 1 && multiset(Insert(less, s, x)) == multiset(s) + multiset{x}
    ensures forall y :: y in Insert(less, s, x) <==> y == x || y in s
  {
    if s != [] && !less(x, s[0]) {
      InsertHas(less, s[1..], x);
      assert s == [s[0]] + s[1..];
    }
  }

  lemma {:induction false} InsertKeeps<T(!new)>(less: (T, T) -> bool, s: seq<T>, x: T)
    requires Orders(less) && Increasing(less, s) && forall y | y in s :: less(x, y) || less(y, x)
    ensures Increasing(less, Insert(less, s, x))
  {
    hide Increasing;
    IncreasingCons(less, x, s);
    if s == [] {
      NoneIncrease(less);
    } else {
      SomeElement(s);
      assert s == [s[0]] + s[1..];
      IncreasingCons(less, s[0], s[1..]);
      if !less(x, s[0]) {
        InsertKeeps(less, s[1..], x);
        InsertHas(less, s[1..], x);
        IncreasingCons(less, s[0], Insert(less, s[1..], x));
      }
    }
  }

  lemma {:induction false} NoneIncrease<T(!new)>(less: (T, T) -> bool)
    ensures Increasing(less, [])
  {
  }

  lemma {:induction false} InsertIsSorted<T(!new)>(less: (T, T) -> bool, set0: set<T>, s: seq<T>, x: T)
    requires StrictOrder(less) && IsSorted(less, set0, s) && x !in set0
    ensures IsSorted(less, set0 + {x}, Insert(less, s, x))
  {
    InsertKeeps(less, s, x);
    InsertHas(less, s, x);
  }

  /** sort.SliceStable: what is equal keeps its order. */
  function Sort<T>(less: (T, T) -> bool, s: seq<T>): seq<T> {
    if s == [] then [] else Insert(less, Sort(less, s[..|s| - 1]), s[|s| - 1])
  }

  lemma {:induction false} SortHas<T>(less: (T, T) -> bool, s: seq<T>)
    ensures multiset(Sort(less, s)) == multiset(s) && |Sort(less, s)| == |s|
    ensures forall x :: x in Sort(less, s) <==> x in s
  {
    if s != [] {
      var before, last := s[..|s| - 1], s[|s| - 1];
      assert s == before + [last];
      SortHas(less, before);
      InsertHas(less, Sort(less, before), last);
    }
  }

  /** Any two elements are one before the other. */
  ghost predicate Comparable<T(!new)>(less: (T, T) -> bool, s: seq<T>) {
    forall i, j | 0 <= i < j < |s| :: less(s[i], s[j]) || less(s[j], s[i])
  }

  lemma {:induction false} SortIsIncreasing<T(!new)>(less: (T, T) -> bool, s: seq<T>)
    requires Orders(less) && Comparable(less, s)
    ensures Increasing(less, Sort(less, s))
  {
    if s == [] {
      NoneIncrease(less);
    } else {
      var before, last := s[..|s| - 1], s[|s| - 1];
      assert s == before + [last];
      SortIsIncreasing(less, before);
      SortHas(less, before);
      forall y | y in Sort(less, before)
        ensures less(last, y) || less(y, last)
      {
        var k :| 0 <= k < |before| && before[k] == y;
        assert less(s[k], s[|s| - 1]) || less(s[|s| - 1], s[k]);
      }
      InsertKeeps(less, Sort(less, before), last);
    }
  }

  ghost function SortedOf<T(!new)>(less: (T, T) -> bool, s: set<T>): (r: seq<T>)
    requires StrictOrder(less)
    ensures IsSorted(less, s, r)
  {
    if s == {} then []
    else
      var x :| x in s;
      var rest := SortedOf(less, s - {x});
      InsertIsSorted(less, s - {x}, rest, x);
      assert s - {x} + {x} == s;
      Insert(less, rest, x)
  }

  /** The strings of a set, as sort.Strings orders them. */
  ghost function SortedStrings(s: set<string>): (r: seq<string>)
    ensures IsSorted(Less, s, r)
  {
    LessIsStrict();
    SortedOf(Less, s)
  }

  /** Collecting a map's keys in any order and sorting them. */
  method SortStrings(s: set<string>) returns (r: seq<string>)
    ensures r == SortedStrings(s)
  {
    LessIsStrict();
    r := [];
    var left := s;
    while left != {}
      invariant left <= s && IsSorted(Less, s - left, r)
      decreases left
    {
      var x :| x in left;
      InsertIsSorted(Less, s - left, r, x);
      r := Insert(Less, r, x);
      assert s - left + {x} == s - (left - {x});
      left := left - {x};
    }
    IncreasingIsOne(Less, r, SortedStrings(s));
  }

  lemma {:induction false} SortedSize(s: set<string>, r: seq<string>)
    requires IsSorted(Less, s, r)
    ensures |r| == |s|
  {
    LessIsStrict();
    hide Less;
    assert forall i, j | 0 <= i < j < |r| :: r[i] != r[j];
    DistinctSize(r);
    assert s == set x | x in r;
  }

  lemma {:induction false} DistinctSize<T>(r: seq<T>)
    requires forall i, j | 0 <= i < j < |r| :: r[i] != r[j]
    ensures |set x | x in r| == |r|
  {
    if r != [] {
      var before, last := r[..|r| - 1], r[|r| - 1];
      DistinctSize(before);
      assert r == before + [last];
      assert (set x | x in r) == (set x | x in before) + {last};
    }
  }
}
