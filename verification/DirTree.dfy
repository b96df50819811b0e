/** The directory tree an export's index.md files are generated from: type dir of
    internal/okf/okf.go, against the flat list of what was put into it
    (section 8 of the Open Knowledge Format). */
module DirTree {
  import opened Order
  import opened Text

  /** Something at a path, given as segments from the directory at hand. */
  datatype Placed<T> = Placed(segs: seq<string>, what: T)

  /** A line of an index page about a subdirectory. */
  datatype SubLine = SubLine(name: string, count: nat)

  datatype Page<T, F> = Page(subdirs: seq<SubLine>, concepts: seq<Placed<T>>, files: seq<F>)

  // ------------------------------------------------------------------
  // The flat list

  /** What lies in the subdirectory of that name, seen from there. */
  function Below<T>(items: seq<Placed<T>>, name: string): seq<Placed<T>> {
    if items == [] then []
    else
      var last := items[|items| - 1];
      Below(items[..|items| - 1], name)
      + if |last.segs| > 1 && last.segs[0] == name then [Placed(last.segs[1..], last.what)] else []
  }

  /** What lies right here. */
  function Direct<T>(items: seq<Placed<T>>): seq<Placed<T>> {
    if items == [] then []
    else
      var last := items[|items| - 1];
      Direct(items[..|items| - 1]) + if |last.segs| == 1 then [last] else []
  }

  function Whats<T>(items: seq<Placed<T>>): seq<T> {
    if items == [] then [] else Whats(items[..|items| - 1]) + [items[|items| - 1].what]
  }

  /** What lies below a directory further down. */
  function Under<T>(items: seq<Placed<T>>, d: seq<string>): seq<Placed<T>>
    decreases |d|
  {
    if d == [] then items else Under(Below(items, d[0]), d[1..])
  }

  /** The subdirectories that hold something. */
  function Names<T>(items: seq<Placed<T>>): set<string> {
    if items == [] then {}
    else
      var last := items[|items| - 1];
      Names(items[..|items| - 1]) + if |last.segs| > 1 then {last.segs[0]} else {}
  }

  /** A directory of the bundle: the root, or one with a concept beneath. */
  predicate IsDir<T>(items: seq<Placed<T>>, d: seq<string>)
    decreases |d|
  {
    d == [] || (d[0] in Names(items) && IsDir(Below(items, d[0]), d[1..]))
  }

  ghost function SubLines<T>(items: seq<Placed<T>>): seq<SubLine> {
    var names := SortedStrings(Names(items));
    seq(|names|, i requires 0 <= i < |names| => SubLine(names[i], |Below(items, names[i])|))
  }

  /** The index page of the directory things are seen from. */
  ghost function PageOf<T, F>(items: seq<Placed<T>>, files: seq<Placed<F>>): Page<T, F> {
    Page(SubLines(items), Direct(items), Whats(Direct(files)))
  }

  lemma {:induction false} OneMore<T>(items: seq<Placed<T>>, p: Placed<T>, name: string)
    ensures |p.segs| > 1 && p.segs[0] == name
            ==> Below(items + [p], name) == Below(items, name) + [Placed(p.segs[1..], p.what)]
    ensures |p.segs| <= 1 || p.segs[0] != name ==> Below(items + [p], name) == Below(items, name)
    ensures |p.segs| == 1 ==> Direct(items + [p]) == Direct(items) + [p]
    ensures |p.segs| != 1 ==> Direct(items + [p]) == Direct(items)
    ensures |p.segs| > 1 ==> Names(items + [p]) == Names(items) + {p.segs[0]}
    ensures |p.segs| <= 1 ==> Names(items + [p]) == Names(items)
    ensures Whats(items + [p]) == Whats(items) + [p.what]
  {
    assert (items + [p])[..|items|] == items;
    assert Below(items, name) + [] == Below(items, name) && Direct(items) + [] == Direct(items);
  }

  /** A subdirectory is named exactly when something lies below it. */
  lemma {:induction false} NamedWhenBelow<T>(items: seq<Placed<T>>, name: string)
    ensures name in Names(items) <==> Below(items, name) != []
  {
    if items != [] {
      NamedWhenBelow(items[..|items| - 1], name);
    }
  }

  lemma {:induction false} NothingBelow<T>()
    ensures forall name :: Below<T>([], name) == []
  {
  }

  lemma {:induction false} NothingHere<T>()
    ensures Whats(Direct<T>([])) == []
  {
  }

  /** The directory key, reached by way of prefix, is in the tree of items. */
  predicate InTree<T>(items: seq<Placed<T>>, prefix: seq<string>, key: seq<string>) {
    prefix <= key && IsDir(items, key[|prefix|..])
  }

  ghost function PageAt<T, F>(
    items: seq<Placed<T>>, files: seq<Placed<F>>, prefix: seq<string>, key: seq<string>): Page<T, F>
    requires prefix <= key
  {
    PageOf(Under(items, key[|prefix|..]), Under(files, key[|prefix|..]))
  }

  /** key lies in the subdirectory of that name. */
  predicate Through(prefix: seq<string>, name: string, key: seq<string>) {
    prefix + [name] <= key
  }

  lemma {:induction false} TreeStep<T, F>(
    items: seq<Placed<T>>, files: seq<Placed<F>>, prefix: seq<string>, key: seq<string>)
    requires prefix <= key && key != prefix
    ensures var name := key[|prefix|];
            && Through(prefix, name, key)
            && (InTree(items, prefix, key)
                <==> name in Names(items) && InTree(Below(items, name), prefix + [name], key))
            && PageAt(items, files, prefix, key) == PageAt(Below(items, name), Below(files, name), prefix + [name], key)
  {
    hide Below, Names, PageOf;
    var name := key[|prefix|];
    assert key[..|prefix| + 1] == prefix + [name];
    assert key[|prefix|..][1..] == key[|prefix| + 1..];
  }

  lemma {:induction false} ThroughOne(prefix: seq<string>, name: string, key: seq<string>)
    requires Through(prefix, name, key)
    ensures prefix <= key && key != prefix && key[|prefix|] == name
  {
    assert key[..|prefix| + 1] == prefix + [name];
    assert key[..|prefix|] == key[..|prefix| + 1][..|prefix|];
  }

  lemma {:induction false} TreeTop<T, F>(items: seq<Placed<T>>, files: seq<Placed<F>>, prefix: seq<string>)
    ensures InTree(items, prefix, prefix) && PageAt(items, files, prefix, prefix) == PageOf(items, files)
  {
    hide PageOf;
    assert prefix[|prefix|..] == [];
  }

  /** out' is out with a page for each directory that done lets through. */
  ghost predicate Wrote<T, F>(
    items: seq<Placed<T>>, files: seq<Placed<F>>, prefix: seq<string>, done: set<string>,
    out: map<seq<string>, Page<T, F>>, out': map<seq<string>, Page<T, F>>)
  {
    forall key :: WroteAt(items, files, prefix, done, out, out', key)
  }

  ghost predicate WroteAt<T, F>(
    items: seq<Placed<T>>, files: seq<Placed<F>>, prefix: seq<string>, done: set<string>,
    out: map<seq<string>, Page<T, F>>, out': map<seq<string>, Page<T, F>>, key: seq<string>)
  {
    if InTree(items, prefix, key) && (key == prefix || key[|prefix|] in done) then
      key in out' && out'[key] == PageAt(items, files, prefix, key)
    else (key in out' <==> key in out) && (key in out ==> out'[key] == out[key])
  }

  /** One subdirectory more is written. */
  lemma {:induction false} WroteMore<T, F>(
    items: seq<Placed<T>>, files: seq<Placed<F>>, prefix: seq<string>, done: set<string>, name: string,
    out: map<seq<string>, Page<T, F>>, mid: map<seq<string>, Page<T, F>>, out': map<seq<string>, Page<T, F>>)
    requires name in Names(items) && name !in done
    requires Wrote(items, files, prefix, done, out, mid)
    requires Wrote(Below(items, name), Below(files, name), prefix + [name], Names(Below(items, name)), mid, out')
    ensures Wrote(items, files, prefix, done + {name}, out, out')
  {
    hide Below, Names, PageAt, InTree, IsDir;
    forall key
      ensures WroteAt(items, files, prefix, done + {name}, out, out', key)
    {
      assert WroteAt(items, files, prefix, done, out, mid, key);
      assert WroteAt(Below(items, name), Below(files, name), prefix + [name], Names(Below(items, name)), mid, out',
          key);
      if Through(prefix, name, key) {
        ThroughOne(prefix, name, key);
        TreeStep(items, files, prefix, key);
        if key != prefix + [name] {
          if InTree(Below(items, name), prefix + [name], key) {
            TreeStep(Below(items, name), Below(files, name), prefix + [name], key);
          }
        }
      } else {
        NotThrough(Below(items, name), prefix, name, key);
        if InTree(items, prefix, key) && key != prefix {
          InTreePrefix(items, prefix, key);
          TreeStep(items, files, prefix, key);
        }
      }
    }
  }

  lemma {:induction false} NotThrough<T>(items: seq<Placed<T>>, prefix: seq<string>, name: string, key: seq<string>)
    requires !Through(prefix, name, key)
    ensures !InTree(items, prefix + [name], key)
  {
  }

  lemma {:induction false} InTreePrefix<T>(items: seq<Placed<T>>, prefix: seq<string>, key: seq<string>)
    requires InTree(items, prefix, key)
    ensures prefix <= key
  {
  }

  lemma {:induction false} WroteTop<T, F>(
    items: seq<Placed<T>>, files: seq<Placed<F>>, prefix: seq<string>,
    out: map<seq<string>, Page<T, F>>, pages: map<seq<string>, Page<T, F>>)
    requires pages == out[prefix := PageOf(items, files)]
    ensures Wrote(items, files, prefix, {}, out, pages)
  {
    hide InTree, PageOf, PageAt;
    TreeTop(items, files, prefix);
  }

  // ------------------------------------------------------------------
  // The tree

  class Dir<T, F> {
    var subdirs: map<string, Dir<T, F>>
    var entries: seq<Placed<T>>
    var files: seq<F>
    var count: nat
    /** The concepts and files put in so far, seen from here. */
    ghost var concepts: seq<Placed<T>>
    ghost var objects: seq<Placed<F>>
    ghost var Repr: set<object>

    /** The directories below are well formed and share nothing. */
    ghost predicate Linked()
      reads this, Repr
      decreases Repr, 0
    {
      && this in Repr
      && (forall n | n in subdirs ::
            && subdirs[n] in Repr && subdirs[n] in subdirs[n].Repr && subdirs[n].Repr <= Repr
            && this !in subdirs[n].Repr && subdirs[n].Valid())
      && (forall m, n | m in subdirs && n in subdirs && m != n :: subdirs[m].Repr !! subdirs[n].Repr)
    }

    /** The tree holds what the flat lists say. */
    ghost predicate Valid()
      reads this, Repr
      decreases Repr, 1
    {
      && Linked()
      && (forall n | n in subdirs ::
            subdirs[n].concepts == Below(concepts, n) && subdirs[n].objects == Below(objects, n))
      && subdirs.Keys == Names(concepts)
      && entries == Direct(concepts)
      && files == Whats(Direct(objects))
      && count == |concepts|
    }

    constructor ()
      ensures Valid() && fresh(Repr) && concepts == [] && objects == []
    {
      subdirs, entries, files, count := map[], [], [], 0;
      concepts, objects := [], [];
      Repr := {this};
    }

    /** One more concept right here. */
    method AddEntry(p: Placed<T>)
      requires Valid() && |p.segs| == 1
      modifies this
      ensures Valid() && Repr == old(Repr)
      ensures concepts == old(concepts) + [p] && objects == old(objects)
    {
      hide Below, Direct, Names, Whats;
      OneMore(concepts, p, "");
      forall n | n in subdirs
        ensures Below(concepts + [p], n) == Below(concepts, n)
      {
        OneMore(concepts, p, n);
      }
      count := count + 1;
      entries := entries + [p];
      concepts := concepts + [p];
    }

    method Link(n: string, sub: Dir<T, F>)
      requires Linked() && n !in subdirs && sub.Valid() && sub in sub.Repr && sub.Repr !! Repr
      modifies this`subdirs, this`Repr
      ensures Linked() && subdirs == old(subdirs)[n := sub] && Repr == old(Repr) + sub.Repr
    {
      subdirs := subdirs[n := sub];
      Repr := Repr + sub.Repr;
    }

    method AddSubDir(n: string)
      requires Valid() && objects == [] && n !in subdirs
      modifies this`subdirs, this`Repr
      ensures n in subdirs && Linked() && fresh(Repr - old(Repr))
      ensures subdirs.Keys == Names(concepts) + {n}
      ensures forall m | m in subdirs :: subdirs[m].concepts == Below(concepts, m) && subdirs[m].objects == []
    {
      hide Below, Direct, Names, Whats;
      NamedWhenBelow(concepts, n);
      NothingBelow<F>();
      var sub := new Dir();
      Link(n, sub);
    }

    /** The subdirectory of that name, made when it is not there. */
    method SubDir(n: string) returns (sub: Dir<T, F>)
      requires Valid() && objects == []
      modifies this`subdirs, this`Repr
      ensures n in subdirs && subdirs[n] == sub && Linked() && fresh(Repr - old(Repr))
      ensures forall m | m in subdirs :: subdirs[m].concepts == Below(concepts, m) && subdirs[m].objects == []
      ensures subdirs.Keys == Names(concepts) + {n}
    {
      hide Below, Direct, Names, Whats;
      NothingBelow<F>();
      if n !in subdirs {
        AddSubDir(n);
      }
      sub := subdirs[n];
    }

    /** The new concept counted here, once the subdirectory it is in has it. */
    method CountOne(segs: seq<string>, what: T)
      requires Linked() && objects == [] && |segs| > 1
      requires entries == Direct(concepts) && files == [] && count == |concepts|
      requires subdirs.Keys == Names(concepts) + {segs[0]}
      requires forall m | m in subdirs ::
                 && subdirs[m].objects == []
                 && (m == segs[0] ==> subdirs[m].concepts == Below(concepts, m) + [Placed(segs[1..], what)])
                 && (m != segs[0] ==> subdirs[m].concepts == Below(concepts, m))
      modifies this`count, this`concepts
      ensures Valid() && Repr == old(Repr) && concepts == old(concepts) + [Placed(segs, what)] && objects == []
    {
      hide Below, Direct, Names, Whats;
      ghost var p := Placed(segs, what);
      forall m | m in subdirs
        ensures subdirs[m].concepts == Below(concepts + [p], m)
      {
        OneMore(concepts, p, m);
      }
      OneMore(concepts, p, segs[0]);
      NothingBelow<F>();
      NothingHere<F>();
      count := count + 1;
      concepts := concepts + [p];
    }

    /** One more concept below this directory. */
    method Insert(segs: seq<string>, what: T)
      requires Valid() && segs != [] && objects == []
      modifies Repr
      ensures Valid() && fresh(Repr - old(Repr))
      ensures concepts == old(concepts) + [Placed(segs, what)] && objects == []
      decreases |segs|, 1
    {
      hide Below, Direct, Names, Whats;
      if |segs| == 1 {
        AddEntry(Placed(segs, what));
        return;
      }
      NothingHere<F>();
      var sub := SubDir(segs[0]);
      InsertInto(sub, segs, what);
      CountOne(segs, what);
    }

    method InsertInto(sub: Dir<T, F>, segs: seq<string>, what: T)
      requires Linked() && |segs| > 1 && segs[0] in subdirs && subdirs[segs[0]] == sub
      requires forall m | m in subdirs :: subdirs[m].concepts == Below(concepts, m) && subdirs[m].objects == []
      modifies this`Repr, sub.Repr
      ensures Linked() && fresh(Repr - old(Repr))
      ensures forall m | m in subdirs ::
                && subdirs[m].objects == []
                && (m == segs[0] ==> subdirs[m].concepts == Below(concepts, m) + [Placed(segs[1..], what)])
                && (m != segs[0] ==> subdirs[m].concepts == Below(concepts, m))
      ensures subdirs == old(subdirs) && concepts == old(concepts) && objects == old(objects)
      ensures entries == old(entries) && files == old(files) && count == old(count)
      decreases |segs|, 0
    {
      hide Below, Direct, Names, Whats;
      sub.Insert(segs[1..], what);
      Repr := Repr + sub.Repr;
    }

    /** One file more, if its directory is in the tree; none is made for it. */
    method InsertFile(segs: seq<string>, what: F)
      requires Valid() && segs != []
      modifies Repr
      ensures Valid() && Repr == old(Repr)
      ensures concepts == old(concepts) && objects == old(objects) + [Placed(segs, what)]
      decreases |segs|
    {
      hide Below, Direct, Names, Whats;
      if |segs| == 1 {
        files := files + [what];
        assert Linked();
        assert forall m | m in subdirs :: subdirs[m].objects == Below(objects, m);
      } else if segs[0] in subdirs {
        var sub := subdirs[segs[0]];
        sub.InsertFile(segs[1..], what);
        assert Linked();
        assert sub.objects == Below(objects, segs[0]) + [Placed(segs[1..], what)];
        assert forall m | m in subdirs && m != segs[0] :: subdirs[m].objects == Below(objects, m);
        assert forall m | m in subdirs :: subdirs[m].concepts == Below(concepts, m);
      }
      CountFile(segs, what);
    }

    /** The new file noted here, once the directory it is in has it. */
    ghost method CountFile(segs: seq<string>, what: F)
      requires Linked() && segs != []
      requires entries == Direct(concepts) && count == |concepts| && subdirs.Keys == Names(concepts)
      requires |segs| == 1 ==> files == Whats(Direct(objects)) + [what]
      requires |segs| > 1 ==> files == Whats(Direct(objects))
      requires forall m | m in subdirs ::
                 && subdirs[m].concepts == Below(concepts, m)
                 && (|segs| > 1 && m == segs[0] ==> subdirs[m].objects == Below(objects, m) + [Placed(segs[1..], what)])
                 && (|segs| == 1 || m != segs[0] ==> subdirs[m].objects == Below(objects, m))
      modifies this`objects
      ensures Valid() && Repr == old(Repr) && objects == old(objects) + [Placed(segs, what)]
    {
      hide Below, Direct, Names, Whats;
      var p := Placed(segs, what);
      forall m | m in subdirs
        ensures subdirs[m].objects == Below(objects + [p], m)
      {
        OneMore(objects, p, m);
      }
      OneMore(objects, p, "");
      OneMore(Direct(objects), p, "");
      objects := objects + [p];
    }

    lemma {:induction false} CountBelow(n: string)
      requires Valid() && n in subdirs
      ensures subdirs[n].count == |Below(concepts, n)|
    {
      hide Below, Direct, Names, Whats;
      assert subdirs[n].Valid();
    }

    method LinesFor(names: seq<string>) returns (lines: seq<SubLine>)
      requires forall n | n in names :: n in subdirs && subdirs[n].count == |Below(concepts, n)|
      ensures |lines| == |names|
      ensures forall k | 0 <= k < |names| :: lines[k] == SubLine(names[k], |Below(concepts, names[k])|)
    {
      hide Below;
      lines := [];
      for i := 0 to |names|
        invariant |lines| == i
        invariant forall k | 0 <= k < i :: lines[k] == SubLine(names[k], |Below(concepts, names[k])|)
      {
        assert names[i] in names;
        lines := lines + [SubLine(names[i], subdirs[names[i]].count)];
      }
    }

    /** The lines about the subdirectories, in the alphabet. */
    method SubdirLines() returns (lines: seq<SubLine>)
      requires Valid()
      ensures lines == SubLines(concepts)
    {
      hide Below, Direct, Names, Whats, Linked;
      var names := SortStrings(subdirs.Keys);
      forall n | n in names
        ensures n in subdirs && subdirs[n].count == |Below(concepts, n)|
      {
        CountBelow(n);
      }
      lines := LinesFor(names);
      assert lines == SubLines(concepts);
    }

    /** The index pages of this directory and of those below it. */
    method WriteIndexes(out: map<seq<string>, Page<T, F>>, prefix: seq<string>)
        returns (pages: map<seq<string>, Page<T, F>>)
      requires Valid()
      ensures Wrote(concepts, objects, prefix, Names(concepts), out, pages)
      decreases Repr
    {
      hide Below, Direct, Names, Whats, Wrote;
      var lines := SubdirLines();
      pages := out[prefix := Page(lines, entries, files)];
      WroteTop(concepts, objects, prefix, out, pages);
      var left := subdirs.Keys;
      assert subdirs.Keys - left == {};
      while left != {}
        invariant left <= subdirs.Keys
        invariant Wrote(concepts, objects, prefix, subdirs.Keys - left, out, pages)
        decreases left
      {
        var name :| name in left;
        ghost var before := pages;
        var sub := subdirs[name];
        pages := sub.WriteIndexes(pages, prefix + [name]);
        WroteMore(concepts, objects, prefix, subdirs.Keys - left, name, out, before, pages);
        assert subdirs.Keys - left + {name} == subdirs.Keys - (left - {name});
        left := left - {name};
      }
      assert subdirs.Keys - left == Names(concepts);
    }
  }

  // ------------------------------------------------------------------
  // The whole bundle

  /** One object of the bundle, at its path. */
  datatype Object<T> = Object(path: string, what: T)

  predicate PathLess<T>(a: Object<T>, b: Object<T>) {
    Less(a.path, b.path)
  }

  function ByPath<T>(s: seq<Object<T>>): seq<Object<T>> {
    Sort(PathLess, s)
  }

  lemma {:induction false} ByPathHas<T>(s: seq<Object<T>>)
    ensures multiset(ByPath(s)) == multiset(s)
  {
    SortHas(PathLess<T>, s);
  }

  function PlacedUpTo<T>(s: seq<Object<T>>, n: nat): seq<Placed<T>>
    requires n <= |s|
  {
    if n == 0 then [] else PlacedUpTo(s, n - 1) + [Placed(Split(s[n - 1].path, '/'), s[n - 1].what)]
  }

  function AllPlaced<T>(s: seq<Object<T>>): seq<Placed<T>> {
    PlacedUpTo(ByPath(s), |ByPath(s)|)
  }

  /** The index pages of a bundle, keyed by the segments of their directories. */
  method Indexes<T, F>(entries: seq<Object<T>>, files: seq<Object<F>>) returns (pages: map<seq<string>, Page<T, F>>)
    ensures forall d :: d in pages <==> IsDir(AllPlaced(entries), d)
    ensures forall d | d in pages :: pages[d] == PageOf(Under(AllPlaced(entries), d), Under(AllPlaced(files), d))
  {
    hide Below, Direct, Names, Whats, PageOf, IsDir, Under;
    var sorted := ByPath(entries);
    var root := new Dir<T, F>();
    for i := 0 to |sorted|
      invariant root.Valid() && fresh(root.Repr)
      invariant root.concepts == PlacedUpTo(sorted, i) && root.objects == []
    {
      root.Insert(Split(sorted[i].path, '/'), sorted[i].what);
    }
    var objects := ByPath(files);
    for i := 0 to |objects|
      invariant root.Valid() && fresh(root.Repr)
      invariant root.concepts == AllPlaced(entries) && root.objects == PlacedUpTo(objects, i)
    {
      root.InsertFile(Split(objects[i].path, '/'), objects[i].what);
    }
    pages := root.WriteIndexes(map[], []);
    WroteAll(AllPlaced(entries), AllPlaced(files), pages);
  }

  lemma {:induction false} WroteAll<T, F>(
    items: seq<Placed<T>>, files: seq<Placed<F>>, pages: map<seq<string>, Page<T, F>>)
    requires Wrote(items, files, [], Names(items), map[], pages)
    ensures forall d :: d in pages <==> IsDir(items, d)
    ensures forall d | d in pages :: pages[d] == PageOf(Under(items, d), Under(files, d))
  {
    hide Below, Names, PageOf, Under;
    forall d: seq<string>
      ensures d in pages <==> IsDir(items, d)
      ensures d in pages ==> pages[d] == PageOf(Under(items, d), Under(files, d))
    {
      assert WroteAt(items, files, [], Names(items), map[], pages, d);
      assert d[0..] == d;
    }
  }

  // ------------------------------------------------------------------
  // The pages against the flat list

  /** a is a proper prefix of b, segment by segment. */
  predicate Above(a: seq<string>, b: seq<string>) {
    |a| < |b| && b[..|a|] == a
  }

  /** Everything under a directory, seen from there. */
  function Deeper<T>(items: seq<Placed<T>>, d: seq<string>): seq<Placed<T>> {
    if items == [] then []
    else
      var last := items[|items| - 1];
      Deeper(items[..|items| - 1], d) + if Above(d, last.segs) then [Placed(last.segs[|d|..], last.what)] else []
  }

  predicate AllNamed<T>(items: seq<Placed<T>>) {
    forall k | 0 <= k < |items| :: items[k].segs != []
  }

  lemma {:induction false} DeeperHere<T>(items: seq<Placed<T>>)
    requires AllNamed(items)
    ensures Deeper(items, []) == items
  {
    if items != [] {
      DeeperHere(items[..|items| - 1]);
      var last := items[|items| - 1];
      assert last.segs[..0] == [] && last.segs[0..] == last.segs;
      assert items == items[..|items| - 1] + [last];
    }
  }

  lemma {:induction false} AboveStep(d: seq<string>, segs: seq<string>)
    requires d != []
    ensures Above(d, segs) <==> |segs| > 1 && segs[0] == d[0] && Above(d[1..], segs[1..])
    ensures Above(d, segs) ==> segs[1..][|d| - 1..] == segs[|d|..]
  {
    if |segs| > 1 && segs[0] == d[0] && Above(d[1..], segs[1..]) {
      assert segs[..|d|] == [segs[0]] + segs[1..][..|d| - 1];
      assert d == [d[0]] + d[1..];
    }
    if Above(d, segs) {
      assert segs[1..][..|d| - 1] == segs[..|d|][1..];
    }
  }

  lemma {:induction false} DeeperStep<T>(items: seq<Placed<T>>, d: seq<string>)
    requires d != []
    ensures Deeper(items, d) == Deeper(Below(items, d[0]), d[1..])
  {
    hide Above;
    if items != [] {
      var before, last := items[..|items| - 1], items[|items| - 1];
      DeeperStep(before, d);
      AboveStep(d, last.segs);
      var below := Below(before, d[0]);
      if |last.segs| > 1 && last.segs[0] == d[0] {
        var p := Placed(last.segs[1..], last.what);
        assert Below(items, d[0]) == below + [p];
        assert (below + [p])[..|below|] == below;
      } else {
        assert Below(items, d[0]) == below + [] == below;
      }
    }
  }

  lemma {:induction false} BelowNamed<T>(items: seq<Placed<T>>, name: string)
    ensures AllNamed(Below(items, name))
  {
    if items != [] {
      BelowNamed(items[..|items| - 1], name);
    }
  }

  /** What the tree has below a directory is what the flat list has under its path. */
  lemma {:induction false} UnderIsDeeper<T>(items: seq<Placed<T>>, d: seq<string>)
    requires AllNamed(items)
    ensures Under(items, d) == Deeper(items, d)
    ensures IsDir(items, d) <==> d == [] || Deeper(items, d) != []
    decreases |d|
  {
    hide Below, Names;
    if d == [] {
      DeeperHere(items);
    } else {
      BelowNamed(items, d[0]);
      UnderIsDeeper(Below(items, d[0]), d[1..]);
      DeeperStep(items, d);
      NamedWhenBelow(items, d[0]);
      if |d| == 1 {
        DeeperHere(Below(items, d[0]));
      } else if Below(items, d[0]) == [] {
        assert Deeper(Below(items, d[0]), d[1..]) == [];
      }
    }
  }

  /** How many of the items are under a directory. */
  function CountUnder<T>(items: seq<Placed<T>>, d: seq<string>): nat {
    if items == [] then 0
    else CountUnder(items[..|items| - 1], d) + if Above(d, items[|items| - 1].segs) then 1 else 0
  }

  lemma {:induction false} DeeperCount<T>(items: seq<Placed<T>>, d: seq<string>)
    ensures |Deeper(items, d)| == CountUnder(items, d)
  {
    if items != [] {
      DeeperCount(items[..|items| - 1], d);
    }
  }

  lemma {:induction false} CountPositive<T>(items: seq<Placed<T>>, d: seq<string>)
    ensures CountUnder(items, d) > 0 <==> exists k :: 0 <= k < |items| && Above(d, items[k].segs)
  {
    hide Above;
    if items != [] {
      var before := items[..|items| - 1];
      CountPositive(before, d);
      if CountUnder(before, d) > 0 {
        var k :| 0 <= k < |before| && Above(d, before[k].segs);
        assert Above(d, items[k].segs);
      }
      if exists k :: 0 <= k < |items| && Above(d, items[k].segs) {
        var k :| 0 <= k < |items| && Above(d, items[k].segs);
        if k < |before| {
          assert Above(d, before[k].segs);
        }
      }
    }
  }

  /** A page is written for the root and for exactly the directories with a concept
      beneath. */
  lemma {:induction false} PagesWhere<T>(items: seq<Placed<T>>, d: seq<string>)
    requires AllNamed(items)
    ensures IsDir(items, d) <==> d == [] || exists k :: 0 <= k < |items| && Above(d, items[k].segs)
  {
    hide Above, IsDir, Deeper;
    UnderIsDeeper(items, d);
    DeeperCount(items, d);
    CountPositive(items, d);
  }

  /** The count beside a subdirectory is the number of concepts under its path. */
  lemma {:induction false} CountsAreRight<T>(items: seq<Placed<T>>, d: seq<string>, name: string)
    requires AllNamed(items)
    ensures |Below(Under(items, d), name)| == CountUnder(items, d + [name])
  {
    hide Below, Deeper;
    UnderIsDeeper(items, d + [name]);
    DeeperCount(items, d + [name]);
    UnderThen(items, d, name);
  }

  lemma {:induction false} UnderThen<T>(items: seq<Placed<T>>, d: seq<string>, name: string)
    ensures Under(items, d + [name]) == Below(Under(items, d), name)
    decreases |d|
  {
    hide Below;
    if d == [] {
      assert d + [name] == [name];
      assert [name][1..] == [];
    } else {
      assert (d + [name])[1..] == d[1..] + [name];
      UnderThen(Below(items, d[0]), d[1..], name);
    }
  }

  /** The items of a directory itself: name and what. */
  function Here<T>(items: seq<Placed<T>>, d: seq<string>): seq<Placed<T>> {
    if items == [] then []
    else
      var last := items[|items| - 1];
      Here(items[..|items| - 1], d)
      + if |last.segs| == |d| + 1 && last.segs[..|d|] == d then [Placed([last.segs[|d|]], last.what)] else []
  }

  /** A page lists what is in its own directory, each once and in order, and nothing
      else: concepts and files alike. */
  lemma {:induction false} ListedHere<T>(items: seq<Placed<T>>, d: seq<string>)
    requires AllNamed(items)
    ensures Direct(Under(items, d)) == Here(items, d)
  {
    UnderIsDeeper(items, d);
    DirectDeeper(items, d);
  }

  lemma {:induction false} DirectDeeper<T>(items: seq<Placed<T>>, d: seq<string>)
    ensures Direct(Deeper(items, d)) == Here(items, d)
  {
    hide Above;
    if items != [] {
      var before, last := items[..|items| - 1], items[|items| - 1];
      DirectDeeper(before, d);
      AboveIs(d, last.segs);
      assert Here(before, d) + [] == Here(before, d) && Deeper(before, d) + [] == Deeper(before, d);
      if Above(d, last.segs) {
        var p := Placed(last.segs[|d|..], last.what);
        OneMore(Deeper(before, d), p, "");
        if |last.segs| == |d| + 1 {
          assert last.segs[|d|..] == [last.segs[|d|]];
        }
      }
    }
  }

  lemma {:induction false} AboveIs(d: seq<string>, segs: seq<string>)
    ensures Above(d, segs) <==> |d| < |segs| && segs[..|d|] == d
  {
  }

  /** From the root page the page of every concept is reached by following
      subdirectory lines. */
  lemma {:induction false} EveryConceptIsReached<T>(items: seq<Placed<T>>, k: nat, i: nat)
    requires AllNamed(items) && k < |items| && i < |items[k].segs| - 1
    ensures IsDir(items, items[k].segs[..i]) && IsDir(items, items[k].segs[..i + 1])
    ensures items[k].segs[i] in Names(Under(items, items[k].segs[..i]))
  {
    hide IsDir, Names, Under;
    var segs := items[k].segs;
    var d, name := segs[..i], segs[i];
    assert Above(d, segs);
    assert segs[..i + 1] == d + [name];
    assert Above(d + [name], segs);
    PagesWhere(items, d);
    PagesWhere(items, d + [name]);
    CountsAreRight(items, d, name);
    CountPositive(items, d + [name]);
    NamedWhenBelow(Under(items, d), name);
  }
}
