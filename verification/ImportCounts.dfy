/** What each counter of a completed import stands for, in the server's rulings alone
    (cmd/ochakai/client.go:1733-1882, internal/domain/knowledge.go:1552-1561). */
module ImportCounts {
  import opened Text
  import opened Import

  // ------------------------------------------------------------------
  // What becomes of one object

  function Before(server: Server, path: string): Option<string> {
    if path in server then Some(server[path]) else None
  }

  function RulingOn(world: World, server: Server, x: Item): Ruling
    requires x.data.Some?
  {
    if x.kind.Concept? then world.judge(x.path, x.data.value, Before(server, x.path))
    else world.judgeFile(x.path, x.data.value)
  }

  predicate Accepted(world: World, server: Server, x: Item) {
    x.data.Some? && RulingOn(world, server, x).Accepts?
  }

  /** Refused, or without a document to send. */
  predicate Skips(world: World, server: Server, x: Item) {
    x.data.None? || RulingOn(world, server, x).Refuses?
  }

  predicate IsNew(world: World, server: Server, x: Item) {
    x.kind.Concept? && Accepted(world, server, x) && x.path !in server
  }

  predicate IsSame(world: World, server: Server, x: Item) {
    x.kind.Concept? && Accepted(world, server, x) && x.path in server
        && server[x.path] == RulingOn(world, server, x).stored
  }

  predicate IsChanged(world: World, server: Server, x: Item) {
    x.kind.Concept? && Accepted(world, server, x) && x.path in server
        && server[x.path] != RulingOn(world, server, x).stored
  }

  /** The ids of the concepts that are not stored. */
  function SkippedIds(world: World, server: Server, items: seq<Item>): set<string> {
    set x | x in items && x.kind.Concept? && Skips(world, server, x) :: x.id
  }

  predicate IsOrphan(world: World, server: Server, gone: set<string>, x: Item) {
    x.kind.Attributed? && Accepted(world, server, x) && x.id in gone
  }

  predicate IsAttached(world: World, server: Server, gone: set<string>, x: Item) {
    x.kind.Attributed? && Accepted(world, server, x) && x.id !in gone
  }

  predicate IsWritten(world: World, server: Server, x: Item) {
    x.kind.Loose? && Accepted(world, server, x)
  }

  /** The notes on one object: the ruling's, and one for a claim that stayed on it. */
  function NotesOn(world: World, server: Server, x: Item): multiset<(string, string)> {
    if !x.kind.Concept? || !Accepted(world, server, x) then multiset{}
    else
      var r := RulingOn(world, server, x);
      NotePairs(x.id, r.notes)
      + if x.claimed != [] && world.holdsClaim(r.stored) then multiset{(x.id, world.claimNote(x.claimed))}
          else multiset{}
  }

  // ------------------------------------------------------------------
  // Counting

  function Bit(b: bool): nat {
    if b then 1 else 0
  }

  /** What the first n of the list come to, with the ids that are gone. */
  datatype Counts = Counts(
    created: nat, updated: nat, same: nat, attached: nat, orphaned: nat, written: nat,
    skipped: multiset<string>, notes: multiset<(string, string)>)

  /** What one object counts for. */
  function CountOf(world: World, server: Server, gone: set<string>, x: Item): Counts {
    Counts(
      Bit(IsNew(world, server, x)),
      Bit(IsChanged(world, server, x)),
      Bit(IsSame(world, server, x)),
      Bit(IsAttached(world, server, gone, x)),
      Bit(IsOrphan(world, server, gone, x)),
      Bit(IsWritten(world, server, x)),
      if Skips(world, server, x) then multiset{x.path} else multiset{},
      NotesOn(world, server, x))
  }

  function CountsOf(world: World, server: Server, items: seq<Item>, gone: set<string>, n: nat): Counts
    requires n <= |items|
  {
    if n == 0 then Counts(0, 0, 0, 0, 0, 0, multiset{}, multiset{})
    else
      Sum(CountsOf(world, server, items, gone, n - 1), CountOf(world, server, gone, items[n - 1]))
  }

  function Sum(c: Counts, d: Counts): Counts {
    Counts(c.created + d.created, c.updated + d.updated, c.same + d.same, c.attached + d.attached,
           c.orphaned + d.orphaned, c.written + d.written, c.skipped + d.skipped, c.notes + d.notes)
  }

  predicate SaysOf(t: Tally, c: Counts) {
    && t.created == c.created && t.updated == c.updated && t.same == c.same
    && t.attached == c.attached && t.orphaned == c.orphaned && t.written == c.written
    && t.skipped == c.skipped && t.notes == c.notes
  }

  // ------------------------------------------------------------------
  // The plan counts so

  lemma {:induction false} NotesAdd(id: string, a: seq<string>, note: string)
    ensures NotePairs(id, a + [note]) == NotePairs(id, a) + multiset{(id, note)}
  {
    if a == [] {
      assert a + [note] == [note] && [note][1..] == [];
    } else {
      assert (a + [note])[1..] == a[1..] + [note];
      NotesAdd(id, a[1..], note);
    }
  }

  lemma {:induction false} PlanIsRuling(world: World, server: Server, x: Item)
    ensures Planned(world, server, x).None? <==> x.data.Some? && RulingOn(world, server, x).Breaks?
    ensures Planned(world, server, x).Some? ==>
              (Planned(world, server, x).value.Refused? <==> Skips(world, server, x))
  {
  }

  lemma {:induction false} ConceptCounts(world: World, server: Server, x: Item, gone: set<string>)
    requires x.kind.Concept? && Planned(world, server, x).Some?
    ensures SaysOf(Adds(x, Planned(world, server, x).value, gone), CountOf(world, server, gone, x))
  {
    hide NotePairs;
    if Accepted(world, server, x) {
      var r := RulingOn(world, server, x);
      if x.claimed != [] && world.holdsClaim(r.stored) {
        NotesAdd(x.id, r.notes, world.claimNote(x.claimed));
      }
    }
  }

  lemma {:induction false} FileCounts(world: World, server: Server, x: Item, gone: set<string>)
    requires !x.kind.Concept? && Planned(world, server, x).Some?
    ensures SaysOf(Adds(x, Planned(world, server, x).value, gone), CountOf(world, server, gone, x))
  {
  }

  lemma {:induction false} RefusedAre(world: World, server: Server, items: seq<Item>, n: nat)
    requires n <= |items| && forall i | 0 <= i < |items| :: Planned(world, server, items[i]).Some?
    ensures RefusedUpTo(world, server, items, n) == SkippedIds(world, server, items[..n])
  {
    hide Planned, RulingOn;
    if n > 0 {
      RefusedAre(world, server, items, n - 1);
      PlanIsRuling(world, server, items[n - 1]);
      SkippedMore(world, server, items[..n - 1], items[n - 1]);
      assert items[..n] == items[..n - 1] + [items[n - 1]];
    }
  }

  lemma {:induction false} SkippedMore(world: World, server: Server, items: seq<Item>, x: Item)
    ensures SkippedIds(world, server, items + [x])
            == SkippedIds(world, server, items)
               + if x.kind.Concept? && Skips(world, server, x) then {x.id} else {}
  {
    hide Skips;
    var all := items + [x];
    assert all[|items|] == x;
    forall id | id in SkippedIds(world, server, all)
      ensures id in SkippedIds(world, server, items) || (x.kind.Concept? && Skips(world, server, x) && id == x.id)
    {
      var y :| y in all && y.kind.Concept? && Skips(world, server, y) && y.id == id;
      assert y in items || y == x;
    }
    forall id | id in SkippedIds(world, server, items)
      ensures id in SkippedIds(world, server, all)
    {
      var y :| y in items && y.kind.Concept? && Skips(world, server, y) && y.id == id;
      assert y in all;
    }
  }

  lemma {:induction false} AddsSay(world: World, server: Server, items: seq<Item>, i: nat)
    requires i < |items| && forall j | 0 <= j < |items| :: Planned(world, server, items[j]).Some?
    ensures SaysOf(PlannedAdds(world, server, items, i),
                   CountOf(world, server, SkippedIds(world, server, items), items[i]))
  {
    hide Planned, Adds, CountOf, RefusedUpTo, SkippedIds, SaysOf;
    var x, gone := items[i], SkippedIds(world, server, items);
    RefusedAre(world, server, items, |items|);
    assert items[..|items|] == items;
    if x.kind.Concept? {
      ConceptCounts(world, server, x, gone);
    } else {
      FileCounts(world, server, x, gone);
    }
  }

  lemma {:induction false} SumsSay(a: Tally, b: Tally, c: Counts, d: Counts)
    requires SaysOf(a, c) && SaysOf(b, d)
    ensures SaysOf(Plus(a, b), Sum(c, d))
  {
  }

  lemma {:induction false} CountsStep(world: World, server: Server, items: seq<Item>, gone: set<string>, n: nat)
    requires n <= |items|
    ensures n == 0 ==> SaysOf(PlannedUpTo(world, server, items, n), CountsOf(world, server, items, gone, n))
    ensures n > 0 ==> CountsOf(world, server, items, gone, n)
                      == Sum(CountsOf(world, server, items, gone, n - 1), CountOf(world, server, gone, items[n - 1]))
    ensures n > 0 ==> PlannedUpTo(world, server, items, n)
                      == Plus(PlannedUpTo(world, server, items, n - 1), PlannedAdds(world, server, items, n - 1))
  {
    hide Plus, Sum, CountOf, PlannedAdds;
  }

  lemma {:induction false} PlanCounts(world: World, server: Server, items: seq<Item>, n: nat)
    requires n <= |items| && forall i | 0 <= i < |items| :: Planned(world, server, items[i]).Some?
    ensures SaysOf(PlannedUpTo(world, server, items, n),
                   CountsOf(world, server, items, SkippedIds(world, server, items), n))
  {
    hide *;
    var gone := SkippedIds(world, server, items);
    CountsStep(world, server, items, gone, n);
    if n > 0 {
      PlanCounts(world, server, items, n - 1);
      AddsSay(world, server, items, n - 1);
      SumsSay(PlannedUpTo(world, server, items, n - 1), PlannedAdds(world, server, items, n - 1),
              CountsOf(world, server, items, gone, n - 1), CountOf(world, server, gone, items[n - 1]));
    }
  }

  // ------------------------------------------------------------------
  // Every run

  /** A completed run, or dry run, of objects with distinct addresses: a concept is
      created where nothing was stored, unchanged where what would be stored was stored,
      updated otherwise; an attributed file is orphaned where its concept's id was
      refused, attached otherwise; what is refused is skipped under its path; the notes
      are the rulings'. */
  lemma {:induction false} CountersSay(
    world: World, dry: bool, server: Server, items: seq<Item>, events: seq<Event>, t: State)
    requires Distinct(items) && Grouped(items)
    requires Reaches(world, dry, items, Start(items, server), events, t) && Completed(items, t)
    ensures SaysOf(t.tally, CountsOf(world, server, items, SkippedIds(world, server, items), |items|))
    ensures t.tally.refused == SkippedIds(world, server, items)
    ensures forall i | 0 <= i < |items| :: Accepted(world, server, items[i]) || Skips(world, server, items[i])
  {
    hide Reaches, Distinct, Grouped, Completed, Planned, CountsOf, SaysOf, SkippedIds, RulingOn;
    EveryRunAsPlanned(world, dry, server, items, events, t);
    PlanCounts(world, server, items, |items|);
    RefusedAre(world, server, items, |items|);
    PlannedRefusedIs(world, server, items, |items|);
    assert items[..|items|] == items;
    forall i | 0 <= i < |items|
      ensures Accepted(world, server, items[i]) || Skips(world, server, items[i])
    {
      PlanIsRuling(world, server, items[i]);
    }
  }

  lemma {:induction false} PlannedRefusedIs(world: World, server: Server, items: seq<Item>, n: nat)
    requires n <= |items|
    ensures PlannedUpTo(world, server, items, n).refused == RefusedUpTo(world, server, items, n)
  {
    hide Planned, PlannedAdds;
    if n > 0 {
      PlannedRefusedIs(world, server, items, n - 1);
      PlannedRefused(world, server, items, n - 1);
    }
  }

  /** What a completed import leaves on the server: each accepted object is stored as its
      ruling has it, a refused one changes nothing, and no other path is touched. */
  lemma {:induction false} ServerHolds(
    world: World, server: Server, items: seq<Item>, events: seq<Event>, t: State)
    requires Distinct(items) && Grouped(items)
    requires Reaches(world, false, items, Start(items, server), events, t) && Completed(items, t)
    ensures forall i | 0 <= i < |items| ::
              Before(t.server, items[i].path)
              == if Accepted(world, server, items[i]) then Some(RulingOn(world, server, items[i]).stored)
                 else Before(server, items[i].path)
    ensures forall path | (forall i | 0 <= i < |items| :: items[i].path != path) ::
            Before(t.server, path) == Before(server, path)
  {
    hide Reaches, Distinct, Grouped, Completed, Planned, RulingOn;
    EveryRunAsPlanned(world, false, server, items, events, t);
    forall i | 0 <= i < |items|
      ensures Before(t.server, items[i].path)
              == if Accepted(world, server, items[i]) then Some(RulingOn(world, server, items[i]).stored)
                 else Before(server, items[i].path)
    {
      WrittenIs(world, server, items[i]);
      BeforeIs(t.server, items[i].path);
      BeforeIs(server, items[i].path);
    }
    forall path | forall i | 0 <= i < |items| :: items[i].path != path
      ensures Before(t.server, path) == Before(server, path)
    {
      BeforeIs(t.server, path);
      BeforeIs(server, path);
    }
  }

  lemma {:induction false} BeforeIs(server: Server, path: string)
    ensures StoredAt(server, path) == Before(server, path)
  {
  }

  lemma {:induction false} WrittenIs(world: World, server: Server, x: Item)
    requires Planned(world, server, x).Some?
    ensures StoredAt(Written(x, Planned(world, server, x), server), x.path)
            == if Accepted(world, server, x) then Some(RulingOn(world, server, x).stored) else Before(server, x.path)
  {
  }

  // ------------------------------------------------------------------
  // When nothing is noted or skipped

  /** Accepted, with nothing noted, and no claim on a concept that stays on it. */
  predicate ReadAsWritten(world: World, server: Server, x: Item) {
    !Skips(world, server, x)
    && (x.kind.Concept? && x.data.Some? && RulingOn(world, server, x).Accepts? ==>
          var r := RulingOn(world, server, x);
          r.notes == [] && (x.claimed == [] || !world.holdsClaim(r.stored)))
  }

  predicate Quiet(c: Counts) {
    c.skipped == multiset{} && c.notes == multiset{}
  }

  lemma {:induction false} QuietIs(world: World, server: Server, gone: set<string>, x: Item)
    ensures Quiet(CountOf(world, server, gone, x)) <==> ReadAsWritten(world, server, x)
  {
    if x.kind.Concept? && Accepted(world, server, x) && RulingOn(world, server, x).notes != [] {
      var notes := RulingOn(world, server, x).notes;
      assert (x.id, notes[0]) in NotePairs(x.id, notes);
    }
  }

  lemma {:induction false} BothEmpty<T>(a: multiset<T>, b: multiset<T>)
    ensures a + b == multiset{} <==> a == multiset{} && b == multiset{}
  {
    assert forall x :: x in a ==> x in a + b;
    assert forall x :: x in b ==> x in a + b;
  }

  lemma {:induction false} SumQuiet(c: Counts, d: Counts)
    ensures Quiet(Sum(c, d)) <==> Quiet(c) && Quiet(d)
  {
    BothEmpty(c.skipped, d.skipped);
    BothEmpty(c.notes, d.notes);
  }

  lemma {:induction false} AllQuiet(world: World, server: Server, items: seq<Item>, gone: set<string>, n: nat)
    requires n <= |items|
    ensures Quiet(CountsOf(world, server, items, gone, n))
            <==> forall i | 0 <= i < n :: ReadAsWritten(world, server, items[i])
  {
    hide CountOf, ReadAsWritten, Sum;
    if n > 0 {
      var c, d := CountsOf(world, server, items, gone, n - 1), CountOf(world, server, gone, items[n - 1]);
      AllQuiet(world, server, items, gone, n - 1);
      QuietIs(world, server, gone, items[n - 1]);
      SumQuiet(c, d);
    }
  }
}
