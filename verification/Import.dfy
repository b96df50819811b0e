/** The import of a bundle and its dry run: cmdImport, dryRunImport and
    eachConcurrently of cmd/ochakai/client.go. Eight workers send objects to the
    server and add to shared counters under one lock; the steps of the workers
    interleave in any order. The server's rulings are functions of the object
    and of what is stored at its path. */
module Import {
  import opened Text

  const WORKERS := 8

  // ------------------------------------------------------------------
  // What is sent, and what the server says

  datatype Kind = Concept | Attributed | Loose

  /** One object of the bundle. A concept whose document cannot be rendered has
      none; claimed are the provenance keys its document carried. */
  datatype Item = Item(kind: Kind, id: string, path: string, data: Option<string>, claimed: seq<string>)

  /** Accepts: what would be stored, and the notes. Refuses: a verdict on this one
      object. Breaks: anything else, which ends the import. */
  datatype Ruling = Accepts(stored: string, notes: seq<string>) | Refuses(why: string) | Breaks(error: string)

  type Server = map<string, string>

  datatype World = World(
    judge: (string, string, Option<string>) -> Ruling,
    judgeFile: (string, string) -> Ruling,
    holdsClaim: string -> bool,
    claimNote: seq<string> -> string)

  /** The three things a write can turn out to have been. */
  datatype Plan = Created | Updated | Unchanged

  function PlanOf(created: bool, changed: bool): Plan {
    if created then Created else if !changed then Unchanged else Updated
  }

  /** What the client makes of an answer; for a file it does not ask what the write
      turned out to be. */
  datatype Answer = Stored(plan: Plan, doc: string, notes: seq<string>) | Kept(doc: string) | Refused(why: string)

  function StoredAt(server: Server, path: string): Option<string> {
    if path in server then Some(server[path]) else None
  }

  /** NoteStoredClaim: a claim that stayed on the concept is a note. */
  function Noted(world: World, item: Item, stored: string, notes: seq<string>): seq<string> {
    if item.claimed == [] || !world.holdsClaim(stored) then notes else notes + [world.claimNote(item.claimed)]
  }

  /** What asking about one item comes to, given what is stored at its path; None
      when it breaks the run. */
  function Asking(world: World, before: Option<string>, item: Item): Option<Answer> {
    if item.data.None? then Some(Refused("no document"))
    else if item.kind.Concept? then
      match world.judge(item.path, item.data.value, before)
      case Accepts(stored, notes) =>
        Some(Stored(PlanOf(before.None?, before != Some(stored)), stored, Noted(world, item, stored, notes)))
      case Refuses(why) => Some(Refused(why))
      case Breaks(_) => None
    else
      match world.judgeFile(item.path, item.data.value)
      case Accepts(stored, _) => Some(Kept(stored))
      case Refuses(why) => Some(Refused(why))
      case Breaks(_) => None
  }

  /** The server after a put of the item. */
  function Written(item: Item, answer: Option<Answer>, server: Server): Server {
    if answer.Some? && !answer.value.Refused? then server[item.path := answer.value.doc] else server
  }

  // ------------------------------------------------------------------
  // The shared counters

  datatype Tally = Tally(
    created: nat, updated: nat, same: nat, attached: nat, orphaned: nat, written: nat,
    refused: set<string>, skipped: multiset<string>, notes: multiset<(string, string)>)

  function Zero(): Tally {
    Tally(0, 0, 0, 0, 0, 0, {}, multiset{}, multiset{})
  }

  function Plus(a: Tally, b: Tally): Tally {
    Tally(a.created + b.created, a.updated + b.updated, a.same + b.same,
          a.attached + b.attached, a.orphaned + b.orphaned, a.written + b.written,
          a.refused + b.refused, a.skipped + b.skipped, a.notes + b.notes)
  }

  function NotePairs(id: string, notes: seq<string>): multiset<(string, string)> {
    if notes == [] then multiset{} else multiset{(id, notes[0])} + NotePairs(id, notes[1..])
  }

  /** What one answer adds, when the concepts of refused were refused. */
  function Adds(item: Item, answer: Answer, refused: set<string>): Tally {
    match answer
    case Refused(_) =>
      Zero().(refused := if item.kind.Concept? then {item.id} else {}, skipped := multiset{item.path})
    case Stored(plan, _, notes) =>
      Zero().(created := if plan.Created? then 1 else 0,
              updated := if plan.Updated? then 1 else 0,
              same := if plan.Unchanged? then 1 else 0,
              notes := NotePairs(item.id, notes))
    case Kept(_) =>
      if item.kind.Loose? then Zero().(written := 1)
      else if item.id in refused then Zero().(orphaned := 1)
      else Zero().(attached := 1)
  }

  // ------------------------------------------------------------------
  // The workers

  datatype Phase = Waiting | Running | Asked(answer: Answer) | Done | Failed

  datatype State = State(server: Server, phases: seq<Phase>, launched: nat, error: bool, tally: Tally)

  /** The steps of the loop and its workers. Lose is a put whose answer never
      came: the server may have stored the object all the same. GiveUp is a worker
      that finds its context cancelled. */
  datatype Event = Launch | Ask(i: nat) | Record(i: nat) | Lose(i: nat, stored: bool) | GiveUp(i: nat)

  predicate Busy(p: Phase) {
    p.Running? || p.Asked?
  }

  function InFlight(phases: seq<Phase>): nat {
    if phases == [] then 0
    else InFlight(phases[..|phases| - 1]) + if Busy(phases[|phases| - 1]) then 1 else 0
  }

  /** A loop over one kind of object starts when the loop before it is over. */
  predicate LoopOver(items: seq<Item>, s: State, i: nat)
    requires |s.phases| == |items| && i < |items|
  {
    forall j | 0 <= j < i && items[j].kind != items[i].kind :: s.phases[j].Done?
  }

  /** When a step can be taken. The loop asks whether an error has ended the run before it
      waits for a free worker, so it can still start one after an error; here it may start
      any number, and every run of the program is a run of the model. */
  predicate Enabled(items: seq<Item>, s: State, e: Event)
    requires |s.phases| == |items|
  {
    match e
    case Launch =>
      s.launched < |items| && InFlight(s.phases) < WORKERS && LoopOver(items, s, s.launched)
    case Ask(i) => i < |items| && s.phases[i].Running?
    case Record(i) => i < |items| && s.phases[i].Asked?
    case Lose(i, _) => i < |items| && s.phases[i].Running? && items[i].data.Some?
    case GiveUp(i) => i < |items| && s.phases[i].Running? && s.error
  }

  /** One step; a dry run asks and writes nothing. */
  function Next(world: World, dry: bool, items: seq<Item>, s: State, e: Event): State
    requires |s.phases| == |items| && Enabled(items, s, e)
  {
    match e
    case Launch => s.(phases := s.phases[s.launched := Running], launched := s.launched + 1)
    case Ask(i) =>
      var answer := Asking(world, StoredAt(s.server, items[i].path), items[i]);
      if answer.None? then s.(phases := s.phases[i := Failed], error := true)
      else
        s.(server := if dry then s.server else Written(items[i], answer, s.server),
           phases := s.phases[i := Asked(answer.value)])
    case Record(i) =>
      s.(phases := s.phases[i := Done],
         tally := Plus(s.tally, Adds(items[i], s.phases[i].answer, s.tally.refused)))
    case Lose(i, stored) =>
      s.(server := if dry || !stored then s.server
                   else Written(items[i], Asking(world, StoredAt(s.server, items[i].path), items[i]), s.server),
         phases := s.phases[i := Failed], error := true)
    case GiveUp(i) => s.(phases := s.phases[i := Failed])
  }

  function Start(items: seq<Item>, server: Server): State {
    State(server, seq(|items|, _ => Waiting), 0, false, Zero())
  }

  /** The states a run goes through: t is reached from s by the events. */
  ghost predicate Reaches(world: World, dry: bool, items: seq<Item>, s: State, events: seq<Event>, t: State)
    requires |s.phases| == |items|
    decreases |events|
  {
    if events == [] then s == t
    else Enabled(items, s, events[0])
         && Reaches(world, dry, items, Next(world, dry, items, s, events[0]), events[1..], t)
  }

  /** Every object answered and every answer recorded. */
  predicate Completed(items: seq<Item>, s: State) {
    |s.phases| == |items| && forall i | 0 <= i < |items| :: s.phases[i].Done?
  }

  // ------------------------------------------------------------------
  // The plan: each object asked about alone, against the server as it was

  function Planned(world: World, server: Server, item: Item): Option<Answer> {
    Asking(world, StoredAt(server, item.path), item)
  }

  /** The concepts refused among the first n items. */
  function RefusedUpTo(world: World, server: Server, items: seq<Item>, n: nat): set<string>
    requires n <= |items|
  {
    if n == 0 then {}
    else
      RefusedUpTo(world, server, items, n - 1)
      + if items[n - 1].kind.Concept? && Planned(world, server, items[n - 1]).Some?
           && Planned(world, server, items[n - 1]).value.Refused?
        then {items[n - 1].id} else {}
  }

  function PlannedAdds(world: World, server: Server, items: seq<Item>, i: nat): Tally
    requires i < |items|
  {
    match Planned(world, server, items[i])
    case None => Zero()
    case Some(answer) => Adds(items[i], answer, RefusedUpTo(world, server, items, |items|))
  }

  /** What the recorded items among the first n add up to, each as planned. */
  function RecordedUpTo(world: World, server: Server, items: seq<Item>, phases: seq<Phase>, n: nat): Tally
    requires n <= |items| == |phases|
  {
    if n == 0 then Zero()
    else
      Plus(RecordedUpTo(world, server, items, phases, n - 1),
           if phases[n - 1].Done? then PlannedAdds(world, server, items, n - 1) else Zero())
  }

  function PlannedUpTo(world: World, server: Server, items: seq<Item>, n: nat): Tally
    requires n <= |items|
  {
    if n == 0 then Zero()
    else Plus(PlannedUpTo(world, server, items, n - 1), PlannedAdds(world, server, items, n - 1))
  }

  function PlannedTally(world: World, server: Server, items: seq<Item>): Tally {
    PlannedUpTo(world, server, items, |items|)
  }

  // ------------------------------------------------------------------
  // Adding up

  lemma {:induction false} PlusSwap(a: Tally, b: Tally, c: Tally)
    ensures Plus(Plus(a, b), c) == Plus(Plus(a, c), b)
    ensures Plus(a, Zero()) == a
  {
    assert a.refused + b.refused + c.refused == a.refused + c.refused + b.refused;
    assert a.skipped + b.skipped + c.skipped == a.skipped + c.skipped + b.skipped;
    assert a.notes + b.notes + c.notes == a.notes + c.notes + b.notes;
    assert a.refused + {} == a.refused && a.skipped + multiset{} == a.skipped && a.notes + multiset{} == a.notes;
  }

  lemma {:induction false} RecordOne(
    world: World, server: Server, items: seq<Item>, phases: seq<Phase>, i: nat, n: nat)
    requires i < |items| == |phases| && n <= |items| && !phases[i].Done?
    ensures RecordedUpTo(world, server, items, phases[i := Done], n)
            == if i < n then Plus(RecordedUpTo(world, server, items, phases, n), PlannedAdds(world, server, items, i))
               else RecordedUpTo(world, server, items, phases, n)
  {
    hide PlannedAdds, Plus;
    if n > 0 {
      RecordOne(world, server, items, phases, i, n - 1);
      var before := RecordedUpTo(world, server, items, phases, n - 1);
      var added := PlannedAdds(world, server, items, i);
      var last := if phases[n - 1].Done? then PlannedAdds(world, server, items, n - 1) else Zero();
      PlusSwap(before, added, last);
      if i == n - 1 {
        assert last == Zero();
        PlusSwap(before, added, Zero());
      }
    }
  }

  lemma {:induction false} SameRecorded(
    world: World, server: Server, items: seq<Item>, a: seq<Phase>, b: seq<Phase>, n: nat)
    requires n <= |items| == |a| == |b| && forall i | 0 <= i < |items| :: a[i].Done? <==> b[i].Done?
    ensures RecordedUpTo(world, server, items, a, n) == RecordedUpTo(world, server, items, b, n)
  {
    if n > 0 {
      SameRecorded(world, server, items, a, b, n - 1);
    }
  }

  lemma {:induction false} AllRecorded(world: World, server: Server, items: seq<Item>, phases: seq<Phase>, n: nat)
    requires n <= |items| == |phases| && forall i | 0 <= i < n :: phases[i].Done?
    ensures RecordedUpTo(world, server, items, phases, n) == PlannedUpTo(world, server, items, n)
  {
    hide PlannedAdds, Plus;
    if n > 0 {
      AllRecorded(world, server, items, phases, n - 1);
    }
  }

  lemma {:induction false} NoneRecorded(world: World, server: Server, items: seq<Item>, phases: seq<Phase>, n: nat)
    requires n <= |items| == |phases| && forall i | 0 <= i < n :: !phases[i].Done?
    ensures RecordedUpTo(world, server, items, phases, n) == Zero()
  {
    if n > 0 {
      NoneRecorded(world, server, items, phases, n - 1);
      PlusSwap(Zero(), Zero(), Zero());
    }
  }

  /** Once every concept is recorded, the refused ones are those the plan refuses. */
  lemma {:induction false} RecordedRefused(world: World, server: Server, items: seq<Item>, phases: seq<Phase>, n: nat)
    requires n <= |items| == |phases|
    requires forall i | 0 <= i < n && items[i].kind.Concept? :: phases[i].Done?
    ensures RecordedUpTo(world, server, items, phases, n).refused == RefusedUpTo(world, server, items, n)
  {
    hide Planned, PlannedAdds;
    if n > 0 {
      RecordedRefused(world, server, items, phases, n - 1);
      PlannedRefused(world, server, items, n - 1);
    }
  }

  lemma {:induction false} PlannedRefused(world: World, server: Server, items: seq<Item>, i: nat)
    requires i < |items|
    ensures PlannedAdds(world, server, items, i).refused
            == if items[i].kind.Concept? && Planned(world, server, items[i]).Some?
                  && Planned(world, server, items[i]).value.Refused?
               then {items[i].id} else {}
  {
    hide Planned, RefusedUpTo;
  }

  // ------------------------------------------------------------------
  // What every step keeps

  /** No two objects go to one path, but that a file may be attributed to several
      concepts; what FromBundle makes of distinct paths. */
  predicate Distinct(items: seq<Item>) {
    forall i, j | 0 <= i < |items| && 0 <= j < |items| && i != j && items[i].path == items[j].path ::
      !items[i].kind.Concept? && !items[j].kind.Concept? && items[i].data == items[j].data
  }

  /** The concepts come first. */
  predicate Grouped(items: seq<Item>) {
    forall i, j | 0 <= i < j < |items| && items[j].kind.Concept? :: items[i].kind.Concept?
  }

  /** The run so far, for one item. */
  ghost predicate Fits(world: World, server: Server, items: seq<Item>, s: State, i: nat)
    requires i < |items| == |s.phases|
  {
    && (s.phases[i].Waiting? <==> s.launched <= i)
    && (s.phases[i].Asked? ==> Planned(world, server, items[i]) == Some(s.phases[i].answer))
    && (s.phases[i].Done? ==> Planned(world, server, items[i]).Some?)
    && (s.phases[i].Failed? ==> s.error)
  }

  /** What the server holds for one item. */
  ghost predicate Holds(world: World, dry: bool, server: Server, items: seq<Item>, s: State, i: nat)
    requires i < |items| == |s.phases|
  {
    var path, planned := items[i].path, Planned(world, server, items[i]);
    && (items[i].kind.Concept? && (s.phases[i].Waiting? || s.phases[i].Running?) ==>
          StoredAt(s.server, path) == StoredAt(server, path))
    && (planned.Some? && planned.value.Refused? ==> StoredAt(s.server, path) == StoredAt(server, path))
    && (s.phases[i].Asked? || s.phases[i].Done? ==>
          StoredAt(s.server, path) == StoredAt(if dry then server else Written(items[i], planned, server), path))
  }

  predicate Sent(items: seq<Item>, path: string) {
    exists i :: 0 <= i < |items| && items[i].path == path
  }

  ghost predicate Invariant(world: World, dry: bool, server: Server, items: seq<Item>, s: State) {
    && |s.phases| == |items| && s.launched <= |items|
    && (forall i | 0 <= i < |items| :: Fits(world, server, items, s, i))
    && (forall i | 0 <= i < |items| :: Holds(world, dry, server, items, s, i))
    && (forall path | !Sent(items, path) :: StoredAt(s.server, path) == StoredAt(server, path))
    && (dry ==> s.server == server)
    && InFlight(s.phases) <= WORKERS
    && s.tally == RecordedUpTo(world, server, items, s.phases, |items|)
    && (forall i, j | 0 <= j < i < |items| && !s.phases[i].Waiting? && items[i].kind != items[j].kind ::
        s.phases[j].Done?)
  }

  lemma {:induction false} InFlightOne(phases: seq<Phase>, i: nat, p: Phase)
    requires i < |phases|
    ensures InFlight(phases[i := p])
            == InFlight(phases) + (if Busy(p) then 1 else 0) - (if Busy(phases[i]) then 1 else 0)
  {
    var r, last := phases[i := p], |phases| - 1;
    if i < last {
      InFlightOne(phases[..last], i, p);
      assert r[..last] == phases[..last][i := p];
    } else {
      assert r[..last] == phases[..last];
    }
  }

  lemma {:induction false} StartKeeps(world: World, dry: bool, server: Server, items: seq<Item>)
    ensures Invariant(world, dry, server, items, Start(items, server))
  {
    var s := Start(items, server);
    NoneRecorded(world, server, items, s.phases, |items|);
    NoneBusy(s.phases);
  }

  lemma {:induction false} NoneBusy(phases: seq<Phase>)
    requires forall i | 0 <= i < |phases| :: phases[i].Waiting?
    ensures InFlight(phases) == 0
  {
    if phases != [] {
      NoneBusy(phases[..|phases| - 1]);
    }
  }

  lemma {:induction false} LaunchKeeps(world: World, dry: bool, server: Server, items: seq<Item>, s: State)
    requires Invariant(world, dry, server, items, s) && Enabled(items, s, Launch)
    ensures Invariant(world, dry, server, items, Next(world, dry, items, s, Launch))
  {
    hide Planned, RecordedUpTo, InFlight, Written;
    var t := Next(world, dry, items, s, Launch);
    InFlightOne(s.phases, s.launched, Running);
    assert Fits(world, server, items, s, s.launched);
    SameRecorded(world, server, items, s.phases, t.phases, |items|);
    forall i | 0 <= i < |items|
      ensures Fits(world, server, items, t, i) && Holds(world, dry, server, items, t, i)
    {
      assert Fits(world, server, items, s, i) && Holds(world, dry, server, items, s, i);
    }
  }

  /** Two objects at one path are planned to the same end. */
  lemma {:induction false} SamePathSamePlan(world: World, server: Server, items: seq<Item>, i: nat, j: nat)
    requires Distinct(items) && i < |items| && j < |items| && i != j && items[i].path == items[j].path
    ensures Planned(world, server, items[i]) == Planned(world, server, items[j])
    ensures !items[i].kind.Concept? && !items[j].kind.Concept?
  {
  }

  /** A worker's own step, when the answer is not recorded by it. */
  lemma {:induction false} StepKeeps(
    world: World, dry: bool, server: Server, items: seq<Item>, s: State, i: nat, t: State)
    requires Invariant(world, dry, server, items, s) && Distinct(items)
    requires i < |items| && s.phases[i].Running?
    requires |t.phases| == |items| && t.phases == s.phases[i := t.phases[i]] && t.launched == s.launched
            && t.tally == s.tally
    requires (t.phases[i].Asked? || t.phases[i].Failed?) && (s.error ==> t.error)
    requires Fits(world, server, items, t, i)
    requires var path := items[i].path;
             || t.server == s.server
             || (&& !dry && StoredAt(t.server, path)
                 == StoredAt(Written(items[i], Planned(world, server, items[i]), server), path)
                 && forall other | other != path :: StoredAt(t.server, other) == StoredAt(s.server, other))
    requires Holds(world, dry, server, items, t, i)
    ensures Invariant(world, dry, server, items, t)
  {
    hide RecordedUpTo, InFlight, Planned;
    InFlightOne(s.phases, i, t.phases[i]);
    SameRecorded(world, server, items, s.phases, t.phases, |items|);
    forall j | 0 <= j < |items|
      ensures Fits(world, server, items, t, j) && Holds(world, dry, server, items, t, j)
    {
      assert Fits(world, server, items, s, j) && Holds(world, dry, server, items, s, j);
      if j != i && items[j].path == items[i].path {
        SamePathSamePlan(world, server, items, i, j);
      }
    }
    forall path | !Sent(items, path)
      ensures StoredAt(t.server, path) == StoredAt(server, path)
    {
      assert items[i].path != path;
    }
  }

  /** Asking now comes to what was planned. */
  lemma {:induction false} AsksAsPlanned(
    world: World, dry: bool, server: Server, items: seq<Item>, s: State, i: nat)
    requires Invariant(world, dry, server, items, s) && i < |items| && s.phases[i].Running?
    ensures Asking(world, StoredAt(s.server, items[i].path), items[i]) == Planned(world, server, items[i])
  {
    assert Holds(world, dry, server, items, s, i);
  }

  lemma {:induction false} AskKeeps(world: World, dry: bool, server: Server, items: seq<Item>, s: State, i: nat)
    requires Invariant(world, dry, server, items, s) && Distinct(items) && Enabled(items, s, Ask(i))
    ensures Invariant(world, dry, server, items, Next(world, dry, items, s, Ask(i)))
  {
    hide Asking, Planned, RecordedUpTo, InFlight;
    var t := Next(world, dry, items, s, Ask(i));
    assert Fits(world, server, items, s, i);
    AsksAsPlanned(world, dry, server, items, s, i);
    assert Holds(world, dry, server, items, s, i);
    StepKeeps(world, dry, server, items, s, i, t);
  }

  lemma {:induction false} LoseKeeps(
    world: World, dry: bool, server: Server, items: seq<Item>, s: State, i: nat, stored: bool)
    requires Invariant(world, dry, server, items, s) && Distinct(items) && Enabled(items, s, Lose(i, stored))
    ensures Invariant(world, dry, server, items, Next(world, dry, items, s, Lose(i, stored)))
  {
    hide Asking, Planned, RecordedUpTo, InFlight;
    var t := Next(world, dry, items, s, Lose(i, stored));
    assert Fits(world, server, items, s, i);
    AsksAsPlanned(world, dry, server, items, s, i);
    assert Holds(world, dry, server, items, s, i);
    StepKeeps(world, dry, server, items, s, i, t);
  }

  lemma {:induction false} GiveUpKeeps(world: World, dry: bool, server: Server, items: seq<Item>, s: State, i: nat)
    requires Invariant(world, dry, server, items, s) && Distinct(items) && Enabled(items, s, GiveUp(i))
    ensures Invariant(world, dry, server, items, Next(world, dry, items, s, GiveUp(i)))
  {
    hide Asking, RecordedUpTo, InFlight;
    var t := Next(world, dry, items, s, GiveUp(i));
    assert Fits(world, server, items, s, i) && Holds(world, dry, server, items, s, i);
    StepKeeps(world, dry, server, items, s, i, t);
  }

  /** Concepts and files are answered in their own ways. */
  predicate Suits(item: Item, answer: Answer) {
    (answer.Stored? ==> item.kind.Concept?) && (answer.Kept? ==> !item.kind.Concept?)
  }

  lemma {:induction false} PlannedSuits(world: World, server: Server, item: Item)
    ensures Planned(world, server, item).Some? ==> Suits(item, Planned(world, server, item).value)
  {
  }

  /** What a worker adds under the lock is what the plan adds. */
  lemma {:induction false} AddsAsPlanned(world: World, dry: bool, server: Server, items: seq<Item>, s: State, i: nat)
    requires Invariant(world, dry, server, items, s) && Grouped(items) && Enabled(items, s, Record(i))
    ensures Adds(items[i], s.phases[i].answer, s.tally.refused) == PlannedAdds(world, server, items, i)
  {
    hide Planned, RecordedUpTo, InFlight, Holds;
    assert Fits(world, server, items, s, i);
    PlannedSuits(world, server, items[i]);
    if items[i].kind.Attributed? {
      RecordedRefused(world, server, items, s.phases, |items|) by {
        forall j | 0 <= j < |items| && items[j].kind.Concept?
          ensures s.phases[j].Done?
        {
          assert items[j].kind != items[i].kind;
        }
      }
    }
  }

  lemma {:induction false} RecordKeeps(world: World, dry: bool, server: Server, items: seq<Item>, s: State, i: nat)
    requires Invariant(world, dry, server, items, s) && Grouped(items) && Enabled(items, s, Record(i))
    ensures Invariant(world, dry, server, items, Next(world, dry, items, s, Record(i)))
  {
    hide Planned, RecordedUpTo, InFlight, Written, StoredAt, Adds, PlannedAdds, Plus;
    var t := Next(world, dry, items, s, Record(i));
    AddsAsPlanned(world, dry, server, items, s, i);
    RecordOne(world, server, items, s.phases, i, |items|);
    InFlightOne(s.phases, i, Done);
    forall j | 0 <= j < |items|
      ensures Fits(world, server, items, t, j) && Holds(world, dry, server, items, t, j)
    {
      assert Fits(world, server, items, s, j) && Holds(world, dry, server, items, s, j);
    }
  }

  lemma {:induction false} NextKeeps(world: World, dry: bool, server: Server, items: seq<Item>, s: State, e: Event)
    requires Invariant(world, dry, server, items, s) && Distinct(items) && Grouped(items) && Enabled(items, s, e)
    ensures Invariant(world, dry, server, items, Next(world, dry, items, s, e))
  {
    hide Invariant, Distinct, Grouped, Next, Enabled;
    match e
    case Launch => LaunchKeeps(world, dry, server, items, s);
    case Ask(i) => AskKeeps(world, dry, server, items, s, i);
    case Record(i) => RecordKeeps(world, dry, server, items, s, i);
    case Lose(i, stored) => LoseKeeps(world, dry, server, items, s, i, stored);
    case GiveUp(i) => GiveUpKeeps(world, dry, server, items, s, i);
  }

  lemma {:induction false} RunKeeps(
    world: World, dry: bool, server: Server, items: seq<Item>, s: State, events: seq<Event>, t: State)
    requires Invariant(world, dry, server, items, s) && Distinct(items) && Grouped(items)
    requires |s.phases| == |items| && Reaches(world, dry, items, s, events, t)
    ensures Invariant(world, dry, server, items, t)
    decreases |events|
  {
    hide Distinct, Grouped, Next, Enabled;
    if events != [] {
      NextKeeps(world, dry, server, items, s, events[0]);
      RunKeeps(world, dry, server, items, Next(world, dry, items, s, events[0]), events[1..], t);
    }
  }

  // ------------------------------------------------------------------
  // Every run

  /** Whatever the order of the steps, a completed run has counted each object as
      the plan for it alone, against the server as it was, says; and the server
      holds each object as that plan has it, and is otherwise as it was. */
  lemma {:induction false} EveryRunAsPlanned(
    world: World, dry: bool, server: Server, items: seq<Item>, events: seq<Event>, t: State)
    requires Distinct(items) && Grouped(items)
    requires Reaches(world, dry, items, Start(items, server), events, t) && Completed(items, t)
    ensures t.tally == PlannedTally(world, server, items)
    ensures forall i | 0 <= i < |items| :: Planned(world, server, items[i]).Some?
    ensures dry ==> t.server == server
    ensures !dry ==> forall i | 0 <= i < |items| ::
                       StoredAt(t.server, items[i].path)
                       == StoredAt(Written(items[i], Planned(world, server, items[i]), server), items[i].path)
    ensures forall path | !Sent(items, path) :: StoredAt(t.server, path) == StoredAt(server, path)
  {
    hide Planned, RecordedUpTo, InFlight, Written, StoredAt, Reaches, Distinct, Grouped;
    StartKeeps(world, dry, server, items);
    RunKeeps(world, dry, server, items, Start(items, server), events, t);
    AllRecorded(world, server, items, t.phases, |items|);
    forall i | 0 <= i < |items|
      ensures Planned(world, server, items[i]).Some?
      ensures !dry ==> StoredAt(t.server, items[i].path)
                       == StoredAt(Written(items[i], Planned(world, server, items[i]), server), items[i].path)
    {
      assert Fits(world, server, items, t, i) && Holds(world, dry, server, items, t, i);
    }
  }

  /** The dry run predicts the import: any completed run of the one and any
      completed run of the other end with the same counters, refusals, skips and
      notes. */
  lemma {:induction false} DryRunPredicts(
    world: World, server: Server, items: seq<Item>, dryEvents: seq<Event>, dryEnd: State, events: seq<Event>,
        end: State)
    requires Distinct(items) && Grouped(items)
    requires Reaches(world, true, items, Start(items, server), dryEvents, dryEnd) && Completed(items, dryEnd)
    requires Reaches(world, false, items, Start(items, server), events, end) && Completed(items, end)
    ensures dryEnd.tally == end.tally && dryEnd.server == server
  {
    hide Reaches, Distinct, Grouped, Completed, Planned;
    EveryRunAsPlanned(world, true, server, items, dryEvents, dryEnd);
    EveryRunAsPlanned(world, false, server, items, events, end);
  }

  // ------------------------------------------------------------------
  // The counts add up

  function Concepts(t: Tally): int {
    t.created + t.updated + t.same
  }

  function CountUpTo(items: seq<Item>, kind: Kind, n: nat): nat
    requires n <= |items|
  {
    if n == 0 then 0 else CountUpTo(items, kind, n - 1) + if items[n - 1].kind == kind then 1 else 0
  }

  /** The objects of one kind among the first n that are skipped. */
  function SkippedUpTo(world: World, server: Server, items: seq<Item>, kind: Kind, n: nat): nat
    requires n <= |items|
  {
    if n == 0 then 0
    else
      SkippedUpTo(world, server, items, kind, n - 1)
      + if items[n - 1].kind == kind && Planned(world, server, items[n - 1]).Some?
           && Planned(world, server, items[n - 1]).value.Refused?
        then 1 else 0
  }

  lemma {:induction false} AddsCount(item: Item, answer: Answer, refused: set<string>)
    requires Suits(item, answer)
    ensures var t, skipped := Adds(item, answer, refused), if answer.Refused? then 1 else 0;
            && Concepts(t) == (if item.kind.Concept? then 1 - skipped else 0)
            && t.attached + t.orphaned == (if item.kind.Attributed? then 1 - skipped else 0)
            && t.written == (if item.kind.Loose? then 1 - skipped else 0)
            && |t.skipped| == skipped
  {
    hide NotePairs;
  }

  lemma {:induction false} CountsUpTo(world: World, server: Server, items: seq<Item>, n: nat)
    requires n <= |items| && forall i | 0 <= i < n :: Planned(world, server, items[i]).Some?
    ensures var t := PlannedUpTo(world, server, items, n);
            && Concepts(t) + SkippedUpTo(world, server, items, Concept, n) == CountUpTo(items, Concept, n)
            && t.attached + t.orphaned + SkippedUpTo(world, server, items, Attributed, n)
                == CountUpTo(items, Attributed, n)
            && t.written + SkippedUpTo(world, server, items, Loose, n) == CountUpTo(items, Loose, n)
            && |t.skipped| == SkippedUpTo(world, server, items, Concept, n)
                              + SkippedUpTo(world, server, items, Attributed, n)
                              + SkippedUpTo(world, server, items, Loose, n)
  {
    hide Planned, Adds, RefusedUpTo, Plus, Concepts, PlannedAdds;
    if n == 0 {
      ZeroCounts();
    } else {
      CountsUpTo(world, server, items, n - 1);
      PlannedCount(world, server, items, n - 1);
      PlusCounts(PlannedUpTo(world, server, items, n - 1), PlannedAdds(world, server, items, n - 1));
    }
  }

  lemma {:induction false} ZeroCounts()
    ensures Concepts(Zero()) == 0
  {
  }

  lemma {:induction false} PlannedCount(world: World, server: Server, items: seq<Item>, i: nat)
    requires i < |items| && Planned(world, server, items[i]).Some?
    ensures var t, kind := PlannedAdds(world, server, items, i), items[i].kind;
            var skipped := if Planned(world, server, items[i]).value.Refused? then 1 else 0;
            && Concepts(t) == (if kind.Concept? then 1 - skipped else 0)
            && t.attached + t.orphaned == (if kind.Attributed? then 1 - skipped else 0)
            && t.written == (if kind.Loose? then 1 - skipped else 0)
            && |t.skipped| == skipped
  {
    hide Planned, Adds, RefusedUpTo;
    PlannedSuits(world, server, items[i]);
    AddsCount(items[i], Planned(world, server, items[i]).value, RefusedUpTo(world, server, items, |items|));
  }

  lemma {:induction false} PlusCounts(a: Tally, b: Tally)
    ensures var t := Plus(a, b);
            && Concepts(t) == Concepts(a) + Concepts(b) && |t.skipped| == |a.skipped| + |b.skipped|
            && t.attached + t.orphaned == a.attached + a.orphaned + (b.attached + b.orphaned)
            && t.written == a.written + b.written
  {
  }

  /** Nothing is lost between the counters of a completed run: every concept is
      created, updated, unchanged or skipped; every attributed file is attached,
      orphaned or skipped; every loose one written or skipped. */
  lemma {:induction false} CountsAddUp(
    world: World, dry: bool, server: Server, items: seq<Item>, events: seq<Event>, t: State)
    requires Distinct(items) && Grouped(items)
    requires Reaches(world, dry, items, Start(items, server), events, t) && Completed(items, t)
    ensures var skipped := kind => SkippedUpTo(world, server, items, kind, |items|);
            var count := kind => CountUpTo(items, kind, |items|);
            && Concepts(t.tally) + skipped(Concept) == count(Concept)
            && t.tally.attached + t.tally.orphaned + skipped(Attributed) == count(Attributed)
            && t.tally.written + skipped(Loose) == count(Loose)
            && |t.tally.skipped| == skipped(Concept) + skipped(Attributed) + skipped(Loose)
  {
    hide Reaches, Distinct, Grouped, Completed, Planned;
    EveryRunAsPlanned(world, dry, server, items, events, t);
    CountsUpTo(world, server, items, |items|);
  }

  // ------------------------------------------------------------------
  // Runs end

  function Work(p: Phase): nat {
    match p
    case Waiting => 3
    case Running => 2
    case Asked(_) => 1
    case Done => 0
    case Failed => 0
  }

  function Left(phases: seq<Phase>): nat {
    if phases == [] then 0 else Left(phases[..|phases| - 1]) + Work(phases[|phases| - 1])
  }

  lemma {:induction false} LeftOne(phases: seq<Phase>, i: nat, p: Phase)
    requires i < |phases|
    ensures Left(phases[i := p]) == Left(phases) + Work(p) - Work(phases[i])
  {
    var r, last := phases[i := p], |phases| - 1;
    if i < last {
      LeftOne(phases[..last], i, p);
      assert r[..last] == phases[..last][i := p];
    } else {
      assert r[..last] == phases[..last];
    }
  }

  lemma {:induction false} StepWorks(world: World, dry: bool, items: seq<Item>, s: State, e: Event)
    requires |s.phases| == |items| && Enabled(items, s, e)
    requires forall i | 0 <= i < |items| :: s.phases[i].Waiting? <==> s.launched <= i
    ensures Left(Next(world, dry, items, s, e).phases) < Left(s.phases)
  {
    hide Left, Asking, InFlight;
    var i := if e.Launch? then s.launched else e.i;
    LeftOne(s.phases, i, Next(world, dry, items, s, e).phases[i]);
  }

  /** No run has more than three steps for each object. */
  lemma {:induction false} RunsEnd(
    world: World, dry: bool, server: Server, items: seq<Item>, s: State, events: seq<Event>, t: State)
    requires Invariant(world, dry, server, items, s) && Distinct(items) && Grouped(items)
    requires |s.phases| == |items| && Reaches(world, dry, items, s, events, t)
    ensures |events| <= Left(s.phases)
    decreases |events|
  {
    hide Distinct, Grouped, Next, Enabled, Left, RecordedUpTo, Planned;
    if events != [] {
      forall i | 0 <= i < |items|
        ensures s.phases[i].Waiting? <==> s.launched <= i
      {
        assert Fits(world, server, items, s, i);
      }
      StepWorks(world, dry, items, s, events[0]);
      NextKeeps(world, dry, server, items, s, events[0]);
      RunsEnd(world, dry, server, items, Next(world, dry, items, s, events[0]), events[1..], t);
    }
  }

  lemma {:induction false} FirstOf(phases: seq<Phase>, n: nat) returns (i: nat)
    requires n <= |phases| && exists k :: 0 <= k < n && !phases[k].Done? && !phases[k].Failed?
    ensures i < n && !phases[i].Done? && !phases[i].Failed? && forall j | 0 <= j < i ::
            phases[j].Done? || phases[j].Failed?
  {
    i := 0;
    while phases[i].Done? || phases[i].Failed?
      invariant i < n && forall j | 0 <= j < i :: phases[j].Done? || phases[j].Failed?
      invariant exists k :: i <= k < n && !phases[k].Done? && !phases[k].Failed?
      decreases n - i
    {
      i := i + 1;
    }
  }

  lemma {:induction false} NoneInFlight(phases: seq<Phase>)
    requires forall i | 0 <= i < |phases| :: !Busy(phases[i])
    ensures InFlight(phases) == 0
  {
    if phases != [] {
      NoneInFlight(phases[..|phases| - 1]);
    }
  }

  /** No worker waits for ever: until every object is recorded, or an error has
      ended the import, some step can be taken. */
  lemma {:induction false} NeverStuck(world: World, dry: bool, server: Server, items: seq<Item>, s: State)
      returns (e: Event)
    requires Invariant(world, dry, server, items, s) && !Completed(items, s) && !s.error
    ensures Enabled(items, s, e)
  {
    hide RecordedUpTo, Planned, Holds;
    forall i | 0 <= i < |items|
      ensures !s.phases[i].Failed?
    {
      assert Fits(world, server, items, s, i);
    }
    var i := FirstOf(s.phases, |items|);
    assert Fits(world, server, items, s, i);
    match s.phases[i]
    case Running => e := Ask(i);
    case Asked(_) => e := Record(i);
    case Waiting =>
      e := Launch;
      forall k | 0 <= k < |items|
        ensures !Busy(s.phases[k]) && (k < i ==> s.phases[k].Done?)
      {
        assert Fits(world, server, items, s, k);
      }
      NoneInFlight(s.phases);
      if s.launched < i {
        assert Fits(world, server, items, s, s.launched);
      }
  }

  // ------------------------------------------------------------------
  // Two objects at one path

  /** A server that stores whatever it is sent. */
  const AGREEABLE := World((path: string, data: string, before: Option<string>) => Accepts(data, []),
                           (path: string, data: string) => Accepts(data, []), (doc: string) => false,
                               (keys: seq<string>) => "")

  function Twin(doc: string): Item {
    Item(Concept, "a", "a.md", Some(doc), [])
  }

  function OneByOne(): seq<Event> {
    [Launch, Ask(0), Record(0), Launch, Ask(1), Record(1)]
  }

  function Counted(plan: Plan): Tally {
    Zero().(created := if plan.Created? then 1 else 0,
            updated := if plan.Updated? then 1 else 0,
            same := if plan.Unchanged? then 1 else 0)
  }

  /** What a document stored over another comes to. */
  function PlanAgainst(before: Option<string>, doc: string): Plan {
    PlanOf(before.None?, before != Some(doc))
  }

  /** Two documents with one id, put one after the other on a server that takes what it
      is sent: the dry run counts what the import does exactly when something was stored
      there that differs from the second document as the first one does. In particular
      it says both would be created where nothing was stored, and the import creates
      one. */
  lemma {:induction false} TwinsAreCountedRightExactlyWhen(server: Server, doc: string, doc': string)
      returns (dry: State, wet: State)
    ensures var items := [Twin(doc), Twin(doc')];
            && Reaches(AGREEABLE, true, items, Start(items, server), OneByOne(), dry) && Completed(items, dry)
            && Reaches(AGREEABLE, false, items, Start(items, server), OneByOne(), wet) && Completed(items, wet)
    ensures dry.tally == wet.tally <==> "a.md" in server && (server["a.md"] == doc' <==> doc == doc')
    ensures "a.md" !in server ==> dry.tally.created == 2 && wet.tally.created == 1
  {
    hide *;
    dry := TwinRun(server, doc, doc', true);
    wet := TwinRun(server, doc, doc', false);
    var before := StoredAt(server, "a.md");
    TwoCounts(PlanAgainst(before, doc), PlanAgainst(before, doc'), PlanAgainst(Some(doc), doc'));
    PlansOfTwins(server, doc, doc');
  }

  lemma {:induction false} TwoCounts(p: Plan, q: Plan, r: Plan)
    ensures var once := Plus(Zero(), Counted(p));
            Plus(once, Counted(q)) == Plus(once, Counted(r)) <==> q == r
    ensures p.Created? ==> Plus(Plus(Zero(), Counted(p)), Counted(q)).created == 1 + if q.Created? then 1 else 0
    ensures p.Created? ==> Plus(Plus(Zero(), Counted(p)), Counted(r)).created == 1 + if r.Created? then 1 else 0
  {
  }

  lemma {:induction false} PlansOfTwins(server: Server, doc: string, doc': string)
    ensures var before := StoredAt(server, "a.md");
            && !PlanAgainst(Some(doc), doc').Created?
            && ("a.md" !in server ==> PlanAgainst(before, doc).Created? && PlanAgainst(before, doc').Created?)
            && (PlanAgainst(before, doc') == PlanAgainst(Some(doc), doc')
                <==> "a.md" in server && (server["a.md"] == doc' <==> doc == doc'))
  {
  }

  /** One document launched, asked about and recorded, with no other in flight. */
  function Served(items: seq<Item>, s: State, i: nat, dry: bool): State
    requires |items| == |s.phases| && i < |items| && items[i].data.Some?
  {
    var before := StoredAt(s.server, items[i].path);
    var answer := Stored(PlanOf(before.None?, before != items[i].data), items[i].data.value, []);
    s.(server := if dry then s.server else s.server[items[i].path := items[i].data.value],
       phases := s.phases[i := Done],
       launched := i + 1,
       tally := Plus(s.tally, Adds(items[i], answer, s.tally.refused)))
  }

  lemma {:induction false} ServedInThree(items: seq<Item>, s: State, i: nat, dry: bool, rest: seq<Event>, t: State)
    requires |items| == |s.phases| && i == s.launched < |items| && items[i].data.Some? && !s.error
    requires items[i].kind.Concept? && items[i].claimed == []
    requires (forall j | 0 <= j < |items| :: items[j].kind.Concept?) && InFlight(s.phases) == 0
    requires Reaches(AGREEABLE, dry, items, Served(items, s, i, dry), rest, t)
    ensures Reaches(AGREEABLE, dry, items, s, [Launch, Ask(i), Record(i)] + rest, t)
  {
    hide Adds, Plus;
    var events := [Launch, Ask(i), Record(i)] + rest;
    var s1 := Next(AGREEABLE, dry, items, s, Launch);
    var s2 := Next(AGREEABLE, dry, items, s1, Ask(i));
    var s3 := Next(AGREEABLE, dry, items, s2, Record(i));
    assert s3 == Served(items, s, i, dry) by { assert s3.phases == s.phases[i := Done]; }
    assert events[1..][1..][1..] == rest;
    assert events[1..][1..] == [Record(i)] + rest;
    assert events[1..] == [Ask(i)] + ([Record(i)] + rest);
    assert Reaches(AGREEABLE, dry, items, s2, events[1..][1..], t);
    assert Reaches(AGREEABLE, dry, items, s1, events[1..], t);
  }

  lemma {:induction false} ServedCounts(items: seq<Item>, s: State, i: nat, dry: bool)
    requires |items| == |s.phases| && i < |items| && items[i].data.Some? && items[i].kind.Concept?
    ensures var t, path, doc := Served(items, s, i, dry), items[i].path, items[i].data.value;
            && t.phases == s.phases[i := Done] && t.launched == i + 1 && t.error == s.error
            && t.tally == Plus(s.tally, Counted(PlanAgainst(StoredAt(s.server, path), doc)))
            && t.server == if dry then s.server else s.server[path := doc]
  {
  }

  lemma {:induction false} TwinRun(server: Server, doc: string, doc': string, dry: bool) returns (t: State)
    ensures var items := [Twin(doc), Twin(doc')];
            && Reaches(AGREEABLE, dry, items, Start(items, server), OneByOne(), t) && Completed(items, t)
    ensures var before := StoredAt(server, "a.md");
            t.tally == Plus(Plus(Zero(), Counted(PlanAgainst(before, doc))),
                            Counted(PlanAgainst(if dry then before else Some(doc), doc')))
  {
    hide Reaches, Served, InFlight, Plus, Counted, PlanAgainst;
    var items := [Twin(doc), Twin(doc')];
    var s0 := Start(items, server);
    ServedCounts(items, s0, 0, dry);
    var s1 := Served(items, s0, 0, dry);
    ServedCounts(items, s1, 1, dry);
    t := Served(items, s1, 1, dry);
    NoneInFlight(s0.phases);
    NoneInFlight(s1.phases);
    ReachesItself(items, t, dry);
    ServedInThree(items, s1, 1, dry, [], t);
    assert [Launch, Ask(1), Record(1)] + [] == [Launch, Ask(1), Record(1)];
    ServedInThree(items, s0, 0, dry, [Launch, Ask(1), Record(1)], t);
    assert [Launch, Ask(0), Record(0)] + [Launch, Ask(1), Record(1)] == OneByOne();
  }

  lemma {:induction false} ReachesItself(items: seq<Item>, t: State, dry: bool)
    requires |t.phases| == |items|
    ensures Reaches(AGREEABLE, dry, items, t, [], t)
  {
  }
}
