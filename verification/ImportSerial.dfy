/** What the interleaving of an import's workers comes to when objects may share an
    address (cmd/ochakai/client.go:1733-1882): every completed run has counted and stored
    what the same objects would, put one after another in the order they were asked
    about. */
module ImportSerial {
  import opened Text
  import opened Order
  import opened Import

  // ------------------------------------------------------------------
  // One object after another

  /** An object asked about, and the answer. */
  datatype Served = Served(i: nat, answer: Answer)

  /** What the server holds after these. */
  function EndOf(dry: bool, server: Server, items: seq<Item>, h: seq<Served>): Server {
    if h == [] then server
    else
      var before, last := EndOf(dry, server, items, h[..|h| - 1]), h[|h| - 1];
      if dry || last.i >= |items| then before else Written(items[last.i], Some(last.answer), before)
  }

  /** Each answer is the server's, as it stood after those before. */
  predicate Chain(world: World, dry: bool, server: Server, items: seq<Item>, h: seq<Served>) {
    h == [] ||
    (var front, last := h[..|h| - 1], h[|h| - 1];
     && Chain(world, dry, server, items, front) && last.i < |items|
     && Asking(world, StoredAt(EndOf(dry, server, items, front), items[last.i].path), items[last.i])
         == Some(last.answer))
  }

  /** The concepts refused. */
  function RefusedOf(items: seq<Item>, h: seq<Served>): set<string> {
    set x | x in h && x.i < |items| && items[x.i].kind.Concept? && x.answer.Refused? :: items[x.i].id
  }

  function AddsOf(items: seq<Item>, x: Served, refused: set<string>): Tally {
    if x.i < |items| then Adds(items[x.i], x.answer, refused) else Zero()
  }

  /** What the first n come to. */
  function SerialUpTo(items: seq<Item>, h: seq<Served>, n: nat, refused: set<string>): Tally
    requires n <= |h|
  {
    if n == 0 then Zero() else Plus(SerialUpTo(items, h, n - 1, refused), AddsOf(items, h[n - 1], refused))
  }

  function SerialTally(items: seq<Item>, h: seq<Served>): Tally {
    SerialUpTo(items, h, |h|, RefusedOf(items, h))
  }

  predicate Has(h: seq<Served>, i: nat) {
    exists k :: 0 <= k < |h| && h[k].i == i
  }

  /** Every object once. */
  predicate Everyone(items: seq<Item>, h: seq<Served>) {
    && (forall j, k | 0 <= j < k < |h| :: h[j].i != h[k].i)
    && (forall i | 0 <= i < |items| :: Has(h, i))
    && (forall k | 0 <= k < |h| :: h[k].i < |items|)
  }

  // ------------------------------------------------------------------
  // What a run keeps

  predicate AnsweredAt(p: Phase) {
    p.Asked? || p.Done?
  }

  /** What the recorded ones among the first n come to. */
  function RecordedOf(items: seq<Item>, h: seq<Served>, phases: seq<Phase>, n: nat, refused: set<string>): Tally
    requires n <= |h|
  {
    if n == 0 then Zero()
    else
      Plus(RecordedOf(items, h, phases, n - 1, refused),
           if h[n - 1].i < |phases| && phases[h[n - 1].i].Done? then AddsOf(items, h[n - 1], refused) else Zero())
  }

  /** The objects answered are those of the history, each once, each with its answer. */
  ghost predicate Tells(items: seq<Item>, phases: seq<Phase>, h: seq<Served>) {
    && |phases| == |items|
    && (forall j, k | 0 <= j < k < |h| :: h[j].i != h[k].i)
    && (forall k | 0 <= k < |h| :: h[k].i < |items| && AnsweredAt(phases[h[k].i]) && Suits(items[h[k].i], h[k].answer)
          && (phases[h[k].i].Asked? ==> phases[h[k].i].answer == h[k].answer))
    && (forall i | 0 <= i < |items| && AnsweredAt(phases[i]) :: Has(h, i))
  }

  /** No object is taken up before all of the kinds before it are done. */
  predicate InTurn(items: seq<Item>, s: State) {
    && |s.phases| == |items| && s.launched <= |items|
    && (forall i | 0 <= i < |items| :: s.phases[i].Waiting? <==> s.launched <= i)
    && (forall i, j | 0 <= j < i < |items| && !s.phases[i].Waiting? && items[i].kind != items[j].kind ::
          s.phases[j].Done?)
  }

  ghost predicate Follows(world: World, dry: bool, server: Server, items: seq<Item>, s: State, h: seq<Served>) {
    && InTurn(items, s) && Tells(items, s.phases, h)
    && Chain(world, dry, server, items, h) && s.server == EndOf(dry, server, items, h)
    && s.tally == RecordedOf(items, h, s.phases, |h|, RefusedOf(items, h))
  }

  lemma {:induction false} StartFollows(world: World, dry: bool, server: Server, items: seq<Item>)
    ensures Follows(world, dry, server, items, Start(items, server), [])
  {
  }

  // ------------------------------------------------------------------
  // Steps that no answer is part of

  lemma {:induction false} SameRecordedOf(
    items: seq<Item>, h: seq<Served>, a: seq<Phase>, b: seq<Phase>, n: nat, refused: set<string>)
    requires n <= |h| && |a| == |b| && forall i | 0 <= i < |a| :: a[i].Done? <==> b[i].Done?
    ensures RecordedOf(items, h, a, n, refused) == RecordedOf(items, h, b, n, refused)
  {
    hide AddsOf, Plus;
    if n > 0 {
      SameRecordedOf(items, h, a, b, n - 1, refused);
    }
  }

  /** An object that is not yet answered is not in the history. */
  lemma {:induction false} PhaseApart(items: seq<Item>, phases: seq<Phase>, h: seq<Served>, i: nat, p: Phase)
    requires Tells(items, phases, h) && i < |items| && !AnsweredAt(phases[i]) && !AnsweredAt(p)
    ensures Tells(items, phases[i := p], h)
  {
    hide Suits;
    var r := phases[i := p];
    forall k | 0 <= k < |h|
      ensures h[k].i != i
    {
      assert AnsweredAt(phases[h[k].i]);
    }
  }

  lemma {:induction false} LaunchFollows(world: World, dry: bool, server: Server, items: seq<Item>, s: State,
                                         h: seq<Served>)
    requires Follows(world, dry, server, items, s, h) && Enabled(items, s, Launch)
    ensures Follows(world, dry, server, items, Next(world, dry, items, s, Launch), h)
  {
    hide Tells, Chain, EndOf, RecordedOf, RefusedOf, InFlight;
    var t := Next(world, dry, items, s, Launch);
    PhaseApart(items, s.phases, h, s.launched, Running);
    SameRecordedOf(items, h, s.phases, t.phases, |h|, RefusedOf(items, h));
  }

  // ------------------------------------------------------------------
  // An answer

  lemma {:induction false} AskingSuits(world: World, before: Option<string>, item: Item)
    ensures Asking(world, before, item).Some? ==> Suits(item, Asking(world, before, item).value)
  {
  }

  lemma {:induction false} ChainMore(world: World, dry: bool, server: Server, items: seq<Item>, h: seq<Served>,
                                     x: Served)
    requires Chain(world, dry, server, items, h) && x.i < |items|
    requires Asking(world, StoredAt(EndOf(dry, server, items, h), items[x.i].path), items[x.i]) == Some(x.answer)
    ensures Chain(world, dry, server, items, h + [x])
    ensures EndOf(dry, server, items, h + [x])
            == if dry then EndOf(dry, server, items, h)
               else Written(items[x.i], Some(x.answer), EndOf(dry, server, items, h))
  {
    hide Asking, Written;
    assert (h + [x])[..|h|] == h;
  }

  lemma {:induction false} TellsMore(items: seq<Item>, phases: seq<Phase>, h: seq<Served>, i: nat, answer: Answer)
    requires Tells(items, phases, h) && i < |items| && !AnsweredAt(phases[i]) && Suits(items[i], answer)
    ensures Tells(items, phases[i := Asked(answer)], h + [Served(i, answer)])
  {
    hide Suits;
    var r, g := phases[i := Asked(answer)], h + [Served(i, answer)];
    forall k | 0 <= k < |h|
      ensures h[k].i != i && g[k] == h[k]
    {
      assert AnsweredAt(phases[h[k].i]);
    }
    assert g[|h|] == Served(i, answer);
    forall j | 0 <= j < |items| && AnsweredAt(r[j])
      ensures Has(g, j)
    {
      if j == i {
        assert g[|h|].i == j;
      } else {
        assert Has(h, j);
        var k :| 0 <= k < |h| && h[k].i == j;
        assert g[k].i == j;
      }
    }
  }

  /** What is recorded does not turn on who was refused, until the files' turn. */
  lemma {:induction false} RecordedAnyhow(
    items: seq<Item>, h: seq<Served>, phases: seq<Phase>, n: nat, a: set<string>, b: set<string>)
    requires n <= |h| && Tells(items, phases, h)
    requires a == b || forall k | 0 <= k < |h| && phases[h[k].i].Done? :: items[h[k].i].kind.Concept?
    ensures RecordedOf(items, h, phases, n, a) == RecordedOf(items, h, phases, n, b)
  {
    hide Plus, NotePairs;
    if n > 0 {
      RecordedAnyhow(items, h, phases, n - 1, a, b);
    }
  }

  lemma {:induction false} RecordedMore(
    items: seq<Item>, h: seq<Served>, x: Served, phases: seq<Phase>, n: nat, refused: set<string>)
    requires n <= |h| && (x.i >= |phases| || !phases[x.i].Done?)
    ensures RecordedOf(items, h + [x], phases, n, refused) == RecordedOf(items, h, phases, n, refused)
    ensures n == |h| ==> RecordedOf(items, h + [x], phases, n + 1, refused) == RecordedOf(items, h, phases, n, refused)
  {
    hide AddsOf, Plus;
    if n > 0 {
      RecordedMore(items, h, x, phases, n - 1, refused);
      assert (h + [x])[n - 1] == h[n - 1];
    }
    if n == |h| {
      PlusSwap(RecordedOf(items, h, phases, n, refused), Zero(), Zero());
    }
  }

  lemma {:induction false} GroupedAt(items: seq<Item>, i: nat, j: nat)
    requires Grouped(items) && i < j < |items| && items[j].kind.Concept?
    ensures items[i].kind.Concept?
  {
  }

  /** While a concept runs, nothing but concepts is done. */
  lemma {:induction false} ConceptsFirst(items: seq<Item>, s: State, i: nat, j: nat)
    requires InTurn(items, s) && Grouped(items) && i < |items| && j < |items|
    requires items[i].kind.Concept? && s.phases[i].Running? && s.phases[j].Done?
    ensures items[j].kind.Concept?
  {
    hide Grouped;
    if j < i {
      GroupedAt(items, j, i);
    }
  }

  lemma {:induction false} RefusedMore(items: seq<Item>, h: seq<Served>, x: Served)
    requires x.i < |items| && !items[x.i].kind.Concept?
    ensures RefusedOf(items, h + [x]) == RefusedOf(items, h)
  {
    var g := h + [x];
    forall id | id in RefusedOf(items, g)
      ensures id in RefusedOf(items, h)
    {
      var y :| y in g && y.i < |items| && items[y.i].kind.Concept? && y.answer.Refused? && items[y.i].id == id;
      assert y in h;
    }
    forall id | id in RefusedOf(items, h)
      ensures id in RefusedOf(items, g)
    {
      var y :| y in h && y.i < |items| && items[y.i].kind.Concept? && y.answer.Refused? && items[y.i].id == id;
      assert y in g;
    }
  }

  lemma {:induction false} AnswerRecorded(
    items: seq<Item>, s: State, h: seq<Served>, i: nat, answer: Answer)
    requires InTurn(items, s) && Grouped(items) && Tells(items, s.phases, h) && i < |items| && s.phases[i].Running?
    requires Suits(items[i], answer)
    ensures var r, g := s.phases[i := Asked(answer)], h + [Served(i, answer)];
            RecordedOf(items, g, r, |g|, RefusedOf(items, g))
                == RecordedOf(items, h, s.phases, |h|, RefusedOf(items, h))
  {
    hide RecordedOf, RefusedOf, Suits;
    var r, x := s.phases[i := Asked(answer)], Served(i, answer);
    var g := h + [x];
    var now, then' := RefusedOf(items, h), RefusedOf(items, g);
    if items[i].kind.Concept? {
      forall k | 0 <= k < |h| && s.phases[h[k].i].Done?
        ensures items[h[k].i].kind.Concept?
      {
        ConceptsFirst(items, s, i, h[k].i);
      }
    } else {
      RefusedMore(items, h, x);
    }
    RecordedAnyhow(items, h, s.phases, |h|, now, then');
    RecordedMore(items, h, x, s.phases, |h|, then');
    SameRecordedOf(items, g, s.phases, r, |g|, then');
  }

  lemma {:induction false} AskFollows(
    world: World, dry: bool, server: Server, items: seq<Item>, s: State, h: seq<Served>, i: nat)
    returns (g: seq<Served>)
    requires Follows(world, dry, server, items, s, h) && Grouped(items) && Enabled(items, s, Ask(i))
    ensures var t := Next(world, dry, items, s, Ask(i));
            t.phases[i].Failed? || Follows(world, dry, server, items, t, g)
  {
    hide Tells, Chain, EndOf, RecordedOf, RefusedOf, Asking, Written, Grouped, Suits;
    var answer := Asking(world, StoredAt(s.server, items[i].path), items[i]);
    g := h;
    if answer.Some? {
      var x := Served(i, answer.value);
      g := h + [x];
      AskingSuits(world, StoredAt(s.server, items[i].path), items[i]);
      ChainMore(world, dry, server, items, h, x);
      TellsMore(items, s.phases, h, i, answer.value);
      AnswerRecorded(items, s, h, i, answer.value);
      WrittenSame(items[i], answer.value, s.server);
    }
  }

  lemma {:induction false} WrittenSame(item: Item, answer: Answer, server: Server)
    ensures Written(item, Some(answer), server) == if answer.Refused? then server
            else Written(item, Some(answer), server)
  {
  }

  // ------------------------------------------------------------------
  // A record

  lemma {:induction false} TellsDone(items: seq<Item>, phases: seq<Phase>, h: seq<Served>, i: nat)
    requires Tells(items, phases, h) && i < |items| && phases[i].Asked?
    ensures Tells(items, phases[i := Done], h)
  {
    hide Suits;
  }

  lemma {:induction false} RecordedOne(
    items: seq<Item>, h: seq<Served>, phases: seq<Phase>, k: nat, n: nat, refused: set<string>)
    requires n <= |h| && k < |h| && Tells(items, phases, h) && phases[h[k].i].Asked?
    ensures RecordedOf(items, h, phases[h[k].i := Done], n, refused)
            == if k < n then Plus(RecordedOf(items, h, phases, n, refused), AddsOf(items, h[k], refused))
               else RecordedOf(items, h, phases, n, refused)
  {
    hide AddsOf, Plus, Suits;
    if n > 0 {
      RecordedOne(items, h, phases, k, n - 1, refused);
      var before, added := RecordedOf(items, h, phases, n - 1, refused), AddsOf(items, h[k], refused);
      var last := if phases[h[n - 1].i].Done? then AddsOf(items, h[n - 1], refused) else Zero();
      PlusSwap(before, added, last);
      PlusSwap(before, added, Zero());
    }
  }

  /** The refused ids the counters hold. */
  lemma {:induction false} RecordedRefuses(
    items: seq<Item>, h: seq<Served>, phases: seq<Phase>, n: nat, refused: set<string>)
    requires n <= |h| && Tells(items, phases, h)
    requires forall i | 0 <= i < |items| && items[i].kind.Concept? :: phases[i].Done?
    ensures RecordedOf(items, h, phases, n, refused).refused == RefusedOf(items, h[..n])
  {
    hide *;
    if n == 0 {
      NoneRefused(items, h, phases, refused);
    } else {
      RecordedRefuses(items, h, phases, n - 1, refused);
      assert h[..n] == h[..n - 1] + [h[n - 1]];
      TellsAt(items, phases, h, n - 1);
      RefusedStep(items, h[..n - 1], h[n - 1]);
      RefusedAdds(items, h[n - 1], refused);
      RecordedStep(items, h, phases, n, refused);
    }
  }

  lemma {:induction false} NoneRefused(items: seq<Item>, h: seq<Served>, phases: seq<Phase>, refused: set<string>)
    ensures RecordedOf(items, h, phases, 0, refused).refused == {} == RefusedOf(items, h[..0])
  {
  }

  lemma {:induction false} TellsAt(items: seq<Item>, phases: seq<Phase>, h: seq<Served>, k: nat)
    requires Tells(items, phases, h) && k < |h|
    ensures h[k].i < |items| == |phases|
  {
    hide Suits;
  }

  lemma {:induction false} RecordedStep(items: seq<Item>, h: seq<Served>, phases: seq<Phase>, n: nat,
                                        refused: set<string>)
    requires 0 < n <= |h| && h[n - 1].i < |phases|
    ensures RecordedOf(items, h, phases, n, refused).refused
            == RecordedOf(items, h, phases, n - 1, refused).refused
               + if phases[h[n - 1].i].Done? then AddsOf(items, h[n - 1], refused).refused else {}
  {
    hide AddsOf;
  }

  lemma {:induction false} RefusedAdds(items: seq<Item>, x: Served, refused: set<string>)
    requires x.i < |items|
    ensures AddsOf(items, x, refused).refused
            == if items[x.i].kind.Concept? && x.answer.Refused? then {items[x.i].id} else {}
  {
    hide NotePairs;
  }

  lemma {:induction false} RefusedStep(items: seq<Item>, h: seq<Served>, x: Served)
    requires x.i < |items|
    ensures RefusedOf(items, h + [x])
            == RefusedOf(items, h) + if items[x.i].kind.Concept? && x.answer.Refused? then {items[x.i].id} else {}
  {
    var g := h + [x];
    assert g[|h|] == x;
    forall id | id in RefusedOf(items, g)
      ensures id in RefusedOf(items, h) || (items[x.i].kind.Concept? && x.answer.Refused? && id == items[x.i].id)
    {
      var y :| y in g && y.i < |items| && items[y.i].kind.Concept? && y.answer.Refused? && items[y.i].id == id;
      assert y in h || y == x;
    }
    forall id | id in RefusedOf(items, h)
      ensures id in RefusedOf(items, g)
    {
      var y :| y in h && y.i < |items| && items[y.i].kind.Concept? && y.answer.Refused? && items[y.i].id == id;
      assert y in g;
    }
  }

  /** Once a file is answered every concept is done. */
  lemma {:induction false} FilesLater(items: seq<Item>, s: State, i: nat, j: nat)
    requires InTurn(items, s) && Grouped(items) && i < |items| && j < |items|
    requires !items[i].kind.Concept? && !s.phases[i].Waiting? && items[j].kind.Concept?
    ensures s.phases[j].Done?
  {
    hide Grouped;
    if i < j {
      GroupedAt(items, i, j);
    }
  }

  /** What a worker adds is what the history says it adds. */
  lemma {:induction false} AddsAsServed(
    world: World, dry: bool, server: Server, items: seq<Item>, s: State, h: seq<Served>, k: nat)
    requires Follows(world, dry, server, items, s, h) && Grouped(items) && k < |h| && s.phases[h[k].i].Asked?
    ensures Adds(items[h[k].i], s.phases[h[k].i].answer, s.tally.refused) == AddsOf(items, h[k], RefusedOf(items, h))
  {
    hide Chain, EndOf, RecordedOf, RefusedOf, Grouped, NotePairs;
    var i := h[k].i;
    if items[i].kind.Attributed? {
      forall j | 0 <= j < |items| && items[j].kind.Concept?
        ensures s.phases[j].Done?
      {
        FilesLater(items, s, i, j);
      }
      RecordedRefuses(items, h, s.phases, |h|, RefusedOf(items, h));
      assert h[..|h|] == h;
    }
  }

  lemma {:induction false} RecordFollows(
    world: World, dry: bool, server: Server, items: seq<Item>, s: State, h: seq<Served>, i: nat)
    requires Follows(world, dry, server, items, s, h) && Grouped(items) && Enabled(items, s, Record(i))
    ensures Follows(world, dry, server, items, Next(world, dry, items, s, Record(i)), h)
  {
    var k := IndexOf(items, s.phases, h, i);
    AddsAsServed(world, dry, server, items, s, h, k);
    hide Tells, Chain, EndOf, RecordedOf, RefusedOf, Grouped, Adds, AddsOf, Plus, InTurn, InFlight;
    TellsDone(items, s.phases, h, i);
    InTurnDone(items, s, i);
    RecordedOne(items, h, s.phases, k, |h|, RefusedOf(items, h));
  }

  lemma {:induction false} InTurnDone(items: seq<Item>, s: State, i: nat)
    requires InTurn(items, s) && i < |items| && s.phases[i].Asked?
    ensures forall t: State | t.phases == s.phases[i := Done] && t.launched == s.launched :: InTurn(items, t)
  {
  }

  lemma {:induction false} IndexOf(items: seq<Item>, phases: seq<Phase>, h: seq<Served>, i: nat) returns (k: nat)
    requires Tells(items, phases, h) && i < |items| && AnsweredAt(phases[i])
    ensures k < |h| && h[k].i == i
  {
    hide Suits;
    assert Has(h, i);
    k :| 0 <= k < |h| && h[k].i == i;
  }

  // ------------------------------------------------------------------
  // Runs

  /** The i-th worker has failed. */
  predicate FailedAt(s: State, i: nat) {
    i < |s.phases| && i < s.launched && s.phases[i].Failed?
  }

  lemma {:induction false} StaysAt(world: World, dry: bool, items: seq<Item>, s: State, e: Event, i: nat)
    requires |s.phases| == |items| && Enabled(items, s, e) && FailedAt(s, i)
    ensures FailedAt(Next(world, dry, items, s, e), i) && |Next(world, dry, items, s, e).phases| == |items|
  {
    hide Asking, Written, Adds, Plus, InFlight;
  }

  /** What failed stays failed, and the run is not completed. */
  lemma {:induction false} FailedStays(
    world: World, dry: bool, items: seq<Item>, s: State, events: seq<Event>, t: State, i: nat)
    requires |s.phases| == |items| && FailedAt(s, i) && Reaches(world, dry, items, s, events, t)
    ensures !Completed(items, t)
    decreases |events|
  {
    hide Next, Enabled;
    if events != [] {
      StaysAt(world, dry, items, s, events[0], i);
      FailedStays(world, dry, items, Next(world, dry, items, s, events[0]), events[1..], t, i);
    }
  }

  /** One step of a run that completes. */
  lemma {:induction false} StepFollows(
    world: World, dry: bool, server: Server, items: seq<Item>, s: State, h: seq<Served>, e: Event)
    returns (g: seq<Served>)
    requires Follows(world, dry, server, items, s, h) && Grouped(items) && Enabled(items, s, e)
    ensures var t := Next(world, dry, items, s, e);
            Follows(world, dry, server, items, t, g) || exists i :: FailedAt(t, i)
  {
    g := h;
    match e
    case Launch => LaunchFollows(world, dry, server, items, s, h);
    case Ask(i) =>
      g := AskFollows(world, dry, server, items, s, h, i);
      FailsHere(world, dry, items, s, e, i);
    case Record(i) => RecordFollows(world, dry, server, items, s, h, i);
    case Lose(i, stored) => FailsHere(world, dry, items, s, e, i);
    case GiveUp(i) => FailsHere(world, dry, items, s, e, i);
  }

  lemma {:induction false} FailsHere(world: World, dry: bool, items: seq<Item>, s: State, e: Event, i: nat)
    requires InTurn(items, s) && Enabled(items, s, e) && (e == Ask(i) || (e.Lose? && e.i == i) || e == GiveUp(i))
    ensures var t := Next(world, dry, items, s, e);
            (e.Ask? && !t.phases[i].Failed?) || FailedAt(t, i)
  {
    hide Asking, Written, InFlight;
  }

  lemma {:induction false} NextSize(world: World, dry: bool, items: seq<Item>, s: State, e: Event)
    requires |s.phases| == |items| && Enabled(items, s, e)
    ensures |Next(world, dry, items, s, e).phases| == |items|
  {
    hide Asking, Written, InFlight;
  }

  lemma {:induction false} RunFollows(
    world: World, dry: bool, server: Server, items: seq<Item>, s: State, h: seq<Served>, events: seq<Event>, t: State)
    returns (g: seq<Served>)
    requires Follows(world, dry, server, items, s, h) && Grouped(items)
    requires |s.phases| == |items| && Reaches(world, dry, items, s, events, t) && Completed(items, t)
    ensures Follows(world, dry, server, items, t, g)
    decreases |events|
  {
    hide Follows, Grouped, Next, Enabled, FailedAt;
    g := h;
    if events != [] {
      var u := Next(world, dry, items, s, events[0]);
      NextSize(world, dry, items, s, events[0]);
      g := StepFollows(world, dry, server, items, s, h, events[0]);
      if i :| FailedAt(u, i) {
        FailedStays(world, dry, items, u, events[1..], t, i);
      } else {
        g := RunFollows(world, dry, server, items, u, g, events[1..], t);
      }
    }
  }

  // ------------------------------------------------------------------
  // Every run is a serial one

  lemma {:induction false} AllDone(items: seq<Item>, h: seq<Served>, phases: seq<Phase>, n: nat, refused: set<string>)
    requires n <= |h| && Tells(items, phases, h) && forall i | 0 <= i < |items| :: phases[i].Done?
    ensures RecordedOf(items, h, phases, n, refused) == SerialUpTo(items, h, n, refused)
  {
    hide AddsOf, Plus, Suits;
    if n > 0 {
      AllDone(items, h, phases, n - 1, refused);
    }
  }

  /** Whatever the interleaving of the workers, and whatever addresses the objects share,
      a completed run ends with the server and the counters of the same objects put one
      after another, in the order they were asked about. */
  lemma {:induction false} EveryRunIsSerial(
    world: World, dry: bool, server: Server, items: seq<Item>, events: seq<Event>, t: State)
    returns (h: seq<Served>)
    requires Grouped(items)
    requires Reaches(world, dry, items, Start(items, server), events, t) && Completed(items, t)
    ensures Everyone(items, h) && Chain(world, dry, server, items, h)
    ensures t.server == EndOf(dry, server, items, h) && t.tally == SerialTally(items, h)
  {
    hide Chain, EndOf, RecordedOf, RefusedOf, Reaches, Grouped;
    StartFollows(world, dry, server, items);
    h := RunFollows(world, dry, server, items, Start(items, server), [], events, t);
    AllDone(items, h, t.phases, |h|, RefusedOf(items, h));
  }

  // ------------------------------------------------------------------
  // Two documents with one address

  /** What y is told once x was put. */
  function ToldAfter(world: World, server: Server, x: Item, y: Item): Option<Answer> {
    Asking(world, StoredAt(Written(x, Planned(world, server, x), server), y.path), y)
  }

  /** y counts after x what it would alone. */
  predicate CountsAlike(world: World, server: Server, x: Item, y: Item) {
    Planned(world, server, x).Some? && Planned(world, server, y).Some? && ToldAfter(world, server, x, y).Some? ==>
      Adds(y, ToldAfter(world, server, x, y).value, {}) == Adds(y, Planned(world, server, y).value, {})
  }

  function Both(a: Tally, b: Tally): Tally {
    Plus(Plus(Zero(), a), b)
  }

  /** Concepts add the same whoever was refused. */
  lemma {:induction false} ConceptAdds(item: Item, answer: Answer, r: set<string>, q: set<string>)
    requires item.kind.Concept? && Suits(item, answer)
    ensures Adds(item, answer, r) == Adds(item, answer, q)
  {
    hide NotePairs;
  }

  lemma {:induction false} BothSwap(a: Tally, b: Tally)
    ensures Both(a, b) == Both(b, a)
  {
    hide Plus;
    PlusSwap(Zero(), a, b);
  }

  /** Adding tells what was added. */
  lemma {:induction false} BothTells(x: Item, a: Tally, p: Answer, q: Answer)
    requires x.kind.Concept? && Suits(x, p) && Suits(x, q)
    ensures Both(a, Adds(x, p, {})) == Both(a, Adds(x, q, {})) <==> Adds(x, p, {}) == Adds(x, q, {})
  {
    hide NotePairs;
    var b, c := Adds(x, p, {}), Adds(x, q, {});
    if Both(a, b) == Both(a, c) {
      BagCancels(Zero().skipped + a.skipped, b.skipped, c.skipped);
      BagCancels(Zero().notes + a.notes, b.notes, c.notes);
      SkipTellsRefused(x, p, q);
    }
  }

  lemma {:induction false} BagCancels<T>(a: multiset<T>, b: multiset<T>, c: multiset<T>)
    requires a + b == a + c
    ensures b == c
  {
    assert b == a + b - a && c == a + c - a;
  }

  lemma {:induction false} SkipTellsRefused(x: Item, p: Answer, q: Answer)
    requires x.kind.Concept? && Suits(x, p) && Suits(x, q)
    requires Adds(x, p, {}).skipped == Adds(x, q, {}).skipped
    ensures Adds(x, p, {}).refused == Adds(x, q, {}).refused
  {
    SkipSize(x, p);
    SkipSize(x, q);
    hide NotePairs;
  }

  lemma {:induction false} SkipSize(x: Item, p: Answer)
    requires x.kind.Concept? && Suits(x, p)
    ensures |Adds(x, p, {}).skipped| == if p.Refused? then 1 else 0
  {
    hide NotePairs;
  }

  /** The plan of two concepts. */
  lemma {:induction false} PlanOfTwo(world: World, server: Server, a: Item, b: Item)
    requires a.kind.Concept? && b.kind.Concept? && Planned(world, server, a).Some? && Planned(world, server, b).Some?
    ensures PlannedTally(world, server, [a, b])
            == Both(Adds(a, Planned(world, server, a).value, {}), Adds(b, Planned(world, server, b).value, {}))
  {
    hide Planned, Adds, Plus, RefusedUpTo;
    var items := [a, b];
    var r := RefusedUpTo(world, server, items, 2);
    PlannedSuits(world, server, a);
    PlannedSuits(world, server, b);
    ConceptAdds(a, Planned(world, server, a).value, r, {});
    ConceptAdds(b, Planned(world, server, b).value, r, {});
    assert PlannedUpTo(world, server, items, 0) == Zero();
    assert PlannedUpTo(world, server, items, 1) == Plus(Zero(), PlannedAdds(world, server, items, 0));
  }

  /** The tally of two concepts put in the order of h. */
  lemma {:induction false} SerialOfTwo(world: World, dry: bool, server: Server, a: Item, b: Item, h: seq<Served>)
    requires a.kind.Concept? && b.kind.Concept? && Everyone([a, b], h) && Chain(world, dry, server, [a, b], h)
    ensures |h| == 2 && h[0].i < 2 && h[1].i == 1 - h[0].i
    ensures var items := [a, b]; var x, y := items[h[0].i], items[h[1].i];
            && Planned(world, server, x) == Some(h[0].answer)
            && Some(h[1].answer) == (if dry then Planned(world, server, y) else ToldAfter(world, server, x, y))
            && SerialTally(items, h) == Both(Adds(x, h[0].answer, {}), Adds(y, h[1].answer, {}))
  {
    var items := [a, b];
    TwoOfTwo(items, h);
    hide Everyone, Asking, Adds, Plus, RefusedOf, Written;
    var x, y := items[h[0].i], items[h[1].i];
    assert h[..1] == [h[0]] && h[..1][..0] == [];
    assert EndOf(dry, server, items, []) == server;
    assert Chain(world, dry, server, items, h[..1]);
    var r := RefusedOf(items, h);
    AskingSuits(world, StoredAt(server, x.path), x);
    AskingSuits(world, StoredAt(EndOf(dry, server, items, h[..1]), y.path), y);
    ConceptAdds(x, h[0].answer, r, {});
    ConceptAdds(y, h[1].answer, r, {});
    assert SerialUpTo(items, h, 0, r) == Zero();
    assert SerialUpTo(items, h, 1, r) == Plus(Zero(), Adds(x, h[0].answer, r));
  }

  lemma {:induction false} TwoOfTwo(items: seq<Item>, h: seq<Served>)
    requires |items| == 2 && Everyone(items, h)
    ensures |h| == 2 && h[0].i < 2 && h[1].i == 1 - h[0].i
  {
    assert Has(h, 0) && Has(h, 1);
    var j :| 0 <= j < |h| && h[j].i == 0;
    var k :| 0 <= k < |h| && h[k].i == 1;
    AtMostTwo(h);
    hide Has;
  }

  lemma {:induction false} AtMostTwo(h: seq<Served>)
    requires (forall j, k | 0 <= j < k < |h| :: h[j].i != h[k].i) && forall k | 0 <= k < |h| :: h[k].i < 2
    ensures |h| <= 2
  {
    var r := seq(|h|, k requires 0 <= k < |h| => h[k].i);
    DistinctSize(r);
    var found := set x | x in r;
    assert found <= {0, 1};
    assert found + ({0, 1} - found) == {0, 1};
  }

  // ------------------------------------------------------------------
  // Both orders are runs

  /** Object i asked about and recorded at once. */
  function Serve(world: World, items: seq<Item>, s: State, i: nat): State
    requires i < |items| == |s.phases| && Asking(world, StoredAt(s.server, items[i].path), items[i]).Some?
  {
    var answer := Asking(world, StoredAt(s.server, items[i].path), items[i]);
    s.(server := Written(items[i], answer, s.server), phases := s.phases[i := Done],
       tally := Plus(s.tally, Adds(items[i], answer.value, s.tally.refused)))
  }

  lemma {:induction false} ServeReaches(
    world: World, items: seq<Item>, s: State, i: nat, rest: seq<Event>, t: State)
    requires i < |items| == |s.phases| && Asking(world, StoredAt(s.server, items[i].path), items[i]).Some?
    requires s.phases[i].Running? && Reaches(world, false, items, Serve(world, items, s, i), rest, t)
    ensures Reaches(world, false, items, s, [Ask(i), Record(i)] + rest, t)
  {
    hide Asking, Written, Adds, Plus, InFlight;
    var events := [Ask(i), Record(i)] + rest;
    var u := Next(world, false, items, s, Ask(i));
    assert u.phases[i := Done] == s.phases[i := Done];
    assert Next(world, false, items, u, Record(i)) == Serve(world, items, s, i);
    assert events[1..] == [Record(i)] + rest && events[1..][1..] == rest;
    assert Reaches(world, false, items, u, events[1..], t);
  }

  function BothRunning(items: seq<Item>, server: Server): State {
    State(server, seq(|items|, _ => Running), |items|, false, Zero())
  }

  lemma {:induction false} TwoLaunched(world: World, items: seq<Item>, server: Server, rest: seq<Event>, t: State)
    requires |items| == 2 && items[0].kind == items[1].kind
    requires Reaches(world, false, items, BothRunning(items, server), rest, t)
    ensures Reaches(world, false, items, Start(items, server), [Launch, Launch] + rest, t)
  {
    var s := Start(items, server);
    NoneInFlight(s.phases);
    assert Enabled(items, s, Launch);
    var u := Next(world, false, items, s, Launch);
    InFlightOne(s.phases, 0, Running);
    assert Enabled(items, u, Launch);
    var events := [Launch, Launch] + rest;
    assert events[1..] == [Launch] + rest && events[1..][1..] == rest;
    assert Next(world, false, items, u, Launch) == BothRunning(items, server);
    hide Next, Enabled, InFlight;
    assert Reaches(world, false, items, u, events[1..], t);
  }

  /** The run that asks about the i-th first. */
  lemma {:induction false} OrderIsRun(world: World, server: Server, a: Item, b: Item, i: nat)
    returns (events: seq<Event>, t: State)
    requires a.kind.Concept? && b.kind.Concept? && i < 2
    requires var items := [a, b];
             Planned(world, server, items[i]).Some? && ToldAfter(world, server, items[i], items[1 - i]).Some?
    ensures var items := [a, b]; var x, y := items[i], items[1 - i];
            && Reaches(world, false, items, Start(items, server), events, t) && Completed(items, t)
            && t.tally == Both(Adds(x, Planned(world, server, x).value, {}),
                Adds(y, ToldAfter(world, server, x, y).value, {}))
  {
    hide Asking, Written, Adds, Plus, InFlight, Enabled;
    var items := [a, b];
    var x, y := items[i], items[1 - i];
    var s := BothRunning(items, server);
    var u := Serve(world, items, s, i);
    t := Serve(world, items, u, 1 - i);
    assert Reaches(world, false, items, t, [], t);
    ServeReaches(world, items, u, 1 - i, [], t);
    var second := [Ask(1 - i), Record(1 - i)];
    assert second + [] == second;
    ServeReaches(world, items, s, i, second, t);
    events := [Launch, Launch] + ([Ask(i), Record(i)] + second);
    TwoLaunched(world, items, server, [Ask(i), Record(i)] + second, t);
    AskingSuits(world, StoredAt(server, x.path), x);
    AskingSuits(world, StoredAt(u.server, y.path), y);
    ConceptAdds(x, Planned(world, server, x).value, s.tally.refused, {});
    ConceptAdds(y, ToldAfter(world, server, x, y).value, u.tally.refused, {});
  }

  // ------------------------------------------------------------------
  // When the dry run predicts the import of two

  /** A dry run of two documents counts each alone, whatever addresses they have. */
  lemma {:induction false} DryRunOfTwo(
    world: World, server: Server, a: Item, b: Item, events: seq<Event>, t: State)
    requires a.kind.Concept? && b.kind.Concept?
    requires Reaches(world, true, [a, b], Start([a, b], server), events, t) && Completed([a, b], t)
    ensures t.tally == PlannedTally(world, server, [a, b]) && t.server == server
  {
    hide Asking, Adds, Plus, Reaches, Completed, Everyone, Chain, SerialTally, PlannedTally, Both;
    var h := EveryRunIsSerial(world, true, server, [a, b], events, t);
    SerialOfTwo(world, true, server, a, b, h);
    PlanOfTwo(world, server, a, b);
    BothSwap(Adds(a, Planned(world, server, a).value, {}), Adds(b, Planned(world, server, b).value, {}));
    DryEnd(server, [a, b], h);
  }

  lemma {:induction false} DryEnd(server: Server, items: seq<Item>, h: seq<Served>)
    ensures EndOf(true, server, items, h) == server
  {
    if h != [] {
      DryEnd(server, items, h[..|h| - 1]);
    }
  }

  /** Every completed import of the two counts what the dry run did. */
  ghost predicate Predicted(world: World, server: Server, a: Item, b: Item) {
    forall events, t | Reaches(world, false, [a, b], Start([a, b], server), events, t) && Completed([a, b], t) ::
      t.tally == PlannedTally(world, server, [a, b])
  }

  lemma {:induction false} OneOrder(world: World, server: Server, a: Item, b: Item, i: nat)
    requires a.kind.Concept? && b.kind.Concept? && i < 2
    requires Planned(world, server, a).Some? && Planned(world, server, b).Some?
    ensures var items := [a, b]; var x, y := items[i], items[1 - i];
            ToldAfter(world, server, x, y).Some? ==>
              (Both(Adds(x, Planned(world, server, x).value, {}), Adds(y, ToldAfter(world, server, x, y).value, {}))
               == PlannedTally(world, server, [a, b])
               <==> CountsAlike(world, server, x, y))
  {
    hide Planned, Asking, Adds, Plus, Both, PlannedTally, Written;
    var items := [a, b];
    var x, y := items[i], items[1 - i];
    PlanOfTwo(world, server, a, b);
    BothSwap(Adds(a, Planned(world, server, a).value, {}), Adds(b, Planned(world, server, b).value, {}));
    if ToldAfter(world, server, x, y).Some? {
      PlannedSuits(world, server, y);
      AskingSuits(world, StoredAt(Written(x, Planned(world, server, x), server), y.path), y);
      BothTells(y, Adds(x, Planned(world, server, x).value, {}), ToldAfter(world, server, x, y).value,
          Planned(world, server, y).value);
    }
  }

  /** Over every server and every interleaving: the dry run of two documents predicts
      their import exactly when each counts after the other what it would alone. */
  lemma {:induction false} TwoPredictedExactlyWhen(world: World, server: Server, a: Item, b: Item)
    requires a.kind.Concept? && b.kind.Concept?
    requires Planned(world, server, a).Some? && Planned(world, server, b).Some?
    ensures Predicted(world, server, a, b)
            <==> CountsAlike(world, server, a, b) && CountsAlike(world, server, b, a)
  {
    hide Planned, ToldAfter, Adds, Plus, Both, PlannedTally, Reaches, Completed, CountsAlike, Everyone, Chain,
        SerialTally;
    OneOrder(world, server, a, b, 0);
    OneOrder(world, server, a, b, 1);
    if CountsAlike(world, server, a, b) && CountsAlike(world, server, b, a) {
      forall events, t | Reaches(world, false, [a, b], Start([a, b], server), events, t) && Completed([a, b], t)
        ensures t.tally == PlannedTally(world, server, [a, b])
      {
        var h := EveryRunIsSerial(world, false, server, [a, b], events, t);
        SerialOfTwo(world, false, server, a, b, h);
      }
    }
    if Predicted(world, server, a, b) {
      OrderCounts(world, server, a, b, 0);
      OrderCounts(world, server, a, b, 1);
    }
  }

  lemma {:induction false} OrderCounts(world: World, server: Server, a: Item, b: Item, i: nat)
    requires a.kind.Concept? && b.kind.Concept? && i < 2 && Predicted(world, server, a, b)
    requires Planned(world, server, a).Some? && Planned(world, server, b).Some?
    ensures CountsAlike(world, server, [a, b][i], [a, b][1 - i])
  {
    OneOrder(world, server, a, b, i);
    hide Planned, ToldAfter, Adds, Plus, Both, PlannedTally, Reaches, Completed;
    if ToldAfter(world, server, [a, b][i], [a, b][1 - i]).Some? {
      var events, t := OrderIsRun(world, server, a, b, i);
    }
  }
}
