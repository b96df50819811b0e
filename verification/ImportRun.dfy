/** The shared state of the import's workers (cmd/ochakai/client.go): the counters,
    the refused set, the skip list and the note tally that each worker updates
    under the lock. Every method is one critical section. */
module ImportRun {
  import opened Text
  import opened Import
  import ImportCounts

  class Importer {
    const world: World
    const dry: bool
    const items: seq<Item>
    var server: Server
    var phases: seq<Phase>
    var launched: nat
    var error: bool
    var created: nat
    var updated: nat
    var same: nat
    var attached: nat
    var orphaned: nat
    var written: nat
    var refused: set<string>
    var skipped: seq<string>
    var notes: seq<(string, string)>

    ghost function Counted(): Tally
      reads this
    {
      Tally(created, updated, same, attached, orphaned, written, refused, multiset(skipped), multiset(notes))
    }

    /** The state of the run, the order of the two lists set aside. */
    ghost function Abstract(): State
      reads this
    {
      State(server, phases, launched, error, Counted())
    }

    constructor (world: World, dry: bool, items: seq<Item>, server: Server)
      ensures this.world == world && this.dry == dry && this.items == items
      ensures Abstract() == Start(items, server)
    {
      this.world, this.dry, this.items, this.server := world, dry, items, server;
      phases := seq(|items|, _ => Waiting);
      launched, error := 0, false;
      created, updated, same, attached, orphaned, written := 0, 0, 0, 0, 0, 0;
      refused, skipped, notes := {}, [], [];
    }

    method Launch()
      requires |phases| == |items| && Enabled(items, Abstract(), Event.Launch)
      modifies this
      ensures |phases| == |items| && Abstract() == Next(world, dry, items, old(Abstract()), Event.Launch)
    {
      phases := phases[launched := Running];
      launched := launched + 1;
    }

    /** The call to the server, outside the lock. */
    method Ask(i: nat)
      requires |phases| == |items| && Enabled(items, Abstract(), Event.Ask(i))
      modifies this
      ensures |phases| == |items| && Abstract() == Next(world, dry, items, old(Abstract()), Event.Ask(i))
    {
      hide Asking;
      var answer := Asking(world, StoredAt(server, items[i].path), items[i]);
      if answer.None? {
        phases := phases[i := Failed];
        error := true;
        return;
      }
      if !dry {
        server := Written(items[i], answer, server);
      }
      phases := phases[i := Asked(answer.value)];
    }

    method AddNotes(id: string, more: seq<string>)
      modifies this`notes
      ensures multiset(notes) == multiset(old(notes)) + NotePairs(id, more)
    {
      for k := 0 to |more|
        invariant multiset(notes) + NotePairs(id, more[k..]) == multiset(old(notes)) + NotePairs(id, more)
      {
        assert more[k..][1..] == more[k + 1..];
        notes := notes + [(id, more[k])];
      }
    }

    /** What a worker does with its answer, under the lock. */
    method Record(i: nat)
      requires |phases| == |items| && Enabled(items, Abstract(), Event.Record(i))
      modifies this
      ensures |phases| == |items| && Abstract() == Next(world, dry, items, old(Abstract()), Event.Record(i))
    {
      var item, answer := items[i], phases[i].answer;
      AddAnswer(item, answer);
      phases := phases[i := Done];
    }

    method AddAnswer(item: Item, answer: Answer)
      modifies this`created, this`updated, this`same, this`attached, this`orphaned, this`written,
               this`refused, this`skipped, this`notes
      ensures Counted() == Plus(old(Counted()), Adds(item, answer, old(refused)))
    {
      match answer
      case Refused(why) => SkipEntry(item, why);
      case Stored(plan, doc, more) => CountConcept(item, plan, doc, more);
      case Kept(doc) => CountFile(item, doc);
    }

    method SkipEntry(item: Item, why: string)
      modifies this`refused, this`skipped
      ensures Counted() == Plus(old(Counted()), Adds(item, Refused(why), old(refused)))
    {
      if item.kind.Concept? {
        refused := refused + {item.id};
      }
      skipped := skipped + [item.path];
      assert multiset(notes) + multiset{} == multiset(notes);
      assert old(refused) + {} == old(refused);
    }

    method CountConcept(item: Item, plan: Plan, doc: string, more: seq<string>)
      modifies this`created, this`updated, this`same, this`notes
      ensures Counted() == Plus(old(Counted()), Adds(item, Stored(plan, doc, more), old(refused)))
    {
      hide NotePairs;
      AddNotes(item.id, more);
      match plan {
        case Created => created := created + 1;
        case Unchanged => same := same + 1;
        case Updated => updated := updated + 1;
      }
      assert multiset(skipped) + multiset{} == multiset(skipped) && refused + {} == refused;
    }

    method CountFile(item: Item, doc: string)
      modifies this`attached, this`orphaned, this`written
      ensures Counted() == Plus(old(Counted()), Adds(item, Kept(doc), old(refused)))
    {
      if item.kind.Loose? {
        written := written + 1;
      } else if item.id in refused {
        orphaned := orphaned + 1;
      } else {
        attached := attached + 1;
      }
      assert multiset(skipped) + multiset{} == multiset(skipped) && refused + {} == refused;
      assert multiset(notes) + multiset{} == multiset(notes);
    }

    /** Under --strict a run fails when anything was noted or skipped. */
    predicate Clean()
      reads this
    {
      notes == [] && skipped == []
    }
  }

  /** The strict verdict of the dry run is that of the import. */
  lemma {:induction false} StrictVerdictPredicted(
    world: World, server: Server, items: seq<Item>, dry: Importer, wet: Importer,
    dryEvents: seq<Event>, events: seq<Event>)
    requires Distinct(items) && Grouped(items)
    requires Reaches(world, true, items, Start(items, server), dryEvents, dry.Abstract())
            && Completed(items, dry.Abstract())
    requires Reaches(world, false, items, Start(items, server), events, wet.Abstract())
            && Completed(items, wet.Abstract())
    ensures dry.Clean() <==> wet.Clean()
  {
    hide Reaches, Completed, Distinct, Grouped;
    DryRunPredicts(world, server, items, dryEvents, dry.Abstract(), events, wet.Abstract());
    assert |multiset(dry.notes)| == |dry.notes| && |multiset(wet.notes)| == |wet.notes|;
    assert |multiset(dry.skipped)| == |dry.skipped| && |multiset(wet.skipped)| == |wet.skipped|;
    assert dry.Counted() == wet.Counted();
  }

  /** Of a completed run or dry run: the strict verdict is that every object was accepted,
      with nothing to note and no claim that stayed on a concept. */
  lemma {:induction false} StrictVerdictIs(
    world: World, server: Server, items: seq<Item>, dry: bool, run: Importer, events: seq<Event>)
    requires Distinct(items) && Grouped(items)
    requires Reaches(world, dry, items, Start(items, server), events, run.Abstract())
            && Completed(items, run.Abstract())
    ensures run.Clean() <==> forall i | 0 <= i < |items| :: ImportCounts.ReadAsWritten(world, server, items[i])
  {
    hide Reaches, Completed, Distinct, Grouped, ImportCounts.CountsOf, ImportCounts.ReadAsWritten;
    var gone := ImportCounts.SkippedIds(world, server, items);
    ImportCounts.CountersSay(world, dry, server, items, events, run.Abstract());
    ImportCounts.AllQuiet(world, server, items, gone, |items|);
    assert |multiset(run.notes)| == |run.notes| && |multiset(run.skipped)| == |run.skipped|;
    assert run.Abstract().tally == run.Counted();
  }
}
