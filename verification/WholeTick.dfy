/** One whole tick, from the counters to the queued commands: whom it freezes. */
module WholeTick {
  import opened Data
  import opened UserStats
  import opened Restriction
  import opened CommandQueue
  import opened Registry
  import opened AccountTables
  import opened TickGenerator
  import opened Fairness
  import TidTable
  import Overcharge
  import Rounding

  /** The tables' histories stay those of the governor's run, tick by tick. */
  lemma TickInStep(users: map<Name, Record>, users': map<Name, Record>, events: seq<Overcharge.Event>, clockTicks: nat,
                   now: real, clocks: map<Name, real>)
    requires 0 < clockTicks && HistsOf(users) == Overcharge.Run(events, clockTicks).hists
    requires HistsOf(users')
             == Recorded(HistsOf(users), TidTable.Samples(Overcharge.Run(events, clockTicks).tables.counters, now,
                                                          clockTicks))
    ensures HistsOf(users') == Overcharge.Run(events + [Overcharge.Tick(now, clocks)], clockTicks).hists
  {
    assert (events + [Overcharge.Tick(now, clocks)])[..|events|] == events;
  }

  lemma UsageOfRecords(cfg: Config, users: map<Name, Record>, names: seq<Name>)
    requires Intervals(cfg) && forall n :: n in names ==> n in users
    ensures SumUsages(Parts(names, PartMap(cfg, users))) == UsageOf(cfg, HistsOf(users), names)
  {
    PartMapOfHistories(cfg, users);
  }

  /** The step that a whole tick lets an account take is the tick with its users' usage. */
  lemma JudgedIsTick(cfg: Config, inputs: Name -> Input, before: map<Name, Acc>, members: map<Name, seq<Name>>,
                     users: map<Name, Record>, states: map<Name, Acc>, order: seq<Name>, start: Queue, end: Queue,
                     a: Name)
    requires Intervals(cfg) && a in members
    requires Judged(cfg, inputs, before, members, PartMap(cfg, users), states, order, start, end)
    ensures a in states && members[a] != [] && forall n :: n in members[a] ==> n in users
    ensures var usage := UsageOf(cfg, HistsOf(users), members[a]);
            var o := Restriction.Step(cfg, inputs(a).sl, StateOf(before, a), Restriction.Tick(usage, inputs(a).r));
            && states[a] == o.acc
            && Ticked(cfg, inputs(a).sl, SummedStates(before, members, PartMap(cfg, users))[a], inputs(a).r) == o
  {
    var part := PartMap(cfg, users);
    UsageOfRecords(cfg, users, members[a]);
    TickIsStep(cfg, inputs(a).sl, StateOf(before, a), members[a], part, inputs(a).r);
  }

  lemma BatchForOne(cfg: Config, names: seq<Name>, out: seq<Kind>, c: Command)
    requires c in BatchFor(cfg, names, out) && c.kind == FREEZE && |out| <= 1
    ensures FREEZE in out && c.username in names
  {
    assert out[1..] == [];
    var kind := out[0];
    var batch := if kind == FREEZE then FreezeBatch(cfg, names) else UnfreezeBatch(cfg, names);
    assert BatchFor(cfg, names, out) == batch + [];
    var k :| 0 <= k < |batch| && batch[k] == c;
    assert names[k] in names;
  }

  lemma TickedOnce(cfg: Config, sl: Limits, st: Acc, r: Readings)
    ensures |Ticked(cfg, sl, st, r).out| <= 1
  {
  }

  /** A FREEZE among the queued batches is addressed to a user of an account that the tick restricted. */
  lemma {:induction false} FreezeHasAccount(cfg: Config, inputs: Name -> Input, states: map<Name, Acc>,
                                            members: map<Name, seq<Name>>, order: seq<Name>, c: Command)
    returns (a: Name)
    requires AllIn(order, states, members)
    requires c in Batches(cfg, inputs, states, members, order) && c.kind == FREEZE
    ensures a in members && a in states && c.username in members[a]
    ensures FREEZE in Ticked(cfg, inputs(a).sl, states[a], inputs(a).r).out
    decreases |order|
  {
    var k := |order| - 1;
    a := order[k];
    var out := Ticked(cfg, inputs(a).sl, states[a], inputs(a).r).out;
    if c in BatchFor(cfg, members[a], out) {
      TickedOnce(cfg, inputs(a).sl, states[a], inputs(a).r);
      BatchForOne(cfg, members[a], out, c);
    } else {
      a := FreezeHasAccount(cfg, inputs, states, members, order[..k], c);
    }
  }

  /** Every FREEZE that a whole tick queues is addressed to a user of an account whose threads consumed,
      within one of the windows, more than the limit for that window allows. */
  lemma QueuedFreezeMeansConsumed(cfg: Config, inputs: Name -> Input, before: map<Name, Acc>,
                                  members: map<Name, seq<Name>>, users: map<Name, Record>, states: map<Name, Acc>,
                                  order: seq<Name>, start: Queue, end: Queue,
                                  events: seq<Overcharge.Event>, clockTicks: nat, c: Command)
    returns (a: Name)
    requires 0 < clockTicks && Intervals(cfg)
    requires Judged(cfg, inputs, before, members, PartMap(cfg, users), states, order, start, end)
    requires HistsOf(users) == Overcharge.Run(events, clockTicks).hists
    requires start.emitted <= end.emitted && c in end.emitted[|start.emitted|..] && c.kind == FREEZE
    ensures a in members && c.username in members[a] && forall n :: n in members[a] ==> n in HistsOf(users)
    ensures var sl := inputs(a).sl;
            var (period, field) := Cause(UsageOf(cfg, HistsOf(users), members[a]), sl);
            TrulyOver(LimitOf(sl, period), field, Rounding.Window(cfg, period), events, members[a], clockTicks)
  {
    var summed := SummedStates(before, members, PartMap(cfg, users));
    assert end.emitted[|start.emitted|..] == Batches(cfg, inputs, summed, members, order);
    a := FreezeHasAccount(cfg, inputs, summed, members, order, c);
    JudgedIsTick(cfg, inputs, before, members, users, states, order, start, end, a);
    FrozenMeansConsumed(cfg, inputs(a).sl, events, clockTicks, members[a], StateOf(before, a), inputs(a).r);
  }
}
