/** Accounts, the command queue and the bad list, put together. */
module Agreement {
  import opened Data
  import BadList
  import CommandQueue
  import R = Restriction
  import LimitMode
  import PeriodMode

  /** An account's users and limits do not change during a run. */
  datatype Info = Info(users: seq<Name>, limits: R.Limits)

  type Layout = map<Name, Info>

  datatype System = System(
    accounts: map<Name, R.Acc>,
    queue: CommandQueue.Queue,
    list: seq<BadList.Item>,
    open: seq<Command>)          // what is still to be appended of the batch of one account

  datatype Event =
    // a tick reaching one account, or a dbctl command matching one; it holds the lock of the accounts
    // until its batch is appended, so that it waits while another batch is open
    | OnAccount(id: Name, event: R.Event)
    // the next command of the open batch is appended
    | AppendOne
    // the main loop starts a batch; no command is appended while it copies and clears the list
    | StartBatch
    // the sending thread handles one element; uid is what the dbuser map answers for its user
    | SendOne(uid: int)
    | EndBatch

  function AllUsers(layout: Layout): set<Name> {
    set id, u | id in layout && u in layout[id].users :: u
  }

  /** No user belongs to two accounts, and the bad list has room for every user. */
  ghost predicate WellLaid(layout: Layout) {
    && (forall a, b, u :: a in layout && b in layout && u in layout[a].users && u in layout[b].users ==> a == b)
    && |AllUsers(layout)| < BadList.MAX_ITEMS_IN_TABLE
  }

  function Start(layout: Layout): System {
    System(map id | id in layout :: R.FRESH, CommandQueue.START, [], [])
  }

  ghost predicate Shaped(layout: Layout, s: System) {
    s.accounts.Keys == layout.Keys && s.queue.Valid()
  }

  function Step(cfg: Config, layout: Layout, s: System, e: Event): (t: System)
    requires Shaped(layout, s)
    ensures Shaped(layout, t)
  {
    match e
    case OnAccount(id, event) =>
      if id !in layout || s.open != [] then s
      else
        var o := R.Step(cfg, layout[id].limits, s.accounts[id], event);
        s.(accounts := s.accounts[id := o.acc], open := CommandQueue.BatchFor(cfg, layout[id].users, o.out))
    case AppendOne =>
      if s.open == [] then s
      else s.(queue := CommandQueue.Step(s.queue, CommandQueue.Emit([s.open[0]])), open := s.open[1..])
    case StartBatch => s.(queue := CommandQueue.Step(s.queue, CommandQueue.Cycle([])))
    case SendOne(uid) =>
      var node := if s.queue.next < |s.queue.commandListSend| then s.queue.commandListSend[s.queue.next] else None;
      s.(queue := CommandQueue.Step(s.queue, CommandQueue.Deliver),
         list := if node.Some? then CommandQueue.Executed(cfg, s.list, node.value, uid) else s.list)
    case EndBatch => s.(queue := CommandQueue.Step(s.queue, CommandQueue.Finish))
  }

  function Run(cfg: Config, layout: Layout, events: seq<Event>): (s: System)
    ensures Shaped(layout, s)
  {
    if events == [] then Start(layout) else Step(cfg, layout, Run(cfg, layout, events[..|events| - 1]),
          events[|events| - 1])
  }

  // ----- The last word on a user -----

  /** The last command addressed to the user is a FREEZE. */
  predicate Frozen(cs: seq<Command>, u: Name) {
    cs != [] && if cs[|cs| - 1].username == u then cs[|cs| - 1].kind == FREEZE else Frozen(cs[..|cs| - 1], u)
  }

  lemma {:induction false} FrozenBatch(cs: seq<Command>, users: seq<Name>, kind: Kind, u: Name)
    ensures Frozen(cs + CommandQueue.Addressed(users, kind), u)
            <==> if u in users then kind == FREEZE else Frozen(cs, u)
  {
    var batch := CommandQueue.Addressed(users, kind);
    if users == [] {
      assert cs + batch == cs;
    } else {
      var k := |users| - 1;
      assert (cs + batch)[..|cs| + k] == cs + CommandQueue.Addressed(users[..k], kind);
      FrozenBatch(cs, users[..k], kind, u);
      assert users == users[..k] + [users[k]];
    }
  }

  // ----- The bad list follows the delivered commands -----

  ghost predicate ListFollows(layout: Layout, s: System)
    requires s.queue.Valid()
  {
    && BadList.WellFormed(s.list)
    && BadList.Names(s.list) <= AllUsers(layout)
    && (forall u :: u in BadList.Names(s.list) <==> Frozen(s.queue.delivered, u))
    && s.queue.emitted == s.queue.Accounted()
    && (forall c :: c in s.queue.emitted ==> c.username in AllUsers(layout))
  }

  /** The open batch is addressed to users of the accounts. */
  ghost predicate OpenAddressed(layout: Layout, s: System) {
    forall c :: c in s.open ==> c.username in AllUsers(layout)
  }

  lemma {:induction false} ListSize(list: seq<BadList.Item>)
    requires BadList.Distinct(list)
    ensures |BadList.Names(list)| == |list|
  {
    BadList.MapKeys(list);
    BadList.MapSize(list);
    assert |BadList.AsMap(list).Keys| == |BadList.AsMap(list)|;
  }

  lemma SubsetSize(a: set<Name>, b: set<Name>, x: Name)
    requires a <= b && x in b && x !in a
    ensures |a| < |b|
  {
    Smaller(a, b - {x});
  }

  lemma {:induction false} Smaller(a: set<Name>, b: set<Name>)
    requires a <= b
    ensures |a| <= |b|
  {
    if a != {} {
      var y :| y in a;
      Smaller(a - {y}, b - {y});
    }
  }

  /** Executing one command makes the user's entry agree with it: the list never refuses. */
  lemma ExecutedFollows(cfg: Config, layout: Layout, list: seq<BadList.Item>, c: Command, uid: int)
    requires cfg.useLve && WellLaid(layout)
    requires BadList.WellFormed(list) && BadList.Names(list) <= AllUsers(layout)
    requires c.username in AllUsers(layout)
    ensures BadList.WellFormed(CommandQueue.Executed(cfg, list, c, uid))
    ensures BadList.Names(CommandQueue.Executed(cfg, list, c, uid))
            == if c.kind == FREEZE then BadList.Names(list) + {c.username} else BadList.Names(list) - {c.username}
  {
    if c.kind == FREEZE {
      RoomForUser(layout, list, c.username);
      BadList.AddedWellFormed(list, c.username, uid);
      BadList.NamesConcat(list, [BadList.Item(c.username, uid)]);
      NamesOfOne(c.username, uid);
    } else {
      BadList.MapWithout(list, c.username);
      BadList.WithoutNames(list, c.username);
    }
  }

  lemma NamesOfOne(u: Name, uid: int)
    ensures BadList.Names([BadList.Item(u, uid)]) == {u}
  {
    assert BadList.Item(u, uid) in [BadList.Item(u, uid)];
  }

  lemma RoomForUser(layout: Layout, list: seq<BadList.Item>, u: Name)
    requires WellLaid(layout)
    requires BadList.WellFormed(list) && BadList.Names(list) <= AllUsers(layout) && u in AllUsers(layout)
    ensures u in BadList.Names(list) || |list| + 1 < BadList.MAX_ITEMS_IN_TABLE
  {
    if u !in BadList.Names(list) {
      ListSize(list);
      SubsetSize(BadList.Names(list), AllUsers(layout), u);
    }
  }

  lemma BatchUsers(cfg: Config, layout: Layout, id: Name, out: seq<Kind>)
    requires cfg.Throttling() && id in layout && |out| <= 1
    ensures CommandQueue.BatchFor(cfg, layout[id].users, out)
            == if out == [] then [] else CommandQueue.Addressed(layout[id].users, out[0])
    ensures forall c :: c in CommandQueue.BatchFor(cfg, layout[id].users, out) ==> c.username in AllUsers(layout)
  {
    if out != [] {
      assert out[1..] == [];
      var users := layout[id].users;
      var batch := CommandQueue.Addressed(users, out[0]);
      assert CommandQueue.BatchFor(cfg, users, out) == batch + [];
      forall c | c in batch ensures c.username in AllUsers(layout) {
        var k :| 0 <= k < |batch| && batch[k] == c;
        assert users[k] in users;
      }
    }
  }

  lemma EmitFollows(cfg: Config, layout: Layout, s: System, cs: seq<Command>)
    requires s.queue.Valid() && ListFollows(layout, s)
    requires forall c :: c in cs ==> c.username in AllUsers(layout)
    ensures ListFollows(layout, s.(queue := CommandQueue.Step(s.queue, CommandQueue.Emit(cs))))
  {
    CommandQueue.StepConserves(s.queue, CommandQueue.Emit(cs));
  }

  lemma NextIsEmitted(q: CommandQueue.Queue)
    requires q.Valid() && q.emitted == q.Accounted()
    requires q.next < |q.commandListSend| && q.commandListSend[q.next].Some?
    ensures q.commandListSend[q.next].value in q.emitted
  {
    var rest := q.commandListSend[q.next..];
    assert rest[0] == q.commandListSend[q.next];
    assert rest[0].value in q.InFlight();
  }

  lemma SendFollows(cfg: Config, layout: Layout, s: System, uid: int)
    requires cfg.Throttling() && WellLaid(layout) && Shaped(layout, s) && ListFollows(layout, s)
    ensures ListFollows(layout, Step(cfg, layout, s, SendOne(uid)))
  {
    var q := s.queue;
    CommandQueue.StepConserves(q, CommandQueue.Deliver);
    if q.next < |q.commandListSend| && q.commandListSend[q.next].Some? {
      var c := q.commandListSend[q.next].value;
      NextIsEmitted(q);
      ExecutedFollows(cfg, layout, s.list, c, uid);
      var d := q.delivered + [c];
      assert d[..|q.delivered|] == q.delivered;
    } else {
      assert q.delivered + [] == q.delivered;
    }
  }

  /** A step of an account queues at most one batch, in either mode. */
  lemma OneBatchAtMost(cfg: Config, sl: R.Limits, a: R.Acc, e: R.Event)
    ensures |R.Step(cfg, sl, a, e).out| <= 1
  {
  }

  lemma StepFollows(cfg: Config, layout: Layout, s: System, e: Event)
    requires cfg.Throttling() && WellLaid(layout) && Shaped(layout, s) && ListFollows(layout, s)
    requires OpenAddressed(layout, s)
    ensures ListFollows(layout, Step(cfg, layout, s, e)) && OpenAddressed(layout, Step(cfg, layout, s, e))
  {
    match e
    case OnAccount(id, event) =>
      if id in layout {
        OneBatchAtMost(cfg, layout[id].limits, s.accounts[id], event);
        var o := R.Step(cfg, layout[id].limits, s.accounts[id], event);
        BatchUsers(cfg, layout, id, o.out);
      }
    case AppendOne =>
      if s.open != [] {
        assert s.open[0] in s.open;
        EmitFollows(cfg, layout, s, [s.open[0]]);
      }
    case StartBatch => CommandQueue.StepConserves(s.queue, CommandQueue.Cycle([]));
    case SendOne(uid) => SendFollows(cfg, layout, s, uid);
    case EndBatch => CommandQueue.StepConserves(s.queue, CommandQueue.Finish);
  }

  /** In every run, in either mode and whatever the window: a user is in the bad list if and only if the
      last command delivered for it is a FREEZE, and every command emitted is delivered, in flight or
      pending. */
  lemma {:induction false} ListFollowsDelivery(cfg: Config, layout: Layout, events: seq<Event>)
    requires cfg.Throttling() && WellLaid(layout)
    ensures ListFollows(layout, Run(cfg, layout, events)) && OpenAddressed(layout, Run(cfg, layout, events))
  {
    if events != [] {
      var prefix := events[..|events| - 1];
      ListFollowsDelivery(cfg, layout, prefix);
      StepFollows(cfg, layout, Run(cfg, layout, prefix), events[|events| - 1]);
    }
  }

  // ----- The stored container ids -----

  /** Every element is sent with the uid that the dbuser map has for its user. */
  ghost predicate TrueUids(cfg: Config, layout: Layout, events: seq<Event>, uidOf: Name -> int) {
    forall i :: 0 <= i < |events| ==> TrueUid(Run(cfg, layout, events[..i]), events[i], uidOf)
  }

  predicate TrueUid(s: System, e: Event, uidOf: Name -> int) {
    e.SendOne? && s.queue.next < |s.queue.commandListSend| && s.queue.commandListSend[s.queue.next].Some? ==>
      e.uid == uidOf(s.queue.commandListSend[s.queue.next].value.username)
  }

  ghost predicate UidsFollow(list: seq<BadList.Item>, uidOf: Name -> int) {
    forall u :: u in BadList.AsMap(list) ==> BadList.AsMap(list)[u] == uidOf(u)
  }

  lemma StepKeepsUids(cfg: Config, layout: Layout, s: System, e: Event, uidOf: Name -> int)
    requires cfg.useLve && Shaped(layout, s) && BadList.WellFormed(s.list) && TrueUid(s, e, uidOf)
    requires UidsFollow(s.list, uidOf)
    ensures UidsFollow(Step(cfg, layout, s, e).list, uidOf)
  {
    if e.SendOne? && s.queue.next < |s.queue.commandListSend| && s.queue.commandListSend[s.queue.next].Some? {
      CommandQueue.ExecutedMap(cfg, s.list, s.queue.commandListSend[s.queue.next].value, e.uid);
    }
  }

  lemma {:induction false} UidsAlwaysFollow(cfg: Config, layout: Layout, events: seq<Event>, uidOf: Name -> int)
    requires cfg.Throttling() && WellLaid(layout) && TrueUids(cfg, layout, events, uidOf)
    ensures UidsFollow(Run(cfg, layout, events).list, uidOf)
  {
    if events != [] {
      var n := |events| - 1;
      forall i | 0 <= i < n ensures TrueUid(Run(cfg, layout, events[..n][..i]), events[..n][i], uidOf) {
        assert events[..n][..i] == events[..i];
      }
      UidsAlwaysFollow(cfg, layout, events[..n], uidOf);
      ListFollowsDelivery(cfg, layout, events[..n]);
      StepKeepsUids(cfg, layout, Run(cfg, layout, events[..n]), events[n], uidOf);
    }
  }

  /** What a client finds, at any point of any run in either mode: the uid of the dbuser map for a user
      whose last delivered command is FREEZE, and 0 for everyone else. */
  lemma ClientFindsUid(cfg: Config, layout: Layout, events: seq<Event>, uidOf: Name -> int, u: Name)
    requires cfg.Throttling() && WellLaid(layout) && TrueUids(cfg, layout, events, uidOf)
    ensures var s := Run(cfg, layout, events);
            BadList.Lookup(s.list, u) == if Frozen(s.queue.delivered, u) then uidOf(u) else 0
  {
    var s := Run(cfg, layout, events);
    UidsAlwaysFollow(cfg, layout, events, uidOf);
    ListFollowsDelivery(cfg, layout, events);
    BadList.LookupIsMap(s.list, u);
    BadList.MapKeys(s.list);
  }

  // ----- The emitted commands follow the accounts -----

  /** Everything said so far: the appended commands, and those of the open batch. */
  function Said(s: System): seq<Command> {
    s.queue.emitted + s.open
  }

  lemma SaidKept(cfg: Config, layout: Layout, s: System, e: Event)
    requires Shaped(layout, s)
    requires e.OnAccount? ==> e.id !in layout || s.open != []
    ensures Said(Step(cfg, layout, s, e)) == Said(s) && Step(cfg, layout, s, e).accounts == s.accounts
  {
    assert s.queue.emitted + [] == s.queue.emitted;
    if e.AppendOne? && s.open != [] {
      assert s.queue.emitted + [s.open[0]] + s.open[1..] == s.queue.emitted + s.open;
    }
  }

  ghost predicate EmissionFollows(layout: Layout, s: System)
    requires Shaped(layout, s)
  {
    forall id, u :: id in layout && u in layout[id].users ==>
      (Frozen(Said(s), u) <==> s.accounts[id].restricted != 0)
  }

  lemma AccountStepFollows(cfg: Config, layout: Layout, s: System, id: Name, event: R.Event)
    requires LimitMode.LimitConfig(cfg) && 0 < cfg.lUnlimit && WellLaid(layout) && id in layout && s.open == []
    requires Shaped(layout, s) && EmissionFollows(layout, s) && LimitMode.TwoStates(cfg, s.accounts[id])
    ensures EmissionFollows(layout, Step(cfg, layout, s, OnAccount(id, event)))
    ensures LimitMode.TwoStates(cfg, Step(cfg, layout, s, OnAccount(id, event)).accounts[id])
  {
    var t := Step(cfg, layout, s, OnAccount(id, event));
    var o := R.Step(cfg, layout[id].limits, s.accounts[id], event);
    LimitMode.BatchTells(cfg, layout[id].limits, s.accounts[id], event);
    BatchUsers(cfg, layout, id, o.out);
    assert Said(s) == s.queue.emitted;
    forall other, u | other in layout && u in layout[other].users
      ensures Frozen(Said(t), u) <==> t.accounts[other].restricted != 0
    {
      assert Frozen(Said(s), u) <==> s.accounts[other].restricted != 0;
      if o.out != [] {
        FrozenBatch(s.queue.emitted, layout[id].users, o.out[0], u);
      }
    }
  }

  /** With a nonzero window, over every run: the last FREEZE or UNFREEZE for a user, over what is
      delivered, in flight, pending and still to be appended, says whether its account is restricted. */
  lemma LastCommandTells(cfg: Config, layout: Layout, events: seq<Event>)
    requires LimitMode.LimitConfig(cfg) && 0 < cfg.lUnlimit && WellLaid(layout)
    ensures var s := Run(cfg, layout, events);
            forall id, u :: id in layout && u in layout[id].users ==>
              (Frozen(s.queue.delivered + s.queue.InFlight() + s.queue.Pending() + s.open, u)
               <==> s.accounts[id].restricted != 0)
  {
    EmissionAlwaysFollows(cfg, layout, events);
    ListFollowsDelivery(cfg, layout, events);
    var s := Run(cfg, layout, events);
    var told := s.queue.delivered + s.queue.InFlight() + s.queue.Pending() + s.open;
    assert told == Said(s);
    forall id, u | id in layout && u in layout[id].users
      ensures Frozen(told, u) <==> s.accounts[id].restricted != 0
    {
      assert Frozen(Said(s), u) <==> s.accounts[id].restricted != 0;
    }
  }

  lemma {:induction false} EmissionAlwaysFollows(cfg: Config, layout: Layout, events: seq<Event>)
    requires LimitMode.LimitConfig(cfg) && 0 < cfg.lUnlimit && WellLaid(layout)
    ensures EmissionFollows(layout, Run(cfg, layout, events))
    ensures forall id :: id in layout ==> LimitMode.TwoStates(cfg, Run(cfg, layout, events).accounts[id])
  {
    if events != [] {
      var prefix, e := events[..|events| - 1], events[|events| - 1];
      EmissionAlwaysFollows(cfg, layout, prefix);
      var s := Run(cfg, layout, prefix);
      if e.OnAccount? && e.id in layout && s.open == [] {
        AccountStepFollows(cfg, layout, s, e.id, e.event);
      } else {
        SaidKept(cfg, layout, s, e);
      }
    }
  }

  // ----- The drained queue -----

  /** No batch is open, in flight or pending. */
  predicate Drained(s: System)
    requires s.queue.Valid()
  {
    s.open == [] && s.queue.InFlight() == [] && s.queue.Pending() == []
  }

  ghost predicate Agrees(layout: Layout, s: System)
    requires Shaped(layout, s)
  {
    forall id, u :: id in layout && u in layout[id].users ==>
      (u in BadList.Names(s.list) <==> s.accounts[id].restricted != 0)
  }

  /** Whenever the queue is drained, the bad list holds exactly the users of restricted accounts. */
  lemma DrainedAgreement(cfg: Config, layout: Layout, events: seq<Event>)
    requires LimitMode.LimitConfig(cfg) && 0 < cfg.lUnlimit && WellLaid(layout)
    requires Drained(Run(cfg, layout, events))
    ensures Agrees(layout, Run(cfg, layout, events))
    ensures var s := Run(cfg, layout, events);
            BadList.Names(s.list)
            == set id, u | id in layout && s.accounts[id].restricted != 0 && u in layout[id].users :: u
  {
    var s := Run(cfg, layout, events);
    LastCommandTells(cfg, layout, events);
    ListFollowsDelivery(cfg, layout, events);
    assert s.queue.delivered + s.queue.InFlight() + s.queue.Pending() + s.open == s.queue.delivered;
    assert forall u :: u in BadList.Names(s.list) ==> u in AllUsers(layout);
  }

  /** Once the queue is drained: a client finds the uid of the dbuser map for the users of restricted
      accounts, and 0 for all others. */
  lemma DrainedClients(cfg: Config, layout: Layout, events: seq<Event>, uidOf: Name -> int, id: Name, u: Name)
    requires LimitMode.LimitConfig(cfg) && 0 < cfg.lUnlimit && WellLaid(layout)
    requires TrueUids(cfg, layout, events, uidOf) && Drained(Run(cfg, layout, events))
    requires id in layout && u in layout[id].users
    ensures var s := Run(cfg, layout, events);
            BadList.Lookup(s.list, u) == if s.accounts[id].restricted != 0 then uidOf(u) else 0
  {
    ClientFindsUid(cfg, layout, events, uidOf, u);
    ListFollowsDelivery(cfg, layout, events);
    DrainedAgreement(cfg, layout, events);
  }

  // ----- Draining -----

  function RunFrom(cfg: Config, layout: Layout, s: System, events: seq<Event>): (t: System)
    requires Shaped(layout, s)
    ensures Shaped(layout, t)
    decreases |events|
  {
    if events == [] then s else RunFrom(cfg, layout, Step(cfg, layout, s, events[0]), events[1..])
  }

  lemma {:induction false} RunConcat(cfg: Config, layout: Layout, events: seq<Event>, more: seq<Event>)
    ensures Run(cfg, layout, events + more) == RunFrom(cfg, layout, Run(cfg, layout, events), more)
    decreases |more|
  {
    if more == [] {
      assert events + more == events;
    } else {
      assert events + more == (events + [more[0]]) + more[1..];
      RunConcat(cfg, layout, events + [more[0]], more[1..]);
      assert (events + [more[0]])[..|events|] == events;
    }
  }

  function Sends(n: nat): seq<Event> {
    seq(n, i => SendOne(BAD_LVE))
  }

  lemma {:induction false} RunFromConcat(cfg: Config, layout: Layout, s: System, a: seq<Event>, b: seq<Event>)
    requires Shaped(layout, s)
    ensures RunFrom(cfg, layout, s, a + b) == RunFrom(cfg, layout, RunFrom(cfg, layout, s, a), b)
    decreases |a|
  {
    if a == [] {
      assert a + b == b;
    } else {
      assert (a + b)[1..] == a[1..] + b;
      RunFromConcat(cfg, layout, Step(cfg, layout, s, a[0]), a[1..], b);
    }
  }

  /** Sending what is left of a batch reaches the end of it and touches neither accounts nor the
      pending commands. */
  lemma {:induction false} SendAll(cfg: Config, layout: Layout, s: System, n: nat)
    requires Shaped(layout, s) && n == |s.queue.commandListSend| - s.queue.next
    ensures var t := RunFrom(cfg, layout, s, Sends(n));
            && t.accounts == s.accounts && t.open == s.open
            && t.queue.next == |t.queue.commandListSend| && t.queue.commandList == s.queue.commandList
    decreases n
  {
    if n > 0 {
      assert Sends(n)[0] == SendOne(BAD_LVE) && Sends(n)[1..] == Sends(n - 1);
      SendAll(cfg, layout, Step(cfg, layout, s, SendOne(BAD_LVE)), n - 1);
    }
  }

  /** One idle batch that is started and sent to its end leaves nothing anywhere. */
  lemma OneMoreBatch(cfg: Config, layout: Layout, t: System) returns (more: seq<Event>)
    requires Shaped(layout, t) && t.open == [] && t.queue.next == |t.queue.commandListSend|
    ensures Drained(RunFrom(cfg, layout, t, more))
    ensures RunFrom(cfg, layout, t, more).accounts == t.accounts
    ensures forall e :: e in more ==> !e.OnAccount?
  {
    var ended := Step(cfg, layout, t, EndBatch);
    var started := Step(cfg, layout, ended, StartBatch);
    CommandQueue.CycleMovesPending(ended.queue, []);
    var m := |started.queue.commandListSend|;
    SendAll(cfg, layout, started, m);
    CommandQueue.SentMeansNothingInFlight(RunFrom(cfg, layout, started, Sends(m)).queue);
    more := [EndBatch, StartBatch] + Sends(m);
    assert more[0] == EndBatch && more[1..][0] == StartBatch && more[1..][1..] == Sends(m);
    assert RunFrom(cfg, layout, t, more) == RunFrom(cfg, layout, ended, more[1..]);
    assert RunFrom(cfg, layout, ended, more[1..]) == RunFrom(cfg, layout, started, Sends(m));
  }

  function Appends(n: nat): seq<Event> {
    seq(n, i => AppendOne)
  }

  /** The open batch comes to its end. */
  lemma {:induction false} AppendAll(cfg: Config, layout: Layout, s: System, n: nat)
    requires Shaped(layout, s) && n == |s.open|
    ensures var t := RunFrom(cfg, layout, s, Appends(n)); t.open == [] && t.accounts == s.accounts
    decreases n
  {
    if n > 0 {
      assert Appends(n)[0] == AppendOne && Appends(n)[1..] == Appends(n - 1);
      AppendAll(cfg, layout, Step(cfg, layout, s, AppendOne), n - 1);
    }
  }

  /** If nothing more happens to the accounts, the open batch, the running one and one more drain the
      queue, from any state, and leave the accounts as they are. */
  lemma QueueDrains(cfg: Config, layout: Layout, s: System) returns (more: seq<Event>)
    requires Shaped(layout, s)
    ensures Drained(RunFrom(cfg, layout, s, more))
    ensures RunFrom(cfg, layout, s, more).accounts == s.accounts
    ensures forall e :: e in more ==> !e.OnAccount?
  {
    AppendAll(cfg, layout, s, |s.open|);
    var a := RunFrom(cfg, layout, s, Appends(|s.open|));
    var n := |a.queue.commandListSend| - a.queue.next;
    SendAll(cfg, layout, a, n);
    var tail := OneMoreBatch(cfg, layout, RunFrom(cfg, layout, a, Sends(n)));
    RunFromConcat(cfg, layout, a, Sends(n), tail);
    RunFromConcat(cfg, layout, s, Appends(|s.open|), Sends(n) + tail);
    more := Appends(|s.open|) + (Sends(n) + tail);
  }

  /** Without a window a drained queue may leave a user listed whose account is not restricted. */
  lemma NoWindowNoAgreement(cfg: Config, layout: Layout, id: Name) returns (events: seq<Event>)
    requires LimitMode.LimitConfig(cfg) && cfg.lUnlimit == 0 && WellLaid(layout)
    requires id in layout && layout[id].users != []
    ensures Drained(Run(cfg, layout, events)) && !Agrees(layout, Run(cfg, layout, events))
  {
    var start := SilentAccount(cfg, layout, id);
    var s := Run(cfg, layout, start);
    var more := QueueDrains(cfg, layout, s);
    events := start + more;
    RunConcat(cfg, layout, start, more);
    ListFollowsDelivery(cfg, layout, events);
    SaidUnchanged(cfg, layout, s, more);
    var t := Run(cfg, layout, events);
    assert t.queue.Accounted() == t.queue.delivered && Said(t) == t.queue.delivered;
    assert layout[id].users[0] in BadList.Names(t.list) && t.accounts[id].restricted == 0;
  }

  lemma RunNext(cfg: Config, layout: Layout, events: seq<Event>, e: Event)
    ensures Run(cfg, layout, events + [e]) == Step(cfg, layout, Run(cfg, layout, events), e)
  {
    assert (events + [e])[..|events|] == events;
  }

  /** dbctl restrict, then dbctl unrestrict of everyone: the account is free, its users are told FREEZE. */
  lemma SilentAccount(cfg: Config, layout: Layout, id: Name) returns (start: seq<Event>)
    requires LimitMode.LimitConfig(cfg) && cfg.lUnlimit == 0
    requires id in layout && layout[id].users != []
    ensures Run(cfg, layout, start).accounts[id].restricted == 0
    ensures Frozen(Said(Run(cfg, layout, start)), layout[id].users[0])
  {
    var r := R.Readings(1, 1, 1, 1);
    var on, off := OnAccount(id, R.Restrict(-1, r)), OnAccount(id, R.UnrestrictAll(r));
    RunNext(cfg, layout, [], on);
    assert [] + [on] == [on];
    var one := Run(cfg, layout, [on]);
    RestrictSays(cfg, layout, id, r);
    var appends := QueueDrains(cfg, layout, one);
    RunConcat(cfg, layout, [on], appends);
    SaidUnchanged(cfg, layout, one, appends);
    start := [on] + appends + [off];
    RunNext(cfg, layout, [on] + appends, off);
    SilentStep(cfg, layout, Run(cfg, layout, [on] + appends), id, r);
  }

  lemma RestrictSays(cfg: Config, layout: Layout, id: Name, r: R.Readings)
    requires LimitMode.LimitConfig(cfg) && cfg.lUnlimit == 0
    requires id in layout && layout[id].users != []
    ensures var t := Step(cfg, layout, Start(layout), OnAccount(id, R.Restrict(-1, r)));
            t.accounts[id].timeout == 0 && Frozen(Said(t), layout[id].users[0])
  {
    var t := Step(cfg, layout, Start(layout), OnAccount(id, R.Restrict(-1, r)));
    BatchUsers(cfg, layout, id, [FREEZE]);
    FrozenBatch([], layout[id].users, FREEZE, layout[id].users[0]);
    assert Said(t) == [] + CommandQueue.Addressed(layout[id].users, FREEZE);
  }

  lemma SilentStep(cfg: Config, layout: Layout, s: System, id: Name, r: R.Readings)
    requires Shaped(layout, s) && id in layout && s.open == [] && s.accounts[id].timeout == 0
    ensures var t := Step(cfg, layout, s, OnAccount(id, R.UnrestrictAll(r)));
            t.accounts[id].restricted == 0 && Said(t) == Said(s)
  {
  }

  lemma {:induction false} SaidUnchanged(cfg: Config, layout: Layout, s: System, more: seq<Event>)
    requires Shaped(layout, s) && forall e :: e in more ==> !e.OnAccount?
    ensures Said(RunFrom(cfg, layout, s, more)) == Said(s)
    decreases |more|
  {
    if more != [] {
      assert forall e :: e in more[1..] ==> e in more;
      assert more[0] in more;
      SaidKept(cfg, layout, s, more[0]);
      SaidUnchanged(cfg, layout, Step(cfg, layout, s, more[0]), more[1..]);
    }
  }

  /** The end-to-end theorem: every run that drains the queue leaves the bad list agreeing with the
      accounts, if and only if the configuration has a nonzero unlimit window. */
  lemma AgreementIffWindow(cfg: Config, layout: Layout, id: Name)
    requires LimitMode.LimitConfig(cfg) && WellLaid(layout)
    requires id in layout && layout[id].users != []
    ensures 0 < cfg.lUnlimit <==>
            forall events :: Drained(Run(cfg, layout, events)) ==> Agrees(layout, Run(cfg, layout, events))
  {
    if 0 < cfg.lUnlimit {
      forall events | Drained(Run(cfg, layout, events)) ensures Agrees(layout, Run(cfg, layout, events)) {
        DrainedAgreement(cfg, layout, events);
      }
    } else {
      var events := NoWindowNoAgreement(cfg, layout, id);
    }
  }

  // ----- Period mode -----

  /** What happens to one account in a run of the whole system; an event that had to wait did not happen. */
  function EventsOf(cfg: Config, layout: Layout, events: seq<Event>, id: Name): seq<R.Event> {
    if events == [] then []
    else
      var prefix, e := events[..|events| - 1], events[|events| - 1];
      EventsOf(cfg, layout, prefix, id) + EventOf(layout, Run(cfg, layout, prefix), e, id)
  }

  function EventOf(layout: Layout, s: System, e: Event, id: Name): seq<R.Event> {
    if e.OnAccount? && e.id == id && s.open == [] then [e.event] else []
  }

  lemma RunsNext(cfg: Config, sl: R.Limits, events: seq<R.Event>, next: seq<R.Event>)
    requires |next| <= 1
    ensures next == [] ==> events + next == events
    ensures next != [] ==>
              var s := R.Step(cfg, sl, R.Run(cfg, sl, events), next[0]);
              && R.Run(cfg, sl, events + next) == s.acc
              && R.Sent(cfg, sl, events + next) == R.Sent(cfg, sl, events) + s.out
  {
    if next != [] {
      assert (events + next)[..|events|] == events;
    }
  }

  lemma AccountStep(cfg: Config, layout: Layout, s: System, e: Event, id: Name, own: seq<R.Event>)
    requires Shaped(layout, s) && id in layout && s.accounts[id] == R.Run(cfg, layout[id].limits, own)
    ensures Step(cfg, layout, s, e).accounts[id] == R.Run(cfg, layout[id].limits, own + EventOf(layout, s, e, id))
  {
    RunsNext(cfg, layout[id].limits, own, EventOf(layout, s, e, id));
  }

  /** In either mode the system's accounts are those of the runs of one account each. */
  lemma {:induction false} AccountsAreRuns(cfg: Config, layout: Layout, events: seq<Event>, id: Name)
    requires id in layout
    ensures Run(cfg, layout, events).accounts[id] == R.Run(cfg, layout[id].limits, EventsOf(cfg, layout, events, id))
  {
    if events != [] {
      var prefix, e := events[..|events| - 1], events[|events| - 1];
      AccountsAreRuns(cfg, layout, prefix, id);
      AccountStep(cfg, layout, Run(cfg, layout, prefix), e, id, EventsOf(cfg, layout, prefix, id));
    }
  }

  lemma FrozenAfter(cfg: Config, layout: Layout, emitted: seq<Command>, id: Name, out: seq<Kind>, u: Name)
    requires cfg.Throttling() && id in layout && |out| <= 1
    ensures Frozen(emitted + CommandQueue.BatchFor(cfg, layout[id].users, out), u)
            <==> if out == [] || u !in layout[id].users then Frozen(emitted, u) else out[0] == FREEZE
  {
    BatchUsers(cfg, layout, id, out);
    assert emitted + [] == emitted;
    if out != [] {
      FrozenBatch(emitted, layout[id].users, out[0], u);
    }
  }

  lemma EndsAfter(sent: seq<Kind>, out: seq<Kind>)
    requires |out| <= 1
    ensures R.EndsFrozen(sent + out) <==> if out == [] then R.EndsFrozen(sent) else out[0] == FREEZE
  {
    assert sent + [] == sent;
  }

  lemma EmissionStep(cfg: Config, layout: Layout, s: System, e: Event, id: Name, u: Name, sent: seq<Kind>)
    requires cfg.Throttling() && WellLaid(layout) && Shaped(layout, s)
    requires id in layout && u in layout[id].users
    requires Frozen(Said(s), u) <==> R.EndsFrozen(sent)
    ensures var out := if EventOf(layout, s, e, id) != [] then
                         R.Step(cfg, layout[id].limits, s.accounts[id], e.event).out
                       else [];
            Frozen(Said(Step(cfg, layout, s, e)), u) <==> R.EndsFrozen(sent + out)
  {
    if e.OnAccount? && e.id in layout && s.open == [] {
      var out := R.Step(cfg, layout[e.id].limits, s.accounts[e.id], e.event).out;
      OneBatchAtMost(cfg, layout[e.id].limits, s.accounts[e.id], e.event);
      FrozenAfter(cfg, layout, s.queue.emitted, e.id, out, u);
      EndsAfter(sent, if e.id == id then out else []);
      assert Said(s) == s.queue.emitted;
    } else {
      EndsAfter(sent, []);
      SaidKept(cfg, layout, s, e);
    }
  }

  /** The last command for a user, appended or still to be appended, is what its account last told it. */
  lemma {:induction false} EmissionTells(cfg: Config, layout: Layout, events: seq<Event>, id: Name, u: Name)
    requires cfg.Throttling() && WellLaid(layout) && id in layout && u in layout[id].users
    ensures Frozen(Said(Run(cfg, layout, events)), u)
            <==> R.EndsFrozen(R.Sent(cfg, layout[id].limits, EventsOf(cfg, layout, events, id)))
  {
    if events != [] {
      var prefix, e := events[..|events| - 1], events[|events| - 1];
      var s, own := Run(cfg, layout, prefix), EventsOf(cfg, layout, prefix, id);
      EmissionTells(cfg, layout, prefix, id, u);
      AccountsAreRuns(cfg, layout, prefix, id);
      EmissionStep(cfg, layout, s, e, id, u, R.Sent(cfg, layout[id].limits, own));
      RunsNext(cfg, layout[id].limits, own, EventOf(layout, s, e, id));
      EndsAfter(R.Sent(cfg, layout[id].limits, own), []);
    }
  }

  /** Once the queue is drained, a user is listed if and only if its account last told it FREEZE. */
  lemma ListedIffTold(cfg: Config, layout: Layout, events: seq<Event>, id: Name, u: Name)
    requires cfg.Throttling() && WellLaid(layout) && id in layout && u in layout[id].users
    requires Drained(Run(cfg, layout, events))
    ensures u in BadList.Names(Run(cfg, layout, events).list)
            <==> R.EndsFrozen(R.Sent(cfg, layout[id].limits, EventsOf(cfg, layout, events, id)))
  {
    var s := Run(cfg, layout, events);
    EmissionTells(cfg, layout, events, id, u);
    ListFollowsDelivery(cfg, layout, events);
    assert s.queue.delivered + s.queue.InFlight() + s.queue.Pending() + s.open == s.queue.delivered;
  }

  ghost predicate AgreesOnTimeout(layout: Layout, s: System)
    requires Shaped(layout, s)
  {
    forall id, u :: id in layout && u in layout[id].users ==>
      (u in BadList.Names(s.list) <==> s.accounts[id].timeout != 0)
  }

  ghost predicate TruthfulFor(cfg: Config, layout: Layout, events: seq<Event>, id: Name)
    requires id in layout
  {
    layout[id].users != [] ==> PeriodMode.Truthful(cfg, layout[id].limits, EventsOf(cfg, layout, events, id))
  }

  /** In period mode a drained queue leaves exactly the users of restricted accounts listed if and only
      if no account's last batch contradicts its timeout. */
  lemma DrainedAgreesIffTruthful(cfg: Config, layout: Layout, events: seq<Event>)
    requires PeriodMode.PeriodConfig(cfg) && WellLaid(layout) && Drained(Run(cfg, layout, events))
    ensures AgreesOnTimeout(layout, Run(cfg, layout, events))
            <==> forall id :: id in layout ==> TruthfulFor(cfg, layout, events, id)
  {
    var s := Run(cfg, layout, events);
    forall id, u | id in layout && u in layout[id].users
      ensures (u in BadList.Names(s.list) <==> s.accounts[id].timeout != 0)
              <==> PeriodMode.Truthful(cfg, layout[id].limits, EventsOf(cfg, layout, events, id))
    {
      ListedIffTold(cfg, layout, events, id, u);
      AccountsAreRuns(cfg, layout, events, id);
    }
    if AgreesOnTimeout(layout, s) {
      forall id | id in layout ensures TruthfulFor(cfg, layout, events, id) {
        if layout[id].users != [] {
          var u := layout[id].users[0];
          assert u in BadList.Names(s.list) <==> s.accounts[id].timeout != 0;
        }
      }
    } else {
      var id, u :| id in layout && u in layout[id].users
                   && !(u in BadList.Names(s.list) <==> s.accounts[id].timeout != 0);
      assert !TruthfulFor(cfg, layout, events, id);
    }
  }

  ghost predicate AllTimely(cfg: Config, layout: Layout, events: seq<Event>) {
    forall id :: id in layout ==> R.Timely(EventsOf(cfg, layout, events, id))
  }

  /** The account can never be over limit. */
  predicate Unlimited(info: Info) {
    info.users == [] || info.limits.ignored || !PeriodMode.AnyLimit(info.limits)
  }

  lemma {:induction false} EventsOfQueue(cfg: Config, layout: Layout, start: seq<Event>, more: seq<Event>, id: Name)
    requires forall e :: e in more ==> !e.OnAccount?
    ensures EventsOf(cfg, layout, start + more, id) == EventsOf(cfg, layout, start, id)
    decreases |more|
  {
    if more == [] {
      assert start + more == start;
    } else {
      var k := |more| - 1;
      var all := start + more[..k];
      assert start + more == all + [more[k]] && more[k] in more;
      EventsOfQueue(cfg, layout, start, more[..k], id);
      EventsOfNext(cfg, layout, all, more[k], id);
    }
  }

  lemma EventsOfNext(cfg: Config, layout: Layout, events: seq<Event>, e: Event, id: Name)
    requires !e.OnAccount?
    ensures EventsOf(cfg, layout, events + [e], id) == EventsOf(cfg, layout, events, id)
  {
    assert (events + [e])[..|events|] == events;
  }

  /** A run of the system in which just these events happen to one account, and its queue drained. */
  lemma {:induction false} OwnRun(cfg: Config, layout: Layout, id: Name, own: seq<R.Event>) returns (events: seq<Event>)
    ensures forall other :: EventsOf(cfg, layout, events, other) == if other == id then own else []
    ensures Drained(Run(cfg, layout, events))
    decreases |own|
  {
    var start: seq<Event> := [];
    if own != [] {
      var k := |own| - 1;
      var before := OwnRun(cfg, layout, id, own[..k]);
      var e := OnAccount(id, own[k]);
      start := before + [e];
      assert start[..|before|] == before && own == own[..k] + [own[k]];
      forall other ensures EventsOf(cfg, layout, start, other) == if other == id then own else [] {
        assert EventsOf(cfg, layout, before, other) == if other == id then own[..k] else [];
      }
    }
    var more := QueueDrains(cfg, layout, Run(cfg, layout, start));
    events := start + more;
    RunConcat(cfg, layout, start, more);
    forall other ensures EventsOf(cfg, layout, events, other) == EventsOf(cfg, layout, start, other) {
      EventsOfQueue(cfg, layout, start, more, other);
    }
  }

  /** A run of one account that leaves its users untold, and then the queue drained. */
  lemma UntoldRun(cfg: Config, layout: Layout, id: Name) returns (events: seq<Event>)
    requires PeriodMode.PeriodConfig(cfg) && PeriodMode.PositiveDurations(cfg) && WellLaid(layout)
    requires id in layout && !Unlimited(layout[id])
    ensures AllTimely(cfg, layout, events) && Drained(Run(cfg, layout, events))
    ensures !AgreesOnTimeout(layout, Run(cfg, layout, events))
  {
    var sl := layout[id].limits;
    PeriodMode.TruthfulIffNoLimit(cfg, sl);
    var own: seq<R.Event> :| R.Timely(own) && !PeriodMode.Truthful(cfg, sl, own);
    events := OwnRun(cfg, layout, id, own);
    DrainedAgreesIffTruthful(cfg, layout, events);
    assert !TruthfulFor(cfg, layout, events, id);
  }

  /** The end-to-end theorem of period mode: every run that drains the queue leaves the bad list agreeing
      with the accounts, if and only if no account with users can ever be over limit. */
  lemma PeriodAgreementIffUnlimited(cfg: Config, layout: Layout)
    requires PeriodMode.PeriodConfig(cfg) && PeriodMode.PositiveDurations(cfg) && WellLaid(layout)
    ensures (forall events :: AllTimely(cfg, layout, events) && Drained(Run(cfg, layout, events)) ==>
               AgreesOnTimeout(layout, Run(cfg, layout, events)))
            <==> forall id :: id in layout ==> Unlimited(layout[id])
  {
    if forall id :: id in layout ==> Unlimited(layout[id]) {
      forall events | AllTimely(cfg, layout, events) && Drained(Run(cfg, layout, events))
        ensures AgreesOnTimeout(layout, Run(cfg, layout, events))
      {
        forall id | id in layout ensures TruthfulFor(cfg, layout, events, id) {
          if layout[id].users != [] {
            PeriodMode.TruthfulIffNoLimit(cfg, layout[id].limits);
          }
        }
        DrainedAgreesIffTruthful(cfg, layout, events);
      }
    } else {
      var id :| id in layout && !Unlimited(layout[id]);
      var events := UntoldRun(cfg, layout, id);
    }
  }
}
