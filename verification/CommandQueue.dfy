/** The double-buffered queue of FREEZE and UNFREEZE commands (src/commands.c). */
module CommandQueue {
  import opened Data
  import opened BadList

  /** A GList of commands: [] is the NULL pointer; g_list_alloc makes one element without data. */
  type List = seq<Option<Command>>

  const ALLOCATED: List := [None]

  function Payload(l: List): seq<Command> {
    if l == [] then []
    else if l[0].None? then Payload(l[1..])
    else [l[0].value] + Payload(l[1..])
  }

  function Nodes(cs: seq<Command>): List {
    seq(|cs|, i requires 0 <= i < |cs| => Some(cs[i]))
  }

  lemma {:induction false} PayloadConcat(k: List, l: List)
    ensures Payload(k + l) == Payload(k) + Payload(l)
  {
    if k == [] {
      assert k + l == l;
    } else {
      assert (k + l)[1..] == k[1..] + l;
      PayloadConcat(k[1..], l);
    }
  }

  lemma {:induction false} PayloadNodes(cs: seq<Command>)
    ensures Payload(Nodes(cs)) == cs
  {
    if cs != [] {
      assert Nodes(cs)[1..] == Nodes(cs[1..]);
      PayloadNodes(cs[1..]);
    }
  }

  function Addressed(users: seq<Name>, kind: Kind): seq<Command> {
    seq(|users|, i requires 0 <= i < |users| => Command(users[i], kind))
  }

  /** What account_restrict queues for an account with these users. */
  function FreezeBatch(cfg: Config, users: seq<Name>): seq<Command> {
    if cfg.isGpl || cfg.allLve || !cfg.useLve then [] else Addressed(users, FREEZE)
  }

  /** What account_unrestrict queues; its switch-off condition is not that of account_restrict. */
  function UnfreezeBatch(cfg: Config, users: seq<Name>): seq<Command> {
    if cfg.isGpl || cfg.allLve || (!cfg.useLve && !cfg.separateLve) then [] else Addressed(users, UNFREEZE)
  }

  /** The two conditions: both batches are switched off in a GPL build and when everybody runs in one LVE.
      With LVE off, too, except that separate LVEs keep the unfreezing on. */
  lemma BatchMeaning(cfg: Config, users: seq<Name>)
    ensures FreezeBatch(cfg, users) != [] <==> users != [] && cfg.Throttling()
    ensures UnfreezeBatch(cfg, users) != []
            <==> users != [] && !cfg.isGpl && !cfg.allLve && (cfg.useLve || cfg.separateLve)
    ensures FreezeBatch(cfg, users) != [] ==>
              |FreezeBatch(cfg, users)| == |users|
              && forall i :: 0 <= i < |users| ==> FreezeBatch(cfg, users)[i] == Command(users[i], FREEZE)
    ensures UnfreezeBatch(cfg, users) != [] ==>
              |UnfreezeBatch(cfg, users)| == |users|
              && forall i :: 0 <= i < |users| ==> UnfreezeBatch(cfg, users)[i] == Command(users[i], UNFREEZE)
  {
  }

  /** The commands of a sequence of batches to the same users. */
  function BatchFor(cfg: Config, users: seq<Name>, out: seq<Kind>): seq<Command> {
    if out == [] then []
    else
      (match out[0] case FREEZE => FreezeBatch(cfg, users) case UNFREEZE => UnfreezeBatch(cfg, users))
      + BatchFor(cfg, users, out[1..])
  }

  // ----- The queue as a state machine -----

  datatype Queue = Queue(
    commandList: List, commandListSend: List,
    isSendCommandCycle: bool,    // a sending thread is running
    next: nat,                   // the element of commandListSend which that thread handles next
    emitted: seq<Command>,       // history: every command appended so far
    delivered: seq<Command>)     // history: every command executed so far
  {
    predicate Valid() {
      && commandList != []
      && next <= |commandListSend|
      && (!isSendCommandCycle ==> next == |commandListSend|)
    }

    function Pending(): seq<Command> {
      Payload(commandList)
    }

    function InFlight(): seq<Command>
      requires Valid()
    {
      Payload(commandListSend[next..])
    }

    /** The commands that are somewhere: executed, in the batch being sent, or waiting. */
    function Accounted(): seq<Command>
      requires Valid()
    {
      delivered + InFlight() + Pending()
    }

    function Append(cs: seq<Command>): Queue {
      this.(commandList := commandList + Nodes(cs), emitted := emitted + cs)
    }
  }

  datatype Event =
    | Emit(commands: seq<Command>)
      // send_commands_cycle; between its copying and its clearing, which are separate critical
      // sections, another thread appends the raced commands
    | Cycle(raced: seq<Command>)
    | Deliver
    | Finish

  const START := Queue(ALLOCATED, [], false, 0, [], [])

  function Step(q: Queue, e: Event): (r: Queue)
    requires q.Valid()
    ensures r.Valid()
  {
    match e
    case Emit(cs) => q.Append(cs)
    case Cycle(raced) =>
      if q.isSendCommandCycle then q.Append(raced)
      else q.(commandList := ALLOCATED, commandListSend := ALLOCATED + Nodes(Payload(q.commandList)),
              isSendCommandCycle := true, next := 0, emitted := q.emitted + raced)
    case Deliver =>
      if q.next == |q.commandListSend| then q
      else
        var node := q.commandListSend[q.next];
        q.(next := q.next + 1, delivered := q.delivered + if node.Some? then [node.value] else [])
    case Finish =>
      if q.next == |q.commandListSend| then q.(isSendCommandCycle := false) else q
  }

  function Run(events: seq<Event>): (q: Queue)
    ensures q.Valid()
  {
    if events == [] then START else Step(Run(events[..|events| - 1]), events[|events| - 1])
  }

  /** How many commands were appended inside the gap of a cycle that went on to clear the list. */
  function Lost(events: seq<Event>): nat {
    if events == [] then 0
    else
      var prefix := events[..|events| - 1];
      Lost(prefix) + |LostIn(Run(prefix), events[|events| - 1])|
  }

  lemma AppendPending(q: Queue, cs: seq<Command>)
    ensures q.Append(cs).Pending() == q.Pending() + cs
  {
    PayloadConcat(q.commandList, Nodes(cs));
    PayloadNodes(cs);
  }

  lemma CycleMovesPending(q: Queue, raced: seq<Command>)
    requires q.Valid() && !q.isSendCommandCycle
    ensures q.InFlight() == []
    ensures Step(q, Cycle(raced)).InFlight() == q.Pending()
    ensures Step(q, Cycle(raced)).Pending() == []
  {
    PayloadConcat(ALLOCATED, Nodes(q.Pending()));
    PayloadNodes(q.Pending());
    var r := Step(q, Cycle(raced));
    assert r.commandListSend[r.next..] == r.commandListSend;
    assert q.commandListSend[q.next..] == [];
  }

  lemma DeliverMovesOne(q: Queue)
    requires q.Valid()
    ensures Step(q, Deliver).delivered + Step(q, Deliver).InFlight() == q.delivered + q.InFlight()
  {
    if q.next < |q.commandListSend| {
      var rest := q.commandListSend[q.next..];
      assert rest[1..] == q.commandListSend[q.next + 1..];
    }
  }

  function LostIn(q: Queue, e: Event): seq<Command> {
    if e.Cycle? && !q.isSendCommandCycle then e.raced else []
  }

  lemma StepConserves(q: Queue, e: Event)
    requires q.Valid()
    ensures |Step(q, e).emitted| - |Step(q, e).Accounted()| == |q.emitted| - |q.Accounted()| + |LostIn(q, e)|
    ensures q.emitted == q.Accounted() && LostIn(q, e) == [] ==> Step(q, e).emitted == Step(q, e).Accounted()
  {
    match e
    case Emit(cs) => AppendPending(q, cs);
    case Cycle(raced) =>
      AppendPending(q, raced);
      if !q.isSendCommandCycle {
        CycleMovesPending(q, raced);
      }
    case Deliver => DeliverMovesOne(q);
    case Finish =>
  }

  /** Every emitted command is delivered, in flight or pending, exactly once and in order, if and
      only if none was appended in the gap between copying and clearing the list. */
  lemma {:induction false} ExactlyOnceIffNothingRaced(events: seq<Event>)
    ensures Run(events).emitted == Run(events).Accounted() <==> Lost(events) == 0
    ensures |Run(events).emitted| == |Run(events).Accounted()| + Lost(events)
  {
    if events != [] {
      var prefix := events[..|events| - 1];
      ExactlyOnceIffNothingRaced(prefix);
      StepConserves(Run(prefix), events[|events| - 1]);
    }
  }

  /** A run that loses any command: it is appended in the gap of the first cycle. */
  lemma RacedIsLost(c: Command)
    ensures var q := Run([Cycle([c])]);
            q.emitted == [c] && q.Accounted() == [] && Lost([Cycle([c])]) == 1
  {
    var events := [Cycle([c])];
    assert events[..0] == [];
    ExactlyOnceIffNothingRaced(events);
  }

  lemma SentMeansNothingInFlight(q: Queue)
    requires q.Valid()
    ensures q.next == |q.commandListSend| ==> q.InFlight() == []
  {
    if q.next == |q.commandListSend| {
      assert q.commandListSend[q.next..] == [];
    }
  }

  /** While a batch is in flight no second one starts: a cycle then leaves it untouched. */
  lemma OneBatchAtATime(events: seq<Event>, raced: seq<Command>)
    requires Run(events).InFlight() != []
    ensures Run(events).isSendCommandCycle
    ensures Step(Run(events), Cycle(raced)).InFlight() == Run(events).InFlight()
    ensures Step(Run(events), Cycle(raced)) == Step(Run(events), Emit(raced))
    ensures Step(Run(events), Finish) == Run(events)
  {
    SentMeansNothingInFlight(Run(events));
  }

  // ----- What delivery does to the bad list -----

  function Executed(cfg: Config, s: seq<Item>, c: Command, uid: int): seq<Item> {
    if !cfg.useLve then s
    else if c.kind == FREEZE then Added(s, c.username, uid)
    else Without(s, c.username)
  }

  /** What executing one command does to the map that the list stands for: a FREEZE stores the user's uid
      unless the user is listed already or the table is full, an UNFREEZE removes the user, no other
      entry changes, and with LVE off nothing does. */
  lemma ExecutedMap(cfg: Config, s: seq<Item>, c: Command, uid: int)
    requires WellFormed(s)
    ensures !cfg.useLve ==> Executed(cfg, s, c, uid) == s
    ensures cfg.useLve ==>
            var m := AsMap(s);
            AsMap(Executed(cfg, s, c, uid)) ==
            match c.kind
            case FREEZE => if c.username in m || |m| + 1 == MAX_ITEMS_IN_TABLE then m else m[c.username := uid]
            case UNFREEZE => m - {c.username}
  {
    MapSize(s);
    match c.kind
    case FREEZE => MapAdded(s, c.username, uid);
    case UNFREEZE => MapWithout(s, c.username);
  }

  // ----- The two lists and the flag -----

  class Commands {
    var commandList: List
    var commandListSend: List
    var isSendCommandCycle: bool
    var next: nat
    ghost var emitted: seq<Command>
    ghost var delivered: seq<Command>

    ghost function State(): Queue
      reads this
    {
      Queue(commandList, commandListSend, isSendCommandCycle, next, emitted, delivered)
    }

    constructor ()
      ensures State() == START
    {
      commandList, commandListSend := ALLOCATED, [];
      isSendCommandCycle, next := false, 0;
      emitted, delivered := [], [];
    }

    method Append(c: Command)
      modifies this
      requires commandList != []
      ensures State() == old(State()).Append([c])
    {
      commandList := commandList + [Some(c)];
      emitted := emitted + [c];
      assert Nodes([c]) == [Some(c)];
    }

    method AccountUnrestrict(cfg: Config, users: seq<Name>)
      requires State().Valid()
      modifies this
      ensures State() == old(State()).Append(UnfreezeBatch(cfg, users))
    {
      ghost var q := State();
      assert q.Append([]) == q;
      if cfg.isGpl {
        return;
      }
      if cfg.allLve {
        return;
      }
      if !cfg.useLve && !cfg.separateLve {
        return;
      }
      for i := 0 to |users|
        invariant commandList != []
        invariant State() == q.Append(Addressed(users[..i], UNFREEZE))
      {
        if commandList != [] {
          Append(Command(users[i], UNFREEZE));
          AddressedNext(users, i, UNFREEZE, q.commandList);
        }
      }
      assert users[..|users|] == users;
    }

    method AccountRestrict(cfg: Config, users: seq<Name>)
      requires State().Valid()
      modifies this
      ensures State() == old(State()).Append(FreezeBatch(cfg, users))
    {
      ghost var q := State();
      assert q.Append([]) == q;
      if cfg.isGpl {
        return;
      }
      if cfg.allLve || !cfg.useLve {
        return;
      }
      for i := 0 to |users|
        invariant commandList != []
        invariant State() == q.Append(Addressed(users[..i], FREEZE))
      {
        if commandList != [] {
          Append(Command(users[i], FREEZE));
          AddressedNext(users, i, FREEZE, q.commandList);
        }
      }
      assert users[..|users|] == users;
    }

    /** send_command_copy_list: copy under the lock, then clear under the lock taken anew. */
    method SendCommandCopyList(raced: seq<Command>)
      requires State().Valid()
      modifies this
      ensures commandListSend == ALLOCATED + Nodes(Payload(old(commandList)))
      ensures commandList == ALLOCATED && next == 0
      ensures emitted == old(emitted) + raced
      ensures unchanged(`delivered) && unchanged(`isSendCommandCycle)
    {
      commandListSend, next := ALLOCATED, 0;
      for i := 0 to |commandList|
        invariant unchanged(`commandList)
        invariant commandListSend == ALLOCATED + Nodes(Payload(commandList[..i]))
        invariant next == 0
        invariant unchanged(`emitted) && unchanged(`delivered)
        invariant unchanged(`isSendCommandCycle)
      {
        assert commandList[..i + 1] == commandList[..i] + [commandList[i]];
        PayloadConcat(commandList[..i], [commandList[i]]);
        if commandList[i].Some? {
          commandListSend := commandListSend + [Some(commandList[i].value)];
        }
      }
      assert commandList[..|commandList|] == commandList;
      commandList, emitted := commandList + Nodes(raced), emitted + raced;
      commandList := ALLOCATED;
    }

    method SendCommandsCycle(cfg: Config, raced: seq<Command>)
      requires State().Valid()
      modifies this
      ensures State() == Step(old(State()), if cfg.isGpl then Emit(raced) else Cycle(raced))
    {
      if cfg.isGpl || isSendCommandCycle {
        commandList, emitted := commandList + Nodes(raced), emitted + raced;
        return;
      }
      isSendCommandCycle := true;
      SendCommandCopyList(raced);
      // g_list_alloc put a node without data in front, so the copy is never empty and the
      // sending thread is started even when there is nothing to send
      assert |commandListSend| > 0;
    }

    /** One turn of the sending thread's loop over its list. */
    method SendNext(cfg: Config, list: BadUsersList, mapped: Option<int>, semTaken: bool)
      requires State().Valid() && next < |commandListSend| && list.Valid()
      modifies this, list`numbers, list.items
      ensures State() == Step(old(State()), Deliver)
      ensures list.Valid()
      ensures var node := old(commandListSend[next]);
              var uid := if mapped.None? then BAD_LVE else mapped.value;
              var shown := if cfg.allLve && uid == BAD_LVE then 0 else uid;
              list.Contents() ==
              if node.Some? && list.attached && semTaken then Executed(cfg, old(list.Contents()), node.value, shown)
              else old(list.Contents())
    {
      var node := commandListSend[next];
      if node.Some? {
        var c := node.value;
        match c.kind {
          case FREEZE =>
            if cfg.useLve {
              var _ := list.AddUserToList(c.username, mapped, cfg.allLve, semTaken);
            }
          case UNFREEZE =>
            if cfg.useLve {
              var _ := list.DeleteUserFromList(c.username, semTaken);
            }
        }
        delivered := delivered + [c];
      } else {
        delivered := delivered + [];
      }
      next := next + 1;
    }

    method SendFinished()
      requires State().Valid() && next == |commandListSend|
      modifies this
      ensures State() == Step(old(State()), Finish)
    {
      isSendCommandCycle := false;
    }
  }

  lemma AddressedNext(users: seq<Name>, i: nat, kind: Kind, l: List)
    requires i < |users|
    ensures Addressed(users[..i + 1], kind) == Addressed(users[..i], kind) + [Command(users[i], kind)]
    ensures l + Nodes(Addressed(users[..i + 1], kind))
            == l + Nodes(Addressed(users[..i], kind)) + Nodes([Command(users[i], kind)])
  {
  }
}
