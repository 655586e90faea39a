/** A MySQL thread leaves its container before it takes a mutex and returns after the last unlock (src/ld.c). */
module Container {
  import opened Data

  type Mutex = nat

  datatype HookCall = In | Out      // enter or enter_light; exit

  /** A call of the interposed functions made by a hook itself. */
  datatype Nested = Nested(mutex: Mutex, lock: bool, ok: bool)

  /** How one hook call goes: the mutex calls it makes, and whether it succeeds. */
  datatype Hook = Hook(nested: seq<Nested>, ok: bool)

  /** The thread-local variables of ld.c, and what is true of the thread besides them. */
  datatype Thread = Thread(
    inLve: bool, inMutexRefcnt: nat, inHook: bool,
    inside: bool,               // the thread runs in its container
    held: multiset<Mutex>,      // mutexes locked in this session, outside hooks
    moving: nat)                // 1 while a session mutex is being acquired or given back
  {
    /** The two promises, at any point of the code. */
    predicate Safe() {
      && (inside ==> held == multiset{})
      && (inLve ==> inMutexRefcnt == |held| + moving)
    }

    /** What holds between the calls. */
    predicate Idle() {
      && Safe() && !inHook && moving == 0
      && (inside ==> inLve && inMutexRefcnt == 0)
      && (!inLve ==> inMutexRefcnt == 0)
    }
  }

  const NEW := Thread(false, 0, false, false, multiset{}, 0)

  /** The thread after a call, every state it went through, and the hooks it called. */
  datatype Outcome = Outcome(final: Thread, trace: seq<Thread>, calls: seq<HookCall>) {
    function Then(next: Outcome): Outcome {
      Outcome(next.final, trace + next.trace, calls + next.calls)
    }
  }

  lemma ThenAssociates(a: Outcome, b: Outcome, c: Outcome)
    ensures a.Then(b).Then(c) == a.Then(b.Then(c))
  {
  }

  function Repeat(s: Thread, n: nat): seq<Thread> {
    seq(n, _ => s)
  }

  lemma RepeatNext(before: seq<Thread>, s: Thread, n: nat)
    ensures before + ([s] + Repeat(s, n)) + [s] == before + ([s] + Repeat(s, n + 1))
  {
    assert Repeat(s, n + 1) == Repeat(s, n) + [s];
  }

  function Still(s: Thread): Outcome {
    Outcome(s, [], [])
  }

  function Becomes(s: Thread): Outcome {
    Outcome(s, [s], [])
  }

  /** A hook up to its effect; the mutex calls it makes change nothing. */
  function HookRuns(s: Thread, hook: Hook, call: HookCall, inside: bool, held: multiset<Mutex>): Outcome {
    var started := s.(inHook := true);
    var done := started.(inside := inside, held := held);
    Outcome(done, [started] + Repeat(started, |hook.nested|) + [done], [call])
  }

  function HookEnds(s: Thread): Outcome {
    Becomes(s.(inHook := false))
  }

  // ----- The code -----

  /** gr_lve_begin; a new session starts when enter succeeds. */
  function Begin(s: Thread, enter: Hook): Outcome {
    if s.inLve then Still(s)
    else
      var entered := HookRuns(s, enter, In, s.inside || enter.ok, if enter.ok then multiset{} else s.held);
      var noted := if enter.ok then
          entered.Then(Becomes(entered.final.(inLve := true)))
                 .Then(Becomes(entered.final.(inLve := true, inMutexRefcnt := 0)))
        else entered;
      noted.Then(HookEnds(noted.final))
  }

  /** gr_lve_end */
  function End(s: Thread, exit: Hook): Outcome {
    var left := if s.inLve && s.inMutexRefcnt == 0 then
        var run := HookRuns(s, exit, Out, false, s.held); run.Then(HookEnds(run.final))
      else Still(s);
    left.Then(Becomes(left.final.(inLve := false)))
        .Then(Becomes(left.final.(inLve := false, inMutexRefcnt := 0)))
  }

  /** __mutex_enter */
  function MutexEnter(s: Thread, exit: Hook): Outcome {
    var counted := s.(inMutexRefcnt := s.inMutexRefcnt + 1, moving := 1);
    if s.inMutexRefcnt != 0 then Becomes(counted)
    else
      var run := Becomes(counted).Then(HookRuns(counted, exit, Out, false, s.held));
      run.Then(HookEnds(run.final))
  }

  /** __mutex_leave; whether enter_light succeeded is not looked at. */
  function MutexLeave(s: Thread, light: Hook): Outcome {
    if s.inMutexRefcnt == 0 then Still(s)
    else
      var counted := s.(inMutexRefcnt := s.inMutexRefcnt - 1, moving := 0);
      if counted.inMutexRefcnt != 0 then Becomes(counted)
      else
        var run := Becomes(counted).Then(HookRuns(counted, light, In, s.inside || light.ok, s.held));
        run.Then(HookEnds(run.final))
  }

  /** pthread_mutex_lock and pthread_mutex_trylock. */
  function Lock(s: Thread, m: Mutex, ok: bool, exit: Hook, light: Hook): Outcome {
    if !s.inLve || s.inHook then Becomes(s)
    else
      var entered := MutexEnter(s, exit);
      if ok then entered.Then(Becomes(entered.final.(held := s.held + multiset{m}, moving := 0)))
      else
        var failed := entered.Then(Becomes(entered.final));
        failed.Then(MutexLeave(failed.final, light))
  }

  /** pthread_mutex_unlock */
  function Unlock(s: Thread, m: Mutex, ok: bool, light: Hook): Outcome {
    if s.inHook || !ok then Becomes(s)
    else
      var unlocked := Becomes(s.(held := s.held - multiset{m}, moving := if s.inLve && m in s.held then 1
          else s.moving));
      if s.inLve then unlocked.Then(MutexLeave(unlocked.final, light)) else unlocked
  }

  // ----- Runs -----

  datatype Event =
    | BeginCall(enter: Hook)
    | EndCall(exit: Hook)
    | LockCall(mutex: Mutex, ok: bool, exit: Hook, light: Hook)
    | UnlockCall(mutex: Mutex, ok: bool, light: Hook)

  function Step(s: Thread, e: Event): Outcome {
    match e
    case BeginCall(enter) => Begin(s, enter)
    case EndCall(exit) => End(s, exit)
    case LockCall(m, ok, exit, light) => Lock(s, m, ok, exit, light)
    case UnlockCall(m, ok, light) => Unlock(s, m, ok, light)
  }

  function Run(events: seq<Event>): Outcome {
    if events == [] then Still(NEW)
    else
      var before := Run(events[..|events| - 1]);
      before.Then(Step(before.final, events[|events| - 1]))
  }

  /** The session gives back a mutex that it did not lock, while it holds some that it did. */
  predicate ForeignUnlock(s: Thread, e: Event) {
    e.UnlockCall? && e.ok && s.inLve && e.mutex !in s.held && s.held != multiset{}
  }

  ghost predicate AllSafe(trace: seq<Thread>) {
    forall i :: 0 <= i < |trace| ==> trace[i].Safe()
  }

  lemma AllSafeConcat(a: seq<Thread>, b: seq<Thread>)
    ensures AllSafe(a + b) <==> AllSafe(a) && AllSafe(b)
  {
    if AllSafe(a + b) {
      forall i | 0 <= i < |a| ensures a[i].Safe() {
        assert (a + b)[i] == a[i];
      }
      forall i | 0 <= i < |b| ensures b[i].Safe() {
        assert (a + b)[|a| + i] == b[i];
      }
    }
  }

  lemma HookRunsSafe(s: Thread, hook: Hook, call: HookCall, inside: bool, held: multiset<Mutex>)
    requires s.Safe()
    requires s.(inHook := true, inside := inside, held := held).Safe()
    ensures AllSafe(HookRuns(s, hook, call, inside, held).trace)
  {
  }

  lemma EnterSafe(s: Thread, exit: Hook)
    requires s.Idle() && s.inLve
    ensures var o := MutexEnter(s, exit);
            && AllSafe(o.trace) && o.final.Safe()
            && o.final == s.(inMutexRefcnt := s.inMutexRefcnt + 1, moving := 1, inside := false)
  {
    var counted := s.(inMutexRefcnt := s.inMutexRefcnt + 1, moving := 1);
    HookRunsSafe(counted, exit, Out, false, s.held);
  }

  lemma LeaveSafe(s: Thread, light: Hook)
    requires s.Safe() && s.inLve && !s.inHook && !s.inside && s.moving == 1
    ensures var o := MutexLeave(s, light);
            && AllSafe(o.trace) && o.final.Idle() && o.final.inLve && o.final.held == s.held
            && o.final.inside == (s.held == multiset{} && light.ok)
  {
    var counted := s.(inMutexRefcnt := s.inMutexRefcnt - 1, moving := 0);
    assert counted.inMutexRefcnt == |s.held|;
    if counted.inMutexRefcnt == 0 {
      assert s.held == multiset{};
      HookRunsSafe(counted, light, In, s.inside || light.ok, s.held);
    }
  }

  lemma BeginSafe(s: Thread, enter: Hook)
    requires s.Idle()
    ensures AllSafe(Begin(s, enter).trace) && Begin(s, enter).final.Idle()
  {
    if !s.inLve {
      HookRunsSafe(s, enter, In, s.inside || enter.ok, if enter.ok then multiset{} else s.held);
    }
  }

  lemma EndSafe(s: Thread, exit: Hook)
    requires s.Idle()
    ensures AllSafe(End(s, exit).trace) && End(s, exit).final.Idle()
  {
    HookRunsSafe(s, exit, Out, false, s.held);
  }

  lemma LockSafe(s: Thread, m: Mutex, ok: bool, exit: Hook, light: Hook)
    requires s.Idle()
    ensures AllSafe(Lock(s, m, ok, exit, light).trace) && Lock(s, m, ok, exit, light).final.Idle()
  {
    if s.inLve {
      EnterSafe(s, exit);
      var entered := MutexEnter(s, exit);
      if !ok {
        LeaveSafe(entered.final, light);
      }
    }
  }

  lemma UnlockSafe(s: Thread, m: Mutex, ok: bool, light: Hook)
    requires s.Idle() && !ForeignUnlock(s, UnlockCall(m, ok, light))
    ensures AllSafe(Unlock(s, m, ok, light).trace) && Unlock(s, m, ok, light).final.Idle()
  {
    if s.inLve && ok && m in s.held {
      var unlocked := s.(held := s.held - multiset{m}, moving := 1);
      assert |s.held| == |unlocked.held| + 1;
      LeaveSafe(unlocked, light);
    } else if ok && s.inLve {
      assert s.held - multiset{m} == s.held;
    }
  }

  /** A call that is no foreign unlock keeps both promises at each of its steps, whether the hooks,
      the lock and the unlock succeed or fail. */
  lemma StepSafe(s: Thread, e: Event)
    requires s.Idle() && !ForeignUnlock(s, e)
    ensures AllSafe(Step(s, e).trace) && Step(s, e).final.Idle()
  {
    match e
    case BeginCall(enter) => BeginSafe(s, enter);
    case EndCall(exit) => EndSafe(s, exit);
    case LockCall(m, ok, exit, light) => LockSafe(s, m, ok, exit, light);
    case UnlockCall(m, ok, light) => UnlockSafe(s, m, ok, light);
  }

  /** The last state of the trace is the final one. */
  predicate Traced(s: Thread, o: Outcome) {
    o.final == if o.trace == [] then s else o.trace[|o.trace| - 1]
  }

  lemma ThenTraced(s: Thread, a: Outcome, b: Outcome)
    requires Traced(s, a) && Traced(a.final, b)
    ensures Traced(s, a.Then(b))
  {
  }

  lemma LeaveTraced(s: Thread, light: Hook)
    ensures Traced(s, MutexLeave(s, light))
  {
  }

  lemma UnlockTraced(s: Thread, m: Mutex, ok: bool, light: Hook)
    ensures Traced(s, Unlock(s, m, ok, light))
  {
    if !s.inHook && ok && s.inLve {
      var unlocked := Becomes(s.(held := s.held - multiset{m}, moving := if m in s.held then 1 else s.moving));
      LeaveTraced(unlocked.final, light);
      ThenTraced(s, unlocked, MutexLeave(unlocked.final, light));
    }
  }

  /** A foreign unlock breaks the count. */
  lemma ForeignUnlockUnsafe(s: Thread, e: Event)
    requires s.Idle() && ForeignUnlock(s, e)
    ensures !AllSafe(Step(s, e).trace)
  {
    assert s.held - multiset{e.mutex} == s.held;
    assert |s.held| > 0;
    UnlockTraced(s, e.mutex, e.ok, e.light);
    assert !Step(s, e).final.Safe();
  }

  const SUCCEEDS := Hook([], true)

  /** A session that locks one mutex and unlocks another. */
  function OtherMutex(m: Mutex, other: Mutex): seq<Event> {
    [BeginCall(SUCCEEDS), LockCall(m, true, SUCCEEDS, SUCCEEDS), UnlockCall(other, true, SUCCEEDS)]
  }

  lemma RunTo(events: seq<Event>, n: nat)
    requires n < |events|
    ensures Run(events[..n + 1]) == Run(events[..n]).Then(Step(Run(events[..n]).final, events[n]))
  {
    assert events[..n + 1][..n] == events[..n];
  }

  /** It ends inside its container with the mutex it locked still held. */
  lemma OtherMutexUnsafe(m: Mutex, other: Mutex)
    requires m != other
    ensures !NoForeignUnlock(OtherMutex(m, other)) && !AllSafe(Run(OtherMutex(m, other)).trace)
    ensures var s := Run(OtherMutex(m, other)).final; s.inside && s.held == multiset{m}
  {
    var events := OtherMutex(m, other);
    assert events[..0] == [] && events[..3] == events;
    RunTo(events, 0);
    var one := Run(events[..1]).final;
    assert one == Thread(true, 0, false, true, multiset{}, 0);
    RunTo(events, 1);
    var two := Run(events[..2]).final;
    assert two == Thread(true, 1, false, false, multiset{m}, 0);
    assert ForeignUnlock(two, events[2]);
    RunTo(events, 2);
    assert two.held - multiset{other} == two.held;
    SafeIffNoForeignUnlock(events);
  }

  ghost predicate NoForeignUnlock(events: seq<Event>) {
    forall i :: 0 <= i < |events| ==> !ForeignUnlock(Run(events[..i]).final, events[i])
  }

  lemma NoForeignUnlockStep(events: seq<Event>)
    requires events != []
    ensures var prefix := events[..|events| - 1];
            NoForeignUnlock(events) <==>
              NoForeignUnlock(prefix) && !ForeignUnlock(Run(prefix).final, events[|events| - 1])
  {
    var k := |events| - 1;
    var prefix := events[..k];
    forall i | 0 <= i < k ensures prefix[..i] == events[..i] && prefix[i] == events[i] {
    }
    if NoForeignUnlock(events) {
      forall i | 0 <= i < |prefix| ensures !ForeignUnlock(Run(prefix[..i]).final, prefix[i]) {
        assert !ForeignUnlock(Run(events[..i]).final, events[i]);
      }
    }
    if NoForeignUnlock(prefix) && !ForeignUnlock(Run(prefix).final, events[k]) {
      forall i | 0 <= i < |events| ensures !ForeignUnlock(Run(events[..i]).final, events[i]) {
        if i < k {
          assert !ForeignUnlock(Run(prefix[..i]).final, prefix[i]);
        }
      }
    }
  }

  /** Container safety. At every intermediate step of every run, whatever succeeds or fails, the count
      is the number of mutexes the session holds or is moving, and the thread is never inside its
      container while it holds one: if and only if no call of the run is a foreign unlock. */
  lemma {:induction false} SafeIffNoForeignUnlock(events: seq<Event>)
    ensures AllSafe(Run(events).trace) <==> NoForeignUnlock(events)
    ensures NoForeignUnlock(events) ==> Run(events).final.Idle()
  {
    if events != [] {
      var prefix, e := events[..|events| - 1], events[|events| - 1];
      SafeIffNoForeignUnlock(prefix);
      NoForeignUnlockStep(events);
      AllSafeConcat(Run(prefix).trace, Step(Run(prefix).final, e).trace);
      if NoForeignUnlock(prefix) {
        if ForeignUnlock(Run(prefix).final, e) {
          ForeignUnlockUnsafe(Run(prefix).final, e);
        } else {
          StepSafe(Run(prefix).final, e);
        }
      }
    }
  }

  /** In any run, while the thread holds a mutex of its session it runs outside its container. */
  lemma HoldingMeansOutside(events: seq<Event>, i: nat)
    requires NoForeignUnlock(events) && i < |Run(events).trace|
    requires Run(events).trace[i].held != multiset{}
    ensures !Run(events).trace[i].inside
  {
    SafeIffNoForeignUnlock(events);
  }

  // ----- Between the calls, in every run -----

  /** Neither foreign unlocks nor failing hooks break this much. */
  predicate Coherent(s: Thread) {
    !s.inHook && (s.inside ==> s.inLve && s.inMutexRefcnt == 0) && (!s.inLve ==> s.inMutexRefcnt == 0)
  }

  lemma StepCoherent(s: Thread, e: Event)
    requires Coherent(s)
    ensures Coherent(Step(s, e).final)
  {
  }

  lemma {:induction false} RunCoherent(events: seq<Event>)
    ensures Coherent(Run(events).final)
  {
    if events != [] {
      RunCoherent(events[..|events| - 1]);
      StepCoherent(Run(events[..|events| - 1]).final, events[|events| - 1]);
    }
  }

  function RunFrom(s: Thread, events: seq<Event>): Outcome {
    if events == [] then Still(s)
    else
      var before := RunFrom(s, events[..|events| - 1]);
      before.Then(Step(before.final, events[|events| - 1]))
  }

  lemma {:induction false} QuietOutsideSessions(s: Thread, later: seq<Event>)
    requires Coherent(s) && !s.inLve
    requires forall e :: e in later ==> !e.BeginCall?
    ensures RunFrom(s, later).calls == []
    ensures Coherent(RunFrom(s, later).final) && !RunFrom(s, later).final.inLve
  {
    if later != [] {
      QuietOutsideSessions(s, later[..|later| - 1]);
      assert later[|later| - 1] in later;
    }
  }

  /** After gr_lve_end the thread is outside, and no later call, not even an unlock of a mutex left
      over from the session, brings it back or calls any hook before the next begin. */
  lemma EndedStaysOut(events: seq<Event>, exit: Hook, later: seq<Event>)
    requires forall e :: e in later ==> !e.BeginCall?
    ensures var ended := Step(Run(events).final, EndCall(exit)).final;
            && !ended.inside
            && RunFrom(ended, later).calls == []
            && !RunFrom(ended, later).final.inside
  {
    RunCoherent(events);
    StepCoherent(Run(events).final, EndCall(exit));
    QuietOutsideSessions(Step(Run(events).final, EndCall(exit)).final, later);
  }

  /** A session begins only by a successful enter and ends only by gr_lve_end, whatever else succeeds or
      fails; a begin that fails leaves the thread as it was. */
  lemma SessionIff(s: Thread, e: Event)
    requires Coherent(s)
    ensures Step(s, e).final.inLve <==> (s.inLve && !e.EndCall?) || (e.BeginCall? && e.enter.ok)
    ensures e.BeginCall? && !e.enter.ok ==> Step(s, e).final == s
  {
    match e
    case BeginCall(_) =>
    case EndCall(_) =>
    case LockCall(m, ok, exit, light) => LockKeepsSession(s, m, ok, exit, light);
    case UnlockCall(_, _, _) =>
  }

  lemma LockKeepsSession(s: Thread, m: Mutex, ok: bool, exit: Hook, light: Hook)
    ensures Lock(s, m, ok, exit, light).final.inLve == s.inLve
  {
  }

  // ----- When all hooks succeed -----

  predicate HooksSucceed(e: Event) {
    match e
    case BeginCall(enter) => enter.ok
    case EndCall(exit) => exit.ok
    case LockCall(_, _, exit, light) => exit.ok && light.ok
    case UnlockCall(_, _, light) => light.ok
  }

  /** Where a thread is after hook calls that alternate, None if they do not. */
  function After(inside: bool, calls: seq<HookCall>): Option<bool>
    decreases |calls|
  {
    if calls == [] then Some(inside)
    else if (calls[0] == In) == inside then None
    else After(!inside, calls[1..])
  }

  lemma {:induction false} AfterConcat(inside: bool, a: seq<HookCall>, b: seq<HookCall>)
    requires After(inside, a).Some?
    ensures After(inside, a + b) == After(After(inside, a).value, b)
    decreases |a|
  {
    if a == [] {
      assert a + b == b;
    } else {
      assert (a + b)[1..] == a[1..] + b;
      AfterConcat(!inside, a[1..], b);
    }
  }

  lemma {:induction false} AfterAlternates(inside: bool, calls: seq<HookCall>, i: nat)
    requires After(inside, calls).Some? && i < |calls|
    ensures calls[i] == In <==> (i % 2 == 0) != inside
    decreases |calls|
  {
    if i > 0 {
      AfterAlternates(!inside, calls[1..], i - 1);
    }
  }

  predicate Exact(s: Thread) {
    Coherent(s) && (s.inside <==> s.inLve && s.inMutexRefcnt == 0)
  }

  lemma AfterOne(inside: bool, call: HookCall)
    ensures After(inside, [call]) == if (call == In) == inside then None else Some(!inside)
    ensures After(inside, []) == Some(inside)
  {
    assert [call][1..] == [];
  }

  lemma AfterTwo(inside: bool, first: HookCall, second: HookCall)
    requires first != second && (first == In) != inside
    ensures After(inside, [first] + [second]) == Some(inside)
  {
    assert ([first] + [second])[1..] == [second];
    AfterOne(!inside, second);
  }

  lemma StepExact(s: Thread, e: Event)
    requires Exact(s) && HooksSucceed(e)
    ensures Exact(Step(s, e).final)
    ensures After(s.inside, Step(s, e).calls) == Some(Step(s, e).final.inside)
  {
    var calls := Step(s, e).calls;
    assert calls == [] || calls == [In] || calls == [Out] || calls == [Out] + [In];
    AfterOne(s.inside, In);
    AfterOne(s.inside, Out);
    if calls == [Out] + [In] {
      AfterTwo(s.inside, Out, In);
    }
  }

  /** When all hooks succeed: between the calls the thread is inside exactly when it is in a session
      and the count is 0, and over any run it enters and exits strictly in turn. */
  lemma {:induction false} ExactWhenHooksSucceed(events: seq<Event>)
    requires forall e :: e in events ==> HooksSucceed(e)
    ensures Exact(Run(events).final)
    ensures After(false, Run(events).calls) == Some(Run(events).final.inside)
    ensures forall i: nat :: i < |Run(events).calls| ==> (Run(events).calls[i] == In <==> i % 2 == 0)
  {
    if events != [] {
      var prefix, e := events[..|events| - 1], events[|events| - 1];
      assert events == prefix + [e];
      ExactWhenHooksSucceed(prefix);
      StepExact(Run(prefix).final, e);
      AfterConcat(false, Run(prefix).calls, Step(Run(prefix).final, e).calls);
    }
    forall i: nat | i < |Run(events).calls| ensures Run(events).calls[i] == In <==> i % 2 == 0 {
      AfterAlternates(false, Run(events).calls, i);
    }
  }

  // ----- The code in its own form -----

  class LveThread {
    var inLve: bool
    var inMutexRefcnt: nat
    var inHook: bool
    ghost var inside: bool
    ghost var held: multiset<Mutex>
    ghost var moving: nat
    ghost var trace: seq<Thread>
    ghost var calls: seq<HookCall>

    ghost function State(): Thread
      reads this
    {
      Thread(inLve, inMutexRefcnt, inHook, inside, held, moving)
    }

    /** The object as an outcome of everything done to it so far. */
    ghost function Whole(): Outcome
      reads this
    {
      Outcome(State(), trace, calls)
    }

    constructor ()
      ensures Whole() == Still(NEW)
    {
      inLve, inMutexRefcnt, inHook := false, 0, false;
      inside, held, moving := false, multiset{}, 0;
      trace, calls := [], [];
    }

    ghost method Note()
      modifies `trace
      ensures trace == old(trace) + [State()]
    {
      trace := trace + [State()];
    }

    /** A hook call: while it runs, the interposed functions that it calls itself pass straight through. */
    method RunHook(hook: Hook, ghost call: HookCall, ghost inside': bool, ghost held': multiset<Mutex>)
      requires !inHook
      modifies this
      ensures Whole() == old(Whole()).Then(HookRuns(old(State()), hook, call, inside', held'))
      decreases 1, 0
    {
      ghost var start := Whole();
      inHook := true;
      Note();
      ghost var started := State();
      for i := 0 to |hook.nested|
        invariant State() == started && calls == start.calls
        invariant trace == start.trace + ([started] + Repeat(started, i))
      {
        ghost var before := trace;
        var c := hook.nested[i];
        if c.lock {
          var _ := PthreadMutexLock(c.mutex, c.ok, hook, hook);
        } else {
          var _ := PthreadMutexUnlock(c.mutex, c.ok, hook);
        }
        assert trace == before + [started];
        RepeatNext(start.trace, started, i);
      }
      inside, held := inside', held';
      calls := calls + [call];
      Note();
    }

    method HookDone()
      modifies this
      ensures Whole() == old(Whole()).Then(HookEnds(old(State())))
    {
      inHook := false;
      Note();
    }

    /** A whole hook call, after what was done so far. */
    method HookAround(ghost start: Outcome, ghost done: Outcome, hook: Hook, ghost call: HookCall, ghost inside': bool)
      requires !inHook && Whole() == start.Then(done)
      modifies this
      ensures var run := done.Then(HookRuns(old(State()), hook, call, inside', old(held)));
              Whole() == start.Then(run.Then(HookEnds(run.final)))
      decreases 1, 1
    {
      ghost var runs := HookRuns(State(), hook, call, inside', held);
      ThenAssociates(start, done, runs);
      RunHook(hook, call, inside', held);
      ThenAssociates(start, done.Then(runs), HookEnds(State()));
      HookDone();
    }

    method GrLveBegin(enter: Hook)
      requires !inHook
      modifies this
      ensures Whole() == old(Whole()).Then(Begin(old(State()), enter))
    {
      ghost var start, s := Whole(), State();
      if !inLve {
        ghost var entered := HookRuns(s, enter, In, s.inside || enter.ok, if enter.ok then multiset{} else s.held);
        RunHook(enter, In, inside || enter.ok, if enter.ok then multiset{} else held);
        ghost var noted := entered;
        if enter.ok {
          inLve := true;
          Note();
          noted := entered.Then(Becomes(State()));
          ThenAssociates(start, entered, Becomes(State()));
          assert Whole() == start.Then(noted);
          inMutexRefcnt := 0;
          Note();
          ThenAssociates(start, noted, Becomes(State()));
          noted := noted.Then(Becomes(State()));
        }
        assert Whole() == start.Then(noted);
        ThenAssociates(start, noted, HookEnds(State()));
        HookDone();
      }
    }

    method GrLveEnd(exit: Hook)
      requires !inHook
      modifies this
      ensures Whole() == old(Whole()).Then(End(old(State()), exit))
    {
      if inLve && inMutexRefcnt == 0 {
        RunHook(exit, Out, false, held);
        HookDone();
      }
      inLve := false;
      Note();
      inMutexRefcnt := 0;
      Note();
    }

    method EnterMutex(exit: Hook)
      requires !inHook
      modifies this
      ensures Whole() == old(Whole()).Then(MutexEnter(old(State()), exit))
      decreases 2, 0
    {
      ghost var start := Whole();
      inMutexRefcnt := inMutexRefcnt + 1;
      moving := 1;
      Note();
      ghost var counted := Becomes(State());
      assert Whole() == start.Then(counted);
      if inMutexRefcnt == 1 {
        HookAround(start, counted, exit, Out, false);
      }
    }

    method LeaveMutex(light: Hook)
      requires !inHook
      modifies this
      ensures Whole() == old(Whole()).Then(MutexLeave(old(State()), light))
      decreases 2, 0
    {
      ghost var start := Whole();
      if inMutexRefcnt != 0 {
        inMutexRefcnt := inMutexRefcnt - 1;
        moving := 0;
        Note();
        ghost var counted := Becomes(State());
        assert Whole() == start.Then(counted);
        if inMutexRefcnt == 0 {
          HookAround(start, counted, light, In, inside || light.ok);
        }
      }
    }

    /** The real function, and what its success means for the session. */
    ghost method Real(held': multiset<Mutex>, moving': nat)
      modifies `held, `moving, `trace
      ensures Whole() == old(Whole()).Then(Becomes(old(State()).(held := held', moving := moving')))
    {
      held, moving := held', moving';
      Note();
    }

    /** pthread_mutex_lock; pthread_mutex_trylock is the same around the other real function. */
    method PthreadMutexLock(m: Mutex, ok: bool, exit: Hook, light: Hook) returns (ret: bool)
      modifies this
      ensures Whole() == old(Whole()).Then(Lock(old(State()), m, ok, exit, light))
      ensures ret == ok
      decreases if inHook then 0 else 3, 0
    {
      ghost var start, s := Whole(), State();
      ghost var counting := inLve && !inHook;
      if inLve && !inHook {
        EnterMutex(exit);
      }
      ghost var entered := if counting then MutexEnter(s, exit) else Still(s);
      ret := ok;
      Real(if ret && counting then s.held + multiset{m} else s.held, if ret && counting then 0 else moving);
      ghost var tried := Becomes(State());
      ThenAssociates(start, entered, tried);
      assert Whole() == start.Then(entered.Then(tried));
      if !ret && inLve && !inHook {
        ThenAssociates(start, entered.Then(tried), MutexLeave(State(), light));
        LeaveMutex(light);
      }
    }

    method PthreadMutexUnlock(m: Mutex, ok: bool, light: Hook) returns (ret: bool)
      modifies this
      ensures Whole() == old(Whole()).Then(Unlock(old(State()), m, ok, light))
      ensures ret == ok
      decreases if inHook then 0 else 3, 0
    {
      ghost var start := Whole();
      ret := ok;
      Real(if ret && !inHook then held - multiset{m} else held,
           if ret && !inHook && inLve && m in held then 1 else moving);
      ghost var unlocked := Becomes(State());
      assert Whole() == start.Then(unlocked);
      if ret && inLve && !inHook {
        ThenAssociates(start, unlocked, MutexLeave(State(), light));
        LeaveMutex(light);
      }
    }
  }
}
