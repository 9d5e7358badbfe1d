/**
 * One turn at a time: prompts, turn tasks and connection teardown racing over one session slot
 * (src/server/src/acp/connection.rs). Each lock section and each emit is one step.
 */
module Turns {
  import opened Wrappers

  datatype State = Idle | Prompting | Closed

  datatype Claim = Won | Busy | Gone

  /** Claiming the turn: one critical section. */
  function Begin(state: State): (State, Claim) {
    match state
    case Idle => (Prompting, Won)
    case Prompting => (Prompting, Busy)
    case Closed => (Closed, Gone)
  }

  class SessionSlot {
    var state: State

    constructor ()
      ensures state == Idle
    {
      state := Idle;
    }

    method BeginTurn() returns (claim: Claim)
      modifies this
      ensures (state, claim) == Begin(old(state))
    {
      match state {
        case Idle =>
          state := Prompting;
          claim := Won;
        case Prompting =>
          claim := Busy;
        case Closed =>
          claim := Gone;
      }
    }
  }

  /** What happens, in order. All but SpawnFailed are events of the session's log. */
  datatype Action =
    | SaidPrompting(turn: nat)
    | TurnEnded(turn: nat, completed: bool)    // TurnComplete, or Error when the prompt failed
    | SaidIdle(turn: nat)
    | SaidClosed
    | SaidConnectionClosed
    | Update
    | SpawnFailed(turn: nat)

  /** A turn task, from its spawn on. */
  datatype Task =
    | Waiting       // for the agent's answer
    | Reported      // the end of the turn is in the log
    | Releasing     // saw the slot still prompting
    | Announcing    // set the slot idle, has not said so yet
    | Done

  /** The command loop: it starts one turn at a time. */
  datatype Loop = Serving | Claimed(turn: nat) | Announced(turn: nat) | Stopped

  /** What is done once the loop has stopped: the slot is closed, that is said, and that the connection is gone. */
  datatype Teardown = NotYet | SlotClosed | ToldClosed | ToldGone

  datatype Machine =
    Machine(state: State, loop: Loop, tasks: map<nat, Task>, turns: nat, trace: seq<Action>, teardown: Teardown)

  datatype Step =
    | Prompt
    | SayPrompting
    | Spawn
    | FailSpawn
    | Report(turn: nat, completed: bool)
    | Check(turn: nat)
    | Release(turn: nat)
    | SayIdle(turn: nat)
    | Stop
    | Close
    | SayClosed
    | SayConnectionClosed
    | Stream

  ghost predicate Init(m: Machine) {
    m == Machine(Idle, Serving, map[], 0, [], NotYet)
  }

  ghost predicate TaskAt(m: Machine, turn: nat, at: Task) {
    turn in m.tasks && m.tasks[turn] == at
  }

  ghost predicate Next(m: Machine, step: Step, m': Machine) {
    match step
    case Prompt =>
      && m.loop == Serving
      && m' == if Begin(m.state).1 == Won
               then m.(state := Begin(m.state).0, loop := Claimed(m.turns), turns := m.turns + 1) else m
    case SayPrompting =>
      m.loop.Claimed? && m' == m.(loop := Announced(m.loop.turn), trace := m.trace + [SaidPrompting(m.loop.turn)])
    case Spawn =>
      m.loop.Announced? && m' == m.(loop := Serving, tasks := m.tasks[m.loop.turn := Waiting])
    case FailSpawn =>
      m.loop.Announced? && m' == m.(loop := Serving, state := Idle, trace := m.trace + [SpawnFailed(m.loop.turn)])
    case Report(t, completed) =>
      TaskAt(m, t, Waiting) && m' == m.(tasks := m.tasks[t := Reported], trace := m.trace + [TurnEnded(t, completed)])
    case Check(t) =>
      TaskAt(m, t, Reported) && m' == m.(tasks := m.tasks[t := if m.state == Prompting then Releasing else Done])
    case Release(t) =>
      TaskAt(m, t, Releasing) && m' == m.(state := Idle, tasks := m.tasks[t := Announcing])
    case SayIdle(t) =>
      TaskAt(m, t, Announcing) && m' == m.(tasks := m.tasks[t := Done], trace := m.trace + [SaidIdle(t)])
    case Stop => m.loop == Serving && m' == m.(loop := Stopped)
    case Close => m.loop == Stopped && m.teardown == NotYet && m' == m.(state := Closed, teardown := SlotClosed)
    case SayClosed => m.teardown == SlotClosed && m' == m.(trace := m.trace + [SaidClosed], teardown := ToldClosed)
    case SayConnectionClosed =>
      m.teardown == ToldClosed && m' == m.(trace := m.trace + [SaidConnectionClosed], teardown := ToldGone)
    case Stream => m' == m.(trace := m.trace + [Update])
  }

  ghost predicate Run(states: seq<Machine>, steps: seq<Step>) {
    && |states| == |steps| + 1 && Init(states[0])
    && forall i | 0 <= i < |steps| :: Next(states[i], steps[i], states[i + 1])
  }

  // ---- the invariant ---------------------------------------------------------------------

  /** The turn holds the slot: claimed, and not yet released. */
  ghost predicate Holds(m: Machine, turn: nat) {
    || ((m.loop.Claimed? || m.loop.Announced?) && m.loop.turn == turn)
    || (turn in m.tasks && (m.tasks[turn] == Waiting || m.tasks[turn] == Reported || m.tasks[turn] == Releasing))
  }

  predicate IsOutcome(a: Action) { a.TurnEnded? || a.SpawnFailed? }

  /** Outcomes since the last SaidPrompting; None before the first. */
  function Outcomes(trace: seq<Action>): Option<nat> {
    if trace == [] then None
    else
      var last, before := trace[|trace| - 1], Outcomes(trace[..|trace| - 1]);
      if last.SaidPrompting? then Some(0)
      else if before.Some? && IsOutcome(last) then Some(before.value + 1)
      else before
  }

  /** The turn announced last. */
  function LastTurn(trace: seq<Action>): Option<nat> {
    if trace == [] then None
    else if trace[|trace| - 1].SaidPrompting? then Some(trace[|trace| - 1].turn)
    else LastTurn(trace[..|trace| - 1])
  }

  ghost predicate Settled(trace: seq<Action>) { Outcomes(trace).None? || Outcomes(trace) == Some(1) }

  /**
   * Every SaidPrompting comes after the previous turn has had its one outcome; each outcome is of the
   * turn announced last.
   */
  ghost predicate Alternates(trace: seq<Action>) {
    if trace == [] then true
    else
      var init, last := trace[..|trace| - 1], trace[|trace| - 1];
      && Alternates(init) && (last.SaidPrompting? ==> Settled(init))
      && (IsOutcome(last) ==> LastTurn(init) == Some(last.turn))
  }

  /** The turn has been announced and its outcome is still to come. */
  ghost predicate PendingTurn(m: Machine, t: nat) {
    (m.loop.Announced? && m.loop.turn == t) || TaskAt(m, t, Waiting)
  }

  ghost predicate Pending(m: Machine) {
    m.loop.Announced? || exists t :: t in m.tasks && m.tasks[t] == Waiting
  }

  ghost predicate Inv(m: Machine) {
    && (forall t, u :: Holds(m, t) && Holds(m, u) ==> t == u)
    && (forall t :: Holds(m, t) ==> m.state != Idle)
    && (forall t :: t in m.tasks ==> t < m.turns)
    && (m.loop.Claimed? || m.loop.Announced? ==> m.loop.turn < m.turns && m.loop.turn !in m.tasks)
    && Alternates(m.trace)
    && (if Pending(m) then Outcomes(m.trace) == Some(0) else Settled(m.trace))
    && (forall t: nat :: PendingTurn(m, t) ==> LastTurn(m.trace) == Some(t))
    && (m.state == Prompting ==> exists t :: Holds(m, t))
    && (m.state == Closed ==> m.loop == Stopped)
  }

  lemma TraceSnoc(trace: seq<Action>, a: Action)
    ensures Alternates(trace + [a]) <==> (Alternates(trace) && (a.SaidPrompting? ==> Settled(trace))
                                          && (IsOutcome(a) ==> LastTurn(trace) == Some(a.turn)))
    ensures LastTurn(trace + [a]) == if a.SaidPrompting? then Some(a.turn) else LastTurn(trace)
    ensures Outcomes(trace + [a]) ==
      if a.SaidPrompting? then Some(0)
      else if Outcomes(trace).Some? && IsOutcome(a) then Some(Outcomes(trace).value + 1)
      else Outcomes(trace)
  {
    assert (trace + [a])[..|trace|] == trace;
  }

  /** No step makes a second holder, or leaves a holder on an idle slot. */
  lemma StepKeepsHolder(m: Machine, step: Step, m': Machine)
    requires Inv(m) && Next(m, step, m')
    ensures forall t, u :: Holds(m', t) && Holds(m', u) ==> t == u
    ensures forall t :: Holds(m', t) ==> m'.state != Idle
  {
    forall t | Holds(m', t)
      ensures Holds(m, t) || (step.Prompt? && m.state == Idle && t == m.turns)
    {
    }
    match step
    case FailSpawn =>
      assert Holds(m, m.loop.turn);
    case Release(t) =>
      assert Holds(m, t);
    case _ =>
  }

  lemma StepKeepsTurns(m: Machine, step: Step, m': Machine)
    requires Inv(m) && Next(m, step, m')
    ensures forall t :: t in m'.tasks ==> t < m'.turns
    ensures m'.loop.Claimed? || m'.loop.Announced? ==> m'.loop.turn < m'.turns && m'.loop.turn !in m'.tasks
  {
  }

  lemma PendingHolds(m: Machine)
    requires Pending(m)
    ensures exists t :: Holds(m, t) && (if m.loop.Announced? then t == m.loop.turn else TaskAt(m, t, Waiting))
  {
    if m.loop.Announced? {
      assert Holds(m, m.loop.turn);
    } else {
      var t :| t in m.tasks && m.tasks[t] == Waiting;
      assert Holds(m, t) && TaskAt(m, t, Waiting);
    }
  }

  /** A turn is waiting for its outcome only while it holds the slot at that stage. */
  lemma NotPending(m: Machine, t: nat)
    requires Inv(m) && Holds(m, t) && !m.loop.Announced? && !TaskAt(m, t, Waiting)
    ensures !Pending(m)
  {
    if Pending(m) {
      PendingHolds(m);
    }
  }

  lemma SameWaiting(m: Machine, t: nat, m': Machine)
    requires m'.loop == m.loop && t in m.tasks && m.tasks[t] != Waiting
    requires t in m'.tasks && m'.tasks == m.tasks[t := m'.tasks[t]] && m'.tasks[t] != Waiting
    ensures Pending(m') <==> Pending(m)
  {
    assert forall u | u in m'.tasks && m'.tasks[u] == Waiting :: u in m.tasks && m.tasks[u] == Waiting;
    assert forall u | u in m.tasks && m.tasks[u] == Waiting :: u in m'.tasks && m'.tasks[u] == Waiting;
  }

  lemma StepKeepsPending(m: Machine, step: Step, m': Machine)
    requires Inv(m) && Next(m, step, m')
    ensures Pending(m') <==>
      match step
      case SayPrompting => true
      case FailSpawn => false
      case Report(_, _) => false
      case _ => Pending(m)
  {
    StepKeepsHolder(m, step, m');
    match step
    case FailSpawn =>
      assert Holds(m, m.loop.turn);
      assert forall u | u in m'.tasks && m'.tasks[u] == Waiting :: Holds(m, u);
    case Report(t, _) =>
      assert Holds(m, t) && Holds(m', t);
      assert m.loop.Announced? ==> Holds(m, m.loop.turn);
      assert forall u | u in m'.tasks && m'.tasks[u] == Waiting :: Holds(m', u);
    case Spawn =>
      assert m'.tasks[m.loop.turn] == Waiting;
    case Check(t) => SameWaiting(m, t, m');
    case Release(t) => SameWaiting(m, t, m');
    case SayIdle(t) => SameWaiting(m, t, m');
    case _ =>
  }

  lemma StepKeepsTrace(m: Machine, step: Step, m': Machine)
    requires Inv(m) && Next(m, step, m')
    ensures Alternates(m'.trace)
    ensures if Pending(m') then Outcomes(m'.trace) == Some(0) else Settled(m'.trace)
  {
    StepKeepsPending(m, step, m');
    assert m.loop.Announced? ==> PendingTurn(m, m.loop.turn);
    if m'.trace != m.trace {
      var a := m'.trace[|m.trace|];
      assert m'.trace == m.trace + [a];
      TraceSnoc(m.trace, a);
    }
    match step
    case SayPrompting =>
      assert Holds(m, m.loop.turn);
      assert !TaskAt(m, m.loop.turn, Waiting);
      NotPending(m, m.loop.turn);
    case FailSpawn => assert Pending(m);
    case Report(t, _) => assert m.tasks[t] == Waiting && Pending(m) && PendingTurn(m, t);
    case _ =>
  }

  /** Only the turn announced last is ever pending. */
  lemma StepKeepsOwner(m: Machine, step: Step, m': Machine)
    requires Inv(m) && Next(m, step, m')
    ensures forall t: nat :: PendingTurn(m', t) ==> LastTurn(m'.trace) == Some(t)
  {
    if m'.trace != m.trace {
      var a := m'.trace[|m.trace|];
      assert m'.trace == m.trace + [a];
      TraceSnoc(m.trace, a);
    }
    StepKeepsHolder(m, step, m');
    forall t: nat | PendingTurn(m', t) ensures LastTurn(m'.trace) == Some(t) {
      assert Holds(m', t);
      if step.SayPrompting? {
        assert Holds(m', m'.loop.turn);
      } else {
        assert PendingTurn(m, t);
      }
    }
  }

  /** A slot that is prompting has a holder: no step takes the one without the other. */
  lemma StepKeepsHeld(m: Machine, step: Step, m': Machine)
    requires Inv(m) && Next(m, step, m')
    ensures m'.state == Prompting ==> exists t :: Holds(m', t)
    ensures m'.state == Closed ==> m'.loop == Stopped
  {
    if m'.state == Prompting {
      var u := if step.Prompt? && m.state == Idle then m.turns else HolderOf(m);
      assert Holds(m', u);
    }
  }

  ghost function HolderOf(m: Machine): (t: nat)
    requires exists t :: Holds(m, t)
    ensures Holds(m, t)
  {
    var t :| Holds(m, t);
    t
  }

  lemma StepKeepsInv(m: Machine, step: Step, m': Machine)
    requires Inv(m) && Next(m, step, m')
    ensures Inv(m')
  {
    StepKeepsHolder(m, step, m');
    StepKeepsTurns(m, step, m');
    StepKeepsTrace(m, step, m');
    StepKeepsOwner(m, step, m');
    StepKeepsHeld(m, step, m');
  }

  lemma {:induction false} RunInv(states: seq<Machine>, steps: seq<Step>, i: nat)
    requires Run(states, steps) && i < |states|
    ensures Inv(states[i])
  {
    if 0 < i {
      RunInv(states, steps, i - 1);
      StepKeepsInv(states[i - 1], steps[i - 1], states[i]);
    }
  }

  // ---- the results ---------------------------------------------------------------------------

  /** At most one turn holds the session, and while one does no prompt can win. */
  lemma OneTurnAtATime(states: seq<Machine>, steps: seq<Step>, i: nat)
    requires Run(states, steps) && i < |states|
    ensures forall t, u :: Holds(states[i], t) && Holds(states[i], u) ==> t == u
    ensures (exists t :: Holds(states[i], t)) ==> Begin(states[i].state).1 != Won
  {
    RunInv(states, steps, i);
  }

  /** Number of outcomes in a stretch of the trace. */
  function CountOutcomes(trace: seq<Action>, lo: nat, hi: nat): nat
    requires lo <= hi <= |trace|
  {
    if lo == hi then 0 else CountOutcomes(trace, lo, hi - 1) + if IsOutcome(trace[hi - 1]) then 1 else 0
  }

  lemma {:induction false} OutcomesSince(trace: seq<Action>, i: nat, j: nat)
    requires i < j <= |trace| && trace[i].SaidPrompting?
    requires forall k | i < k < j :: !trace[k].SaidPrompting?
    ensures Outcomes(trace[..j]) == Some(CountOutcomes(trace, i + 1, j)) && LastTurn(trace[..j]) == Some(trace[i].turn)
  {
    assert trace[..j][..j - 1] == trace[..j - 1];
    if i + 1 < j {
      OutcomesSince(trace, i, j - 1);
    }
  }

  lemma {:induction false} AlternatesAt(trace: seq<Action>, j: nat)
    requires Alternates(trace) && j < |trace|
    ensures trace[j].SaidPrompting? ==> Settled(trace[..j])
    ensures IsOutcome(trace[j]) ==> LastTurn(trace[..j]) == Some(trace[j].turn)
  {
    var init := trace[..|trace| - 1];
    if j == |init| {
      assert trace[..j] == init;
    } else {
      AlternatesAt(init, j);
      assert init[..j] == trace[..j];
    }
  }

  lemma {:induction false} NoneCounted(trace: seq<Action>, lo: nat, hi: nat)
    requires lo <= hi <= |trace| && CountOutcomes(trace, lo, hi) == 0
    ensures forall k | lo <= k < hi :: !IsOutcome(trace[k])
  {
    if lo < hi {
      NoneCounted(trace, lo, hi - 1);
    }
  }

  lemma {:induction false} OneCounted(trace: seq<Action>, lo: nat, hi: nat) returns (k: nat)
    requires lo <= hi <= |trace| && CountOutcomes(trace, lo, hi) == 1
    ensures lo <= k < hi && IsOutcome(trace[k]) && forall l | lo <= l < hi && l != k :: !IsOutcome(trace[l])
  {
    if IsOutcome(trace[hi - 1]) {
      k := hi - 1;
      NoneCounted(trace, lo, hi - 1);
    } else {
      k := OneCounted(trace, lo, hi - 1);
    }
  }

  /**
   * Between the announcement of a turn and the next announcement the log holds exactly one end of
   * a turn, and it is that turn's; or none, and then spawning that very turn failed.
   */
  lemma OneOutcomePerTurn(states: seq<Machine>, steps: seq<Step>, n: nat, i: nat, j: nat) returns (k: nat)
    requires Run(states, steps) && n < |states|
    requires var trace := states[n].trace;
      && i < j < |trace| && trace[i].SaidPrompting? && trace[j].SaidPrompting?
      && forall k | i < k < j :: !trace[k].SaidPrompting?
    ensures var trace := states[n].trace;
      && i < k < j && (trace[k].TurnEnded? || trace[k].SpawnFailed?) && trace[k].turn == trace[i].turn
      && forall l | i < l < j && l != k :: !trace[l].TurnEnded? && !trace[l].SpawnFailed?
  {
    RunInv(states, steps, n);
    var trace := states[n].trace;
    AlternatesAt(trace, j);
    OutcomesSince(trace, i, j);
    k := OneCounted(trace, i + 1, j);
    AlternatesAt(trace, k);
    OutcomesSince(trace, i, k);
  }

  // ---- two races ---------------------------------------------------------------------------

  ghost function StaleIdleRun(): (seq<Machine>, seq<Step>) {
    var t0 := [SaidPrompting(0), TurnEnded(0, true)];
    ([Machine(Idle, Serving, map[], 0, [], NotYet),
      Machine(Prompting, Claimed(0), map[], 1, [], NotYet),
      Machine(Prompting, Announced(0), map[], 1, [SaidPrompting(0)], NotYet),
      Machine(Prompting, Serving, map[0 := Waiting], 1, [SaidPrompting(0)], NotYet),
      Machine(Prompting, Serving, map[0 := Reported], 1, t0, NotYet),
      Machine(Prompting, Serving, map[0 := Releasing], 1, t0, NotYet),
      Machine(Idle, Serving, map[0 := Announcing], 1, t0, NotYet),
      Machine(Prompting, Claimed(1), map[0 := Announcing], 2, t0, NotYet),
      Machine(Prompting, Announced(1), map[0 := Announcing], 2, t0 + [SaidPrompting(1)], NotYet),
      Machine(Prompting, Announced(1), map[0 := Done], 2, t0 + [SaidPrompting(1)] + [SaidIdle(0)], NotYet)],
     [Prompt, SayPrompting, Spawn, Report(0, true), Check(0), Release(0), Prompt, SayPrompting, SayIdle(0)])
  }

  /**
   * Releasing the slot and saying so are separate steps, so the log can say "idle" after it has
   * said that the next turn is running, while that turn holds the slot.
   */
  lemma IdleCanBeSaidLate()
    ensures var (states, steps) := StaleIdleRun();
      && Run(states, steps)
      && var last := states[|states| - 1];
         Holds(last, 1) && last.state == Prompting && last.trace[2..] == [SaidPrompting(1), SaidIdle(0)]
  {
    var (states, steps) := StaleIdleRun();
    forall i | 0 <= i < |steps|
      ensures Next(states[i], steps[i], states[i + 1])
    {
      if i < 4 {
        StaleIdleStart(states, steps, i);
      } else {
        StaleIdleEnd(states, steps, i);
      }
    }
  }

  lemma StaleIdleStart(states: seq<Machine>, steps: seq<Step>, i: nat)
    requires (states, steps) == StaleIdleRun() && i < 4
    ensures Next(states[i], steps[i], states[i + 1])
  {
    var none: seq<Action> := [];
    assert none + [SaidPrompting(0)] == [SaidPrompting(0)];
    assert [SaidPrompting(0)] + [TurnEnded(0, true)] == [SaidPrompting(0), TurnEnded(0, true)];
  }

  lemma StaleIdleEnd(states: seq<Machine>, steps: seq<Step>, i: nat)
    requires (states, steps) == StaleIdleRun() && 4 <= i < |steps|
    ensures Next(states[i], steps[i], states[i + 1])
  {
  }

  ghost function ClosedIdleRun(): (seq<Machine>, seq<Step>) {
    var (states, steps) := StaleIdleRun();
    var said := states[8].trace;
    (states[..9] +
     [Machine(Prompting, Serving, map[0 := Announcing, 1 := Waiting], 2, said, NotYet),
      Machine(Prompting, Stopped, map[0 := Announcing, 1 := Waiting], 2, said, NotYet),
      Machine(Closed, Stopped, map[0 := Announcing, 1 := Waiting], 2, said, SlotClosed),
      Machine(Closed, Stopped, map[0 := Done, 1 := Waiting], 2, said + [SaidIdle(0)], SlotClosed)],
     steps[..8] + [Spawn, Stop, Close, SayIdle(0)])
  }

  /** "Idle" can also be said of a closed slot, while a turn that was cut off by the teardown still holds it. */
  lemma IdleCanBeSaidWhenClosed()
    ensures var (states, steps) := ClosedIdleRun();
      && Run(states, steps) && steps[11] == SayIdle(0)
      && states[11].state == Closed && Holds(states[11], 1)
  {
    var (states, steps) := ClosedIdleRun();
    IdleCanBeSaidLate();
    forall i | 0 <= i < |steps|
      ensures Next(states[i], steps[i], states[i + 1])
    {
      if i < 8 {
        assert Next(StaleIdleRun().0[i], StaleIdleRun().1[i], StaleIdleRun().0[i + 1]);
      }
    }
  }

  ghost function ReopenRun(): (seq<Machine>, seq<Step>) {
    var t0 := [SaidPrompting(0), TurnEnded(0, false)];
    ([Machine(Idle, Serving, map[], 0, [], NotYet),
      Machine(Prompting, Claimed(0), map[], 1, [], NotYet),
      Machine(Prompting, Announced(0), map[], 1, [SaidPrompting(0)], NotYet),
      Machine(Prompting, Serving, map[0 := Waiting], 1, [SaidPrompting(0)], NotYet),
      Machine(Prompting, Serving, map[0 := Reported], 1, t0, NotYet),
      Machine(Prompting, Serving, map[0 := Releasing], 1, t0, NotYet),
      Machine(Prompting, Stopped, map[0 := Releasing], 1, t0, NotYet),
      Machine(Closed, Stopped, map[0 := Releasing], 1, t0, SlotClosed),
      Machine(Idle, Stopped, map[0 := Announcing], 1, t0, SlotClosed)],
     [Prompt, SayPrompting, Spawn, Report(0, false), Check(0), Stop, Close, Release(0)])
  }

  /** Checking the slot and setting it are separate steps, so a closed slot can become idle again. */
  lemma ClosedCanReopen()
    ensures var (states, steps) := ReopenRun();
      Run(states, steps) && states[7].state == Closed && states[8].state == Idle
  {
    var (states, steps) := ReopenRun();
    forall i | 0 <= i < |steps|
      ensures Next(states[i], steps[i], states[i + 1])
    {
      if i < 4 {
        ReopenStart(states, steps, i);
      } else {
        ReopenEnd(states, steps, i);
      }
    }
  }

  lemma ReopenStart(states: seq<Machine>, steps: seq<Step>, i: nat)
    requires (states, steps) == ReopenRun() && i < 4
    ensures Next(states[i], steps[i], states[i + 1])
  {
    var none: seq<Action> := [];
    assert none + [SaidPrompting(0)] == [SaidPrompting(0)];
    assert [SaidPrompting(0)] + [TurnEnded(0, false)] == [SaidPrompting(0), TurnEnded(0, false)];
  }

  lemma ReopenEnd(states: seq<Machine>, steps: seq<Step>, i: nat)
    requires (states, steps) == ReopenRun() && 4 <= i < |steps|
    ensures Next(states[i], steps[i], states[i + 1])
  {
  }

  // ---- exactly when the races happen ----------------------------------------------------------

  /** Steps from any machine on. */
  ghost predicate Path(states: seq<Machine>, steps: seq<Step>) {
    |states| == |steps| + 1 && forall i | 0 <= i < |steps| :: Next(states[i], steps[i], states[i + 1])
  }

  /** Whatever happens next, a closed slot stays closed. */
  ghost predicate StaysClosed(m: Machine) {
    forall states: seq<Machine>, steps: seq<Step>, i: nat | Path(states, steps) && states[0] == m && i < |states| ::
      states[i].state == Closed
  }

  /** Whatever happens next, "idle" is not said again. */
  ghost predicate SaysNoMoreIdle(m: Machine) {
    forall states: seq<Machine>, steps: seq<Step>, i: nat | Path(states, steps) && states[0] == m && i < |steps| ::
      !steps[i].SayIdle?
  }

  lemma {:induction false} ClosedPath(states: seq<Machine>, steps: seq<Step>, i: nat)
    requires Path(states, steps) && i < |states|
    requires states[0].loop == Stopped && states[0].state == Closed
    requires forall t: nat :: !TaskAt(states[0], t, Releasing)
    ensures states[i].loop == Stopped && states[i].state == Closed && forall t: nat :: !TaskAt(states[i], t, Releasing)
    ensures (forall t: nat :: !TaskAt(states[0], t, Announcing)) ==> forall t: nat :: !TaskAt(states[i], t, Announcing)
  {
    if 0 < i {
      ClosedPath(states, steps, i - 1);
      assert Next(states[i - 1], steps[i - 1], states[i]);
      assert forall t: nat | TaskAt(states[i], t, Releasing) :: TaskAt(states[i - 1], t, Releasing);
      assert forall t: nat | TaskAt(states[i], t, Announcing) :: TaskAt(states[i - 1], t, Announcing);
    }
  }

  function Released(m: Machine, t: nat): Machine {
    m.(state := Idle, tasks := m.tasks[t := Announcing])
  }

  function SaidSo(m: Machine, t: nat): Machine {
    m.(tasks := m.tasks[t := Done], trace := m.trace + [SaidIdle(t)])
  }

  /**
   * A session that has been closed is never reopened exactly when, at that moment, no turn task
   * stands between its check of the slot and its write to it.
   */
  lemma StaysClosedIff(m: Machine)
    requires m.loop == Stopped && m.state == Closed
    ensures StaysClosed(m) <==> forall t: nat :: !TaskAt(m, t, Releasing)
  {
    if t: nat :| TaskAt(m, t, Releasing) {
      var states, steps := [m, Released(m, t)], [Release(t)];
      assert Path(states, steps) && states[1].state == Idle;
    } else {
      forall states: seq<Machine>, steps: seq<Step>, i: nat | Path(states, steps) && states[0] == m && i < |states|
        ensures states[i].state == Closed
      {
        ClosedPath(states, steps, i);
      }
    }
  }

  /** "Idle" is never logged of a closed session exactly when no turn task is past its check with something to say. */
  lemma SaysNoMoreIdleIff(m: Machine)
    requires m.loop == Stopped && m.state == Closed
    ensures SaysNoMoreIdle(m) <==> forall t: nat :: !TaskAt(m, t, Releasing) && !TaskAt(m, t, Announcing)
  {
    if t: nat :| TaskAt(m, t, Announcing) {
      assert Path([m, SaidSo(m, t)], [SayIdle(t)]) && [SayIdle(t)][0].SayIdle?;
    } else if t: nat :| TaskAt(m, t, Releasing) {
      var m' := Released(m, t);
      assert TaskAt(m', t, Announcing);
      assert Path([m, m', SaidSo(m', t)], [Release(t), SayIdle(t)]) && [Release(t), SayIdle(t)][1].SayIdle?;
    } else {
      forall states: seq<Machine>, steps: seq<Step>, i: nat | Path(states, steps) && states[0] == m && i < |steps|
        ensures !steps[i].SayIdle?
      {
        ClosedPath(states, steps, i);
        assert Next(states[i], steps[i], states[i + 1]);
      }
    }
  }

  /**
   * What "idle" is worth when it is said. It is true of the slot exactly when the slot has not been
   * closed and no turn holds it; unless it has been closed, it is false exactly when a next turn
   * holds it by then, and that is exactly when the slot is prompting again.
   */
  lemma IdleIsTimelyIff(states: seq<Machine>, steps: seq<Step>, i: nat)
    requires Run(states, steps) && i < |steps| && steps[i].SayIdle?
    ensures var m := states[i];
      && (m.state == Idle <==> m.state != Closed && !exists t :: Holds(m, t))
      && (m.state == Prompting <==> m.state != Closed && exists t :: Holds(m, t))
      && (m.state == Closed ==> m.loop == Stopped)
      && states[i + 1].state == m.state && states[i + 1].trace == m.trace + [SaidIdle(steps[i].turn)]
  {
    RunInv(states, steps, i);
    assert Next(states[i], steps[i], states[i + 1]);
  }

  /** ... but no prompt is served any more: the last announced turn stays the last. */
  lemma {:induction false} NoTurnAfterStop(states: seq<Machine>, steps: seq<Step>, i: nat, j: nat)
    requires Run(states, steps) && i <= j < |states| && states[i].loop == Stopped
    ensures states[j].loop == Stopped && states[j].turns == states[i].turns
    ensures states[i].trace <= states[j].trace
    ensures forall k | |states[i].trace| <= k < |states[j].trace| :: !states[j].trace[k].SaidPrompting?
  {
    if i < j {
      NoTurnAfterStop(states, steps, i, j - 1);
      assert Next(states[j - 1], steps[j - 1], states[j]);
    }
  }

  // ---- the end of the log -----------------------------------------------------------------------

  predicate IsFarewell(a: Action) { a == SaidClosed || a == SaidConnectionClosed }

  /** The only farewells in the log are "closed", there at c, and "gone", there at g, if they are given. */
  ghost predicate Farewells(trace: seq<Action>, c: Option<nat>, g: Option<nat>) {
    && (c.Some? ==> c.value < |trace| && trace[c.value] == SaidClosed)
    && (g.Some? ==> c.Some? && c.value < g.value < |trace| && trace[g.value] == SaidConnectionClosed)
    && (forall k: nat | k < |trace| && IsFarewell(trace[k]) :: Some(k) == c || Some(k) == g)
    && (c.Some? ==> forall k | c.value < k < |trace| :: !trace[k].SaidPrompting?)
  }

  lemma {:induction false} RunFarewells(states: seq<Machine>, steps: seq<Step>, n: nat)
      returns (c: Option<nat>, g: Option<nat>)
    requires Run(states, steps) && n < |states|
    ensures var m := states[n];
      && Farewells(m.trace, c, g)
      && (c.Some? <==> m.teardown == ToldClosed || m.teardown == ToldGone) && (g.Some? <==> m.teardown == ToldGone)
      && (m.teardown != NotYet ==> m.loop == Stopped)
  {
    c, g := None, None;
    if 0 < n {
      c, g := RunFarewells(states, steps, n - 1);
      var m, step := states[n - 1], steps[n - 1];
      assert Next(m, step, states[n]);
      if step == SayClosed {
        c := Some(|m.trace|);
      } else if step == SayConnectionClosed {
        g := Some(|m.trace|);
      }
    }
  }

  /**
   * The log ends with "closed" and then "connection closed", each at most once and the second only
   * after the first; no turn is announced after either.
   */
  lemma FarewellsInOrder(states: seq<Machine>, steps: seq<Step>, n: nat, i: nat, j: nat)
    requires Run(states, steps) && n < |states| && i < j < |states[n].trace|
    ensures var trace := states[n].trace;
      && (IsFarewell(trace[i]) ==> !trace[j].SaidPrompting?)
      && (IsFarewell(trace[i]) && IsFarewell(trace[j]) ==> trace[i] == SaidClosed && trace[j] == SaidConnectionClosed)
      && (trace[j] == SaidConnectionClosed ==> exists k :: 0 <= k < j && trace[k] == SaidClosed)
  {
    var c, g := RunFarewells(states, steps, n);
  }
}
