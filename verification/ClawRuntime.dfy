/** Restart budget of a scheduled agent (src/server/src/claws/runtime.rs). */
module ClawRuntime {
  const MAX_RESTARTS: nat := 3

  datatype Turn = Completed | Died

  /** How an attempt to start afresh goes; the turn is the opening skill's, if there is one. */
  datatype Outcome = ConnectFailed | Connected(opening: Turn)

  datatype Settings = Settings(keepAlive: bool, skipIfRunning: bool, restartOnTrigger: bool, hasSkill: bool)

  /** What the environment does at one scheduled time. */
  datatype Tick = Tick(dead: bool, busy: bool, virgin: Outcome, prompts: seq<Turn>)

  /** Woke: a scheduled time came. Lost: the agent was found dead, or did not come up. */
  datatype Event =
    | Woke
    | Lost
    | Opened(turn: Turn)
    | Prompted(turn: Turn)
    | Attempt(backoffSeconds: nat)
    | GaveUp

  predicate IsDeath(e: Event) { e == Lost || e == Opened(Died) || e == Prompted(Died) }

  predicate IsHealthy(e: Event) { e == Opened(Completed) || e == Prompted(Completed) }

  function Shift(bits: nat): nat {
    if bits == 0 then 1 else 2 * Shift(bits - 1)
  }

  function Backoff(restarts: nat): nat {
    Shift(if restarts < 2 then restarts else 2)
  }

  /** Seconds to wait before the first, second and third attempt of a streak. */
  const DELAYS: seq<nat> := [1, 2, 4]

  // ---- what the runtime does, on values ---------------------------------------------------

  /** asked counts the attempts made, so that env can answer each differently. */
  datatype Status = Status(restarts: nat, asked: nat, alive: bool, trace: seq<Event>)

  predicate Fails(c: Settings, o: Outcome) {
    o == ConnectFailed || (c.hasSkill && o.opening == Died)
  }

  function Noted(s: Status, e: Event): Status {
    Status(s.restarts, s.asked, s.alive, s.trace + [e])
  }

  /** A turn has ended; one that completed resets the streak. */
  function TurnEnded(s: Status, turn: Turn, e: Event): Status {
    Status(if turn == Completed then 0 else s.restarts, s.asked, s.alive, s.trace + [e])
  }

  function GiveUp(s: Status): Status {
    Status(s.restarts, s.asked, false, s.trace + [GaveUp])
  }

  function Tried(s: Status): Status {
    Status(s.restarts + 1, s.asked + 1, s.alive, s.trace + [Attempt(Backoff(s.restarts))])
  }

  /** A fresh connection and its opening turn. */
  function Fresh(c: Settings, s: Status, o: Outcome): Status {
    if o == ConnectFailed then Noted(s, Lost)
    else if c.hasSkill then TurnEnded(s, o.opening, Opened(o.opening))
    else s
  }

  function Chain(c: Settings, env: nat -> Outcome, s: Status): Status
    decreases MAX_RESTARTS - s.restarts, 0
  {
    if !c.keepAlive || MAX_RESTARTS <= s.restarts then GiveUp(s)
    else
      var next := Fresh(c, Tried(s), env(s.asked));
      if Fails(c, env(s.asked)) then Chain(c, env, next) else next
  }

  /** Prompts from the i-th on, given how each turn ends. */
  function Prompts(c: Settings, env: nat -> Outcome, s: Status, prompts: seq<Turn>, i: nat): Status
    decreases |prompts| - i
  {
    if |prompts| <= i then s
    else
      var next := TurnEnded(s, prompts[i], Prompted(prompts[i]));
      if prompts[i] == Completed then Prompts(c, env, next, prompts, i + 1) else Chain(c, env, next)
  }

  function OneTick(c: Settings, env: nat -> Outcome, s: Status, tick: Tick): Status {
    var woken := Noted(s, Woke);
    if tick.dead then Chain(c, env, Noted(woken, Lost))
    else if tick.busy && c.skipIfRunning then woken
    else if !c.restartOnTrigger then Prompts(c, env, woken, tick.prompts, 0)
    else if Fails(c, tick.virgin) then Chain(c, env, Fresh(c, woken, tick.virgin))
    else Prompts(c, env, Fresh(c, woken, tick.virgin), tick.prompts, 0)
  }

  function Started(c: Settings, env: nat -> Outcome, opening: Turn): Status {
    var s := Fresh(c, Status(0, 0, true, []), Connected(opening));
    if c.hasSkill && opening == Died then Chain(c, env, s) else s
  }

  function LoopOf(c: Settings, env: nat -> Outcome, opening: Turn, ticks: seq<Tick>): Status {
    if ticks == [] then Started(c, env, opening)
    else
      var s := LoopOf(c, env, opening, ticks[..|ticks| - 1]);
      if s.alive then OneTick(c, env, s, ticks[|ticks| - 1]) else s
  }

  // ---- the runtime -----------------------------------------------------------------------------

  class Claw {
    const settings: Settings
    const env: nat -> Outcome
    var restarts: nat
    var asked: nat
    var failed: bool
    ghost var trace: seq<Event>

    ghost function Now(): Status
      reads this
    {
      Status(restarts, asked, !failed, trace)
    }

    constructor (settings: Settings, env: nat -> Outcome)
      ensures this.settings == settings && this.env == env
      ensures Now() == Status(0, 0, true, [])
    {
      this.settings, this.env := settings, env;
      restarts, asked, failed, trace := 0, 0, false, [];
    }

    method NoteHealthyTurn()
      modifies this`restarts
      ensures restarts == 0
    {
      restarts := 0;
    }

    ghost method Note(e: Event)
      modifies this`trace
      ensures trace == old(trace) + [e]
    {
      trace := trace + [e];
    }

    method SetError()
      modifies this
      ensures Now() == GiveUp(old(Now()))
    {
      failed := true;
      trace := trace + [GaveUp];
    }

    method OpenSkill(opening: Turn) returns (ok: bool)
      modifies this
      ensures ok == !(settings.hasSkill && opening == Died)
      ensures Now() == Fresh(settings, old(Now()), Connected(opening))
    {
      if !settings.hasSkill {
        return true;
      }
      Note(Opened(opening));
      match opening
      case Completed =>
        NoteHealthyTurn();
        return true;
      case Died => return false;
    }

    /** A fresh connection, and its opening turn if that worked. */
    method Connect(outcome: Outcome) returns (ok: bool)
      modifies this
      ensures ok == !Fails(settings, outcome) && Now() == Fresh(settings, old(Now()), outcome)
    {
      if outcome.ConnectFailed? {
        Note(Lost);
        return false;
      }
      ok := OpenSkill(outcome.opening);
    }

    /** Every failed attempt uses up one of three restarts, so the loop ends by itself. */
    method RespawnChain() returns (live: bool)
      requires !failed
      modifies this
      ensures Now() == Chain(settings, env, old(Now())) && live == !failed
    {
      if !settings.keepAlive {
        SetError();
        return false;
      }
      while true
        invariant !failed && Chain(settings, env, Now()) == Chain(settings, env, old(Now()))
        decreases MAX_RESTARTS - restarts
      {
        if MAX_RESTARTS <= restarts {
          SetError();
          return false;
        }
        ghost var before := Now();
        trace := trace + [Attempt(Backoff(restarts))];
        restarts := restarts + 1;
        var outcome := env(asked);
        asked := asked + 1;
        assert Now() == Tried(before);
        var ok := Connect(outcome);
        if ok {
          return true;
        }
      }
    }

    method RunPrompts(prompts: seq<Turn>) returns (live: bool)
      requires !failed
      modifies this
      ensures Now() == Prompts(settings, env, old(Now()), prompts, 0) && live == !failed
    {
      for i := 0 to |prompts|
        invariant !failed && Prompts(settings, env, Now(), prompts, i) == Prompts(settings, env, old(Now()), prompts, 0)
      {
        Note(Prompted(prompts[i]));
        if prompts[i] == Completed {
          NoteHealthyTurn();
        } else {
          live := RespawnChain();
          return;
        }
      }
      live := true;
    }

    method RunTick(tick: Tick) returns (live: bool)
      requires !failed
      modifies this
      ensures Now() == OneTick(settings, env, old(Now()), tick) && live == !failed
    {
      Note(Woke);
      if tick.dead {
        Note(Lost);
        live := RespawnChain();
        return;
      }
      if tick.busy && settings.skipIfRunning {
        return true;
      }
      if settings.restartOnTrigger {
        var ok := Connect(tick.virgin);
        if !ok {
          live := RespawnChain();
          return;
        }
      }
      live := RunPrompts(tick.prompts);
    }

    method RunLoop(opening: Turn, ticks: seq<Tick>)
      requires Now() == Status(0, 0, true, [])
      modifies this
      ensures Now() == LoopOf(settings, env, opening, ticks)
    {
      var live := OpenSkill(opening);
      if !live {
        live := RespawnChain();
      }
      for i := 0 to |ticks|
        invariant Now() == LoopOf(settings, env, opening, ticks[..i]) && live == !failed
      {
        assert ticks[..i + 1][..i] == ticks[..i];
        if live {
          live := RunTick(ticks[i]);
        }
      }
      assert ticks[..|ticks|] == ticks;
    }
  }

  // ---- the budget --------------------------------------------------------------------------------

  function Attempts(trace: seq<Event>): nat {
    if trace == [] then 0
    else Attempts(trace[..|trace| - 1]) + if trace[|trace| - 1].Attempt? then 1 else 0
  }

  /** Attempts since the last completed turn. */
  function Streak(trace: seq<Event>): nat {
    if trace == [] || IsHealthy(trace[|trace| - 1]) then 0
    else Streak(trace[..|trace| - 1]) + if trace[|trace| - 1].Attempt? then 1 else 0
  }

  /** Since the last scheduled time there was an attempt, or there was no such time yet. */
  predicate Respawned(trace: seq<Event>) {
    trace == [] || trace[|trace| - 1].Attempt? ||
    (trace[|trace| - 1] != Woke && Respawned(trace[..|trace| - 1]))
  }

  predicate EndsInDeath(trace: seq<Event>) { trace != [] && IsDeath(trace[|trace| - 1]) }

  /**
   * What may follow: after a death, and only then, an attempt while restarting is on and the streak
   * in budget, after the delay for its place in the streak, or else giving up; after giving up
   * nothing; and no prompt before the next scheduled time once the agent had to be brought back.
   */
  ghost predicate MayFollow(c: Settings, before: seq<Event>, e: Event) {
    && GaveUp !in before
    && (EndsInDeath(before) <==> e.Attempt? || e.GaveUp?)
    && (e.Attempt? ==> c.keepAlive && Streak(before) < 3 && e.backoffSeconds == DELAYS[Streak(before)])
    && (e.GaveUp? ==> !c.keepAlive || Streak(before) == 3)
    && (e.Prompted? ==> !Respawned(before))
    && (e.Opened? ==> c.hasSkill)
  }

  ghost predicate InBudget(c: Settings, trace: seq<Event>) {
    trace == [] || (InBudget(c, trace[..|trace| - 1]) && MayFollow(c, trace[..|trace| - 1], trace[|trace| - 1]))
  }

  ghost predicate Sound(c: Settings, s: Status) {
    && InBudget(c, s.trace) && s.restarts == Streak(s.trace) <= MAX_RESTARTS
    && (s.alive <==> GaveUp !in s.trace)
  }

  lemma TraceSnoc(c: Settings, trace: seq<Event>, e: Event)
    ensures InBudget(c, trace + [e]) <==> InBudget(c, trace) && MayFollow(c, trace, e)
    ensures Streak(trace + [e]) == if IsHealthy(e) then 0 else Streak(trace) + if e.Attempt? then 1 else 0
    ensures EndsInDeath(trace + [e]) <==> IsDeath(e)
    ensures Respawned(trace + [e]) <==> e.Attempt? || (e != Woke && Respawned(trace))
  {
    assert (trace + [e])[..|trace|] == trace;
  }

  lemma NotedSound(c: Settings, s: Status, e: Event)
    requires Sound(c, s) && s.alive && !EndsInDeath(s.trace) && (e == Woke || e == Lost)
    ensures Sound(c, Noted(s, e)) && (EndsInDeath(Noted(s, e).trace) <==> IsDeath(e))
    ensures Respawned(Noted(s, e).trace) <==> e != Woke && Respawned(s.trace)
  {
    TraceSnoc(c, s.trace, e);
  }

  lemma EndedSound(c: Settings, s: Status, turn: Turn, e: Event)
    requires Sound(c, s) && s.alive && !EndsInDeath(s.trace) && (e == Opened(turn) || e == Prompted(turn))
    requires (e.Prompted? ==> !Respawned(s.trace)) && (e.Opened? ==> c.hasSkill)
    ensures Sound(c, TurnEnded(s, turn, e)) && (EndsInDeath(TurnEnded(s, turn, e).trace) <==> turn == Died)
    ensures Respawned(TurnEnded(s, turn, e).trace) <==> Respawned(s.trace)
  {
    TraceSnoc(c, s.trace, e);
  }

  lemma FreshSound(c: Settings, s: Status, o: Outcome)
    requires Sound(c, s) && s.alive && !EndsInDeath(s.trace)
    ensures var next := Fresh(c, s, o); Sound(c, next) && next.alive && (EndsInDeath(next.trace) <==> Fails(c, o))
    ensures Respawned(Fresh(c, s, o).trace) <==> Respawned(s.trace)
  {
    if o == ConnectFailed {
      NotedSound(c, s, Lost);
    } else if c.hasSkill {
      EndedSound(c, s, o.opening, Opened(o.opening));
    }
  }

  lemma TriedSound(c: Settings, s: Status)
    requires Sound(c, s) && s.alive && EndsInDeath(s.trace) && c.keepAlive && s.restarts < MAX_RESTARTS
    ensures Sound(c, Tried(s)) && !EndsInDeath(Tried(s).trace)
  {
    assert Shift(1) == 2 && Shift(2) == 4;
    TraceSnoc(c, s.trace, Attempt(Backoff(s.restarts)));
  }

  lemma {:induction false} ChainSound(c: Settings, env: nat -> Outcome, s: Status)
    requires Sound(c, s) && s.alive && EndsInDeath(s.trace)
    ensures Sound(c, Chain(c, env, s)) && !EndsInDeath(Chain(c, env, s).trace)
    decreases MAX_RESTARTS - s.restarts
  {
    if !c.keepAlive || MAX_RESTARTS <= s.restarts {
      TraceSnoc(c, s.trace, GaveUp);
    } else {
      TriedSound(c, s);
      FreshSound(c, Tried(s), env(s.asked));
      if Fails(c, env(s.asked)) {
        ChainSound(c, env, Fresh(c, Tried(s), env(s.asked)));
      }
    }
  }

  lemma {:induction false} PromptsSound(c: Settings, env: nat -> Outcome, s: Status, prompts: seq<Turn>, i: nat)
    requires Sound(c, s) && s.alive && !EndsInDeath(s.trace) && !Respawned(s.trace)
    ensures var r := Prompts(c, env, s, prompts, i); Sound(c, r) && !EndsInDeath(r.trace)
    decreases |prompts| - i
  {
    if i < |prompts| {
      EndedSound(c, s, prompts[i], Prompted(prompts[i]));
      var next := TurnEnded(s, prompts[i], Prompted(prompts[i]));
      if prompts[i] == Completed {
        PromptsSound(c, env, next, prompts, i + 1);
      } else {
        ChainSound(c, env, next);
      }
    }
  }

  lemma TickSound(c: Settings, env: nat -> Outcome, s: Status, tick: Tick)
    requires Sound(c, s) && s.alive && !EndsInDeath(s.trace)
    ensures var r := OneTick(c, env, s, tick); Sound(c, r) && !EndsInDeath(r.trace)
  {
    NotedSound(c, s, Woke);
    var woken := Noted(s, Woke);
    if tick.dead {
      NotedSound(c, woken, Lost);
      ChainSound(c, env, Noted(woken, Lost));
    } else if tick.busy && c.skipIfRunning {
    } else if !c.restartOnTrigger {
      PromptsSound(c, env, woken, tick.prompts, 0);
    } else {
      FreshSound(c, woken, tick.virgin);
      if Fails(c, tick.virgin) {
        ChainSound(c, env, Fresh(c, woken, tick.virgin));
      } else {
        PromptsSound(c, env, Fresh(c, woken, tick.virgin), tick.prompts, 0);
      }
    }
  }

  lemma {:induction false} LoopSound(c: Settings, env: nat -> Outcome, opening: Turn, ticks: seq<Tick>)
    ensures var r := LoopOf(c, env, opening, ticks); Sound(c, r) && !EndsInDeath(r.trace)
  {
    if ticks == [] {
      var s := Status(0, 0, true, []);
      FreshSound(c, s, Connected(opening));
      if c.hasSkill && opening == Died {
        ChainSound(c, env, Fresh(c, s, Connected(opening)));
      }
    } else {
      var init, tick := ticks[..|ticks| - 1], ticks[|ticks| - 1];
      LoopSound(c, env, opening, init);
      var s := LoopOf(c, env, opening, init);
      if s.alive {
        TickSound(c, env, s, tick);
      }
    }
  }

  lemma {:induction false} PrefixInBudget(c: Settings, trace: seq<Event>, j: nat)
    requires InBudget(c, trace) && j <= |trace|
    ensures InBudget(c, trace[..j]) && Streak(trace[..j]) <= MAX_RESTARTS
  {
    if j < |trace| {
      PrefixInBudget(c, trace[..|trace| - 1], j);
      assert trace[..|trace| - 1][..j] == trace[..j];
    } else {
      assert trace[..j] == trace;
      StreakInBudget(c, trace);
    }
  }

  lemma {:induction false} StreakInBudget(c: Settings, trace: seq<Event>)
    requires InBudget(c, trace)
    ensures Streak(trace) <= MAX_RESTARTS
  {
    if trace != [] {
      StreakInBudget(c, trace[..|trace| - 1]);
    }
  }

  lemma {:induction false} WindowInStreak(trace: seq<Event>, i: nat)
    requires i <= |trace| && forall k | i <= k < |trace| :: !IsHealthy(trace[k])
    ensures Attempts(trace[i..]) <= Streak(trace)
  {
    if i < |trace| {
      WindowInStreak(trace[..|trace| - 1], i);
      assert trace[i..][..|trace| - 1 - i] == trace[..|trace| - 1][i..];
    }
  }

  /**
   * Whatever the agent and the schedule do, between two completed turns there are at most three
   * attempts to bring the agent back, after 1, 2 and 4 seconds. Every death is answered at once, by
   * an attempt or by giving up, and nothing else is; after giving up nothing more happens.
   */
  lemma RestartBudget(c: Settings, env: nat -> Outcome, opening: Turn, ticks: seq<Tick>, i: nat, j: nat)
    requires i <= j <= |LoopOf(c, env, opening, ticks).trace|
    requires forall k | i <= k < j :: !IsHealthy(LoopOf(c, env, opening, ticks).trace[k])
    ensures Attempts(LoopOf(c, env, opening, ticks).trace[i..j]) <= 3
    ensures InBudget(c, LoopOf(c, env, opening, ticks).trace) && !EndsInDeath(LoopOf(c, env, opening, ticks).trace)
  {
    LoopSound(c, env, opening, ticks);
    var trace := LoopOf(c, env, opening, ticks).trace;
    PrefixInBudget(c, trace, j);
    WindowInStreak(trace[..j], i);
    assert trace[..j][i..] == trace[i..j];
  }

  // ---- what one scheduled time does ------------------------------------------------------------

  lemma {:induction false} ChainGrows(c: Settings, env: nat -> Outcome, s: Status)
    ensures s.trace <= Chain(c, env, s).trace
    decreases MAX_RESTARTS - s.restarts
  {
    if c.keepAlive && s.restarts < MAX_RESTARTS && Fails(c, env(s.asked)) {
      ChainGrows(c, env, Fresh(c, Tried(s), env(s.asked)));
    }
  }

  /** The prompts before the first that dies, and that one, are run in order, and no other. */
  lemma {:induction false} PromptsRun(c: Settings, env: nat -> Outcome, s: Status, prompts: seq<Turn>, i: nat, j: nat)
    requires i <= j <= |prompts| && forall k | i <= k < j :: prompts[k] == Completed
    ensures var trace := Prompts(c, env, s, prompts, i).trace;
      && s.trace <= trace
      && if j == |prompts| then |trace| == |s.trace| + (j - i)
         else |s.trace| + (j - i) < |trace| && trace[|s.trace| + (j - i)] == Prompted(prompts[j])
    decreases |prompts| - i
  {
    if i < |prompts| {
      var next := TurnEnded(s, prompts[i], Prompted(prompts[i]));
      if prompts[i] == Completed {
        PromptsRun(c, env, next, prompts, i + 1, if i < j then j else i + 1);
      } else {
        ChainGrows(c, env, next);
      }
    }
  }

  /**
   * At a scheduled time an agent found dead is mourned first; a running turn skips the time if that
   * is asked for; otherwise, after a fresh connection if that is asked for, the prompts are run.
   */
  lemma TickRuns(c: Settings, env: nat -> Outcome, s: Status, tick: Tick, j: nat)
    requires j <= |tick.prompts| && forall k | 0 <= k < j :: tick.prompts[k] == Completed
    ensures var trace, n := OneTick(c, env, s, tick).trace, |s.trace|;
      && s.trace + [Woke] <= trace
      && if tick.dead then n + 1 < |trace| && trace[n + 1] == Lost
         else if tick.busy && c.skipIfRunning then |trace| == n + 1
         else if c.restartOnTrigger && tick.virgin == ConnectFailed then n + 1 < |trace| && trace[n + 1] == Lost
         else
           var opens := c.restartOnTrigger && c.hasSkill;
           && (opens ==> n + 1 < |trace| && trace[n + 1] == Opened(tick.virgin.opening))
           && (!(opens && tick.virgin.opening == Died) ==>
                 var m := n + (if opens then 2 else 1) + j;
                 if j == |tick.prompts| then |trace| == m
                 else m < |trace| && trace[m] == Prompted(tick.prompts[j]))
  {
    var woken := Noted(s, Woke);
    if tick.dead {
      ChainGrows(c, env, Noted(woken, Lost));
    } else if tick.busy && c.skipIfRunning {
    } else if !c.restartOnTrigger {
      PromptsRun(c, env, woken, tick.prompts, 0, j);
    } else {
      var fresh' := Fresh(c, woken, tick.virgin);
      if Fails(c, tick.virgin) {
        ChainGrows(c, env, fresh');
      } else {
        PromptsRun(c, env, fresh', tick.prompts, 0, j);
      }
    }
  }

  /** A chain gives up exactly when restarting is off or every attempt that is left fails. */
  lemma {:induction false} GivesUpIff(c: Settings, env: nat -> Outcome, s: Status)
    requires s.alive
    ensures !Chain(c, env, s).alive <==>
      !c.keepAlive || forall k | s.asked <= k < s.asked + MAX_RESTARTS - s.restarts :: Fails(c, env(k))
    decreases MAX_RESTARTS - s.restarts
  {
    if c.keepAlive && s.restarts < MAX_RESTARTS && Fails(c, env(s.asked)) {
      GivesUpIff(c, env, Fresh(c, Tried(s), env(s.asked)));
    }
  }
}
