/** The cap on matches that parallel search workers share (src/server/src/search/engine.rs). */
module SearchCap {
  /** What a worker is about to do. */
  datatype Phase =
    | Idle                       // between directory entries
    | Searching                  // inside a file, between matches
    | Admitted                   // saw room below the cap, has not counted its match yet
    | Counted                    // counted its match, has not sent it yet
    | Refusing(atEntry: bool)    // saw the cap reached, has not recorded it yet
    | Quit

  /**
   * The shared counters, and for the record how many matches were found, refused by the cap,
   * unwanted because the receiver was gone, and lost on the way to it, and how many entries were
   * turned away.
   */
  datatype Machine = Machine(
    max: nat, workers: seq<Phase>, matches: nat, truncated: bool, open: bool,
    found: nat, refused: nat, unwanted: nat, sent: nat, lost: nat, turnedAway: nat)

  datatype Step =
    | Leave(w: nat)
    | TakeFile(w: nat)
    | TurnAway(w: nat)
    | EndFile(w: nat)
    | Admit(w: nat)
    | Refuse(w: nat)
    | Abandon(w: nat)
    | Tally(w: nat)
    | Send(w: nat)
    | Record(w: nat)
    | Close

  ghost predicate Init(m: Machine, max: nat, workers: nat) {
    m == Machine(max, seq(workers, _ => Idle), 0, false, true, 0, 0, 0, 0, 0, 0)
  }

  predicate At(m: Machine, w: nat, phase: Phase) {
    w < |m.workers| && m.workers[w] == phase
  }

  /** Each access to a shared counter is one step; workers interleave freely between steps. */
  ghost predicate Next(m: Machine, step: Step, m': Machine) {
    match step
    case Leave(w) => At(m, w, Idle) && !m.open && m' == m.(workers := m.workers[w := Quit])
    case TakeFile(w) => At(m, w, Idle) && m.matches < m.max && m' == m.(workers := m.workers[w := Searching])
    case TurnAway(w) =>
      && At(m, w, Idle) && m.max <= m.matches
      && m' == m.(workers := m.workers[w := Refusing(true)], turnedAway := m.turnedAway + 1)
    case EndFile(w) => At(m, w, Searching) && m' == m.(workers := m.workers[w := Idle])
    case Admit(w) =>
      && At(m, w, Searching) && m.matches < m.max
      && m' == m.(workers := m.workers[w := Admitted], found := m.found + 1)
    case Refuse(w) =>
      && At(m, w, Searching) && m.max <= m.matches
      && m' == m.(workers := m.workers[w := Refusing(false)], found := m.found + 1, refused := m.refused + 1)
    case Abandon(w) =>
      && At(m, w, Searching) && !m.open
      && m' == m.(workers := m.workers[w := Idle], found := m.found + 1, unwanted := m.unwanted + 1)
    case Tally(w) => At(m, w, Admitted) && m' == m.(workers := m.workers[w := Counted], matches := m.matches + 1)
    case Send(w) =>
      && At(m, w, Counted)
      && m' == if m.open then m.(workers := m.workers[w := Searching], sent := m.sent + 1)
               else m.(workers := m.workers[w := Idle], lost := m.lost + 1)
    case Record(w) =>
      && w < |m.workers| && m.workers[w].Refusing?
      && m' == m.(workers := m.workers[w := if m.workers[w].atEntry then Quit else Idle], truncated := true)
    case Close => m' == m.(open := false)
  }

  ghost predicate Run(states: seq<Machine>, steps: seq<Step>, max: nat, workers: nat) {
    && |states| == |steps| + 1 && Init(states[0], max, workers)
    && forall i | 0 <= i < |steps| :: Next(states[i], steps[i], states[i + 1])
  }

  // ---- the invariant -------------------------------------------------------------------------

  function Number(workers: seq<Phase>, phase: Phase): nat {
    if workers == [] then 0
    else Number(workers[..|workers| - 1], phase) + if workers[|workers| - 1] == phase then 1 else 0
  }

  lemma {:induction false} NumberAfter(workers: seq<Phase>, w: nat, to: Phase, phase: Phase)
    requires w < |workers|
    ensures Number(workers[w := to], phase) + (if workers[w] == phase then 1 else 0) ==
      Number(workers, phase) + if to == phase then 1 else 0
    ensures workers[w] == phase ==> 0 < Number(workers, phase)
  {
    var init := workers[..|workers| - 1];
    if w < |workers| - 1 {
      NumberAfter(init, w, to, phase);
      assert workers[w := to][..|workers| - 1] == init[w := to];
    } else {
      assert workers[w := to][..|workers| - 1] == init;
    }
  }

  lemma {:induction false} NumberBounded(workers: seq<Phase>, phase: Phase)
    ensures Number(workers, phase) <= |workers|
    ensures Number(workers, phase) == 0 <==> forall w | 0 <= w < |workers| :: workers[w] != phase
  {
    if workers != [] {
      NumberBounded(workers[..|workers| - 1], phase);
    }
  }

  ghost predicate Inv(m: Machine) {
    var admitted, counted := Number(m.workers, Admitted), Number(m.workers, Counted);
    var refusing := Number(m.workers, Refusing(true)) + Number(m.workers, Refusing(false));
    && 0 < |m.workers|
    && m.matches + admitted <= m.max + |m.workers| - 1
    && (m.truncated || 0 < refusing ==> m.max <= m.matches)
    && (m.truncated || 0 < refusing <==> 0 < m.refused + m.turnedAway)
    && m.found == m.matches + admitted + m.refused + m.unwanted
    && m.matches == counted + m.sent + m.lost
    && (m.open ==> m.unwanted == 0 && m.lost == 0)
  }

  lemma StepKeepsInv(m: Machine, step: Step, m': Machine)
    requires Inv(m) && 0 < m.max && Next(m, step, m')
    ensures Inv(m') && m'.max == m.max && |m'.workers| == |m.workers|
  {
    match step
    case Close =>
    case Admit(w) => AdmitKeepsInv(m, w, m');
    case Tally(w) => CountKeepsInv(m, step, m');
    case Send(w) => CountKeepsInv(m, step, m');
    case TurnAway(w) => RefusalKeepsInv(m, step, m');
    case Refuse(w) => RefusalKeepsInv(m, step, m');
    case Record(w) => RefusalKeepsInv(m, step, m');
    case _ => WanderKeepsInv(m, step, m');
  }

  /** How the numbers change when one worker changes phase. */
  lemma Moved(workers: seq<Phase>, w: nat, to: Phase)
    requires w < |workers|
    ensures forall p | p in {Admitted, Counted, Refusing(true), Refusing(false)} ::
      Number(workers[w := to], p) + (if workers[w] == p then 1 else 0) == Number(workers, p) + if to == p then 1 else 0
  {
    NumberAfter(workers, w, to, Admitted);
    NumberAfter(workers, w, to, Counted);
    NumberAfter(workers, w, to, Refusing(true));
    NumberAfter(workers, w, to, Refusing(false));
  }

  lemma WanderKeepsInv(m: Machine, step: Step, m': Machine)
    requires Inv(m) && Next(m, step, m') && (step.Leave? || step.TakeFile? || step.EndFile? || step.Abandon?)
    ensures Inv(m') && m'.max == m.max && |m'.workers| == |m.workers|
  {
    Moved(m.workers, step.w, m'.workers[step.w]);
  }

  lemma AdmitKeepsInv(m: Machine, w: nat, m': Machine)
    requires Inv(m) && Next(m, Admit(w), m')
    ensures Inv(m') && m'.max == m.max && |m'.workers| == |m.workers|
  {
    Moved(m.workers, w, Admitted);
    NumberBounded(m'.workers, Admitted);
  }

  lemma CountKeepsInv(m: Machine, step: Step, m': Machine)
    requires Inv(m) && Next(m, step, m') && (step.Tally? || step.Send?)
    ensures Inv(m') && m'.max == m.max && |m'.workers| == |m.workers|
  {
    Moved(m.workers, step.w, m'.workers[step.w]);
  }

  lemma RefusalKeepsInv(m: Machine, step: Step, m': Machine)
    requires Inv(m) && 0 < m.max && Next(m, step, m') && (step.TurnAway? || step.Refuse? || step.Record?)
    ensures Inv(m') && m'.max == m.max && |m'.workers| == |m.workers|
  {
    Moved(m.workers, step.w, m'.workers[step.w]);
    NumberAfter(m.workers, step.w, m'.workers[step.w], m.workers[step.w]);
  }

  lemma {:induction false} RunInv(states: seq<Machine>, steps: seq<Step>, max: nat, workers: nat, i: nat)
    requires Run(states, steps, max, workers) && 0 < max && 0 < workers && i < |states|
    ensures Inv(states[i]) && states[i].max == max && |states[i].workers| == workers
  {
    if i == 0 {
      NumberBounded(states[0].workers, Admitted);
      NumberBounded(states[0].workers, Counted);
      NumberBounded(states[0].workers, Refusing(true));
      NumberBounded(states[0].workers, Refusing(false));
    } else {
      RunInv(states, steps, max, workers, i - 1);
      StepKeepsInv(states[i - 1], steps[i - 1], states[i]);
    }
  }

  // ---- what a search may claim -------------------------------------------------------------------

  /** With W workers the match count never passes max + W - 1. */
  lemma MatchesBounded(states: seq<Machine>, steps: seq<Step>, max: nat, workers: nat, i: nat)
    requires Run(states, steps, max, workers) && 0 < max && 0 < workers && i < |states|
    ensures states[i].matches <= max + workers - 1
  {
    RunInv(states, steps, max, workers, i);
  }

  /** Every worker has run out of entries or quit. */
  ghost predicate Done(m: Machine) {
    forall w | 0 <= w < |m.workers| :: m.workers[w] == Idle || m.workers[w] == Quit
  }

  /**
   * At the end truncated says exactly that the cap turned something away, and only once the cap was
   * reached; and when it is false with the receiver still there, every match found was sent.
   */
  lemma TruncatedIsHonest(states: seq<Machine>, steps: seq<Step>, max: nat, workers: nat, i: nat)
    requires Run(states, steps, max, workers) && 0 < max && 0 < workers && i < |states|
    requires Done(states[i])
    ensures var m := states[i];
      && (m.truncated <==> 0 < m.refused + m.turnedAway)
      && (m.truncated ==> max <= m.matches)
      && (m.open ==> m.sent == m.matches)
      && (m.open && !m.truncated ==> m.sent == m.found)
  {
    RunInv(states, steps, max, workers, i);
    NumberBounded(states[i].workers, Admitted);
    NumberBounded(states[i].workers, Counted);
    NumberBounded(states[i].workers, Refusing(true));
    NumberBounded(states[i].workers, Refusing(false));
  }

  // ---- the bound is met ---------------------------------------------------------------------------

  ghost predicate Reachable(m: Machine, max: nat, workers: nat) {
    exists states: seq<Machine>, steps: seq<Step> ::
      Run(states, steps, max, workers) && states[|states| - 1] == m
  }

  lemma Extend(m: Machine, step: Step, m': Machine, max: nat, workers: nat)
    requires Reachable(m, max, workers) && Next(m, step, m')
    ensures Reachable(m', max, workers)
  {
    var states: seq<Machine>, steps: seq<Step> :| Run(states, steps, max, workers) && states[|states| - 1] == m;
    var longer, more := states + [m'], steps + [step];
    forall i | 0 <= i < |more| ensures Next(longer[i], more[i], longer[i + 1]) {
      if i == |steps| {
        assert longer[i] == m && longer[i + 1] == m';
      }
    }
    assert Run(longer, more, max, workers);
  }

  /** The first i workers in one phase, the others in another. */
  function Front(workers: nat, i: nat, here: Phase, there: Phase): (ws: seq<Phase>)
    ensures |ws| == workers
  {
    seq(workers, w => if w < i then here else there)
  }

  function Stage(max: nat, ws: seq<Phase>, matches: nat, found: nat, sent: nat): Machine {
    Machine(max, ws, matches, false, true, found, 0, 0, sent, 0, 0)
  }

  lemma {:induction false} AllSearching(max: nat, workers: nat, i: nat)
    requires 0 < max && i <= workers
    ensures Reachable(Stage(max, Front(workers, i, Searching, Idle), 0, 0, 0), max, workers)
  {
    if i == 0 {
      var m := Stage(max, Front(workers, 0, Searching, Idle), 0, 0, 0);
      assert m.workers == seq(workers, _ => Idle);
      assert Run([m], [], max, workers);
    } else {
      AllSearching(max, workers, i - 1);
      var m := Stage(max, Front(workers, i - 1, Searching, Idle), 0, 0, 0);
      assert m.workers[i - 1 := Searching] == Front(workers, i, Searching, Idle);
      Extend(m, TakeFile(i - 1), Stage(max, Front(workers, i, Searching, Idle), 0, 0, 0), max, workers);
    }
  }

  lemma {:induction false} OneBelowCap(max: nat, workers: nat, k: nat)
    requires 0 < workers && k < max
    ensures Reachable(Stage(max, Front(workers, workers, Searching, Idle), k, k, k), max, workers)
  {
    if k == 0 {
      AllSearching(max, workers, workers);
    } else {
      OneBelowCap(max, workers, k - 1);
      var ws := Front(workers, workers, Searching, Idle);
      var m0 := Stage(max, ws, k - 1, k - 1, k - 1);
      var m1 := Stage(max, ws[0 := Admitted], k - 1, k, k - 1);
      var m2 := Stage(max, ws[0 := Counted], k, k, k - 1);
      var m3 := Stage(max, ws, k, k, k);
      Extend(m0, Admit(0), m1, max, workers);
      assert m1.workers[0 := Counted] == m2.workers && m2.workers[0 := Searching] == ws;
      Extend(m1, Tally(0), m2, max, workers);
      Extend(m2, Send(0), m3, max, workers);
    }
  }

  lemma {:induction false} AllAdmitted(max: nat, workers: nat, i: nat)
    requires 0 < max && 0 < workers && i <= workers
    ensures Reachable(Stage(max, Front(workers, i, Admitted, Searching), max - 1, max - 1 + i, max - 1), max, workers)
  {
    if i == 0 {
      OneBelowCap(max, workers, max - 1);
      assert Front(workers, workers, Searching, Idle) == Front(workers, 0, Admitted, Searching);
    } else {
      AllAdmitted(max, workers, i - 1);
      var m := Stage(max, Front(workers, i - 1, Admitted, Searching), max - 1, max - 2 + i, max - 1);
      assert m.workers[i - 1 := Admitted] == Front(workers, i, Admitted, Searching);
      Extend(m, Admit(i - 1),
             Stage(max, Front(workers, i, Admitted, Searching), max - 1, max - 1 + i, max - 1), max, workers);
    }
  }

  /** All W workers may see one place left and all take it: the bound max + W - 1 is reached. */
  lemma {:induction false} BoundIsReached(max: nat, workers: nat, i: nat)
    requires 0 < max && 0 < workers && i <= workers
    ensures var m := Stage(max, Front(workers, i, Counted, Admitted), max - 1 + i, max - 1 + workers, max - 1);
      Reachable(m, max, workers) && (i == workers ==> m.matches == max + workers - 1)
  {
    if i == 0 {
      AllAdmitted(max, workers, workers);
      assert Front(workers, workers, Admitted, Searching) == Front(workers, 0, Counted, Admitted);
    } else {
      BoundIsReached(max, workers, i - 1);
      var m := Stage(max, Front(workers, i - 1, Counted, Admitted), max - 2 + i, max - 1 + workers, max - 1);
      assert m.workers[i - 1 := Counted] == Front(workers, i, Counted, Admitted);
      Extend(m, Tally(i - 1),
             Stage(max, Front(workers, i, Counted, Admitted), max - 1 + i, max - 1 + workers, max - 1), max, workers);
    }
  }

  // ---- what the cap stops -----------------------------------------------------------------------

  ghost predicate CanStep(m: Machine, step: Step) { exists m' :: Next(m, step, m') }

  lemma Possible(m: Machine, step: Step, m': Machine)
    requires Next(m, step, m')
    ensures CanStep(m, step)
  {
  }

  /** At an entry and at a match a worker can always go on, and how is decided by the cap alone. */
  lemma CapDecides(m: Machine, w: nat)
    requires w < |m.workers|
    ensures m.workers[w] == Idle ==>
      && (CanStep(m, TakeFile(w)) <==> m.matches < m.max) && (CanStep(m, TurnAway(w)) <==> m.max <= m.matches)
    ensures m.workers[w] == Searching ==>
      && (CanStep(m, Admit(w)) <==> m.matches < m.max) && (CanStep(m, Refuse(w)) <==> m.max <= m.matches)
  {
    var workers := m.workers;
    if workers[w] == Idle && m.matches < m.max {
      Possible(m, TakeFile(w), m.(workers := workers[w := Searching]));
    }
    if workers[w] == Idle && m.max <= m.matches {
      Possible(m, TurnAway(w), m.(workers := workers[w := Refusing(true)], turnedAway := m.turnedAway + 1));
    }
    if workers[w] == Searching && m.matches < m.max {
      Possible(m, Admit(w), m.(workers := workers[w := Admitted], found := m.found + 1));
    }
    if workers[w] == Searching && m.max <= m.matches {
      Possible(m, Refuse(w),
               m.(workers := workers[w := Refusing(false)], found := m.found + 1, refused := m.refused + 1));
    }
  }

  lemma {:induction false} MatchesGrow(states: seq<Machine>, steps: seq<Step>, max: nat, workers: nat, i: nat, j: nat)
    requires Run(states, steps, max, workers) && i <= j < |states|
    ensures states[i].matches <= states[j].matches && states[j].max == max && |states[j].workers| == workers
    decreases j
  {
    if i < j {
      MatchesGrow(states, steps, max, workers, i, j - 1);
      assert Next(states[j - 1], steps[j - 1], states[j]);
    } else if 0 < j {
      MatchesGrow(states, steps, max, workers, j - 1, j - 1);
      assert Next(states[j - 1], steps[j - 1], states[j]);
    }
  }

  /** Once the cap is reached no file is entered and no match is admitted any more. */
  lemma CapStopsWork(states: seq<Machine>, steps: seq<Step>, max: nat, workers: nat, i: nat, j: nat)
    requires Run(states, steps, max, workers) && i <= j < |steps| && max <= states[i].matches
    ensures !steps[j].TakeFile? && !steps[j].Admit?
  {
    MatchesGrow(states, steps, max, workers, i, j);
    assert Next(states[j], steps[j], states[j + 1]);
  }

  ghost predicate Of(step: Step, w: nat) { step != Close && step.w == w }

  /** About to record that it was turned away, or done after that. */
  ghost predicate Away(m: Machine, w: nat) {
    At(m, w, Refusing(true)) || (At(m, w, Quit) && m.truncated)
  }

  lemma StaysAway(m: Machine, step: Step, m': Machine, w: nat)
    requires Away(m, w) && Next(m, step, m')
    ensures Away(m', w) && (Of(step, w) ==> step == Record(w))
  {
  }

  /** A worker turned away at an entry records that and quits; it does nothing else. */
  lemma {:induction false} TurnedAwayQuits(states: seq<Machine>, steps: seq<Step>, max: nat, workers: nat, i: nat,
                                          j: nat, w: nat)
    requires Run(states, steps, max, workers) && i < j < |states| && steps[i] == TurnAway(w)
    ensures Away(states[j], w)
    ensures j < |steps| && Of(steps[j], w) ==> steps[j] == Record(w)
  {
    assert Next(states[j - 1], steps[j - 1], states[j]);
    if i < j - 1 {
      TurnedAwayQuits(states, steps, max, workers, i, j - 1, w);
      StaysAway(states[j - 1], steps[j - 1], states[j], w);
    }
    if j < |steps| {
      StaysAway(states[j], steps[j], states[j + 1], w);
    }
  }

  /** A worker refused inside a file records that, gives up the file, and goes on to the next entry. */
  lemma {:induction false} RefusedLeavesFile(states: seq<Machine>, steps: seq<Step>, max: nat, workers: nat, i: nat,
                                            j: nat, w: nat)
    requires Run(states, steps, max, workers) && i < j < |steps| && steps[i] == Refuse(w)
    requires Of(steps[j], w) && forall k | i < k < j :: !Of(steps[k], w)
    ensures steps[j] == Record(w) && At(states[j + 1], w, Idle) && states[j + 1].truncated
  {
    StaysRefusing(states, steps, max, workers, i, j, w);
    assert Next(states[j], steps[j], states[j + 1]);
  }

  lemma {:induction false} StaysRefusing(states: seq<Machine>, steps: seq<Step>, max: nat, workers: nat, i: nat, j: nat,
                                        w: nat)
    requires Run(states, steps, max, workers) && i < j < |states| && steps[i] == Refuse(w)
    requires forall k | i < k < j :: !Of(steps[k], w)
    ensures At(states[j], w, Refusing(false))
  {
    assert Next(states[j - 1], steps[j - 1], states[j]);
    if i < j - 1 {
      StaysRefusing(states, steps, max, workers, i, j - 1, w);
    }
  }
}
