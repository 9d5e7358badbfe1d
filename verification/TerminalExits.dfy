/** What a terminal client may conclude from being told of the exit, and when it is never told. */
module TerminalExits {
  import opened Chunks
  import opened Scrollback
  import opened TerminalSocket
  import opened TerminalProtocol
  import opened TerminalExactlyOnce
  import Pump

  /** Steps from any system on. */
  ghost predicate Path(states: seq<System>, steps: seq<Step>) {
    && |states| == |steps| + 1
    && forall i | 0 <= i < |steps| :: states[i].server.hist.Valid() && Next(states[i], steps[i], states[i + 1])
  }

  /** The client's connection is not dropped in a stretch of the steps. */
  predicate Kept(steps: seq<Step>, lo: nat, hi: nat, id: nat) {
    hi <= |steps| && forall k | lo <= k < hi :: steps[k] != Drop(id)
  }

  /** What has happened for good: the end of input, and the broadcast of the exit. */
  lemma {:induction false} PathServer(states: seq<System>, steps: seq<Step>, i: nat)
    requires Path(states, steps) && i < |states| && Inv(states[0])
    ensures Inv(states[i])
    ensures var s, s' := states[0].server, states[i].server;
      && (s.eof ==> s'.eof && s'.input == s.input && s'.hist.all == s.hist.all)
      && (s.exitSent ==> s'.exitSent)
  {
    if 0 < i {
      PathServer(states, steps, i - 1);
      assert Next(states[i - 1], steps[i - 1], states[i]);
      StepKeepsInv(states[i - 1], steps[i - 1], states[i]);
    }
  }

  lemma RunIsPath(states: seq<System>, steps: seq<Step>, i: nat)
    requires Run(states, steps) && i < |states|
    ensures Inv(states[i]) && Path(states[i..], steps[i..])
  {
    RunInv(states, steps, i);
    forall k | 0 <= k < |steps[i..]|
      ensures states[i..][k].server.hist.Valid() && Next(states[i..][k], steps[i..][k], states[i..][k + 1])
    {
      assert states[i..][k] == states[i + k] && states[i..][k + 1] == states[i + k + 1];
      assert steps[i..][k] == steps[i + k];
    }
  }

  // ---- the exit relayed from the broadcast -----------------------------------------------------

  /** The client has been sent everything the shell ever writes, and the exit after it. */
  ghost predicate SentAll(s: System, id: nat) {
    && s.server.eof && id in s.sessions && s.sessions[id].conn.Draining?
    && s.sessions[id].conn.cursor == |s.server.input|
  }

  lemma {:induction false} SentAllStays(states: seq<System>, steps: seq<Step>, i: nat, id: nat)
    requires Path(states, steps) && i < |states| && Inv(states[0]) && SentAll(states[0], id) && Kept(steps, 0, i, id)
    ensures SentAll(states[i], id)
  {
    if 0 < i {
      SentAllStays(states, steps, i - 1, id);
      assert Next(states[i - 1], steps[i - 1], states[i]) && steps[i - 1] != Drop(id);
    }
  }

  lemma RelayedExitSendsAll(s: System, s': System, id: nat)
    requires Inv(s) && Inv(s') && Next(s, Relay(id), s') && s'.sessions[id].conn.Draining?
    ensures SentAll(s', id) && s'.server.hist.Output() == s'.server.input == s.server.input
  {
    FlattenLength(s.server.hist.all);
    assert s.server.hist.Output() + [] == s.server.input;
  }

  lemma SentAllArrives(s: System, id: nat)
    requires Inv(s) && SentAll(s, id)
    ensures var c := s.sessions[id];
      && WireOk(s.server.hist, c.conn.wire, c.client.cursor, |s.server.input|)
      && (c.conn.wire == [] ==> c.client.cursor == |s.server.input|)
  {
  }

  /**
   * When the exit reaches a client through the broadcast, nothing is written ever after, and for as
   * long as the connection is kept what is in flight takes the client to the end of all that the
   * shell wrote: once it is delivered, the client's cursor is there.
   */
  lemma RelayedExitIsLast(states: seq<System>, steps: seq<Step>, i: nat, id: nat, j: nat)
    requires Run(states, steps) && i < j < |states| && steps[i] == Relay(id)
    requires states[i + 1].sessions[id].conn.Draining?
    ensures states[j].server.input == states[i].server.input == states[j].server.hist.Output()
    ensures Kept(steps, i + 1, j, id) ==>
      && states[j].server.hist.Valid() && id in states[j].sessions
      && var c := states[j].sessions[id];
         && c.conn.Draining? && WireOk(states[j].server.hist, c.conn.wire, c.client.cursor, |states[j].server.input|)
         && (c.conn.wire == [] ==> c.client.cursor == |states[j].server.input|)
  {
    RunInv(states, steps, i);
    RunIsPath(states, steps, i + 1);
    RelayedExitSendsAll(states[i], states[i + 1], id);
    PathServer(states[i + 1..], steps[i + 1..], j - i - 1);
    if Kept(steps, i + 1, j, id) {
      SentAllStays(states[i + 1..], steps[i + 1..], j - i - 1, id);
      SentAllArrives(states[j], id);
    }
  }

  // ---- the exit found on attach ------------------------------------------------------------------

  /** Whatever happens next, no more output is published. */
  ghost predicate OutputIsFinal(s: System) {
    forall states: seq<System>, steps: seq<Step>, j: nat | Path(states, steps) && states[0] == s && j < |states| ::
      states[j].server.hist.Output() == s.server.hist.Output()
  }

  /** Pruning always has an outcome. */
  lemma PruneExists(all: seq<Bytes>, d: nat, rolling: nat, prune: nat) returns (d': nat)
    requires d <= |all|
    ensures Pruned(all, d, d', rolling, prune)
  {
    d' := d;
    if prune < Total(all) - Offset(all, d) {
      while rolling < Total(all) - Offset(all, d')
        invariant d <= d' <= |all|
        invariant d < d' ==> rolling < Total(all) - Offset(all, d' - 1)
        decreases |all| - d'
      {
        d' := d' + 1;
      }
    }
  }

  /** The pump can always take an arrival. */
  lemma StoreExists(s: Server, arrival: Pump.Arrival) returns (s': Server)
    requires s.Valid()
    ensures Stored(s, arrival, s') && s' == s.(leftover := s'.leftover, hist := s'.hist)
  {
    var p := Pump.PumpStep(Pump.Held(s.hist.all, s.leftover), arrival);
    Pump.StepConserves(Pump.Held(s.hist.all, s.leftover), arrival);
    var d := s.hist.dropped;
    if p.published != s.hist.all {
      d := PruneExists(p.published, d, s.rolling, s.prune);
    }
    s' := s.(leftover := p.leftover, hist := History(p.published, d));
  }

  /** One more character from the shell is published at once, with whatever was held back. */
  lemma MoreOutputExists(s: Server) returns (s': Server)
    requires s.Valid() && !s.eof
    ensures ServerStep(s, Arrive(Pump.Read([0x41])), s') && s'.hist.Output() != s.hist.Output()
  {
    var more := Pump.Read([0x41]);
    var stored := StoreExists(s, more);
    s' := stored.(input := s.input + [0x41]);
    var buf := s.leftover + [0x41];
    assert buf[|buf| - 1] == 0x41 && buf[..|buf|] == buf;
    FlattenSnoc(s.hist.all, buf);
  }

  /**
   * An exit found on attach is different: the exit status is set by another thread, possibly before
   * the last output is published. A client told so is sure that what it has then is all there will
   * ever be exactly when the pump had already finished reading.
   */
  lemma ExitOnAttachIsFinalIffDrained(states: seq<System>, steps: seq<Step>, i: nat, id: nat)
    requires Run(states, steps) && i < |steps| && steps[i] == LookAtExit(id) && states[i].server.reaped
    ensures id in states[i + 1].sessions && states[i + 1].sessions[id].conn.Draining?
    ensures OutputIsFinal(states[i + 1]) <==> states[i + 1].server.eof
  {
    RunInv(states, steps, i + 1);
    assert Next(states[i], steps[i], states[i + 1]);
    FinalIffDrained(states[i + 1]);
  }

  lemma FinalIffDrained(s: System)
    requires Inv(s)
    ensures OutputIsFinal(s) <==> s.server.eof
  {
    if s.server.eof {
      forall states: seq<System>, steps: seq<Step>, j: nat | Path(states, steps) && states[0] == s && j < |states|
        ensures states[j].server.hist.Output() == s.server.hist.Output()
      {
        PathServer(states, steps, j);
      }
    } else {
      var server := MoreOutputExists(s.server);
      var s' := s.(server := server);
      OneStep(s, Arrive(Pump.Read([0x41])), s');
      NotFinal([s, s'], [Arrive(Pump.Read([0x41]))], 1);
    }
  }

  lemma OneStep(s: System, step: Step, s': System)
    requires s.server.hist.Valid() && Next(s, step, s')
    ensures Path([s, s'], [step])
  {
  }

  lemma NotFinal(states: seq<System>, steps: seq<Step>, j: nat)
    requires Path(states, steps) && j < |states|
    requires states[j].server.hist.Output() != states[0].server.hist.Output()
    ensures !OutputIsFinal(states[0])
  {
  }

  // ---- the exit and lag ---------------------------------------------------------------------------

  /** A step that ends what has been sent to the client with the exit. */
  ghost predicate Tells(s: System, s': System, id: nat) {
    && id in s.sessions && id in s'.sessions
    && !s.sessions[id].conn.Offline? && !s'.sessions[id].conn.Offline?
    && var wire, wire' := s.sessions[id].conn.wire, s'.sessions[id].conn.wire;
       wire < wire' && wire'[|wire'| - 1] == Exited
  }

  /** In some continuation the connection, without ever being dropped, is sent the exit. */
  ghost predicate CanBeTold(s: System, id: nat) {
    exists states: seq<System>, steps: seq<Step> ::
      && Path(states, steps) && states[0] == s && steps != [] && Kept(steps, 0, |steps|, id)
      && Tells(states[|steps| - 1], states[|steps|], id)
  }

  /** The exit has been broadcast and the connection will not receive it: it is past it. */
  ghost predicate PastExit(s: System, id: nat) {
    s.server.exitSent && id in s.sessions && s.sessions[id].conn.Live? && s.sessions[id].conn.next == s.server.Count()
  }

  lemma {:induction false} PastExitStays(states: seq<System>, steps: seq<Step>, i: nat, id: nat)
    requires Path(states, steps) && i < |states| && Inv(states[0]) && PastExit(states[0], id) && Kept(steps, 0, i, id)
    ensures PastExit(states[i], id)
    ensures 0 < i ==> !Tells(states[i - 1], states[i], id)
  {
    if 0 < i {
      PastExitStays(states, steps, i - 1, id);
      PathServer(states, steps, i - 1);
      PastExitStep(states[i - 1], steps[i - 1], states[i], id);
    }
  }

  lemma PastExitStep(s: System, step: Step, s': System, id: nat)
    requires Inv(s) && PastExit(s, id) && Next(s, step, s') && step != Drop(id)
    ensures PastExit(s', id) && !Tells(s, s', id)
  {
    if step == Deliver(id) {
      assert |s'.sessions[id].conn.wire| < |s.sessions[id].conn.wire|;
    }
  }

  lemma CanBeToldBefore(s: System, step: Step, s': System, id: nat)
    requires s.server.hist.Valid() && Next(s, step, s') && step != Drop(id) && CanBeTold(s', id)
    ensures CanBeTold(s, id)
  {
    var states: seq<System>, steps: seq<Step> :|
      && Path(states, steps) && states[0] == s' && steps != [] && Kept(steps, 0, |steps|, id)
      && Tells(states[|steps| - 1], states[|steps|], id);
    PathCons(s, step, states, steps);
    LongerTells(s, step, states, steps, id);
  }

  lemma LongerTells(s: System, step: Step, states: seq<System>, steps: seq<Step>, id: nat)
    requires |states| == |steps| + 1 && steps != [] && step != Drop(id) && Kept(steps, 0, |steps|, id)
    requires Path([s] + states, [step] + steps) && Tells(states[|steps| - 1], states[|steps|], id)
    ensures CanBeTold(s, id)
  {
    var longer, more := [s] + states, [step] + steps;
    assert forall k | 0 < k < |more| :: more[k] == steps[k - 1];
    assert Kept(more, 0, |more|, id) && longer[0] == s;
    assert longer[|more| - 1] == states[|steps| - 1] && longer[|more|] == states[|steps|];
  }

  lemma PathCons(s: System, step: Step, states: seq<System>, steps: seq<Step>)
    requires Path(states, steps) && s.server.hist.Valid() && Next(s, step, states[0])
    ensures Path([s] + states, [step] + steps)
  {
    var longer, more := [s] + states, [step] + steps;
    forall i | 0 <= i < |more| ensures longer[i].server.hist.Valid() && Next(longer[i], more[i], longer[i + 1]) {
      assert 0 < i ==> longer[i] == states[i - 1] && more[i] == steps[i - 1] && longer[i + 1] == states[i];
    }
  }

  lemma ToldNow(s: System, step: Step, s': System, id: nat)
    requires s.server.hist.Valid() && Next(s, step, s') && step != Drop(id) && Tells(s, s', id)
    ensures CanBeTold(s, id)
  {
    var states, steps := [s, s'], [step];
    assert Path(states, steps) && Kept(steps, 0, |steps|, id) && Tells(states[|steps| - 1], states[|steps|], id);
  }

  /** The system after the connection has received the next event. */
  ghost function Relayed(s: System, id: nat): System
    requires id in s.sessions && s.sessions[id].conn.Live?
  {
    var c := s.sessions[id];
    var conn :=
      if c.conn.next < |s.server.hist.all| then
        Live(Offset(s.server.hist.all, c.conn.next + 1), c.conn.next + 1,
             c.conn.wire + [Binary(s.server.hist.all[c.conn.next])])
      else Draining(c.conn.cursor, c.conn.wire + [Exited]);
    s.(sessions := s.sessions[id := c.(conn := conn)])
  }

  /** How far the server and the connection are from the exit being relayed. */
  ghost function Ahead(s: System, id: nat): nat
    requires id in s.sessions && s.sessions[id].conn.Live?
  {
    if s.sessions[id].conn.next < |s.server.hist.all| then |s.server.hist.all| - s.sessions[id].conn.next else 0
  }

  /** The connection is live and not past the exit. */
  ghost predicate Hopeful(s: System, id: nat) {
    Inv(s) && id in s.sessions && s.sessions[id].conn.Live? && !PastExit(s, id)
  }

  /** Until the exit has been broadcast the server can take a step towards it. */
  lemma ServerGoesOn(s: System, id: nat) returns (step: Step, server: Server)
    requires Hopeful(s, id) && !(s.server.eof && s.server.reaped && s.server.exitSent)
    ensures step == EndOfInput || step == Reap || step == BroadcastExit
    ensures ServerStep(s.server, step, server) && |s.server.hist.all| <= |server.hist.all|
    ensures !server.exitSent || |s.server.hist.all| == |server.hist.all|
    ensures s.server.eof ==> server.eof
    ensures if !s.server.eof then server.eof
            else if !s.server.reaped then server.reaped && server.exitSent == s.server.exitSent
            else server.reaped && server.exitSent && !s.server.exitSent
  {
    if !s.server.eof {
      step := EndOfInput;
      server := StoreExists(s.server, Pump.Quiet);
      server := server.(eof := true);
    } else if !s.server.reaped {
      step, server := Reap, s.server.(reaped := true);
    } else {
      step, server := BroadcastExit, s.server.(exitSent := true);
    }
  }

  /** A live connection that is not past the exit is sent it if things go on. */
  lemma {:induction false} NotPastIsTold(s: System, id: nat)
    requires Hopeful(s, id)
    ensures CanBeTold(s, id)
    decreases !s.server.eof, !s.server.reaped, !s.server.exitSent, Ahead(s, id)
  {
    if !(s.server.eof && s.server.reaped && s.server.exitSent) {
      var step, server := ServerGoesOn(s, id);
      var s' := s.(server := server);
      StepKeepsInv(s, step, s');
      NotPastIsTold(s', id);
      CanBeToldBefore(s, step, s', id);
    } else {
      var s' := Relayed(s, id);
      StepKeepsInv(s, Relay(id), s');
      if s.sessions[id].conn.next < |s.server.hist.all| {
        NotPastIsTold(s', id);
        CanBeToldBefore(s, Relay(id), s', id);
      } else {
        assert s'.sessions[id].conn.wire[|s.sessions[id].conn.wire|] == Exited;
        ToldNow(s, Relay(id), s', id);
      }
    }
  }

  /** A live connection can still be sent the exit exactly when it is not past it. */
  lemma CanBeToldIff(s: System, id: nat)
    requires Inv(s) && id in s.sessions && s.sessions[id].conn.Live?
    ensures CanBeTold(s, id) <==> !PastExit(s, id)
  {
    if PastExit(s, id) {
      forall states: seq<System>, steps: seq<Step> |
        Path(states, steps) && states[0] == s && steps != [] && Kept(steps, 0, |steps|, id)
        ensures !Tells(states[|steps| - 1], states[|steps|], id)
      {
        PastExitStays(states, steps, |steps|, id);
      }
    } else {
      NotPastIsTold(s, id);
    }
  }

  /**
   * A client that recovers from lag is told of the exit in some continuation of its connection
   * exactly when the exit had not been broadcast by then. Otherwise it is never told, however the
   * run goes on, unless its connection is dropped and it attaches again.
   */
  lemma LagSwallowsExitIff(states: seq<System>, steps: seq<Step>, i: nat)
    requires Run(states, steps) && i < |steps| && steps[i].Lag?
    ensures CanBeTold(states[i + 1], steps[i].id) <==> !states[i].server.exitSent
  {
    RunInv(states, steps, i + 1);
    assert Next(states[i], steps[i], states[i + 1]);
    CanBeToldIff(states[i + 1], steps[i].id);
  }

  // ---- who is told -------------------------------------------------------------------------------

  /** The page is told of the exit, or gives up. */
  ghost predicate Finishes(c: Session, step: Step, id: nat) {
    || step == GiveUp(id)
    || (step == Deliver(id) && !c.conn.Offline? && c.conn.wire != [] && c.conn.wire[0] == Exited)
  }

  lemma StepFinishes(s: System, step: Step, s': System, id: nat)
    requires s.server.hist.Valid() && Next(s, step, s') && id in s.sessions
    requires s.sessions[id].client.finished || Finishes(s.sessions[id], step, id)
    ensures id in s'.sessions && s'.sessions[id].client.finished && !(step.Attach? && step.id == id)
  {
  }

  ghost predicate IsFinished(s: System, id: nat) { id in s.sessions && s.sessions[id].client.finished }

  lemma {:induction false} StaysFinished(states: seq<System>, steps: seq<Step>, i: nat, j: nat, id: nat)
    requires Run(states, steps) && i <= j < |states| && IsFinished(states[i], id)
    ensures IsFinished(states[j], id)
  {
    if i < j {
      StaysFinished(states, steps, i, j - 1, id);
      assert Next(states[j - 1], steps[j - 1], states[j]);
      StepFinishes(states[j - 1], steps[j - 1], states[j], id);
    }
  }

  /** A page that has been told of the exit, or has given up, never attaches again. */
  lemma FinishedStays(states: seq<System>, steps: seq<Step>, i: nat, j: nat, id: nat)
    requires Run(states, steps) && i < j < |states| && id in states[i].sessions
    requires Finishes(states[i].sessions[id], steps[i], id)
    ensures IsFinished(states[j], id)
    ensures j < |steps| ==> !(steps[j].Attach? && steps[j].id == id)
  {
    assert Next(states[i], steps[i], states[i + 1]);
    StepFinishes(states[i], steps[i], states[i + 1], id);
    StaysFinished(states, steps, i + 1, j, id);
    if j < |steps| {
      assert Next(states[j], steps[j], states[j + 1]);
      StepFinishes(states[j], steps[j], states[j + 1], id);
    }
  }

  // ---- a run that swallows the exit ----------------------------------------------------------------

  ghost function Fresh(eof: bool, reaped: bool, exitSent: bool): Server {
    Server([], [], History([], 0), eof, reaped, exitSent, 0, 0)
  }

  ghost function Alone(server: Server, conn: Conn): System {
    System(server, map[0 := Session(0, Client(0, [], false), conn)])
  }

  /** A shell that exits without output, and a client that loses its place just then. */
  ghost function SwallowRun(): (seq<System>, seq<Step>) {
    var start, ready := Fresh(false, false, false), [Ready(0)];
    ([System(start, map[]),
      Alone(start, Offline),
      Alone(start, Opening(0, 0, [])),
      Alone(start, Live(0, 0, ready)),
      Alone(Fresh(true, false, false), Live(0, 0, ready)),
      Alone(Fresh(true, true, false), Live(0, 0, ready)),
      Alone(Fresh(true, true, true), Live(0, 0, ready)),
      Alone(Fresh(true, true, true), Live(0, 1, ready))],
     [Join(0, 0), Attach(0, []), LookAtExit(0), EndOfInput, Reap, BroadcastExit, Lag(0, [])])
  }

  /** That state is reached: a live client of a terminal that has exited, never to be told so. */
  lemma LagCanSwallowExit()
    ensures var (states, steps) := SwallowRun();
      && Run(states, steps)
      && var last := states[|states| - 1];
         last.server.exitSent && last.sessions[0].conn.Live? && !CanBeTold(last, 0)
  {
    var (states, steps) := SwallowRun();
    forall i | 0 <= i < |steps|
      ensures states[i].server.hist.Valid() && Next(states[i], steps[i], states[i + 1])
    {
      if i < 3 {
        SwallowRunAttach(states, steps, i);
      } else {
        SwallowRunExit(states, steps, i);
      }
    }
    LagSwallowsExitIff(states, steps, 6);
  }

  lemma NothingToCatchUp()
    ensures History([], 0).Valid() && CatchUp(History([], 0), 0, [])
    ensures ReplayOf(History([], 0), 0).endSeq == 0
  {
    var none: seq<Bytes> := [];
    assert Pump.Framed(none, none, [0]) && Pump.Merges(none, none);
    assert Announce(0, 0) + Binaries(none) == [];
  }

  lemma SwallowRunAttach(states: seq<System>, steps: seq<Step>, i: nat)
    requires (states, steps) == SwallowRun() && i < 3
    ensures states[i].server.hist.Valid() && Next(states[i], steps[i], states[i + 1])
  {
    NothingToCatchUp();
    assert EndsAt(History([], 0).all, 0, 0);
    var none: seq<Frame> := [];
    assert none + [Ready(0)] == [Ready(0)];
  }

  lemma SwallowRunExit(states: seq<System>, steps: seq<Step>, i: nat)
    requires (states, steps) == SwallowRun() && 3 <= i < |steps|
    ensures states[i].server.hist.Valid() && Next(states[i], steps[i], states[i + 1])
  {
    NothingToCatchUp();
    var none: seq<Frame> := [];
    assert [Ready(0)] + none == [Ready(0)];
  }
}
