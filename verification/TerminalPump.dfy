/** A terminal and its pump (src/server/src/pty/mod.rs), as steps of the protocol's server. */
module TerminalPump {
  import opened Chunks
  import opened Utf8
  import opened Wrappers
  import opened TerminalProtocol
  import Osc7
  import Pump
  import Scrollback

  /** next is the position in the broadcast from which the client receives. */
  datatype Attachment =
    Attachment(next: nat, frames: seq<Bytes>, fromSeq: nat, seqEnd: nat, exit: Option<Pump.ExitInfo>)

  class Terminal {
    const scrollback: Scrollback.Scrollback
    var events: seq<Pump.Event>
    var cwd: Bytes
    /** The exit status, once another thread has collected it. */
    var exit: Option<Pump.ExitInfo>

    ghost predicate Valid()
      reads this, scrollback
    {
      scrollback.Valid()
    }

    constructor (cwd: Bytes, rolling: nat, prune: nat)
      ensures Valid() && fresh(scrollback) && scrollback.hist == Scrollback.History([], 0)
      ensures scrollback.rolling == rolling && scrollback.prune == prune
      ensures events == [] && this.cwd == cwd && exit == None
    {
      scrollback := new Scrollback.Scrollback.WithLimits(rolling, prune);
      events, exit := [], None;
      this.cwd := cwd;
    }

    method Reap(info: Pump.ExitInfo)
      modifies this`exit
      ensures exit == Some(info)
    {
      exit := Some(info);
    }

    /** Append and broadcast under one lock, then report directories found in the same bytes. */
    method Publish(scanner: Osc7.Scanner, data: Bytes)
      requires Valid() && data != []
      modifies this`events, this`cwd, scrollback, scanner
      ensures Valid() && scrollback.hist.all == old(scrollback.hist.all) + [data]
      ensures Scrollback.Pruned(scrollback.hist.all, old(scrollback.hist.dropped), scrollback.hist.dropped,
                                scrollback.rolling, scrollback.prune)
      ensures var (scan, paths) := Osc7.FeedOf(old(scanner.View()), data);
        && scanner.View() == scan
        && events == old(events) + [Pump.Output(data, Total(scrollback.hist.all))] + Pump.CwdEvents(paths)
        && cwd == Pump.LastPath(old(cwd), paths)
    {
      var paths := scanner.Feed(data);
      var seqEnd := scrollback.Append(data);
      events := events + [Pump.Output(data, seqEnd)];
      ghost var before, hist := events, scrollback.hist;
      for i := 0 to |paths|
        invariant Valid() && scrollback.hist == hist
        invariant scanner.View() == Osc7.FeedOf(old(scanner.View()), data).0
        invariant events == before + Pump.CwdEvents(paths[..i]) && cwd == Pump.LastPath(old(cwd), paths[..i])
      {
        cwd := paths[i];
        events := events + [Pump.Cwd(paths[i])];
        assert Pump.CwdEvents(paths[..i + 1]) == Pump.CwdEvents(paths[..i]) + [Pump.Cwd(paths[i])];
      }
      assert paths[..|paths|] == paths;
    }

    /**
     * For a new client: history after the cursor in frames, where to go on in the broadcast, and the
     * exit if it is known.
     */
    method Attach(after: nat) returns (attachment: Attachment)
      requires Valid()
      ensures var r := Scrollback.ReplayOf(scrollback.hist, after);
        && attachment.fromSeq == r.fromSeq && attachment.seqEnd == r.endSeq
        && Pump.Merges(attachment.frames, r.chunks)
        && attachment.next == |events| && attachment.exit == exit
    {
      var next := |events|;
      var replay := scrollback.ReplayFrom(after);
      Scrollback.ReplayNonEmpty(scrollback.hist, after);
      var frames := Pump.Coalesce(replay.chunks);
      attachment := Attachment(next, frames, replay.fromSeq, replay.endSeq, exit);
    }
  }

  // ---- what the broadcast carries ------------------------------------------------------------

  /** Events that are outputs or the exit. */
  ghost function Counted(events: seq<Pump.Event>): nat {
    if events == [] then 0
    else Counted(events[..|events| - 1]) + if events[|events| - 1].Cwd? then 0 else 1
  }

  /**
   * The i-th event is a directory, the chunk whose turn it is with the offset of its end, or the exit
   * at the very end.
   */
  ghost predicate InPlace(events: seq<Pump.Event>, i: nat, all: seq<Bytes>, exited: bool)
    requires i < |events|
  {
    var k := Counted(events[..i]);
    match events[i]
    case Output(data, seqEnd) => k < |all| && data == all[k] && seqEnd == Offset(all, k + 1)
    case Cwd(_) => true
    case Exit(_) => exited && i == |events| - 1
  }

  /** The broadcast has carried exactly these chunks, and then the exit if there was one. */
  ghost predicate Carries(events: seq<Pump.Event>, all: seq<Bytes>, exited: bool) {
    && Counted(events) == |all| + (if exited then 1 else 0)
    && forall i: nat | i < |events| :: InPlace(events, i, all, exited)
  }

  lemma CountedSnoc(events: seq<Pump.Event>, e: Pump.Event)
    ensures Counted(events + [e]) == Counted(events) + if e.Cwd? then 0 else 1
  {
    assert (events + [e])[..|events|] == events;
  }

  lemma CarriesMore(events: seq<Pump.Event>, all: seq<Bytes>, e: Pump.Event, all': seq<Bytes>, exited': bool)
    requires Carries(events, all, false) && all <= all' && Counted(events + [e]) == |all'| + if exited' then 1 else 0
    requires InPlace(events + [e], |events|, all', exited')
    ensures Carries(events + [e], all', exited')
  {
    forall i: nat | i < |events|
      ensures InPlace(events + [e], i, all', exited')
    {
      assert InPlace(events, i, all, false);
      assert (events + [e])[..i] == events[..i];
      if events[i].Output? {
        var k := Counted(events[..i]);
        assert all' == all + all'[|all|..];
        OffsetStable(all, all'[|all|..], k + 1);
      }
    }
  }

  lemma {:induction false} DirectoriesCarryNothing(events: seq<Pump.Event>, all: seq<Bytes>, paths: seq<Bytes>)
    requires Carries(events, all, false)
    ensures Carries(events + Pump.CwdEvents(paths), all, false)
  {
    if paths == [] {
      assert events + Pump.CwdEvents(paths) == events;
    } else {
      var init, last := paths[..|paths| - 1], Pump.Cwd(paths[|paths| - 1]);
      DirectoriesCarryNothing(events, all, init);
      var before := events + Pump.CwdEvents(init);
      assert events + Pump.CwdEvents(paths) == before + [last];
      CountedSnoc(before, last);
      CarriesMore(before, all, last, all, false);
    }
  }

  /** What the pump broadcasts is the published chunks, and at the end the exit. */
  lemma {:induction false} PumpCarries(chunks: seq<Bytes>, info: Pump.ExitInfo)
    ensures Carries(Pump.EventsOf(chunks), chunks, false)
    ensures Carries(Pump.EventsOf(chunks) + [Pump.Exit(info)], chunks, true)
  {
    if chunks != [] {
      var init, last := chunks[..|chunks| - 1], chunks[|chunks| - 1];
      PumpCarries(init, info);
      var before, out := Pump.EventsOf(init), Pump.Output(last, Total(chunks));
      CountedSnoc(before, out);
      assert (before + [out])[..|before|] == before;
      CarriesMore(before, init, out, chunks, false);
      DirectoriesCarryNothing(before + [out], chunks, Osc7.FeedOf(Pump.ScanOf(init).0, last).1);
    }
    var events, exit := Pump.EventsOf(chunks), Pump.Exit(info);
    CountedSnoc(events, exit);
    assert (events + [exit])[..|events|] == events;
    CarriesMore(events, chunks, exit, chunks, true);
  }

  /** The terminal holds the server's history, within its limits, and knows what it knows of the exit. */
  ghost predicate Mirrors(terminal: Terminal, s: Server)
    reads terminal, terminal.scrollback
  {
    && terminal.Valid() && terminal.scrollback.hist == s.hist
    && terminal.scrollback.rolling == s.rolling && terminal.scrollback.prune == s.prune
    && terminal.exit.Some? == s.reaped
  }

  /** The terminal's state is the protocol's server state. */
  ghost predicate Reflects(terminal: Terminal, s: Server)
    reads terminal, terminal.scrollback
  {
    Mirrors(terminal, s) && Carries(terminal.events, s.hist.all, s.exitSent)
  }

  // ---- the pump as steps of the server ---------------------------------------------------------

  /** A terminal that reflects a server whose shell is running, and the pump's scanner. */
  ghost predicate Pumped(t: Terminal, scanner: Osc7.Scanner, start: Bytes, s: Server)
    reads t, t.scrollback, scanner
  {
    && Mirrors(t, s) && !s.eof && !s.exitSent
    && t.events == Pump.EventsOf(s.hist.all)
    && (scanner.View(), t.cwd) == (Pump.ScanOf(s.hist.all).0, Pump.LastPath(start, Pump.ScanOf(s.hist.all).1))
  }

  /** A terminal its pump is at work on reflects the server. */
  lemma PumpedReflects(t: Terminal, scanner: Osc7.Scanner, start: Bytes, s: Server)
    requires Pumped(t, scanner, start, s)
    ensures Reflects(t, s)
  {
    PumpCarries(s.hist.all, Pump.ExitInfo(None, None));
  }

  method PublishNext(t: Terminal, scanner: Osc7.Scanner, data: Bytes, ghost start: Bytes, ghost s: Server)
      returns (ghost s': Server)
    requires Pumped(t, scanner, start, s) && data != []
    modifies t`events, t`cwd, t.scrollback, scanner
    ensures Pumped(t, scanner, start, s')
    ensures s' == s.(hist := s'.hist) && s'.hist.all == s.hist.all + [data]
    ensures Scrollback.Pruned(s'.hist.all, s.hist.dropped, s'.hist.dropped, s.rolling, s.prune)
  {
    Pump.ScanNext(s.hist.all, data);
    t.Publish(scanner, data);
    s' := s.(hist := t.scrollback.hist);
  }

  /** The hold-back timeout passed. */
  method TimeOut(t: Terminal, scanner: Osc7.Scanner, held: Bytes, ghost start: Bytes, ghost s: Server)
      returns (leftover: Bytes, ghost s': Server)
    requires Pumped(t, scanner, start, s) && held == s.leftover
    modifies t`events, t`cwd, t.scrollback, scanner
    ensures Pumped(t, scanner, start, s') && leftover == s'.leftover
    ensures ServerStep(s, Arrive(Pump.Quiet), s')
  {
    s' := s;
    if held != [] {
      s' := PublishNext(t, scanner, held, start, s);
    }
    leftover := [];
    s' := s'.(leftover := []);
    assert s.input + [] == s.input;
  }

  /** A read arrived. */
  method Take(t: Terminal, scanner: Osc7.Scanner, held: Bytes, chunk: Bytes, ghost start: Bytes, ghost s: Server)
      returns (leftover: Bytes, ghost s': Server)
    requires Pumped(t, scanner, start, s) && held == s.leftover
    modifies t`events, t`cwd, t.scrollback, scanner
    ensures Pumped(t, scanner, start, s') && leftover == s'.leftover
    ensures ServerStep(s, Arrive(Pump.Read(chunk)), s')
  {
    var buf := held + chunk;
    var split := SplitIncompleteTail(buf);
    leftover := buf[split..];
    s' := s;
    if 0 < split {
      s' := PublishNext(t, scanner, buf[..split], start, s);
    }
    s' := s'.(input := s.input + chunk, leftover := leftover);
  }

  method OnArrival(t: Terminal, scanner: Osc7.Scanner, held: Bytes, arrival: Pump.Arrival,
                   ghost start: Bytes, ghost s: Server)
      returns (leftover: Bytes, ghost s': Server)
    requires Pumped(t, scanner, start, s) && held == s.leftover
    modifies t`events, t`cwd, t.scrollback, scanner
    ensures Pumped(t, scanner, start, s') && leftover == s'.leftover
    ensures ServerStep(s, Arrive(arrival), s')
  {
    match arrival {
      case Quiet => leftover, s' := TimeOut(t, scanner, held, start, s);
      case Read(chunk) => leftover, s' := Take(t, scanner, held, chunk, start, s);
    }
  }

  /** The reader has finished: what is held will never be completed. */
  method Drain(t: Terminal, scanner: Osc7.Scanner, held: Bytes, ghost start: Bytes, ghost s: Server)
      returns (ghost s': Server)
    requires Pumped(t, scanner, start, s) && held == s.leftover
    modifies t`events, t`cwd, t.scrollback, scanner
    ensures Mirrors(t, s') && ServerStep(s, EndOfInput, s')
    ensures t.events == Pump.EventsOf(s'.hist.all)
    ensures t.cwd == Pump.LastPath(start, Pump.ScanOf(s'.hist.all).1)
  {
    s' := s;
    if held != [] {
      s' := PublishNext(t, scanner, held, start, s);
    }
    s' := s'.(leftover := [], eof := true);
  }

  /** The pump waits for the verdict on the shell, which another thread sets, and broadcasts it last. */
  method BroadcastVerdict(t: Terminal, verdict: Pump.ExitInfo, ghost s: Server)
      returns (ghost reaped: Server, ghost s': Server)
    requires Mirrors(t, s) && s.eof && !s.exitSent && t.events == Pump.EventsOf(s.hist.all)
    modifies t`events, t`exit
    ensures ServerStep(s, Reap, reaped) && ServerStep(reaped, BroadcastExit, s') && Reflects(t, s')
    ensures t.exit == if old(t.exit).Some? then old(t.exit) else Some(verdict)
    ensures t.events == old(t.events) + [Pump.Exit(t.exit.value)]
    ensures s'.hist == s.hist
  {
    if t.exit.None? {
      t.Reap(verdict);
    }
    t.events := t.events + [Pump.Exit(t.exit.value)];
    reaped := s.(reaped := true);
    s' := reaped.(exitSent := true);
    PumpCarries(s.hist.all, t.exit.value);
  }

  /** The server goes through these states by these steps. */
  ghost predicate ServerPath(servers: seq<Server>, steps: seq<Step>) {
    && |servers| == |steps| + 1
    && (steps != [] ==>
          var k := |steps| - 1;
          && ServerPath(servers[..k + 1], steps[..k])
          && servers[k].hist.Valid() && ServerStep(servers[k], steps[k], servers[k + 1]))
  }

  lemma PathSnoc(servers: seq<Server>, steps: seq<Step>, step: Step, s': Server)
    requires ServerPath(servers, steps) && servers[|steps|].hist.Valid()
    requires ServerStep(servers[|steps|], step, s')
    ensures ServerPath(servers + [s'], steps + [step])
  {
    assert (servers + [s'])[..|servers|] == servers && (steps + [step])[..|steps|] == steps;
  }

  /** The steps of a pump: its arrivals, the end of the input, the verdict it waits for, and the exit. */
  ghost function ArrivalSteps(arrivals: seq<Pump.Arrival>): seq<Step> {
    if arrivals == [] then []
    else ArrivalSteps(arrivals[..|arrivals| - 1]) + [Arrive(arrivals[|arrivals| - 1])]
  }

  ghost function PumpSteps(arrivals: seq<Pump.Arrival>): seq<Step> {
    ArrivalSteps(arrivals) + [EndOfInput] + [Reap] + [BroadcastExit]
  }

  /** A new terminal, as the server of the protocol. */
  ghost function NewServer(rolling: nat, prune: nat, reaped: bool): Server {
    Server([], [], Scrollback.History([], 0), false, reaped, false, rolling, prune)
  }

  /** The states lead through the arrivals from the first to s, which has published and holds what they say. */
  ghost predicate Follows(servers: seq<Server>, arrivals: seq<Pump.Arrival>, first: Server, s: Server) {
    && ServerPath(servers, ArrivalSteps(arrivals)) && servers[0] == first && servers[|servers| - 1] == s
    && Pump.Held(s.hist.all, s.leftover) == Pump.PumpOf(arrivals)
  }

  lemma FollowsNothing(arrivals: seq<Pump.Arrival>, first: Server)
    requires first.hist == Scrollback.History([], 0) && first.leftover == []
    ensures Follows([first], arrivals[..0], first, first)
    ensures Pump.EventsOf([]) == [] && Pump.ScanOf([]) == (Osc7.Scan(Osc7.Idle, [], []), [])
  {
    assert arrivals[..0] == [];
  }

  lemma FollowsNext(servers: seq<Server>, arrivals: seq<Pump.Arrival>, i: nat, first: Server, s: Server, s': Server)
    requires i < |arrivals| && Follows(servers, arrivals[..i], first, s)
    requires s.hist.Valid() && ServerStep(s, Arrive(arrivals[i]), s')
    ensures Follows(servers + [s'], arrivals[..i + 1], first, s')
  {
    Pump.PumpNext(arrivals, i);
    assert arrivals[..i + 1][..i] == arrivals[..i];
    PathSnoc(servers, ArrivalSteps(arrivals[..i]), Arrive(arrivals[i]), s');
  }

  lemma FollowsToEnd(servers: seq<Server>, arrivals: seq<Pump.Arrival>, first: Server, s: Server,
                     drained: Server, reaped: Server, done: Server)
    requires Follows(servers, arrivals, first, s) && s.hist.Valid() && ServerStep(s, EndOfInput, drained)
    requires drained.hist.Valid() && ServerStep(drained, Reap, reaped) && ServerStep(reaped, BroadcastExit, done)
    ensures var all := servers + [drained] + [reaped] + [done];
      ServerPath(all, PumpSteps(arrivals)) && all[0] == first && all[|all| - 1] == done
    ensures done.hist.all == Pump.Published(arrivals)
  {
    var steps := ArrivalSteps(arrivals);
    PathSnoc(servers, steps, EndOfInput, drained);
    PathSnoc(servers + [drained], steps + [EndOfInput], Reap, reaped);
    PathSnoc(servers + [drained] + [reaped], steps + [EndOfInput] + [Reap], BroadcastExit, done);
  }

  /** One more arrival. */
  method Advance(t: Terminal, scanner: Osc7.Scanner, held: Bytes, arrivals: seq<Pump.Arrival>, i: nat,
                 ghost start: Bytes, ghost servers: seq<Server>, ghost first: Server, ghost s: Server)
      returns (leftover: Bytes, ghost s': Server)
    requires i < |arrivals| && Follows(servers, arrivals[..i], first, s)
    requires Pumped(t, scanner, start, s) && held == s.leftover
    modifies t`events, t`cwd, t.scrollback, scanner
    ensures Pumped(t, scanner, start, s') && leftover == s'.leftover
    ensures Follows(servers + [s'], arrivals[..i + 1], first, s')
  {
    leftover, s' := OnArrival(t, scanner, held, arrivals[i], start, s);
    FollowsNext(servers, arrivals, i, first, s, s');
  }

  /** The end of the input, and of the shell. */
  method Conclude(t: Terminal, scanner: Osc7.Scanner, held: Bytes, arrivals: seq<Pump.Arrival>,
                  verdict: Pump.ExitInfo, ghost start: Bytes, ghost servers: seq<Server>, ghost first: Server,
                  ghost s: Server)
      returns (ghost all: seq<Server>)
    requires Follows(servers, arrivals, first, s)
    requires Pumped(t, scanner, start, s) && held == s.leftover
    modifies t, t.scrollback, scanner
    ensures ServerPath(all, PumpSteps(arrivals)) && all[0] == first && Reflects(t, all[|all| - 1])
    ensures t.scrollback.hist.all == Pump.Published(arrivals)
    ensures t.exit == if old(t.exit).Some? then old(t.exit) else Some(verdict)
    ensures t.events == Pump.EventsOf(Pump.Published(arrivals)) + [Pump.Exit(t.exit.value)]
    ensures t.cwd == Pump.LastPath(start, Pump.ScanOf(Pump.Published(arrivals)).1)
  {
    ghost var drained := Drain(t, scanner, held, start, s);
    ghost var reaped, done := BroadcastVerdict(t, verdict, drained);
    FollowsToEnd(servers, arrivals, first, s, drained, reaped, done);
    all := servers + [drained] + [reaped] + [done];
  }

  /**
   * The whole life of a pump. The verdict on the shell may be there before, or comes from another
   * thread while the pump waits for it.
   */
  method RunPump(t: Terminal, arrivals: seq<Pump.Arrival>, verdict: Pump.ExitInfo)
      returns (ghost servers: seq<Server>)
    requires t.Valid() && t.scrollback.hist == Scrollback.History([], 0) && t.events == []
    modifies t, t.scrollback
    ensures ServerPath(servers, PumpSteps(arrivals)) && Reflects(t, servers[|servers| - 1])
    ensures servers[0] == NewServer(t.scrollback.rolling, t.scrollback.prune, old(t.exit).Some?)
    ensures t.scrollback.hist.all == Pump.Published(arrivals)
    ensures t.exit == if old(t.exit).Some? then old(t.exit) else Some(verdict)
    ensures t.events == Pump.EventsOf(Pump.Published(arrivals)) + [Pump.Exit(t.exit.value)]
    ensures t.cwd == Pump.LastPath(old(t.cwd), Pump.ScanOf(Pump.Published(arrivals)).1)
  {
    var scanner := new Osc7.Scanner();
    var leftover: Bytes := [];
    ghost var first := NewServer(t.scrollback.rolling, t.scrollback.prune, t.exit.Some?);
    ghost var start, s := t.cwd, first;
    servers := [s];
    FollowsNothing(arrivals, first);
    for i := 0 to |arrivals|
      invariant Pumped(t, scanner, start, s) && leftover == s.leftover && t.exit == old(t.exit)
      invariant Follows(servers, arrivals[..i], first, s)
    {
      leftover, s := Advance(t, scanner, leftover, arrivals, i, start, servers, first, s);
      servers := servers + [s];
    }
    assert arrivals[..|arrivals|] == arrivals;
    servers := Conclude(t, scanner, leftover, arrivals, verdict, start, servers, first, s);
  }
}
