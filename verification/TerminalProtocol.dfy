/**
 * Whole runs of one terminal and any number of clients: reads, hold-back timeouts, pruning,
 * attach, live relay, lag, dropped sockets, reconnects and the shell's exit, in any order.
 */
module TerminalProtocol {
  import opened Chunks
  import opened Scrollback
  import opened TerminalSocket
  import Pump

  datatype Server = Server(
    input: Bytes,       // everything the shell has written so far, as read
    leftover: Bytes,    // held back by the pump
    hist: History,      // published, and how much of it is no longer held
    eof: bool,          // the pump has finished reading
    reaped: bool,       // the exit status is known; set by another thread, at any time
    exitSent: bool,     // the pump has broadcast the exit
    rolling: nat,
    prune: nat)
  {
    /** Outputs, then the exit: what the broadcast has carried. */
    ghost function Count(): nat { |hist.all| + if exitSent then 1 else 0 }

    ghost predicate Valid() {
      && hist.Valid() && |leftover| <= 3
      && Flatten(hist.all) + leftover == input
      && (exitSent ==> eof) && (eof ==> leftover == [])
    }
  }

  datatype Conn =
    | Offline
    | Opening(cursor: nat, next: nat, wire: seq<Frame>)    // history sent, exit not yet looked at
    | Live(cursor: nat, next: nat, wire: seq<Frame>)
    | Draining(cursor: nat, wire: seq<Frame>)              // the server has nothing more to send

  function WithWire(conn: Conn, wire: seq<Frame>): Conn {
    match conn
    case Offline => Offline
    case Opening(cursor, next, _) => Opening(cursor, next, wire)
    case Live(cursor, next, _) => Live(cursor, next, wire)
    case Draining(cursor, _) => Draining(cursor, wire)
  }

  datatype Session = Session(start: nat, client: Client, conn: Conn)

  datatype System = System(server: Server, sessions: map<nat, Session>)

  datatype Step =
    | Arrive(arrival: Pump.Arrival)
    | EndOfInput
    | Reap
    | BroadcastExit
    | Join(id: nat, start: nat)
    | Attach(id: nat, wire: seq<Frame>)
    | LookAtExit(id: nat)
    | Relay(id: nat)
    | Lag(id: nat, wire: seq<Frame>)
    | Control(id: nat)
    | Deliver(id: nat)
    | Drop(id: nat)
    | GiveUp(id: nat)

  // ---- the steps --------------------------------------------------------------------

  ghost predicate ServerStep(s: Server, step: Step, s': Server)
    requires s.hist.Valid()
  {
    match step
    case Arrive(arrival) =>
      && !s.eof && Stored(s, arrival, s')
      && s' == s.(input := s.input + Pump.DataOf(arrival), leftover := s'.leftover, hist := s'.hist)
    case EndOfInput =>
      && !s.eof && Stored(s, Pump.Quiet, s')
      && s' == s.(leftover := s'.leftover, hist := s'.hist, eof := true)
    case Reap => s' == s.(reaped := true)
    case BroadcastExit => s.eof && s.reaped && !s.exitSent && s' == s.(exitSent := true)
    case _ => s' == s
  }

  /** The pump takes one arrival; what it publishes is appended, and history pruned. */
  ghost predicate Stored(s: Server, arrival: Pump.Arrival, s': Server)
    requires s.hist.Valid()
  {
    var p := Pump.PumpStep(Pump.Held(s.hist.all, s.leftover), arrival);
    && s'.leftover == p.leftover && s'.hist.all == p.published
    && if p.published == s.hist.all then s'.hist.dropped == s.hist.dropped
       else s.hist.dropped <= |p.published| && Pruned(p.published, s.hist.dropped, s'.hist.dropped, s.rolling, s.prune)
  }

  ghost predicate SessionStep(s: Server, c: Session, step: Step, c': Session)
    requires s.hist.Valid()
  {
    match step
    case Attach(_, wire) =>
      && c.conn.Offline? && !c.client.finished
      && CatchUp(s.hist, c.client.cursor, wire)
      && c' == c.(conn := Opening(ReplayOf(s.hist, c.client.cursor).endSeq, s.Count(), wire))
    case LookAtExit(_) =>
      && c.conn.Opening?
      && var wire := c.conn.wire + [Ready(c.conn.cursor)];
         c' == c.(conn := if s.reaped then Draining(c.conn.cursor, wire + [Exited])
                          else Live(c.conn.cursor, c.conn.next, wire))
    case Relay(_) =>
      && c.conn.Live? && c.conn.next < s.Count()
      && if c.conn.next < |s.hist.all| then
           c' == c.(conn := Live(Offset(s.hist.all, c.conn.next + 1), c.conn.next + 1,
                                 c.conn.wire + [Binary(s.hist.all[c.conn.next])]))
         else
           c' == c.(conn := Draining(c.conn.cursor, c.conn.wire + [Exited]))
    case Lag(_, wire) =>
      && c.conn.Live?
      && CatchUp(s.hist, c.conn.cursor, wire)
      && c' == c.(conn := Live(ReplayOf(s.hist, c.conn.cursor).endSeq, s.Count(), c.conn.wire + wire))
    case Control(_) =>
      && c.conn.Live?
      && c' == c.(conn := WithWire(c.conn, c.conn.wire + [Other]))
    case Deliver(_) =>
      && !c.conn.Offline? && c.conn.wire != []
      && c' == c.(client := Handle(c.client, c.conn.wire[0]), conn := WithWire(c.conn, c.conn.wire[1..]))
    case Drop(_) =>
      !c.conn.Offline? && c' == c.(conn := Offline)
    case GiveUp(_) =>
      c.conn.Offline? && c' == c.(client := c.client.(finished := true))
    case _ => false
  }

  ghost predicate Next(s: System, step: Step, s': System)
    requires s.server.hist.Valid()
  {
    && ServerStep(s.server, step, s'.server)
    && match step
       case Arrive(_) => s'.sessions == s.sessions
       case EndOfInput => s'.sessions == s.sessions
       case Reap => s'.sessions == s.sessions
       case BroadcastExit => s'.sessions == s.sessions
       case Join(id, start) =>
         && id !in s.sessions && IsBoundary(s.server.hist.all, start)
         && s'.sessions == s.sessions[id := Session(start, Client(start, [], false), Offline)]
       case _ =>
         && step.id in s.sessions && step.id in s'.sessions
         && SessionStep(s.server, s.sessions[step.id], step, s'.sessions[step.id])
         && s'.sessions == s.sessions[step.id := s'.sessions[step.id]]
  }

  ghost predicate Init(s: System) {
    && s.server.input == [] && s.server.leftover == [] && s.server.hist == History([], 0)
    && !s.server.eof && !s.server.reaped && !s.server.exitSent
    && s.sessions == map[]
  }

  ghost predicate Run(states: seq<System>, steps: seq<Step>) {
    && |states| == |steps| + 1 && Init(states[0])
    && forall i | 0 <= i < |steps| :: states[i].server.hist.Valid() && Next(states[i], steps[i], states[i + 1])
  }

  // ---- the invariant ------------------------------------------------------------------

  /** The view shows positions start..end of the output, each once or inside one announced hole. */
  ghost predicate Shown(view: seq<Item>, start: nat, end: nat, output: Bytes) {
    if view == [] then start == end
    else
      var init := view[..|view| - 1];
      match view[|view| - 1]
      case Data(data) =>
        && |data| <= end <= |output| && data == output[end - |data|..end]
        && Shown(init, start, end - |data|, output)
      case Hole(from, to) => from < to == end && Shown(init, start, from, output)
  }

  /** Frames in flight that take a client from position `from` to position `to`. */
  ghost predicate WireOk(h: History, wire: seq<Frame>, from: nat, to: nat)
    requires h.Valid()
  {
    if wire == [] then from == to
    else
      match wire[0]
      case Binary(data) =>
        && from + |data| <= |h.Output()| && data == h.Output()[from..from + |data|]
        && IsBoundary(h.all, from + |data|)
        && WireOk(h, wire[1..], from + |data|, to)
      case Truncated(f) => from < f <= h.Start() && IsBoundary(h.all, f) && WireOk(h, wire[1..], f, to)
      case Ready(n) => n == from && WireOk(h, wire[1..], from, to)
      case _ => WireOk(h, wire[1..], from, to)
  }

  ghost predicate ConnOk(s: Server, conn: Conn, at: nat)
    requires s.hist.Valid()
  {
    match conn
    case Offline => true
    case Draining(cursor, wire) => WireOk(s.hist, wire, at, cursor)
    case _ =>
      && WireOk(s.hist, conn.wire, at, conn.cursor)
      && conn.next <= s.Count()
      && conn.cursor == Offset(s.hist.all, Min(conn.next, |s.hist.all|))
  }

  /** Every announced hole had really been pruned. */
  ghost predicate HolesPruned(view: seq<Item>, start: nat) {
    forall i | 0 <= i < |view| && view[i].Hole? :: view[i].to <= start
  }

  ghost predicate SessionOk(s: Server, c: Session)
    requires s.hist.Valid()
  {
    && c.client.cursor <= |s.hist.Output()|
    && IsBoundary(s.hist.all, c.client.cursor)
    && Shown(c.client.view, c.start, c.client.cursor, s.hist.Output())
    && HolesPruned(c.client.view, s.hist.Start())
    && ConnOk(s, c.conn, c.client.cursor)
  }

  ghost predicate Inv(s: System) {
    && s.server.Valid()
    && forall id | id in s.sessions :: SessionOk(s.server, s.sessions[id])
  }
}
