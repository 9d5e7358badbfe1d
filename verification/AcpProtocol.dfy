/**
 * Whole runs of one agent session's event stream: emits (append, then send, as two separate
 * steps), pruning, subscribe and replay (also separate), live relay, lag, dropped sockets and
 * reconnects, in any order and for any number of clients.
 */
module AcpProtocol {
  import opened Wrappers
  import opened EventLog
  import opened AcpSocket

  datatype Server = Server(
    log: Log<Event>,
    sent: seq<nat>,      // sequence numbers in the order they were broadcast
    maxEvents: nat,
    maxBytes: nat)
  {
    ghost predicate Valid() {
      log.Valid() && forall i | 0 <= i < |sent| :: 1 <= sent[i] <= |log.all|
    }
  }

  datatype Conn =
    | Offline
    | Subscribed(cursor: nat, rx: nat)                     // receiver taken, log not yet read
    | Live(cursor: nat, rx: nat, wire: seq<Frame>)
    | Lagged(cursor: nat, rx: nat, wire: seq<Frame>)       // lost its place, log not yet read
    | Draining(cursor: nat, wire: seq<Frame>)              // the agent is gone, nothing more to send

  function WireOf(conn: Conn): seq<Frame> {
    if conn.Offline? || conn.Subscribed? then [] else conn.wire
  }

  datatype Session = Session(start: nat, client: Client, conn: Conn)

  datatype System = System(server: Server, sessions: map<nat, Session>)

  datatype Step =
    | Append(event: Event, size: nat)
    | Send(seqNo: nat)
    | Join(id: nat)
    | Subscribe(id: nat)
    | ReadLog(id: nat)
    | Receive(id: nat)
    | Lag(id: nat, rx: nat)
    | CatchUp(id: nat)
    | Control(id: nat)
    | Deliver(id: nat)
    | Drop(id: nat)
    | GiveUp(id: nat)

  ghost function ReplayOf(h: Log<Event>, after: nat): (r: Replay<Event>)
    requires h.Valid()
    ensures IsReplay(h, after, r)
  {
    Replay(if |h.all| <= after then [] else h.all[if h.dropped < after then after else h.dropped..],
           if after < h.dropped then Some(h.dropped + 1) else None, |h.all|)
  }

  /** Frames sent for a replay, and the cursor after them. */
  ghost function ReplayFrames(h: Log<Event>, cursor: nat): (seq<Frame>, nat)
    requires h.Valid()
  {
    var r := ReplayOf(h, cursor);
    var (frames, at) := Batch(r.events, cursor);
    (Notice(r.truncatedFrom) + frames, at)
  }

  ghost predicate ServerStep(s: Server, step: Step, s': Server) {
    match step
    case Append(event, size) =>
      && Appended(s.log, event, size, s'.log, s.maxEvents, s.maxBytes)
      && s' == s.(log := s'.log)
    case Send(q) => 1 <= q <= |s.log.all| && q !in s.sent && s' == s.(sent := s.sent + [q])
    case _ => s' == s
  }

  ghost predicate SessionStep(s: Server, c: Session, step: Step, c': Session)
    requires s.Valid()
  {
    match step
    case Subscribe(_) =>
      && c.conn.Offline? && !c.client.finished
      && c' == c.(conn := Subscribed(c.client.cursor, |s.sent|))
    case ReadLog(_) =>
      && c.conn.Subscribed?
      && var (frames, at) := ReplayFrames(s.log, c.conn.cursor);
         c' == c.(conn := Live(at, c.conn.rx, frames + [Ready(at)]))
    case Receive(_) =>
      && c.conn.Live? && c.conn.rx < |s.sent|
      && var e := s.log.all[s.sent[c.conn.rx] - 1];
         if e.seqNo <= c.conn.cursor then c' == c.(conn := Live(c.conn.cursor, c.conn.rx + 1, c.conn.wire))
         else if e.event.ConnectionClosed? then c' == c.(conn := Draining(e.seqNo, c.conn.wire + [Sequenced(e)]))
         else c' == c.(conn := Live(e.seqNo, c.conn.rx + 1, c.conn.wire + [Sequenced(e)]))
    case Lag(_, rx) =>
      && c.conn.Live? && c.conn.rx < rx <= |s.sent|
      && c' == c.(conn := Lagged(c.conn.cursor, rx, c.conn.wire))
    case CatchUp(_) =>
      && c.conn.Lagged?
      && var (frames, at) := ReplayFrames(s.log, c.conn.cursor);
         c' == c.(conn := Live(at, c.conn.rx, c.conn.wire + frames))
    case Control(_) =>
      c.conn.Live? && c' == c.(conn := Live(c.conn.cursor, c.conn.rx, c.conn.wire + [Other]))
    case Deliver(_) =>
      && WireOf(c.conn) != []
      && c' == c.(client := Handle(c.client, WireOf(c.conn)[0]), conn := WithWire(c.conn, WireOf(c.conn)[1..]))
    case Drop(_) => !c.conn.Offline? && c' == c.(conn := Offline)
    case GiveUp(_) => c.conn.Offline? && c' == c.(client := c.client.(finished := true))
    case _ => false
  }

  function WithWire(conn: Conn, wire: seq<Frame>): Conn {
    match conn
    case Live(cursor, rx, _) => Live(cursor, rx, wire)
    case Lagged(cursor, rx, _) => Lagged(cursor, rx, wire)
    case Draining(cursor, _) => Draining(cursor, wire)
    case _ => conn
  }

  ghost predicate Next(s: System, step: Step, s': System)
    requires s.server.Valid()
  {
    && ServerStep(s.server, step, s'.server)
    && match step
       case Append(_, _) => s'.sessions == s.sessions
       case Send(_) => s'.sessions == s.sessions
       case Join(id) =>
         // a fresh page starts at 0; one restored with a cursor got it from an earlier socket
         && id !in s.sessions && id in s'.sessions
         && var start := s'.sessions[id].start;
            && start <= |s.server.log.all|
            && s'.sessions == s.sessions[id := Session(start, Client(start, [], false), Offline)]
       case _ =>
         && step.id in s.sessions && step.id in s'.sessions
         && SessionStep(s.server, s.sessions[step.id], step, s'.sessions[step.id])
         && s'.sessions == s.sessions[step.id := s'.sessions[step.id]]
  }

  ghost predicate Init(s: System) {
    && s.server.log == Log([], 0) && s.server.sent == [] && 1 <= s.server.maxEvents
    && s.sessions == map[]
  }

  ghost predicate Run(states: seq<System>, steps: seq<Step>) {
    && |states| == |steps| + 1 && Init(states[0])
    && forall i | 0 <= i < |steps| :: states[i].server.Valid() && Next(states[i], steps[i], states[i + 1])
  }

  // ---- the invariant, whatever the order of sends ---------------------------------------

  ghost predicate IsLogged(h: Log<Event>, e: Stamped) {
    1 <= e.seqNo <= |h.all| && e == h.all[e.seqNo - 1]
  }

  /** Delivered events rise strictly within start+1..end, are the logged ones, and every gap is real. */
  ghost predicate Rising(h: Log<Event>, shown: seq<Item>, start: nat, end: nat) {
    if shown == [] then start <= end
    else
      var init := shown[..|shown| - 1];
      match shown[|shown| - 1]
      case Delivered(e) => start < e.seqNo <= end && IsLogged(h, e) && Rising(h, init, start, e.seqNo - 1)
      case Gap(at, from) => at + 1 < from <= h.dropped + 1 && Rising(h, init, start, end)
  }

  /** Frames in flight that take a client's cursor from `from` to `to`. */
  ghost predicate WireOk(h: Log<Event>, wire: seq<Frame>, from: nat, to: nat) {
    if wire == [] then from == to
    else
      match wire[0]
      case Sequenced(e) => from < e.seqNo && IsLogged(h, e) && WireOk(h, wire[1..], e.seqNo, to)
      case Truncated(f) => from + 1 < f <= h.dropped + 1 && WireOk(h, wire[1..], from, to)
      case Ready(n) => n == from && WireOk(h, wire[1..], from, to)
      case Other => WireOk(h, wire[1..], from, to)
  }

  ghost predicate SessionOk(s: Server, c: Session) {
    && Rising(s.log, c.client.shown, c.start, c.client.cursor)
    && c.client.cursor <= |s.log.all|
    && match c.conn
       case Offline => true
       case Subscribed(cursor, rx) => cursor == c.client.cursor && rx <= |s.sent|
       case Draining(cursor, wire) => WireOk(s.log, wire, c.client.cursor, cursor) && cursor <= |s.log.all|
       case _ =>
         && WireOk(s.log, c.conn.wire, c.client.cursor, c.conn.cursor) && c.conn.cursor <= |s.log.all|
         && c.conn.rx <= |s.sent|
  }

  ghost predicate Inv(s: System) {
    s.server.Valid() && 1 <= s.server.maxEvents && forall id | id in s.sessions :: SessionOk(s.server, s.sessions[id])
  }

  // ---- the invariant when sends are in append order ------------------------------------------

  ghost predicate InOrder(sent: seq<nat>) {
    forall i | 0 <= i < |sent| :: sent[i] == i + 1
  }

  function Max(a: nat, b: nat): nat { if a < b then b else a }

  /** Everything up to here has been delivered or announced as missing. */
  ghost function Reach(shown: seq<Item>, start: nat): nat {
    if shown == [] then start
    else
      var r := Reach(shown[..|shown| - 1], start);
      match shown[|shown| - 1]
      case Delivered(e) => Max(r, e.seqNo)
      case Gap(_, from) => Max(r, if from == 0 then 0 else from - 1)
  }

  /** No item leaves a silent hole behind it. */
  ghost predicate Full(shown: seq<Item>, start: nat) {
    if shown == [] then true
    else
      var init := shown[..|shown| - 1];
      && Full(init, start)
      && match shown[|shown| - 1]
         case Delivered(e) => e.seqNo <= Reach(init, start) + 1
         case Gap(at, _) => at <= Reach(init, start)
  }

  function CursorAfter(f: Frame, from: nat): nat {
    if f.Sequenced? then f.e.seqNo else from
  }

  function ReachNext(f: Frame, reach: nat): nat {
    match f
    case Sequenced(e) => Max(reach, e.seqNo)
    case Truncated(t) => Max(reach, if t == 0 then 0 else t - 1)
    case _ => reach
  }

  /** Delivering these frames to a client at `from`, with `reach` accounted for, leaves no silent hole. */
  ghost predicate WireFull(wire: seq<Frame>, from: nat, reach: nat) {
    && from <= reach
    && (wire != [] ==>
          && (wire[0].Sequenced? ==> wire[0].e.seqNo <= reach + 1)
          && WireFull(wire[1..], CursorAfter(wire[0], from), ReachNext(wire[0], reach)))
  }

  ghost predicate SessionFull(s: Server, c: Session) {
    && Full(c.client.shown, c.start)
    && c.client.cursor <= Reach(c.client.shown, c.start)
    && WireFull(WireOf(c.conn), c.client.cursor, Reach(c.client.shown, c.start))
    && (c.conn.Live? ==> c.conn.rx <= c.conn.cursor)
  }

  ghost predicate InvFull(s: System) {
    && Inv(s) && InOrder(s.server.sent) && |s.server.sent| <= |s.server.log.all|
    && forall id | id in s.sessions :: SessionFull(s.server, s.sessions[id])
  }
}
