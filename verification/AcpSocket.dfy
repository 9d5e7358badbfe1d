/** Frames of an agent session's WebSocket and the browser's end of it (src/web/src/api/acpSocket.ts). */
module AcpSocket {
  import opened Wrappers
  import Reconnect
  import opened EventLog

  /** An agent event; only the one that ends the connection matters to the sockets. */
  datatype Event = ConnectionClosed | Update(payload: nat)

  type Stamped = Logged<Event>

  /** Server-to-client frames; Other stands for pong and error frames. */
  datatype Frame =
    | Truncated(fromSeq: nat)
    | Sequenced(e: Stamped)
    | Ready(seqNo: nat)
    | Other

  /** What the page has been handed: events, and notices that the stream resumes at a later one. */
  datatype Item = Delivered(e: Stamped) | Gap(at: nat, from: nat)

  datatype Client = Client(cursor: nat, shown: seq<Item>, finished: bool)

  function Deliver(c: Client, e: Stamped): Client {
    if e.seqNo <= c.cursor then c else c.(cursor := e.seqNo, shown := c.shown + [Delivered(e)])
  }

  function Handle(c: Client, f: Frame): Client {
    match f
    case Ready(seqNo) => c.(cursor := seqNo)
    case Truncated(fromSeq) => c.(shown := c.shown + [Gap(c.cursor, fromSeq)])
    case Sequenced(e) => Deliver(c, e).(finished := c.finished || e.event.ConnectionClosed?)
    case Other => c
  }

  class Socket {
    const maxAttempts: nat
    var cursor: nat
    var attempts: nat
    var finished: bool
    var shown: seq<Item>
    /** Openings, scheduled reconnects and the end, so far. */
    var signals: seq<Reconnect.Signal>

    function View(): Client
      reads this
    {
      Client(cursor, shown, finished)
    }

    function Link(): Reconnect.Link
      reads this
    {
      Reconnect.Link(attempts, finished, signals)
    }

    constructor (afterSeq: nat, maxAttempts: nat)
      ensures View() == Client(afterSeq, [], false)
      ensures this.maxAttempts == maxAttempts && Link() == Reconnect.LinkOf(maxAttempts, [])
    {
      this.maxAttempts := maxAttempts;
      cursor, attempts, finished, shown, signals := afterSeq, 0, false, [], [];
    }

    method HandleFrame(f: Frame)
      modifies this
      ensures View() == Handle(old(View()), f)
      ensures match f
              case Ready(seqNo) => cursor == seqNo && shown == old(shown)
              case Truncated(fromSeq) => cursor == old(cursor) && shown == old(shown) + [Gap(cursor, fromSeq)]
              case Sequenced(e) =>
                if e.seqNo <= old(cursor) then cursor == old(cursor) && shown == old(shown)
                else cursor == e.seqNo && shown == old(shown) + [Delivered(e)]
              case Other => cursor == old(cursor) && shown == old(shown)
      ensures finished == (old(finished) || (f.Sequenced? && f.e.event.ConnectionClosed?))
      ensures Link() ==
        if f.Sequenced? && f.e.event.ConnectionClosed? then Reconnect.Next(maxAttempts, old(Link()), Reconnect.Finish)
        else old(Link())
    {
      match f {
        case Ready(seqNo) =>
          cursor := seqNo;
        case Truncated(fromSeq) =>
          // A notice is exempt from the filter and leaves the cursor alone.
          shown := shown + [Gap(cursor, fromSeq)];
        case Sequenced(e) =>
          DeliverEvent(e);
          if e.event.ConnectionClosed? {
            Finish();
          }
        case Other =>
      }
    }

    method DeliverEvent(e: Stamped)
      modifies this`cursor, this`shown
      ensures View() == Deliver(old(View()), e)
    {
      if e.seqNo <= cursor {
        return;
      }
      cursor := e.seqNo;
      shown := shown + [Delivered(e)];
    }

    method OnOpen()
      modifies this`attempts, this`signals
      ensures Link() == Reconnect.Next(maxAttempts, old(Link()), Reconnect.Open)
    {
      attempts := 0;
      signals := signals + [Reconnect.Opened];
    }

    method Finish()
      modifies this`finished, this`signals
      ensures Link() == Reconnect.Next(maxAttempts, old(Link()), Reconnect.Finish) && finished
    {
      if !finished {
        signals := signals + [Reconnect.Finished];
      }
      finished := true;
    }

    /** rejected: the server closed because the session is not this connection's; retrying would not help. */
    method OnClose(rejected: bool)
      modifies this`attempts, this`finished, this`signals
      ensures Link() == Reconnect.Next(maxAttempts, old(Link()), if rejected then Reconnect.Finish else Reconnect.Close)
    {
      if !finished && rejected {
        Finish();
      } else if !finished {
        ScheduleReconnect();
      }
    }

    method ScheduleReconnect()
      requires !finished
      modifies this`attempts, this`finished, this`signals
      ensures Link() == Reconnect.Next(maxAttempts, old(Link()), Reconnect.Close)
    {
      if maxAttempts <= attempts {
        Finish();
        return;
      }
      signals := signals + [Reconnect.Retry(Reconnect.Delay(attempts))];
      attempts := attempts + 1;
    }
  }

  // ---- what the server sends ------------------------------------------------------------------

  /** The events of a replay that are past the cursor, as frames, and the cursor after them. */
  function Batch(events: seq<Stamped>, cursor: nat): (seq<Frame>, nat) {
    if events == [] then ([], cursor)
    else
      var (frames, at) := Batch(events[..|events| - 1], cursor);
      var e := events[|events| - 1];
      if e.seqNo <= at then (frames, at) else (frames + [Sequenced(e)], e.seqNo)
  }

  function Notice(truncatedFrom: Option<nat>): seq<Frame> {
    if truncatedFrom.Some? then [Truncated(truncatedFrom.value)] else []
  }
}
