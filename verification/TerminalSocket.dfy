/** Frames of a terminal's WebSocket and the browser's end of it (src/web/src/api/terminalSocket.ts). */
module TerminalSocket {
  import opened Chunks
  import opened Wrappers
  import Reconnect
  import Scrollback
  import Pump

  /** Server-to-client frames; Other stands for cwd, pong and error frames. */
  datatype Frame =
    | Truncated(fromSeq: nat)
    | Binary(data: Bytes)
    | Ready(seqNo: nat)
    | Exited
    | Other

  /** What the page has been shown: output, and gaps it was told about. */
  datatype Item = Data(data: Bytes) | Hole(from: nat, to: nat)

  datatype Client = Client(cursor: nat, view: seq<Item>, finished: bool)

  function Handle(c: Client, f: Frame): Client {
    match f
    case Truncated(fromSeq) => c.(cursor := fromSeq, view := c.view + [Hole(c.cursor, fromSeq)])
    case Binary(data) => c.(cursor := c.cursor + |data|, view := c.view + [Data(data)])
    case Ready(seqNo) => c.(cursor := seqNo)
    case Exited => c.(finished := true)
    case Other => c
  }

  datatype ConnectionState = Connecting | Open | Reconnecting | Closed

  function Min(a: nat, b: nat): nat { if a < b then a else b }

  class Socket {
    const maxAttempts: nat
    var cursor: nat
    var attempts: nat
    var finished: bool
    var state: ConnectionState
    var view: seq<Item>
    /** Openings, scheduled reconnects and the end, so far. */
    var signals: seq<Reconnect.Signal>

    function View(): Client
      reads this
    {
      Client(cursor, view, finished)
    }

    function Link(): Reconnect.Link
      reads this
    {
      Reconnect.Link(attempts, finished, signals)
    }

    constructor (afterSeq: nat, maxAttempts: nat)
      ensures View() == Client(afterSeq, [], false) && state == Closed
      ensures this.maxAttempts == maxAttempts && Link() == Reconnect.LinkOf(maxAttempts, [])
    {
      this.maxAttempts := maxAttempts;
      cursor, attempts, finished, state, view, signals := afterSeq, 0, false, Closed, [], [];
    }

    /** The cursor to resume from, or None when the socket is done for good. */
    method Connect() returns (afterSeq: Option<nat>)
      modifies this`state
      ensures afterSeq == if finished then None else Some(cursor)
      ensures state == if finished then old(state) else if attempts == 0 then Connecting else Reconnecting
    {
      if finished {
        return None;
      }
      state := if attempts == 0 then Connecting else Reconnecting;
      // A cursor of 0 is sent as "no cursor", which the server reads as 0.
      return Some(cursor);
    }

    method OnOpen()
      modifies this`attempts, this`state, this`signals
      ensures Link() == Reconnect.Next(maxAttempts, old(Link()), Reconnect.Open) && state == Open
    {
      attempts := 0;
      signals := signals + [Reconnect.Opened];
      state := Open;
    }

    method HandleFrame(f: Frame)
      modifies this`cursor, this`view, this`finished, this`signals
      ensures View() == Handle(old(View()), f)
      ensures match f
              case Binary(data) => cursor == old(cursor) + |data| && view == old(view) + [Data(data)]
              case Ready(seqNo) => cursor == seqNo && view == old(view)
              case Truncated(fromSeq) => cursor == fromSeq && view == old(view) + [Hole(old(cursor), fromSeq)]
              case _ => cursor == old(cursor) && view == old(view)
      ensures finished == (old(finished) || f.Exited?)
      ensures Link() == if f.Exited? then Reconnect.Next(maxAttempts, old(Link()), Reconnect.Finish) else old(Link())
    {
      match f {
        case Binary(data) =>
          cursor := cursor + |data|;
          view := view + [Data(data)];
        case Ready(seqNo) =>
          cursor := seqNo;
        case Exited =>
          Finish();
        case Truncated(fromSeq) =>
          view := view + [Hole(cursor, fromSeq)];
          cursor := fromSeq;
        case Other =>
      }
    }

    /** Nothing left to reconnect to. */
    method Finish()
      modifies this`finished, this`signals
      ensures Link() == Reconnect.Next(maxAttempts, old(Link()), Reconnect.Finish) && finished
    {
      if !finished {
        signals := signals + [Reconnect.Finished];
      }
      finished := true;
    }

    method OnClose()
      modifies this`attempts, this`finished, this`state, this`signals
      ensures Link() == Reconnect.Next(maxAttempts, old(Link()), Reconnect.Close)
      ensures state == if finished then Closed else Reconnecting
    {
      if finished {
        state := Closed;
        return;
      }
      ScheduleReconnect();
    }

    method ScheduleReconnect()
      requires !finished
      modifies this`attempts, this`finished, this`state, this`signals
      ensures Link() == Reconnect.Next(maxAttempts, old(Link()), Reconnect.Close)
      ensures state == if finished then Closed else Reconnecting
    {
      if maxAttempts <= attempts {
        Finish();
        state := Closed;
        return;
      }
      signals := signals + [Reconnect.Retry(Reconnect.Delay(attempts))];
      attempts := attempts + 1;
      state := Reconnecting;
    }

    /** The page is left; the shell keeps running. */
    method Dispose()
      modifies this`finished, this`state, this`signals
      ensures Link() == Reconnect.Next(maxAttempts, old(Link()), Reconnect.Finish) && state == Closed
    {
      Finish();
      state := Closed;
    }
  }

  // ---- what the server sends ---------------------------------------------------------------

  function Announce(requested: nat, fromSeq: nat): seq<Frame> {
    if requested < fromSeq then [Truncated(fromSeq)] else []
  }

  function Binaries(frames: seq<Bytes>): seq<Frame> {
    seq(|frames|, i requires 0 <= i < |frames| => Binary(frames[i]))
  }

  /** wire is what a client whose cursor is `after` is sent to bring it up to date. */
  ghost predicate CatchUp(h: Scrollback.History, after: nat, wire: seq<Frame>)
    requires h.Valid()
  {
    var r := Scrollback.ReplayOf(h, after);
    exists frames: seq<Bytes> :: Pump.Merges(frames, r.chunks) && wire == Announce(after, r.fromSeq) + Binaries(frames)
  }
}
