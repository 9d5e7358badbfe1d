/** The server's end of a terminal's WebSocket (src/server/src/routes/terminals.rs), as steps of the protocol. */
module TerminalBridge {
  import opened Chunks
  import opened Wrappers
  import opened TerminalSocket
  import opened TerminalProtocol
  import opened TerminalPump
  import Pump
  import Scrollback

  lemma {:induction false} CountedRises(events: seq<Pump.Event>, i: nat)
    requires i <= |events|
    ensures Counted(events[..i]) <= Counted(events)
  {
    if i < |events| {
      CountedRises(events[..|events| - 1], i);
      assert events[..|events| - 1][..i] == events[..i];
    } else {
      assert events[..i] == events;
    }
  }

  /** What a receiver at position i of the broadcast gets next, in the terms of the protocol. */
  lemma NextEvent(events: seq<Pump.Event>, i: nat, all: seq<Bytes>, exited: bool)
    requires Carries(events, all, exited) && i < |events|
    ensures var k, e := Counted(events[..i]), events[i];
      && Counted(events[..i + 1]) == k + (if e.Cwd? then 0 else 1)
      && (e.Output? ==> k < |all| && e == Pump.Output(all[k], Offset(all, k + 1)))
      && (e.Exit? ==> exited && k == |all|)
  {
    assert InPlace(events, i, all, exited);
    assert events[..i + 1][..i] == events[..i];
    if events[i].Exit? {
      assert events[..i + 1] == events;
    }
  }

  /** A new connection: history and ready, then the exit if there is one. */
  ghost predicate Opens(s: Server, c: Session, c': Session)
    requires s.hist.Valid()
  {
    exists wire: seq<Frame>, mid: Session ::
      SessionStep(s, c, Attach(0, wire), mid) && SessionStep(s, mid, LookAtExit(0), c')
  }

  /** Where a new connection stands once its history is sent. */
  ghost function Opened(s: Server, after: nat, wire: seq<Frame>): Conn
    requires s.hist.Valid()
  {
    var seqEnd := Scrollback.ReplayOf(s.hist, after).endSeq;
    if s.reaped then Draining(seqEnd, wire + [Ready(seqEnd)] + [Exited])
    else Live(seqEnd, s.Count(), wire + [Ready(seqEnd)])
  }

  lemma OpensWith(s: Server, c: Session, wire: seq<Frame>)
    requires s.hist.Valid() && c.conn.Offline? && !c.client.finished && CatchUp(s.hist, c.client.cursor, wire)
    ensures Opens(s, c, c.(conn := Opened(s, c.client.cursor, wire)))
  {
    var mid := c.(conn := Opening(Scrollback.ReplayOf(s.hist, c.client.cursor).endSeq, s.Count(), wire));
    assert SessionStep(s, c, Attach(0, wire), mid);
    assert SessionStep(s, mid, LookAtExit(0), c.(conn := Opened(s, c.client.cursor, wire)));
  }

  ghost predicate Recovers(s: Server, c: Session, c': Session)
    requires s.hist.Valid()
  {
    exists wire: seq<Frame> :: SessionStep(s, c, Lag(0, wire), c')
  }

  class Bridge {
    const terminal: Terminal
    /** Output bytes this client has been sent: its replay cursor. */
    var cursor: nat
    /** Position in the broadcast of the next event to receive. */
    var next: nat
    var sent: seq<Frame>
    var closed: bool
    /** How many of the sent frames have reached the page. */
    ghost var taken: nat

    ghost predicate Valid()
      reads this, terminal, terminal.scrollback
    {
      terminal.Valid() && next <= |terminal.events| && taken <= |sent|
    }

    /** The connection as the protocol sees it. */
    ghost function View(): Conn
      requires Valid()
      reads this, terminal, terminal.scrollback
    {
      if closed then Draining(cursor, sent[taken..])
      else Live(cursor, Counted(terminal.events[..next]), sent[taken..])
    }

    constructor (terminal: Terminal, after: nat, ghost s: Server, ghost c: Session)
      requires Reflects(terminal, s)
      requires c.conn.Offline? && !c.client.finished && c.client.cursor == after
      ensures Valid() && this.terminal == terminal
      ensures Opens(s, c, c.(conn := View()))
    {
      this.terminal := terminal;
      next, cursor, taken, sent, closed := 0, 0, 0, [], false;
      new;
      var attachment, wire := SendReplay(after);
      next, cursor, closed := attachment.next, attachment.seqEnd, attachment.exit.Some?;
      var opening := wire + [Ready(attachment.seqEnd)];
      sent := if attachment.exit.Some? then opening + [Exited] else opening;
      assert terminal.events[..next] == terminal.events && sent[taken..] == sent;
      OpensWith(s, c, wire);
    }

    /**
     * Attach, and the frames for the history after a cursor: a gap notice exactly when some is missing,
     * then the bytes.
     */
    method SendReplay(after: nat) returns (attachment: Attachment, wire: seq<Frame>)
      requires terminal.Valid()
      ensures CatchUp(terminal.scrollback.hist, after, wire)
      ensures attachment.seqEnd == Scrollback.ReplayOf(terminal.scrollback.hist, after).endSeq
      ensures attachment.next == |terminal.events| && attachment.exit == terminal.exit
    {
      attachment := terminal.Attach(after);
      wire := Announce(after, attachment.fromSeq) + Binaries(attachment.frames);
    }

    /** One live event: the next chunk or the exit, or a frame that carries no output. */
    method Relay(ghost s: Server, ghost c: Session)
      requires Valid() && !closed && next < |terminal.events|
      requires Reflects(terminal, s) && c.conn == View()
      modifies this
      ensures Valid() && next == old(next) + 1 && taken == old(taken)
      ensures SessionStep(s, c, if terminal.events[old(next)].Cwd? then Control(0) else TerminalProtocol.Relay(0),
                          c.(conn := View()))
    {
      NextEvent(terminal.events, next, s.hist.all, s.exitSent);
      CountedRises(terminal.events, next + 1);
      ghost var before := sent;
      match terminal.events[next] {
        case Output(data, seqEnd) =>
          cursor := seqEnd;
          sent := sent + [Binary(data)];
        case Cwd(_) =>
          sent := sent + [Other];
        case Exit(_) =>
          sent := sent + [Exited];
          closed := true;
      }
      next := next + 1;
      assert sent[taken..] == before[taken..] + [sent[|before|]];
    }

    /** The receiver fell too far behind: attach again from the cursor. */
    method Recover(ghost s: Server, ghost c: Session)
      requires Valid() && !closed
      requires Reflects(terminal, s) && c.conn == View()
      modifies this
      ensures Valid() && next == |terminal.events| && taken == old(taken)
      ensures Recovers(s, c, c.(conn := View()))
    {
      var catchup, wire := SendReplay(cursor);
      assert (sent + wire)[taken..] == sent[taken..] + wire;
      next, sent, cursor := catchup.next, sent + wire, catchup.seqEnd;
      assert terminal.events[..next] == terminal.events;
      assert SessionStep(s, c, Lag(0, wire), c.(conn := View()));
    }

    /** The page takes the next frame. */
    ghost method Carry(s: Server, c: Session)
      requires Valid() && s.hist.Valid() && taken < |sent| && c.conn == View()
      modifies this`taken
      ensures Valid()
      ensures SessionStep(s, c, Deliver(0), c.(client := Handle(c.client, old(sent[taken])), conn := View()))
    {
      assert sent[taken..][1..] == sent[taken + 1..];
      taken := taken + 1;
    }
  }
}
