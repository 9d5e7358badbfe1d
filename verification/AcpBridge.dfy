/** The server's end of an agent session's WebSocket (src/server/src/routes/acp.rs), as steps of the protocol. */
module AcpBridge {
  import opened EventLog
  import opened AcpSocket
  import opened AcpProtocol

  class Bridge {
    var cursor: nat
    var sent: seq<Frame>
    var closed: bool
    /** The history has been sent. */
    ghost var ready: bool
    /** Position in the broadcast of the next event to receive. */
    ghost var rx: nat
    /** How many of the sent frames have reached the page. */
    ghost var taken: nat

    ghost predicate Valid()
      reads this
    {
      taken <= |sent| && (ready || (!closed && sent == []))
    }

    /** The connection as the protocol sees it. */
    ghost function View(): Conn
      requires Valid()
      reads this
    {
      if !ready then Subscribed(cursor, rx)
      else if closed then Draining(cursor, sent[taken..])
      else Live(cursor, rx, sent[taken..])
    }

    /** A receiver is taken before the log is read. */
    constructor (after: nat, ghost s: Server, ghost c: Session)
      requires s.Valid()
      requires c.conn.Offline? && !c.client.finished && c.client.cursor == after
      ensures Valid() && !ready && SessionStep(s, c, Subscribe(0), c.(conn := View()))
    {
      cursor, sent, closed := after, [], false;
      ready, rx, taken := false, |s.sent|, 0;
    }

    /** The replayed events, from the log as it is by now, then ready. */
    method Start(replay: Replay<Event>, ghost s: Server, ghost c: Session)
      requires Valid() && !ready && s.Valid() && c.conn == View()
      requires IsReplay(s.log, cursor, replay)
      modifies this
      ensures Valid() && ready && !closed
      ensures SessionStep(s, c, ReadLog(0), c.(conn := View()))
    {
      SendReplay(replay);
      assert sent == ReplayFrames(s.log, c.conn.cursor).0;
      SendReady();
      ready := true;
      assert sent[taken..] == sent;
    }

    method SendReplay(replay: Replay<Event>)
      modifies this`cursor, this`sent
      ensures var (frames, at) := Batch(replay.events, old(cursor));
        cursor == at && sent == old(sent) + (Notice(replay.truncatedFrom) + frames)
    {
      ghost var start := sent;
      if replay.truncatedFrom.Some? {
        sent := sent + [Truncated(replay.truncatedFrom.value)];
      }
      assert sent == start + (Notice(replay.truncatedFrom) + []);
      for i := 0 to |replay.events|
        invariant Batch(replay.events[..i], old(cursor)).1 == cursor
        invariant sent == start + (Notice(replay.truncatedFrom) + Batch(replay.events[..i], old(cursor)).0)
      {
        assert replay.events[..i + 1][..i] == replay.events[..i];
        var e := replay.events[i];
        if e.seqNo <= cursor {
          continue;
        }
        sent := sent + [Sequenced(e)];
        cursor := e.seqNo;
      }
      assert replay.events[..|replay.events|] == replay.events;
    }

    method SendReady()
      modifies this`sent
      ensures sent == old(sent) + [Ready(cursor)]
    {
      sent := sent + [Ready(cursor)];
    }

    /** The next event of the broadcast. */
    method Relay(e: Stamped, ghost s: Server, ghost c: Session)
      requires Valid() && ready && !closed && s.Valid() && c.conn == View()
      requires rx < |s.sent| && e == s.log.all[s.sent[rx] - 1]
      modifies this
      ensures Valid() && ready && taken == old(taken)
      ensures SessionStep(s, c, Receive(0), c.(conn := View()))
    {
      rx := rx + 1;
      if e.seqNo <= cursor {
        return;
      }
      assert (sent + [Sequenced(e)])[taken..] == sent[taken..] + [Sequenced(e)];
      cursor := e.seqNo;
      sent := sent + [Sequenced(e)];
      if e.event.ConnectionClosed? {
        closed := true;
      }
    }

    /** The receiver fell too far behind and was moved on: read the log again from the cursor. */
    method Recover(replay: Replay<Event>, ghost moved: nat, ghost s: Server, ghost c: Session)
      requires Valid() && ready && !closed && s.Valid()
      requires c.conn == Lagged(cursor, moved, sent[taken..]) && IsReplay(s.log, cursor, replay)
      modifies this
      ensures Valid() && ready && !closed && taken == old(taken)
      ensures SessionStep(s, c, CatchUp(0), c.(conn := View()))
    {
      ghost var before := sent;
      SendReplay(replay);
      rx := moved;
      assert sent[taken..] == before[taken..] + sent[|before|..];
    }

    /** The page takes the next frame. */
    ghost method Carry(s: Server, c: Session)
      requires Valid() && ready && s.Valid() && taken < |sent| && c.conn == View()
      modifies this`taken
      ensures Valid() && ready
      ensures SessionStep(s, c, Deliver(0), c.(client := Handle(c.client, old(sent[taken])), conn := View()))
    {
      assert sent[taken..][1..] == sent[taken + 1..];
      taken := taken + 1;
    }
  }
}
