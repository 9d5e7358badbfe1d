/** Agent events and the order of sends: exactly when pages miss events, and that a miss is for good. */
module AcpOrder {
  import opened Wrappers
  import opened EventLog
  import opened AcpSocket
  import opened AcpProtocol
  import opened AcpDelivery

  // ---- a loss is permanent -----------------------------------------------------------------

  /** A step shows at most one more item, about events past the cursor, and never moves the cursor back. */
  lemma StepShowsLater(s: System, step: Step, s': System, id: nat)
    requires Inv(s) && Next(s, step, s') && id in s.sessions
    ensures id in s'.sessions
    ensures var c, c' := s.sessions[id].client, s'.sessions[id].client;
      && c.cursor <= c'.cursor && s'.sessions[id].start == s.sessions[id].start
      && (|| c'.shown == c.shown
          || exists item :: c'.shown == c.shown + [item] &&
               match item case Delivered(e) => c.cursor < e.seqNo case Gap(at, _) => c.cursor <= at)
  {
    var c, c' := s.sessions[id], s'.sessions[id];
    if step == Deliver(id) {
      var f := WireOf(c.conn)[0];
      assert c'.client == Handle(c.client, f);
      match f
      case Sequenced(e) => assert c'.client.shown == c.client.shown + [Delivered(e)];
      case Truncated(t) => assert c'.client.shown == c.client.shown + [Gap(c.client.cursor, t)];
      case _ =>
    }
  }

  lemma LossStays(s: System, step: Step, s': System, id: nat, q: nat)
    requires Inv(s) && Next(s, step, s') && id in s.sessions
    requires q <= s.sessions[id].client.cursor && !Accounted(s.sessions[id].client.shown, q)
    ensures id in s'.sessions && q <= s'.sessions[id].client.cursor && !Accounted(s'.sessions[id].client.shown, q)
  {
    StepShowsLater(s, step, s', id);
    var shown, shown' := s.sessions[id].client.shown, s'.sessions[id].client.shown;
    if item :| item in shown' && About(item, q) {
      assert item in shown;
    }
  }

  /**
   * An event a page has passed over without notice is never made up for, whatever follows: lag,
   * reconnects, replays.
   */
  lemma {:induction false} LossIsPermanent(states: seq<System>, steps: seq<Step>, i: nat, j: nat, id: nat, q: nat)
    requires Run(states, steps) && i <= j < |states| && id in states[i].sessions
    requires q <= states[i].sessions[id].client.cursor && !Accounted(states[i].sessions[id].client.shown, q)
    ensures id in states[j].sessions
    ensures q <= states[j].sessions[id].client.cursor && !Accounted(states[j].sessions[id].client.shown, q)
  {
    if i < j {
      LossIsPermanent(states, steps, i, j - 1, id, q);
      RunInv(states, steps, j - 1);
      LossStays(states[j - 1], steps[j - 1], states[j], id, q);
    }
  }

  // ---- which event opens a hole ---------------------------------------------------------------

  /** The page once all that is in flight has been delivered. */
  function Arrived(client: Client, wire: seq<Frame>): Client
    decreases wire
  {
    if wire == [] then client else Arrived(Handle(client, wire[0]), wire[1..])
  }

  /** Everything from where the page started to its cursor was shown or announced as missing. */
  ghost predicate Whole(start: nat, client: Client) {
    forall q: nat | start < q <= client.cursor :: Accounted(client.shown, q)
  }

  /** No announced gap reaches past an event. */
  ghost predicate GapsUpTo(shown: seq<Item>, n: nat) {
    forall item | item in shown && item.Gap? :: item.from <= n + 1
  }

  ghost predicate NoticesUpTo(wire: seq<Frame>, n: nat) {
    forall f | f in wire && f.Truncated? :: f.fromSeq <= n + 1
  }

  /** A connection's cursor is past every gap its client was or will be told of. */
  ghost predicate GapsBehind(c: Session) {
    c.conn.Live? || c.conn.Lagged? ==>
      GapsUpTo(c.client.shown, c.conn.cursor) && NoticesUpTo(c.conn.wire, c.conn.cursor)
  }

  lemma {:induction false} RisingGaps(h: Log<Event>, shown: seq<Item>, start: nat, end: nat)
    requires h.Valid() && Rising(h, shown, start, end)
    ensures GapsUpTo(shown, |h.all|)
  {
    if shown != [] {
      var init, last := shown[..|shown| - 1], shown[|shown| - 1];
      assert shown == init + [last];
      RisingGaps(h, init, start, if last.Delivered? then last.e.seqNo - 1 else end);
    }
  }

  lemma {:induction false} BatchHasNoNotice(events: seq<Stamped>, cursor: nat)
    ensures forall f | f in Batch(events, cursor).0 :: f.Sequenced?
  {
    if events != [] {
      BatchHasNoNotice(events[..|events| - 1], cursor);
    }
  }

  lemma ReplayNotices(h: Log<Event>, cursor: nat)
    requires h.Valid() && cursor <= |h.all|
    ensures NoticesUpTo(ReplayFrames(h, cursor).0, |h.all|) && ReplayFrames(h, cursor).1 == |h.all|
  {
    ReplayFramesOk(h, cursor);
    BatchHasNoNotice(ReplayOf(h, cursor).events, cursor);
  }

  lemma StepKeepsGaps(s: System, step: Step, s': System, id: nat)
    requires Inv(s) && Next(s, step, s') && id in s.sessions && GapsBehind(s.sessions[id])
    ensures id in s'.sessions && GapsBehind(s'.sessions[id])
  {
    if step == ReadLog(id) || step == CatchUp(id) {
      ReplayKeepsGaps(s, step, s', id);
    } else if step == Deliver(id) {
      DeliverKeepsGaps(s.sessions[id], s'.sessions[id]);
    }
  }

  lemma ReplayKeepsGaps(s: System, step: Step, s': System, id: nat)
    requires Inv(s) && id in s.sessions && GapsBehind(s.sessions[id])
    requires (step == ReadLog(id) || step == CatchUp(id)) && Next(s, step, s')
    ensures GapsBehind(s'.sessions[id])
  {
    var c := s.sessions[id];
    RisingGaps(s.server.log, c.client.shown, c.start, c.client.cursor);
    ReplayNotices(s.server.log, c.conn.cursor);
  }

  lemma DeliverKeepsGaps(c: Session, c': Session)
    requires GapsBehind(c) && WireOf(c.conn) != []
    requires c' == c.(client := Handle(c.client, WireOf(c.conn)[0]), conn := WithWire(c.conn, WireOf(c.conn)[1..]))
    ensures GapsBehind(c')
  {
    assert WireOf(c.conn)[0] in WireOf(c.conn);
  }

  lemma {:induction false} RunGaps(states: seq<System>, steps: seq<Step>, i: nat, id: nat)
    requires Run(states, steps) && i < |states| && id in states[i].sessions
    ensures GapsBehind(states[i].sessions[id])
  {
    if 0 < i {
      assert Next(states[i - 1], steps[i - 1], states[i]);
      if id in states[i - 1].sessions {
        RunGaps(states, steps, i - 1, id);
        RunInv(states, steps, i - 1);
        StepKeepsGaps(states[i - 1], steps[i - 1], states[i], id);
      }
    }
  }

  lemma {:induction false} ArrivedSnoc(client: Client, wire: seq<Frame>, f: Frame)
    ensures Arrived(client, wire + [f]) == Handle(Arrived(client, wire), f)
    decreases wire
  {
    if wire == [] {
      assert [f][1..] == [];
    } else {
      assert (wire + [f])[1..] == wire[1..] + [f];
      ArrivedSnoc(Handle(client, wire[0]), wire[1..], f);
    }
  }

  lemma {:induction false} ArrivedOk(h: Log<Event>, start: nat, client: Client, wire: seq<Frame>, to: nat)
    requires Rising(h, client.shown, start, client.cursor) && WireOk(h, wire, client.cursor, to)
    requires GapsUpTo(client.shown, to) && NoticesUpTo(wire, to)
    ensures var a := Arrived(client, wire);
      a.cursor == to && Rising(h, a.shown, start, to) && GapsUpTo(a.shown, to)
    decreases wire
  {
    if wire != [] {
      HandleOk(h, start, client, wire[0]);
      ArrivedOk(h, start, Handle(client, wire[0]), wire[1..], to);
    }
  }

  /** Past the last event shown and the last gap nothing is accounted for. */
  lemma {:induction false} NotBeyond(h: Log<Event>, shown: seq<Item>, start: nat, end: nat, q: nat)
    requires Rising(h, shown, start, end) && GapsUpTo(shown, end) && end < q
    ensures !Accounted(shown, q)
  {
    RisingSeqs(h, shown, start, end);
    forall item | item in shown ensures !About(item, q) {
      SeqsHas(shown, item);
    }
  }

  lemma {:induction false} SeqsHas(shown: seq<Item>, item: Item)
    requires item in shown
    ensures item.Delivered? ==> item.e.seqNo in Seqs(shown)
  {
    var init, last := shown[..|shown| - 1], shown[|shown| - 1];
    assert shown == init + [last];
    if item in init {
      SeqsHas(init, item);
    }
  }

  lemma DeliveredAccounts(client: Client, e: Stamped, q: nat)
    requires client.cursor < e.seqNo
    ensures Accounted(AcpSocket.Deliver(client, e).shown, q) <==> Accounted(client.shown, q) || q == e.seqNo
  {
    var shown' := client.shown + [Delivered(e)];
    assert Delivered(e) in shown' && (About(Delivered(e), q) <==> q == e.seqNo);
    assert forall item :: item in shown' <==> item in client.shown || item == Delivered(e);
  }

  /** Delivering an event past the cursor leaves a whole page whole exactly when it is the next one. */
  lemma DeliverOpensHoleIff(h: Log<Event>, start: nat, client: Client, e: Stamped)
    requires Rising(h, client.shown, start, client.cursor) && GapsUpTo(client.shown, client.cursor)
    requires Whole(start, client) && start <= client.cursor < e.seqNo
    ensures Whole(start, AcpSocket.Deliver(client, e)) <==> e.seqNo == client.cursor + 1
  {
    forall q: nat
      ensures Accounted(AcpSocket.Deliver(client, e).shown, q) <==> Accounted(client.shown, q) || q == e.seqNo
    {
      DeliveredAccounts(client, e, q);
    }
    if client.cursor + 1 < e.seqNo {
      NotBeyond(h, client.shown, start, client.cursor, client.cursor + 1);
    }
  }

  /** What is received next by a live connection, as the client will see it. */
  lemma ReceiveOpensHole(s: Server, c: Session, c': Session)
    requires s.Valid() && SessionOk(s, c) && SessionStep(s, c, Receive(0), c') && GapsBehind(c)
    requires Whole(c.start, Arrived(c.client, c.conn.wire))
    ensures Whole(c'.start, Arrived(c'.client, WireOf(c'.conn))) <==> s.sent[c.conn.rx] <= c.conn.cursor + 1
  {
    var e := s.log.all[s.sent[c.conn.rx] - 1];
    var a := Arrived(c.client, c.conn.wire);
    ArrivedOk(s.log, c.start, c.client, c.conn.wire, c.conn.cursor);
    RisingWider(s.log, a.shown, c.start, c.conn.cursor, c.conn.cursor);
    if c.conn.cursor < e.seqNo {
      ArrivedSnoc(c.client, c.conn.wire, Sequenced(e));
      DeliverOpensHoleIff(s.log, c.start, a, e);
    }
  }

  /**
   * For a connection whose page is without holes once all that is in flight has arrived: receiving
   * an event opens a hole exactly when its number leaves out the one after the connection's cursor.
   */
  lemma ReceiveOpensHoleIff(states: seq<System>, steps: seq<Step>, i: nat, id: nat)
    requires Run(states, steps) && i < |steps| && steps[i] == Receive(id) && id in states[i].sessions
    requires Whole(states[i].sessions[id].start,
                   Arrived(states[i].sessions[id].client, WireOf(states[i].sessions[id].conn)))
    ensures states[i].server.Valid() && id in states[i + 1].sessions
    ensures var s, c, c' := states[i].server, states[i].sessions[id], states[i + 1].sessions[id];
      && c.conn.Live? && c.conn.rx < |s.sent|
      && (Whole(c'.start, Arrived(c'.client, WireOf(c'.conn))) <==> s.sent[c.conn.rx] <= c.conn.cursor + 1)
  {
    RunInv(states, steps, i);
    RunGaps(states, steps, i, id);
    assert Next(states[i], steps[i], states[i + 1]);
    ReceiveOpensHole(states[i].server, states[i].sessions[id], states[i + 1].sessions[id]);
  }

  // ---- the end of a page's connections ----------------------------------------------------------

  /** The page is handed the closing event, or gives up. */
  ghost predicate Finishes(c: Session, step: Step, id: nat) {
    || step == GiveUp(id)
    || (step == Deliver(id) && WireOf(c.conn) != [] &&
        WireOf(c.conn)[0].Sequenced? && WireOf(c.conn)[0].e.event.ConnectionClosed?)
  }

  lemma StepFinishes(s: System, step: Step, s': System, id: nat)
    requires s.server.Valid() && Next(s, step, s') && id in s.sessions
    requires s.sessions[id].client.finished || Finishes(s.sessions[id], step, id)
    ensures id in s'.sessions && s'.sessions[id].client.finished && step != Subscribe(id)
  {
  }

  ghost predicate IsFinished(s: System, id: nat) { id in s.sessions && s.sessions[id].client.finished }

  lemma {:induction false} StaysFinished(states: seq<System>, steps: seq<Step>, i: nat, j: nat, id: nat)
    requires Run(states, steps) && i <= j < |states| && IsFinished(states[i], id)
    ensures IsFinished(states[j], id)
  {
    if i < j {
      StaysFinished(states, steps, i, j - 1, id);
      assert Next(states[j - 1], steps[j - 1], states[j]);
      StepFinishes(states[j - 1], steps[j - 1], states[j], id);
    }
  }

  /** A page that was handed the closing event, or has given up, never connects again. */
  lemma FinishedStays(states: seq<System>, steps: seq<Step>, i: nat, j: nat, id: nat)
    requires Run(states, steps) && i < j < |states| && id in states[i].sessions
    requires Finishes(states[i].sessions[id], steps[i], id)
    ensures IsFinished(states[j], id)
    ensures j < |steps| ==> steps[j] != Subscribe(id)
  {
    assert Next(states[i], steps[i], states[i + 1]);
    StepFinishes(states[i], steps[i], states[i + 1], id);
    StaysFinished(states, steps, i + 1, j, id);
    if j < |steps| {
      assert Next(states[j], steps[j], states[j + 1]);
      StepFinishes(states[j], steps[j], states[j + 1], id);
    }
  }
}
