/** Order and completeness of agent events at the page. */
module AcpDelivery {
  import opened Wrappers
  import opened EventLog
  import opened AcpSocket
  import opened AcpProtocol

  // ---- frames in flight ------------------------------------------------------------------

  function ReachAfter(wire: seq<Frame>, reach: nat): nat {
    if wire == [] then reach else ReachAfter(wire[1..], ReachNext(wire[0], reach))
  }

  lemma {:induction false} WireConcat(h: Log<Event>, a: seq<Frame>, b: seq<Frame>, from: nat, mid: nat, to: nat)
    requires WireOk(h, a, from, mid) && WireOk(h, b, mid, to)
    ensures WireOk(h, a + b, from, to)
  {
    if a == [] {
      assert a + b == b;
    } else {
      assert (a + b)[1..] == a[1..] + b;
      WireConcat(h, a[1..], b, CursorAfter(a[0], from), mid, to);
    }
  }

  lemma {:induction false} WireFullConcat(h: Log<Event>, a: seq<Frame>, b: seq<Frame>, from: nat, mid: nat, reach: nat)
    requires WireOk(h, a, from, mid) && WireFull(a, from, reach) && WireFull(b, mid, ReachAfter(a, reach))
    ensures WireFull(a + b, from, reach) && ReachAfter(a + b, reach) == ReachAfter(b, ReachAfter(a, reach))
  {
    if a == [] {
      assert a + b == b;
    } else {
      assert (a + b)[1..] == a[1..] + b;
      WireFullConcat(h, a[1..], b, CursorAfter(a[0], from), mid, ReachNext(a[0], reach));
    }
  }

  lemma {:induction false} WireFullWider(wire: seq<Frame>, from: nat, reach: nat, reach': nat)
    requires WireFull(wire, from, reach) && reach <= reach'
    ensures WireFull(wire, from, reach')
  {
    if wire != [] {
      WireFullWider(wire[1..], CursorAfter(wire[0], from), ReachNext(wire[0], reach), ReachNext(wire[0], reach'));
    }
  }

  lemma {:induction false} WireFullEnd(h: Log<Event>, wire: seq<Frame>, from: nat, to: nat, reach: nat)
    requires WireOk(h, wire, from, to) && WireFull(wire, from, reach)
    ensures to <= ReachAfter(wire, reach)
  {
    if wire != [] {
      WireFullEnd(h, wire[1..], CursorAfter(wire[0], from), to, ReachNext(wire[0], reach));
    }
  }

  lemma OneFrame(h: Log<Event>, f: Frame, from: nat, to: nat, reach: nat)
    requires CursorAfter(f, from) == to
    requires f.Sequenced? ==> from < to && IsLogged(h, f.e)
    requires f.Truncated? ==> from + 1 < f.fromSeq <= h.dropped + 1
    requires f.Ready? ==> f.seqNo == from
    ensures WireOk(h, [f], from, to)
    ensures from <= reach && (f.Sequenced? ==> to <= reach + 1) ==> WireFull([f], from, reach)
    ensures f.Truncated? ==> ReachAfter([f], reach) == Max(reach, f.fromSeq - 1)
    ensures f.Sequenced? ==> ReachAfter([f], reach) == Max(reach, to)
  {
    assert [f][1..] == [];
  }

  /** More in flight after what is there: still explained, and with no silent hole if it starts without one. */
  lemma WireSend(h: Log<Event>, wire: seq<Frame>, more: seq<Frame>, from: nat, mid: nat, to: nat, reach: nat)
    requires WireOk(h, wire, from, mid) && WireOk(h, more, mid, to)
    ensures WireOk(h, wire + more, from, to)
    ensures WireFull(wire, from, reach) && WireFull(more, mid, mid) ==> WireFull(wire + more, from, reach)
  {
    WireConcat(h, wire, more, from, mid, to);
    if WireFull(wire, from, reach) && WireFull(more, mid, mid) {
      WireFullEnd(h, wire, from, mid, reach);
      WireFullWider(more, mid, mid, ReachAfter(wire, reach));
      WireFullConcat(h, wire, more, from, mid, reach);
    }
  }

  // ---- replays -----------------------------------------------------------------------------

  lemma {:induction false} BatchOk(h: Log<Event>, cursor: nat, lo: nat, j: nat)
    requires h.Valid() && cursor <= lo <= j <= |h.all|
    ensures var (frames, at) := Batch(h.all[lo..j], cursor);
      && at == (if j == lo then cursor else j)
      && WireOk(h, frames, cursor, at)
      && WireFull(frames, cursor, lo) && ReachAfter(frames, lo) == j
  {
    if j == lo {
      assert h.all[lo..j] == [];
    } else {
      var e := h.all[j - 1];
      BatchOk(h, cursor, lo, j - 1);
      SliceSnoc(h.all, lo, j);
      BatchSnoc(h.all[lo..j - 1], e, cursor);
      var (frames, at) := Batch(h.all[lo..j - 1], cursor);
      OneMoreOk(h, frames, e, cursor, at, lo, j);
    }
  }

  lemma SliceSnoc<T>(s: seq<T>, lo: nat, j: nat)
    requires lo < j <= |s|
    ensures s[lo..j] == s[lo..j - 1] + [s[j - 1]]
  {
  }

  lemma BatchSnoc(events: seq<Stamped>, e: Stamped, cursor: nat)
    ensures var (frames, at) := Batch(events, cursor);
      Batch(events + [e], cursor) == if e.seqNo <= at then (frames, at) else (frames + [Sequenced(e)], e.seqNo)
  {
    assert (events + [e])[..|events|] == events;
  }

  lemma OneMoreOk(h: Log<Event>, frames: seq<Frame>, e: Stamped, cursor: nat, at: nat, reach: nat, j: nat)
    requires IsLogged(h, e) && e.seqNo == j && at < j <= |h.all|
    requires WireOk(h, frames, cursor, at) && WireFull(frames, cursor, reach) && ReachAfter(frames, reach) == j - 1
    ensures WireOk(h, frames + [Sequenced(e)], cursor, j)
    ensures WireFull(frames + [Sequenced(e)], cursor, reach) && ReachAfter(frames + [Sequenced(e)], reach) == j
  {
    OneFrame(h, Sequenced(e), at, j, j - 1);
    WireConcat(h, frames, [Sequenced(e)], cursor, at, j);
    WireFullConcat(h, frames, [Sequenced(e)], cursor, at, reach);
  }

  lemma TailOk(h: Log<Event>, cursor: nat, lo: nat)
    requires h.Valid() && cursor <= lo < |h.all|
    ensures var (frames, at) := Batch(h.all[lo..], cursor);
      && at == |h.all| && WireOk(h, frames, cursor, at) && WireFull(frames, cursor, lo)
  {
    BatchOk(h, cursor, lo, |h.all|);
    assert h.all[lo..] == h.all[lo..|h.all|];
  }

  /** After a notice that events up to lo are gone, going on past lo leaves no silent hole. */
  lemma NoticedOk(h: Log<Event>, frames: seq<Frame>, cursor: nat, lo: nat, to: nat)
    requires WireOk(h, frames, cursor, to) && WireFull(frames, cursor, lo) && cursor < lo <= h.dropped
    ensures WireOk(h, [Truncated(lo + 1)] + frames, cursor, to)
    ensures WireFull([Truncated(lo + 1)] + frames, cursor, cursor)
  {
    OneFrame(h, Truncated(lo + 1), cursor, cursor, cursor);
    WireConcat(h, [Truncated(lo + 1)], frames, cursor, cursor, to);
    WireFullConcat(h, [Truncated(lo + 1)], frames, cursor, cursor, cursor);
  }

  lemma ReplayOfNothing(h: Log<Event>, cursor: nat)
    requires h.Valid() && cursor == |h.all|
    ensures ReplayFrames(h, cursor) == ([], cursor)
  {
    assert ReplayOf(h, cursor) == Replay([], None, |h.all|);
    NoNotice([]);
  }

  lemma ReplayPastGap(h: Log<Event>, cursor: nat)
    requires h.Valid() && cursor < h.dropped
    ensures var (frames, at) := ReplayFrames(h, cursor);
      && at == |h.all| && WireOk(h, frames, cursor, at) && WireFull(frames, cursor, cursor)
  {
    assert ReplayOf(h, cursor) == Replay(h.all[h.dropped..], Some(h.dropped + 1), |h.all|);
    TailOk(h, cursor, h.dropped);
    NoticedOk(h, Batch(h.all[h.dropped..], cursor).0, cursor, h.dropped, |h.all|);
  }

  lemma ReplayOfTail(h: Log<Event>, cursor: nat)
    requires h.Valid() && h.dropped <= cursor < |h.all|
    ensures var (frames, at) := ReplayFrames(h, cursor);
      && at == |h.all| && WireOk(h, frames, cursor, at) && WireFull(frames, cursor, cursor)
  {
    assert ReplayOf(h, cursor) == Replay(h.all[cursor..], None, |h.all|);
    TailOk(h, cursor, cursor);
    NoNotice(Batch(h.all[cursor..], cursor).0);
  }

  lemma NoNotice(frames: seq<Frame>)
    ensures Notice(None) + frames == frames
  {
  }

  /** A replay takes a client to the newest event, leaving nothing out but what it announces. */
  lemma ReplayFramesOk(h: Log<Event>, cursor: nat)
    requires h.Valid() && cursor <= |h.all|
    ensures var (frames, at) := ReplayFrames(h, cursor);
      && at == |h.all| && WireOk(h, frames, cursor, at) && WireFull(frames, cursor, cursor)
  {
    if cursor == |h.all| {
      ReplayOfNothing(h, cursor);
    } else if cursor < h.dropped {
      ReplayPastGap(h, cursor);
    } else {
      ReplayOfTail(h, cursor);
    }
  }

  // ---- the log grows under the clients ----------------------------------------------------------

  ghost predicate Grows(h: Log<Event>, h': Log<Event>) {
    h.all <= h'.all && h.dropped <= h'.dropped
  }

  lemma {:induction false} RisingGrows(h: Log<Event>, h': Log<Event>, shown: seq<Item>, start: nat, end: nat)
    requires Grows(h, h') && Rising(h, shown, start, end)
    ensures Rising(h', shown, start, end)
  {
    if shown != [] {
      var last := shown[|shown| - 1];
      RisingGrows(h, h', shown[..|shown| - 1], start, if last.Delivered? then last.e.seqNo - 1 else end);
    }
  }

  lemma {:induction false} RisingWider(h: Log<Event>, shown: seq<Item>, start: nat, end: nat, end': nat)
    requires Rising(h, shown, start, end) && end <= end'
    ensures Rising(h, shown, start, end') && start <= end
  {
    if shown != [] && shown[|shown| - 1].Gap? {
      RisingWider(h, shown[..|shown| - 1], start, end, end');
    }
  }

  lemma {:induction false} WireGrows(h: Log<Event>, h': Log<Event>, wire: seq<Frame>, from: nat, to: nat)
    requires Grows(h, h') && WireOk(h, wire, from, to)
    ensures WireOk(h', wire, from, to)
  {
    if wire != [] {
      WireGrows(h, h', wire[1..], CursorAfter(wire[0], from), to);
    }
  }

  lemma SessionGrows(s: Server, s': Server, c: Session)
    requires Grows(s.log, s'.log) && s.sent <= s'.sent && SessionOk(s, c)
    ensures SessionOk(s', c)
  {
    RisingGrows(s.log, s'.log, c.client.shown, c.start, c.client.cursor);
    if c.conn.Live? || c.conn.Lagged? || c.conn.Draining? {
      WireGrows(s.log, s'.log, c.conn.wire, c.client.cursor, c.conn.cursor);
    }
  }

  // ---- every step keeps the invariants --------------------------------------------------------------

  ghost predicate Ordered(s: Server) { InOrder(s.sent) && |s.sent| <= |s.log.all| }

  lemma ReceiveOk(s: Server, c: Session, c': Session)
    requires s.Valid() && SessionOk(s, c) && SessionStep(s, c, Receive(0), c')
    ensures SessionOk(s, c')
    ensures Ordered(s) && SessionFull(s, c) ==> SessionFull(s, c')
  {
    var e := s.log.all[s.sent[c.conn.rx] - 1];
    if c.conn.cursor < e.seqNo {
      OneFrame(s.log, Sequenced(e), c.conn.cursor, e.seqNo, c.conn.cursor);
      WireSend(s.log, c.conn.wire, [Sequenced(e)], c.client.cursor, c.conn.cursor, e.seqNo,
               Reach(c.client.shown, c.start));
    }
  }

  lemma ReadLogOk(s: Server, c: Session, c': Session)
    requires s.Valid() && SessionOk(s, c) && SessionStep(s, c, ReadLog(0), c')
    ensures SessionOk(s, c')
    ensures Ordered(s) && SessionFull(s, c) ==> SessionFull(s, c')
  {
    OpeningOk(s.log, c.conn.cursor);
    var (frames, at) := ReplayFrames(s.log, c.conn.cursor);
    WireFullWider(frames + [Ready(at)], c.client.cursor, c.client.cursor,
                  Max(c.client.cursor, Reach(c.client.shown, c.start)));
  }

  lemma OpeningOk(h: Log<Event>, cursor: nat)
    requires h.Valid() && cursor <= |h.all|
    ensures var (frames, at) := ReplayFrames(h, cursor);
      && at == |h.all| && WireOk(h, frames + [Ready(at)], cursor, at)
      && WireFull(frames + [Ready(at)], cursor, cursor)
  {
    ReplayFramesOk(h, cursor);
    var (frames, at) := ReplayFrames(h, cursor);
    OneFrame(h, Ready(at), at, at, at);
    WireSend(h, frames, [Ready(at)], cursor, at, at, cursor);
  }

  lemma CatchUpOk(s: Server, c: Session, c': Session)
    requires s.Valid() && SessionOk(s, c) && SessionStep(s, c, CatchUp(0), c')
    ensures SessionOk(s, c')
    ensures Ordered(s) && SessionFull(s, c) ==> SessionFull(s, c')
  {
    ReplayFramesOk(s.log, c.conn.cursor);
    var (frames, at) := ReplayFrames(s.log, c.conn.cursor);
    WireSend(s.log, c.conn.wire, frames, c.client.cursor, c.conn.cursor, at, Reach(c.client.shown, c.start));
  }

  lemma ControlOk(s: Server, c: Session, c': Session)
    requires s.Valid() && SessionOk(s, c) && SessionStep(s, c, Control(0), c')
    ensures SessionOk(s, c')
    ensures Ordered(s) && SessionFull(s, c) ==> SessionFull(s, c')
  {
    OneFrame(s.log, Other, c.conn.cursor, c.conn.cursor, c.conn.cursor);
    WireSend(s.log, c.conn.wire, [Other], c.client.cursor, c.conn.cursor, c.conn.cursor,
             Reach(c.client.shown, c.start));
  }

  /** Handling one frame keeps the page's events rising, and leaves no silent hole. */
  lemma HandleOk(h: Log<Event>, start: nat, client: Client, f: Frame)
    requires Rising(h, client.shown, start, client.cursor)
    requires f.Sequenced? ==> client.cursor < f.e.seqNo && IsLogged(h, f.e)
    requires f.Truncated? ==> client.cursor + 1 < f.fromSeq <= h.dropped + 1
    requires f.Ready? ==> f.seqNo == client.cursor
    ensures var client' := Handle(client, f);
      && client'.cursor == CursorAfter(f, client.cursor)
      && Rising(h, client'.shown, start, client'.cursor)
  {
    var client' := Handle(client, f);
    if client'.shown != client.shown {
      assert client'.shown[..|client.shown|] == client.shown;
    }
    if f.Sequenced? {
      RisingWider(h, client.shown, start, client.cursor, f.e.seqNo - 1);
    }
  }

  lemma HandleOne(start: nat, client: Client, f: Frame)
    requires Full(client.shown, start) && client.cursor <= Reach(client.shown, start)
    requires f.Sequenced? ==> client.cursor < f.e.seqNo <= Reach(client.shown, start) + 1
    requires (f.Truncated? ==> 0 < f.fromSeq) && (f.Ready? ==> f.seqNo == client.cursor)
    ensures var client' := Handle(client, f);
      && Full(client'.shown, start) && client'.cursor == CursorAfter(f, client.cursor)
      && Reach(client'.shown, start) == ReachNext(f, Reach(client.shown, start)) >= client'.cursor
  {
    if f.Sequenced? {
      HandleEvent(start, client, f.e);
    } else if f.Truncated? {
      HandleGap(start, client, f.fromSeq);
    }
  }

  lemma HandleEvent(start: nat, client: Client, e: Stamped)
    requires Full(client.shown, start) && client.cursor < e.seqNo <= Reach(client.shown, start) + 1
    ensures var client' := Handle(client, Sequenced(e));
      && Full(client'.shown, start) && client'.cursor == e.seqNo
      && Reach(client'.shown, start) == Max(Reach(client.shown, start), e.seqNo)
  {
    assert Handle(client, Sequenced(e)).shown == client.shown + [Delivered(e)];
    ShownEvent(client.shown, e, start);
  }

  lemma HandleGap(start: nat, client: Client, from: nat)
    requires Full(client.shown, start) && client.cursor <= Reach(client.shown, start)
    ensures var client' := Handle(client, Truncated(from));
      && Full(client'.shown, start) && client'.cursor == client.cursor
      && Reach(client'.shown, start) == Max(Reach(client.shown, start), if from == 0 then 0 else from - 1)
  {
    assert Handle(client, Truncated(from)).shown == client.shown + [Gap(client.cursor, from)];
    ShownGap(client.shown, client.cursor, from, start);
  }

  lemma HandleFull(h: Log<Event>, start: nat, client: Client, wire: seq<Frame>, to: nat)
    requires wire != [] && WireOk(h, wire, client.cursor, to)
    requires Full(client.shown, start) && WireFull(wire, client.cursor, Reach(client.shown, start))
    ensures var client' := Handle(client, wire[0]);
      && Full(client'.shown, start) && client'.cursor <= Reach(client'.shown, start)
      && WireFull(wire[1..], client'.cursor, Reach(client'.shown, start))
  {
    HandleOne(start, client, wire[0]);
  }

  lemma ShownEvent(shown: seq<Item>, e: Stamped, start: nat)
    ensures Reach(shown + [Delivered(e)], start) == Max(Reach(shown, start), e.seqNo)
    ensures Full(shown + [Delivered(e)], start) <==> Full(shown, start) && e.seqNo <= Reach(shown, start) + 1
  {
    assert (shown + [Delivered(e)])[..|shown|] == shown;
  }

  lemma ShownGap(shown: seq<Item>, at: nat, from: nat, start: nat)
    ensures Reach(shown + [Gap(at, from)], start) == Max(Reach(shown, start), if from == 0 then 0 else from - 1)
    ensures Full(shown + [Gap(at, from)], start) <==> Full(shown, start) && at <= Reach(shown, start)
  {
    assert (shown + [Gap(at, from)])[..|shown|] == shown;
  }

  lemma DeliverOk(s: Server, c: Session, c': Session)
    requires s.Valid() && SessionOk(s, c) && SessionStep(s, c, Deliver(0), c')
    ensures SessionOk(s, c')
  {
    HandleOk(s.log, c.start, c.client, WireOf(c.conn)[0]);
  }

  lemma DeliverFull(s: Server, c: Session, c': Session)
    requires s.Valid() && SessionOk(s, c) && SessionStep(s, c, Deliver(0), c')
    requires Ordered(s) && SessionFull(s, c)
    ensures SessionFull(s, c')
  {
    HandleFull(s.log, c.start, c.client, WireOf(c.conn), c.conn.cursor);
  }

  lemma SessionStepOk(s: Server, c: Session, step: Step, c': Session)
    requires s.Valid() && SessionOk(s, c) && SessionStep(s, c, step, c')
    ensures SessionOk(s, c')
    ensures Ordered(s) && SessionFull(s, c) ==> SessionFull(s, c')
  {
    match step
    case Receive(_) => ReceiveOk(s, c, c');
    case ReadLog(_) => ReadLogOk(s, c, c');
    case CatchUp(_) => CatchUpOk(s, c, c');
    case Control(_) => ControlOk(s, c, c');
    case Deliver(_) =>
      DeliverOk(s, c, c');
      if Ordered(s) && SessionFull(s, c) {
        DeliverFull(s, c, c');
      }
    case _ =>
  }

  lemma StepKeepsInv(s: System, step: Step, s': System)
    requires Inv(s) && Next(s, step, s')
    ensures Inv(s')
    ensures InvFull(s) && InOrder(s'.server.sent) ==> InvFull(s')
  {
    if step.Send? && InOrder(s'.server.sent) {
      assert s'.server.sent[|s.server.sent|] == |s.server.sent| + 1;
    }
    forall id | id in s'.sessions
      ensures SessionOk(s'.server, s'.sessions[id])
      ensures InvFull(s) ==> SessionFull(s'.server, s'.sessions[id])
    {
      if id in s.sessions {
        if s'.sessions[id] != s.sessions[id] {
          SessionStepOk(s.server, s.sessions[id], step, s'.sessions[id]);
        }
        SessionGrows(s.server, s'.server, s'.sessions[id]);
      }
    }
  }

  lemma {:induction false} RunInv(states: seq<System>, steps: seq<Step>, i: nat)
    requires Run(states, steps) && i < |states|
    ensures Inv(states[i])
    ensures InOrder(states[i].server.sent) ==> InvFull(states[i])
  {
    if 0 < i {
      RunInv(states, steps, i - 1);
      assert Next(states[i - 1], steps[i - 1], states[i]);
      assert states[i - 1].server.sent <= states[i].server.sent;
      StepKeepsInv(states[i - 1], steps[i - 1], states[i]);
    }
  }

  // ---- the results -------------------------------------------------------------------------------

  /** Sequence numbers of the events handed to the page, in order. */
  ghost function Seqs(shown: seq<Item>): seq<nat> {
    if shown == [] then []
    else
      var init := Seqs(shown[..|shown| - 1]);
      if shown[|shown| - 1].Delivered? then init + [shown[|shown| - 1].e.seqNo] else init
  }

  lemma {:induction false} RisingSeqs(h: Log<Event>, shown: seq<Item>, start: nat, end: nat)
    requires Rising(h, shown, start, end)
    ensures forall i, j | 0 <= i < j < |Seqs(shown)| :: Seqs(shown)[i] < Seqs(shown)[j]
    ensures forall i | 0 <= i < |Seqs(shown)| :: start < Seqs(shown)[i] <= end
    ensures forall item | item in shown ::
              match item case Delivered(e) => IsLogged(h, e) case Gap(at, from) => at + 1 < from <= h.dropped + 1
  {
    if shown != [] {
      var init, last := shown[..|shown| - 1], shown[|shown| - 1];
      assert shown == init + [last];
      RisingSeqs(h, init, start, if last.Delivered? then last.e.seqNo - 1 else end);
    }
  }

  /**
   * Whatever the order of sends: in every reachable state a page has been handed events in
   * strictly increasing order, each as it was logged, and every announced gap is of events
   * that really are gone.
   */
  lemma StrictlyIncreasing(states: seq<System>, steps: seq<Step>, i: nat, id: nat)
    requires Run(states, steps) && i < |states| && id in states[i].sessions
    ensures var h, c := states[i].server.log, states[i].sessions[id];
      && (forall a, b | 0 <= a < b < |Seqs(c.client.shown)| :: Seqs(c.client.shown)[a] < Seqs(c.client.shown)[b])
      && (forall a | 0 <= a < |Seqs(c.client.shown)| :: c.start < Seqs(c.client.shown)[a] <= c.client.cursor)
      && (forall item | item in c.client.shown ::
            match item case Delivered(e) => IsLogged(h, e) case Gap(at, from) => at + 1 < from <= h.dropped + 1)
  {
    RunInv(states, steps, i);
    var c := states[i].sessions[id];
    RisingSeqs(states[i].server.log, c.client.shown, c.start, c.client.cursor);
  }

  /** The item is event q, or a gap with q inside. */
  predicate About(item: Item, q: nat) {
    match item case Delivered(e) => e.seqNo == q case Gap(at, from) => at < q < from
  }

  /** Event q was handed over, or lies inside an announced gap. */
  ghost predicate Accounted(shown: seq<Item>, q: nat) {
    exists item :: item in shown && About(item, q)
  }

  lemma {:induction false} FullAccounts(shown: seq<Item>, start: nat, q: nat)
    requires Full(shown, start) && start < q <= Reach(shown, start)
    ensures Accounted(shown, q)
  {
    var init, last := shown[..|shown| - 1], shown[|shown| - 1];
    assert shown == init + [last];
    if q <= Reach(init, start) {
      FullAccounts(init, start, q);
      var item :| item in init && About(item, q);
      assert item in shown;
    } else {
      assert last in shown && About(last, q);
    }
  }

  /**
   * When sends happen in append order: every event after a page's starting cursor, up to its
   * cursor, was handed over or lies in an announced gap.
   */
  lemma Complete(states: seq<System>, steps: seq<Step>, i: nat, id: nat)
    requires Run(states, steps) && i < |states| && id in states[i].sessions
    requires InOrder(states[i].server.sent)
    ensures var c := states[i].sessions[id];
            forall q: nat | c.start < q <= c.client.cursor :: Accounted(c.client.shown, q)
  {
    RunInv(states, steps, i);
    var c := states[i].sessions[id];
    forall q: nat | c.start < q <= c.client.cursor
      ensures Accounted(c.client.shown, q)
    {
      FullAccounts(c.client.shown, c.start, q);
    }
  }

  /** ... and a live page with nothing in flight has accounted for everything sent. */
  lemma CaughtUp(states: seq<System>, steps: seq<Step>, i: nat, id: nat)
    requires Run(states, steps) && i < |states| && id in states[i].sessions
    requires InOrder(states[i].server.sent)
    requires var conn := states[i].sessions[id].conn;
      conn.Live? && conn.wire == [] && conn.rx == |states[i].server.sent|
    ensures var c := states[i].sessions[id];
            forall q: nat | c.start < q <= |states[i].server.sent| :: Accounted(c.client.shown, q)
  {
    RunInv(states, steps, i);
    Complete(states, steps, i, id);
  }

  // ---- a run that loses an event --------------------------------------------------------------------

  const FIRST := Logged(1, Update(1), 1)
  const SECOND := Logged(2, Update(2), 1)

  function Snapshot(all: seq<Stamped>, sent: seq<nat>, client: Client, conn: Conn): System {
    System(Server(Log(all, 0), sent, 2, 2), map[0 := Session(0, client, conn)])
  }

  /** Two emits whose sends overtake each other, seen by one live page. */
  function LossyRun(): (seq<System>, seq<Step>) {
    var client, ready := Client(0, [], false), [Ready(0)];
    ([System(Server(Log([], 0), [], 2, 2), map[]),
      Snapshot([], [], client, Offline),
      Snapshot([], [], client, Subscribed(0, 0)),
      Snapshot([], [], client, Live(0, 0, ready)),
      Snapshot([FIRST], [], client, Live(0, 0, ready)),
      Snapshot([FIRST, SECOND], [], client, Live(0, 0, ready)),
      Snapshot([FIRST, SECOND], [2], client, Live(0, 0, ready)),
      Snapshot([FIRST, SECOND], [2], client, Live(2, 1, ready + [Sequenced(SECOND)])),
      Snapshot([FIRST, SECOND], [2, 1], client, Live(2, 1, ready + [Sequenced(SECOND)])),
      Snapshot([FIRST, SECOND], [2, 1], client, Live(2, 2, ready + [Sequenced(SECOND)])),
      Snapshot([FIRST, SECOND], [2, 1], client, Live(2, 2, [Sequenced(SECOND)])),
      Snapshot([FIRST, SECOND], [2, 1], Client(2, [Delivered(SECOND)], false), Live(2, 2, []))],
     [Join(0), Subscribe(0), ReadLog(0), Append(Update(1), 1), Append(Update(2), 1), Send(2), Receive(0),
      Send(1), Receive(0), Deliver(0), Deliver(0)])
  }

  /** The first event is still in the log, was broadcast, and the page will never learn of it. */
  lemma OutOfOrderSendsLose()
    ensures var (states, steps) := LossyRun();
      && Run(states, steps)
      && var last := states[|states| - 1]; var c := last.sessions[0];
         && c.conn.Live? && c.conn.wire == [] && c.conn.rx == |last.server.sent|
         && FIRST in last.server.log.all && 1 in last.server.sent
         && c.start < 1 <= c.client.cursor && !Accounted(c.client.shown, 1)
  {
    var (states, steps) := LossyRun();
    LossyRunSteps(states, steps);
  }

  lemma LossyRunSteps(states: seq<System>, steps: seq<Step>)
    requires (states, steps) == LossyRun()
    ensures Run(states, steps)
  {
    forall i | 0 <= i < |steps|
      ensures states[i].server.Valid() && Next(states[i], steps[i], states[i + 1])
    {
      if i < 2 {
        LossyRunJoin(states, steps, i);
      } else if i == 2 {
        LossyRunReadLog(states, steps, i);
      } else if i < 5 {
        LossyRunAppend(states, steps, i);
      } else if i == 5 || i == 7 {
        LossyRunSend(states, steps, i);
      } else if i < 9 {
        LossyRunReceive(states, steps, i);
      } else {
        LossyRunDeliver(states, steps, i);
      }
    }
  }

  lemma LossyRunJoin(states: seq<System>, steps: seq<Step>, i: nat)
    requires (states, steps) == LossyRun() && i < 2
    ensures states[i].server.Valid() && Next(states[i], steps[i], states[i + 1])
  {
  }

  lemma LossyRunReadLog(states: seq<System>, steps: seq<Step>, i: nat)
    requires (states, steps) == LossyRun() && i == 2
    ensures states[i].server.Valid() && Next(states[i], steps[i], states[i + 1])
  {
    var none: seq<Frame> := [];
    assert none + none == none && none + [Ready(0)] == [Ready(0)];
  }

  lemma BothFit()
    ensures Appended(Log([], 0), Update(1), 1, Log([FIRST], 0), 2, 2)
    ensures Appended(Log([FIRST], 0), Update(2), 1, Log([FIRST, SECOND], 0), 2, 2)
  {
    assert [FIRST] + [SECOND] == [FIRST, SECOND];
  }

  lemma LossyRunAppend(states: seq<System>, steps: seq<Step>, i: nat)
    requires (states, steps) == LossyRun() && 3 <= i < 5
    ensures states[i].server.Valid() && Next(states[i], steps[i], states[i + 1])
  {
    BothFit();
  }

  lemma LossyRunSend(states: seq<System>, steps: seq<Step>, i: nat)
    requires (states, steps) == LossyRun() && (i == 5 || i == 7)
    ensures states[i].server.Valid() && Next(states[i], steps[i], states[i + 1])
  {
    var none: seq<nat> := [];
    assert none + [2] == [2] && [2] + [1] == [2, 1];
  }

  lemma LossyRunReceive(states: seq<System>, steps: seq<Step>, i: nat)
    requires (states, steps) == LossyRun() && (i == 6 || i == 8)
    ensures states[i].server.Valid() && Next(states[i], steps[i], states[i + 1])
  {
  }

  lemma LossyRunDeliver(states: seq<System>, steps: seq<Step>, i: nat)
    requires (states, steps) == LossyRun() && 9 <= i < |steps|
    ensures states[i].server.Valid() && Next(states[i], steps[i], states[i + 1])
  {
    var wire := [Ready(0), Sequenced(SECOND)];
    assert [Ready(0)] + [Sequenced(SECOND)] == wire;
    assert wire[1..] == [Sequenced(SECOND)] && [Sequenced(SECOND)][1..] == [];
    var none: seq<Item> := [];
    assert none + [Delivered(SECOND)] == [Delivered(SECOND)];
  }
}
