/** Exactly-once delivery of terminal output, up to announced holes. */
module TerminalExactlyOnce {
  import opened Chunks
  import opened Scrollback
  import opened TerminalSocket
  import opened TerminalProtocol
  import Pump

  // ---- frames in flight ------------------------------------------------------------------

  lemma {:induction false} WireConcat(h: History, a: seq<Frame>, b: seq<Frame>, from: nat, mid: nat, to: nat)
    requires h.Valid() && WireOk(h, a, from, mid) && WireOk(h, b, mid, to)
    ensures WireOk(h, a + b, from, to)
  {
    if a == [] {
      assert a + b == b;
    } else {
      assert (a + b)[1..] == a[1..] + b;
      var from' := match a[0] case Binary(data) => from + |data| case Truncated(f) => f case _ => from;
      WireConcat(h, a[1..], b, from', mid, to);
    }
  }

  /** The history only grows at the back and is only dropped at the front. */
  ghost predicate Grows(h: History, h': History) {
    && h.Valid() && h'.Valid() && h.all <= h'.all && h.dropped <= h'.dropped
  }

  lemma GrowsFacts(h: History, h': History)
    requires Grows(h, h')
    ensures h.Output() <= h'.Output() && h.Start() <= h'.Start()
    ensures forall o: nat :: IsBoundary(h.all, o) ==> IsBoundary(h'.all, o)
    ensures forall k: nat | k <= |h.all| :: Offset(h'.all, k) == Offset(h.all, k)
  {
    var more := h'.all[|h.all|..];
    assert h'.all == h.all + more;
    FlattenConcat(h.all, more);
    forall k: nat | k <= |h.all|
      ensures Offset(h'.all, k) == Offset(h.all, k)
    {
      OffsetStable(h.all, more, k);
    }
    OffsetOrder(h'.all, h.dropped, h'.dropped);
    forall o: nat | IsBoundary(h.all, o)
      ensures IsBoundary(h'.all, o)
    {
      BoundaryStable(h.all, more, o);
    }
  }

  lemma {:induction false} WireGrows(h: History, h': History, wire: seq<Frame>, from: nat, to: nat)
    requires Grows(h, h') && WireOk(h, wire, from, to)
    ensures WireOk(h', wire, from, to)
  {
    GrowsFacts(h, h');
    if wire != [] {
      var from' := match wire[0] case Binary(data) => from + |data| case Truncated(f) => f case _ => from;
      WireGrows(h, h', wire[1..], from', to);
      assert forall lo, hi | 0 <= lo <= hi <= |h.Output()| :: h'.Output()[lo..hi] == h.Output()[lo..hi];
    }
  }

  lemma {:induction false} ShownGrows(view: seq<Item>, start: nat, end: nat, out: Bytes, out': Bytes)
    requires Shown(view, start, end, out) && out <= out'
    ensures Shown(view, start, end, out')
  {
    if view != [] {
      var init := view[..|view| - 1];
      match view[|view| - 1]
      case Data(data) =>
        ShownGrows(init, start, end - |data|, out, out');
        assert out'[end - |data|..end] == out[end - |data|..end];
      case Hole(from, to) => ShownGrows(init, start, from, out, out');
    }
  }

  lemma SessionGrows(s: Server, s': Server, c: Session)
    requires Grows(s.hist, s'.hist) && SessionOk(s, c)
    requires s.Count() <= s'.Count() && (s.exitSent ==> s'.hist.all == s.hist.all)
    ensures SessionOk(s', c)
  {
    GrowsFacts(s.hist, s'.hist);
    ShownGrows(c.client.view, c.start, c.client.cursor, s.hist.Output(), s'.hist.Output());
    if !c.conn.Offline? {
      WireGrows(s.hist, s'.hist, c.conn.wire, c.client.cursor, c.conn.cursor);
    }
  }

  // ---- replays ----------------------------------------------------------------------------

  /** One frame of chunks lo..hi after the k-th is the output between two boundaries. */
  lemma FrameIsOutput(h: History, k: nat, frame: Bytes, lo: nat, hi: nat)
    requires k <= |h.all| && Pump.IsFrame(frame, h.all[k..], lo, hi)
    ensures Offset(h.all, k + lo) + |frame| == Offset(h.all, k + hi) <= |h.Output()|
    ensures frame == h.Output()[Offset(h.all, k + lo)..Offset(h.all, k + hi)]
  {
    assert h.all[k..][lo..hi] == h.all[k + lo..k + hi];
    FlattenSlice(h.all, k + lo, k + hi);
  }

  lemma FrameOk(h: History, k: nat, frame: Bytes, lo: nat, hi: nat, rest: seq<Frame>)
    requires h.Valid() && k <= |h.all| && Pump.IsFrame(frame, h.all[k..], lo, hi)
    requires WireOk(h, rest, Offset(h.all, k + hi), h.End())
    ensures WireOk(h, [Binary(frame)] + rest, Offset(h.all, k + lo), h.End())
  {
    FrameIsOutput(h, k, frame, lo, hi);
    BinaryOk(h, frame, rest, Offset(h.all, k + lo), k + hi);
  }

  lemma BinariesFrom(frames: seq<Bytes>, j: nat)
    requires j < |frames|
    ensures Binaries(frames[j..]) == [Binary(frames[j])] + Binaries(frames[j + 1..])
  {
  }

  lemma BinaryOk(h: History, data: Bytes, rest: seq<Frame>, from: nat, hi: nat)
    requires h.Valid() && hi <= |h.all| && from + |data| == Offset(h.all, hi) <= |h.Output()|
    requires data == h.Output()[from..from + |data|] && WireOk(h, rest, from + |data|, h.End())
    ensures WireOk(h, [Binary(data)] + rest, from, h.End())
  {
    assert ([Binary(data)] + rest)[1..] == rest;
    assert EndsAt(h.all, hi, from + |data|);
  }

  /** Frames cut from the chunks after the k-th, sent to a client at that boundary. */
  lemma {:induction false} BinariesOk(h: History, k: nat, frames: seq<Bytes>, cuts: seq<nat>, j: nat)
    requires h.Valid() && k <= |h.all| && j <= |frames|
    requires Pump.Framed(frames, h.all[k..], cuts) && cuts[|frames|] == |h.all[k..]|
    ensures k + cuts[j] <= |h.all|
    ensures WireOk(h, Binaries(frames[j..]), Offset(h.all, k + cuts[j]), h.End())
    decreases |frames| - j
  {
    if j == |frames| {
      assert Binaries(frames[j..]) == [];
    } else {
      BinariesOk(h, k, frames, cuts, j + 1);
      assert Pump.FrameAt(frames, h.all[k..], cuts, j);
      BinariesFrom(frames, j);
      FrameOk(h, k, frames[j], cuts[j], cuts[j + 1], Binaries(frames[j + 1..]));
    }
  }

  lemma AllBinariesOk(h: History, k: nat, frames: seq<Bytes>)
    requires h.Valid() && k <= |h.all| && Pump.Merges(frames, h.all[k..])
    ensures WireOk(h, Binaries(frames), Offset(h.all, k), h.End())
  {
    assert Offset(h.all, k + 0) == Offset(h.all, k);
    var cuts: seq<nat> :| Pump.Framed(frames, h.all[k..], cuts) && cuts[|frames|] == |h.all[k..]|;
    BinariesOk(h, k, frames, cuts, 0);
    assert frames[0..] == frames;
  }

  /** An announced gap, and then frames from its end on. */
  lemma AnnouncedOk(h: History, after: nat, from: nat, frames: seq<Frame>)
    requires h.Valid() && after <= from && (after < from ==> from <= h.Start() && IsBoundary(h.all, from))
    requires WireOk(h, frames, from, h.End())
    ensures WireOk(h, Announce(after, from) + frames, after, h.End())
  {
    if after < from {
      assert ([Truncated(from)] + frames)[1..] == frames;
    } else {
      assert Announce(after, from) + frames == frames;
    }
  }

  /**
   * From a cursor on a chunk boundary, whatever catch-up is sent takes the client exactly to
   * the end of the output, skipping only what has been pruned.
   */
  lemma CatchUpOk(h: History, after: nat, wire: seq<Frame>)
    requires h.Valid() && IsBoundary(h.all, after) && after <= h.End()
    requires CatchUp(h, after, wire)
    ensures ReplayOf(h, after).endSeq == h.End()
    ensures WireOk(h, wire, after, h.End())
  {
    var r := ReplayOf(h, after);
    var frames :| Pump.Merges(frames, r.chunks) && wire == Announce(after, r.fromSeq) + Binaries(frames);
    assert EndsAt(h.all, h.dropped, h.Start());
    var k := |h.all|;
    if after < h.End() {
      k := ReplayAtBoundary(h, after);
    } else {
      assert h.all[k..] == [];
    }
    AllBinariesOk(h, k, frames);
    AnnouncedOk(h, after, r.fromSeq, Binaries(frames));
  }

  // ---- every step keeps the invariant -----------------------------------------------------

  lemma StoredGrows(s: Server, arrival: Pump.Arrival, s': Server)
    requires s.Valid() && Stored(s, arrival, s')
    ensures s'.hist.Valid() && Grows(s.hist, s'.hist) && |s'.leftover| <= 3
    ensures Flatten(s'.hist.all) + s'.leftover == s.input + Pump.DataOf(arrival)
    ensures arrival.Quiet? ==> s'.leftover == []
  {
    var held := Pump.Held(s.hist.all, s.leftover);
    var p := Pump.PumpStep(held, arrival);
    Pump.StepConserves(held, arrival);
    assert s.hist.all <= p.published;
    if p.published != s.hist.all {
      OffsetOrder(p.published, s.hist.dropped, |p.published|);
    }
  }

  lemma ServerGrows(s: Server, step: Step, s': Server)
    requires s.Valid() && ServerStep(s, step, s')
    ensures s'.Valid() && Grows(s.hist, s'.hist) && s.Count() <= s'.Count()
    ensures s.exitSent ==> s'.hist.all == s.hist.all
  {
    match step
    case Arrive(arrival) => StoredGrows(s, arrival, s');
    case EndOfInput =>
      StoredGrows(s, Pump.Quiet, s');
      assert s.input + [] == s.input;
    case _ =>
  }

  /** Appending to what is in flight. */
  lemma WireSend(s: Server, c: Session, more: seq<Frame>, to: nat)
    requires s.Valid() && SessionOk(s, c) && !c.conn.Offline?
    requires WireOk(s.hist, more, c.conn.cursor, to)
    ensures WireOk(s.hist, c.conn.wire + more, c.client.cursor, to)
  {
    WireConcat(s.hist, c.conn.wire, more, c.client.cursor, c.conn.cursor, to);
  }

  lemma WireOne(h: History, f: Frame, from: nat, to: nat)
    requires h.Valid()
    requires match f
             case Binary(data) =>
               from + |data| == to <= |h.Output()| && data == h.Output()[from..to] && IsBoundary(h.all, to)
             case Truncated(t) => from < t == to <= h.Start() && IsBoundary(h.all, t)
             case Ready(n) => n == from == to
             case _ => from == to
    ensures WireOk(h, [f], from, to)
  {
    assert [f][1..] == [];
    assert WireOk(h, [], to, to);
  }

  lemma RelayChunkOk(s: Server, c: Session, k: nat)
    requires s.Valid() && SessionOk(s, c) && c.conn.Live? && c.conn.next == k < |s.hist.all|
    ensures WireOk(s.hist, c.conn.wire + [Binary(s.hist.all[k])], c.client.cursor, Offset(s.hist.all, k + 1))
  {
    FlattenSlice(s.hist.all, k, k + 1);
    FlattenOne(s.hist.all[k]);
    assert s.hist.all[k..k + 1] == [s.hist.all[k]];
    assert EndsAt(s.hist.all, k + 1, Offset(s.hist.all, k + 1));
    WireOne(s.hist, Binary(s.hist.all[k]), c.conn.cursor, Offset(s.hist.all, k + 1));
    WireSend(s, c, [Binary(s.hist.all[k])], Offset(s.hist.all, k + 1));
  }

  lemma RelayOk(s: Server, c: Session, c': Session)
    requires s.Valid() && SessionOk(s, c) && SessionStep(s, c, Relay(0), c')
    ensures SessionOk(s, c')
  {
    var k := c.conn.next;
    if k < |s.hist.all| {
      RelayChunkOk(s, c, k);
    } else {
      WireOne(s.hist, Exited, c.conn.cursor, c.conn.cursor);
      WireSend(s, c, [Exited], c.conn.cursor);
    }
  }

  /** Every cursor the server keeps for a connection is a chunk boundary. */
  lemma ServerCursorOnBoundary(s: Server, conn: Conn, at: nat)
    requires s.Valid() && ConnOk(s, conn, at) && (conn.Opening? || conn.Live?)
    ensures IsBoundary(s.hist.all, conn.cursor) && conn.cursor <= s.hist.End()
  {
    OffsetOrder(s.hist.all, Min(conn.next, |s.hist.all|), |s.hist.all|);
    assert EndsAt(s.hist.all, Min(conn.next, |s.hist.all|), conn.cursor);
  }

  lemma LagOk(s: Server, c: Session, wire: seq<Frame>, c': Session)
    requires s.Valid() && SessionOk(s, c) && SessionStep(s, c, Lag(0, wire), c')
    ensures SessionOk(s, c')
  {
    ServerCursorOnBoundary(s, c.conn, c.client.cursor);
    CatchUpOk(s.hist, c.conn.cursor, wire);
    WireSend(s, c, wire, s.hist.End());
  }

  lemma AttachOk(s: Server, c: Session, wire: seq<Frame>, c': Session)
    requires s.Valid() && SessionOk(s, c) && SessionStep(s, c, Attach(0, wire), c')
    ensures SessionOk(s, c')
  {
    FlattenLength(s.hist.all);
    CatchUpOk(s.hist, c.client.cursor, wire);
  }

  lemma LookAtExitOk(s: Server, c: Session, c': Session)
    requires s.Valid() && SessionOk(s, c) && SessionStep(s, c, LookAtExit(0), c')
    ensures SessionOk(s, c')
  {
    var at := c.conn.cursor;
    WireOne(s.hist, Ready(at), at, at);
    WireSend(s, c, [Ready(at)], at);
    WireOne(s.hist, Exited, at, at);
    WireConcat(s.hist, c.conn.wire + [Ready(at)], [Exited], c.client.cursor, at, at);
  }

  lemma ControlOk(s: Server, c: Session, c': Session)
    requires s.Valid() && SessionOk(s, c) && SessionStep(s, c, Control(0), c')
    ensures SessionOk(s, c')
  {
    WireOne(s.hist, Other, c.conn.cursor, c.conn.cursor);
    WireSend(s, c, [Other], c.conn.cursor);
  }

  /** What handling one frame does to the page: one more run of output, or one more true hole. */
  lemma DeliverOk(s: Server, c: Session, c': Session)
    requires s.Valid() && SessionOk(s, c) && SessionStep(s, c, Deliver(0), c')
    ensures SessionOk(s, c')
  {
    match c.conn.wire[0]
    case Binary(_) => DeliverDataOk(s, c, c');
    case Truncated(_) => DeliverHoleOk(s, c, c');
    case _ => DeliverMarkOk(s, c, c');
  }

  lemma DeliverDataOk(s: Server, c: Session, c': Session)
    requires s.Valid() && SessionOk(s, c) && SessionStep(s, c, Deliver(0), c') && c.conn.wire[0].Binary?
    ensures SessionOk(s, c')
  {
    assert c'.client.view[..|c'.client.view| - 1] == c.client.view;
  }

  lemma DeliverHoleOk(s: Server, c: Session, c': Session)
    requires s.Valid() && SessionOk(s, c) && SessionStep(s, c, Deliver(0), c') && c.conn.wire[0].Truncated?
    ensures SessionOk(s, c')
  {
    assert c'.client.view[..|c'.client.view| - 1] == c.client.view;
    FlattenLength(s.hist.all);
    OffsetOrder(s.hist.all, s.hist.dropped, |s.hist.all|);
  }

  lemma DeliverMarkOk(s: Server, c: Session, c': Session)
    requires s.Valid() && SessionOk(s, c) && SessionStep(s, c, Deliver(0), c')
    requires !c.conn.wire[0].Binary? && !c.conn.wire[0].Truncated?
    ensures SessionOk(s, c')
  {
  }

  lemma SessionStepOk(s: Server, c: Session, step: Step, c': Session)
    requires s.Valid() && SessionOk(s, c) && SessionStep(s, c, step, c')
    ensures SessionOk(s, c')
  {
    match step
    case Attach(_, wire) => AttachOk(s, c, wire, c');
    case LookAtExit(_) => LookAtExitOk(s, c, c');
    case Relay(_) => RelayOk(s, c, c');
    case Lag(_, wire) => LagOk(s, c, wire, c');
    case Control(_) => ControlOk(s, c, c');
    case Deliver(_) => DeliverOk(s, c, c');
    case _ =>
  }

  lemma StepKeepsInv(s: System, step: Step, s': System)
    requires Inv(s) && Next(s, step, s')
    ensures Inv(s')
  {
    ServerGrows(s.server, step, s'.server);
    forall id | id in s'.sessions
      ensures SessionOk(s'.server, s'.sessions[id])
    {
      if id in s.sessions {
        if s'.sessions[id] != s.sessions[id] {
          SessionStepOk(s.server, s.sessions[id], step, s'.sessions[id]);
        }
        SessionGrows(s.server, s'.server, s'.sessions[id]);
      } else {
        BoundaryInOutput(s.server.hist, step.start);
      }
    }
  }

  lemma BoundaryInOutput(h: History, o: nat)
    requires IsBoundary(h.all, o)
    ensures o <= |h.Output()|
  {
    var k: nat :| EndsAt(h.all, k, o);
    OffsetOrder(h.all, k, |h.all|);
    FlattenLength(h.all);
  }

  lemma {:induction false} RunInv(states: seq<System>, steps: seq<Step>, i: nat)
    requires Run(states, steps) && i < |states|
    ensures Inv(states[i])
  {
    if 0 < i {
      RunInv(states, steps, i - 1);
      StepKeepsInv(states[i - 1], steps[i - 1], states[i]);
    }
  }

  // ---- the results --------------------------------------------------------------------------

  /** All bytes the page was given, in order. */
  ghost function Given(view: seq<Item>): Bytes {
    if view == [] then []
    else Given(view[..|view| - 1]) + if view[|view| - 1].Data? then view[|view| - 1].data else []
  }

  /** Positions inside an announced hole. */
  ghost predicate Missing(view: seq<Item>, p: nat) {
    exists i :: 0 <= i < |view| && view[i].Hole? && view[i].from <= p < view[i].to
  }

  /** The output at positions lo..hi that are not missing from the view. */
  ghost function Select(output: Bytes, lo: nat, hi: nat, view: seq<Item>): Bytes
    requires hi <= |output|
  {
    if hi <= lo then []
    else Select(output, lo, hi - 1, view) + if Missing(view, hi - 1) then [] else [output[hi - 1]]
  }

  lemma {:induction false} ShownBounds(view: seq<Item>, start: nat, end: nat, output: Bytes)
    requires Shown(view, start, end, output)
    ensures start <= end
    ensures forall p: nat :: Missing(view, p) ==> start <= p < end
  {
    if view != [] {
      var init, last := view[..|view| - 1], view[|view| - 1];
      assert view == init + [last];
      ShownBounds(init, start, match last case Data(data) => end - |data| case Hole(from, to) => from, output);
      forall p: nat | Missing(view, p)
        ensures start <= p < end
      {
        MissingSnoc(init, last, p);
      }
    }
  }

  /** Views that agree on what is missing below hi select the same bytes. */
  lemma {:induction false} SelectSame(output: Bytes, lo: nat, hi: nat, a: seq<Item>, b: seq<Item>)
    requires hi <= |output| && forall p: nat | p < hi :: Missing(a, p) <==> Missing(b, p)
    ensures Select(output, lo, hi, a) == Select(output, lo, hi, b)
  {
    if lo < hi {
      SelectSame(output, lo, hi - 1, a, b);
    }
  }

  /** Adding a stretch with nothing missing, or everything missing, to a selection. */
  lemma {:induction false} SelectStretch(output: Bytes, lo: nat, mid: nat, hi: nat, view: seq<Item>, all: bool)
    requires lo <= mid <= hi <= |output| && forall p: nat | mid <= p < hi :: Missing(view, p) <==> !all
    ensures Select(output, lo, hi, view) == Select(output, lo, mid, view) + if all then output[mid..hi] else []
  {
    if mid < hi {
      SelectStretch(output, lo, mid, hi - 1, view, all);
      assert all ==> output[mid..hi] == output[mid..hi - 1] + [output[hi - 1]];
    }
  }

  lemma MissingSnoc(view: seq<Item>, last: Item, p: nat)
    ensures Missing(view + [last], p) <==> Missing(view, p) || (last.Hole? && last.from <= p < last.to)
  {
    var more := view + [last];
    assert more[|view|] == last;
    assert forall i | 0 <= i < |view| :: more[i] == view[i];
  }

  /** A shown view gives exactly the output it spans, minus the announced holes. */
  lemma {:induction false} GivenIsOutputMinusHoles(view: seq<Item>, start: nat, end: nat, output: Bytes)
    requires Shown(view, start, end, output) && end <= |output|
    ensures Given(view) == Select(output, start, end, view)
  {
    if view != [] {
      var init, last := view[..|view| - 1], view[|view| - 1];
      assert view == init + [last];
      forall p: nat
        ensures Missing(view, p) <==> Missing(init, p) || (last.Hole? && last.from <= p < last.to)
      {
        MissingSnoc(init, last, p);
      }
      var mid := match last case Data(data) => end - |data| case Hole(from, to) => from;
      ShownBounds(init, start, mid, output);
      GivenIsOutputMinusHoles(init, start, mid, output);
      SelectSame(output, start, mid, init, view);
      SelectStretch(output, start, mid, end, view, last.Data?);
    }
  }

  /**
   * Exactly once, up to announced holes: in every reachable state each client has been given
   * the output from where it started up to its cursor, each byte once and in order, except
   * precisely the holes it was told about; and what it was told is missing really was pruned.
   */
  lemma ExactlyOnce(states: seq<System>, steps: seq<Step>, i: nat, id: nat)
    requires Run(states, steps) && i < |states| && id in states[i].sessions
    ensures var server, c := states[i].server, states[i].sessions[id];
      && server.Valid()
      && c.start <= c.client.cursor <= |server.hist.Output()|
      && server.hist.Output() <= server.input
      && Given(c.client.view) == Select(server.hist.Output(), c.start, c.client.cursor, c.client.view)
      && (forall p: nat | Missing(c.client.view, p) :: c.start <= p < c.client.cursor && p < server.hist.Start())
  {
    RunInv(states, steps, i);
    var server, c := states[i].server, states[i].sessions[id];
    ShownBounds(c.client.view, c.start, c.client.cursor, server.hist.Output());
    GivenIsOutputMinusHoles(c.client.view, c.start, c.client.cursor, server.hist.Output());
  }

  /** What a page has been shown is never taken back. */
  lemma ViewOnlyGrows(states: seq<System>, steps: seq<Step>, i: nat, id: nat)
    requires Run(states, steps) && i < |steps| && id in states[i].sessions
    ensures id in states[i + 1].sessions
    ensures states[i].sessions[id].client.view <= states[i + 1].sessions[id].client.view
  {
    assert Next(states[i], steps[i], states[i + 1]);
  }

  /** A live client with nothing in flight and nothing left to receive has everything published. */
  lemma CaughtUp(states: seq<System>, steps: seq<Step>, i: nat, id: nat)
    requires Run(states, steps) && i < |states| && id in states[i].sessions
    requires var server, conn := states[i].server, states[i].sessions[id].conn;
             conn.Live? && conn.wire == [] && conn.next == server.Count()
    ensures states[i].sessions[id].client.cursor == |states[i].server.hist.Output()|
  {
    RunInv(states, steps, i);
    FlattenLength(states[i].server.hist.all);
  }

  /**
   * Every cursor a replay is ever asked for, by a reconnecting page or by a lagging connection,
   * is a chunk boundary: no reachable replay cuts a chunk.
   */
  lemma ReplaysNeverCut(states: seq<System>, steps: seq<Step>, i: nat, id: nat)
    requires Run(states, steps) && i < |states| && id in states[i].sessions
    ensures var h, c := states[i].server.hist, states[i].sessions[id];
      && h.Valid()
      && (forall lead: nat :: !Straddled(h.all, lead, Target(h, c.client.cursor)))
      && (c.conn.Opening? || c.conn.Live? ==> forall lead: nat :: !Straddled(h.all, lead, Target(h, c.conn.cursor)))
  {
    RunInv(states, steps, i);
    var s, c := states[i].server, states[i].sessions[id];
    assert EndsAt(s.hist.all, s.hist.dropped, s.hist.Start());
    BoundaryNotStraddled(s.hist.all, Target(s.hist, c.client.cursor));
    if c.conn.Opening? || c.conn.Live? {
      ServerCursorOnBoundary(s, c.conn, c.client.cursor);
      BoundaryNotStraddled(s.hist.all, Target(s.hist, c.conn.cursor));
    }
  }

  lemma BoundaryNotStraddled(all: seq<Bytes>, t: nat)
    requires IsBoundary(all, t)
    ensures forall lead: nat :: !Straddled(all, lead, t)
  {
    var k: nat :| EndsAt(all, k, t);
    forall j: nat | j < |all|
      ensures t <= Offset(all, j) || Offset(all, j) + |all[j]| <= t
    {
      if j < k {
        OffsetOrder(all, j + 1, k);
      } else {
        OffsetOrder(all, k, j);
      }
    }
  }
}
