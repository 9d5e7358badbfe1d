/** Pages are complete in every run exactly for broadcasts in append order. */
module AcpSendOrder {
  import opened Wrappers
  import opened EventLog
  import opened AcpSocket
  import opened AcpProtocol
  import opened AcpDelivery
  import opened AcpOrder

  /** What can be broadcast at all: numbers of events, each sent once. */
  ghost predicate IsBroadcast(sent: seq<nat>) {
    && (forall i | 0 <= i < |sent| :: 1 <= sent[i])
    && (forall i, j | 0 <= i < j < |sent| :: sent[i] != sent[j])
  }

  lemma {:induction false} SentIsBroadcast(states: seq<System>, steps: seq<Step>, i: nat)
    requires Run(states, steps) && i < |states|
    ensures IsBroadcast(states[i].server.sent)
  {
    if 0 < i {
      SentIsBroadcast(states, steps, i - 1);
      assert Next(states[i - 1], steps[i - 1], states[i]);
    }
  }

  /** Every page, in every run with this broadcast, has everything up to its cursor or a notice of it. */
  ghost predicate AlwaysWhole(sent: seq<nat>) {
    forall states: seq<System>, steps: seq<Step>, i: nat, id: nat |
      Run(states, steps) && i < |states| && states[i].server.sent == sent && id in states[i].sessions ::
      Whole(states[i].sessions[id].start, states[i].sessions[id].client)
  }

  /**
   * No page ever misses an event in silence exactly when events are sent in the order in which they
   * were appended.
   */
  lemma WholeIffInOrder(sent: seq<nat>)
    requires IsBroadcast(sent)
    ensures AlwaysWhole(sent) <==> InOrder(sent)
  {
    if InOrder(sent) {
      forall states: seq<System>, steps: seq<Step>, i: nat, id: nat |
        Run(states, steps) && i < |states| && states[i].server.sent == sent && id in states[i].sessions
        ensures Whole(states[i].sessions[id].start, states[i].sessions[id].client)
      {
        Complete(states, steps, i, id);
      }
    } else {
      OutOfOrderLoses(sent);
    }
  }

  // ---- a run for every broadcast out of order ----------------------------------------------

  ghost predicate Reachable(s: System) {
    exists states: seq<System>, steps: seq<Step> :: Run(states, steps) && states[|states| - 1] == s
  }

  lemma Extend(s: System, step: Step, s': System)
    requires Reachable(s) && s.server.Valid() && Next(s, step, s')
    ensures Reachable(s')
  {
    var states: seq<System>, steps: seq<Step> :| Run(states, steps) && states[|states| - 1] == s;
    var longer, more := states + [s'], steps + [step];
    forall i | 0 <= i < |more| ensures longer[i].server.Valid() && Next(longer[i], more[i], longer[i + 1]) {
      if i == |steps| {
        assert longer[i] == s && longer[i + 1] == s';
      }
    }
    assert Run(longer, more) && longer[|longer| - 1] == s';
  }

  function Nth(n: nat): Stamped { Logged(n, Update(0), 1) }

  /** A log of n events, all of them held. */
  function LogOf(n: nat): Log<Event> {
    Log(seq(n, k requires 0 <= k < n => Nth(k + 1)), 0)
  }

  /** A server with room for all its events. */
  function ServerOf(n: nat, sent: seq<nat>, room: nat): Server {
    Server(LogOf(n), sent, room, room)
  }

  lemma {:induction false} SizeOfLog(n: nat, k: nat)
    requires k <= n
    ensures SizeOf(LogOf(n).all, k) == k
  {
    if 0 < k {
      SizeOfLog(n, k - 1);
    }
  }

  lemma {:induction false} GrowLog(n: nat, m: nat, sent: seq<nat>, room: nat, sessions: map<nat, Session>)
    requires n <= m <= room && Reachable(System(ServerOf(n, sent, room), sessions))
    requires forall i | 0 <= i < |sent| :: 1 <= sent[i] <= n
    ensures Reachable(System(ServerOf(m, sent, room), sessions))
    decreases m - n
  {
    if n < m {
      SizeOfLog(n + 1, n + 1);
      assert LogOf(n + 1).all == LogOf(n).all + [Nth(n + 1)];
      Extend(System(ServerOf(n, sent, room), sessions), Append(Update(0), 1),
             System(ServerOf(n + 1, sent, room), sessions));
      GrowLog(n + 1, m, sent, room, sessions);
    }
  }

  lemma {:induction false} SendMore(n: nat, sent: seq<nat>, i: nat, j: nat, room: nat, sessions: map<nat, Session>)
    requires IsBroadcast(sent) && i <= j <= |sent| && forall k | 0 <= k < j :: sent[k] <= n
    requires Reachable(System(ServerOf(n, sent[..i], room), sessions))
    ensures Reachable(System(ServerOf(n, sent[..j], room), sessions))
    decreases j - i
  {
    if i < j {
      assert sent[..i + 1] == sent[..i] + [sent[i]];
      assert sent[i] !in sent[..i];
      Extend(System(ServerOf(n, sent[..i], room), sessions), Send(sent[i]),
             System(ServerOf(n, sent[..i + 1], room), sessions));
      SendMore(n, sent, i + 1, j, room, sessions);
    }
  }

  function Top(sent: seq<nat>): (n: nat)
    ensures forall i | 0 <= i < |sent| :: sent[i] <= n
  {
    if sent == [] then 0 else Max(Top(sent[..|sent| - 1]), sent[|sent| - 1])
  }

  /** The place of the first event sent too early. */
  lemma {:induction false} FirstEarly(sent: seq<nat>, n: nat) returns (i: nat)
    requires IsBroadcast(sent) && n <= |sent| && (forall k | 0 <= k < n :: sent[k] == k + 1) && !InOrder(sent)
    ensures i < |sent| && (forall k | 0 <= k < i :: sent[k] == k + 1) && i + 1 < sent[i]
    decreases |sent| - n
  {
    if n < |sent| && sent[n] == n + 1 {
      i := FirstEarly(sent, n + 1);
    } else {
      i := n;
      Below(sent, n, n);
    }
  }

  /** An event not sent before is past those that were. */
  lemma {:induction false} Below(sent: seq<nat>, n: nat, m: nat)
    requires IsBroadcast(sent) && m <= n < |sent| && forall k | 0 <= k < n :: sent[k] == k + 1
    ensures m < sent[n]
  {
    if 0 < m {
      Below(sent, n, m - 1);
      assert sent[m - 1] == m && sent[m - 1] != sent[n];
    }
  }

  /** A page that starts after the events sent so far. */
  function Page(at: nat, client: Client, conn: Conn): map<nat, Session> {
    map[0 := Session(at, client, conn)]
  }

  lemma PageStep(server: Server, i: nat, client: Client, conn: Conn, step: Step, client': Client, conn': Conn)
    requires server.Valid() && Reachable(System(server, Page(i, client, conn)))
    requires !step.Append? && !step.Send? && !step.Join? && step.id == 0
    requires SessionStep(server, Session(i, client, conn), step, Session(i, client', conn'))
    ensures Reachable(System(server, Page(i, client', conn')))
  {
    assert Page(i, client, conn)[0 := Session(i, client', conn')] == Page(i, client', conn');
    Extend(System(server, Page(i, client, conn)), step, System(server, Page(i, client', conn')));
  }

  /** The page attaches after i events, of which all have been sent. */
  lemma PageAttaches(i: nat, sent: seq<nat>, room: nat)
    requires Reachable(System(ServerOf(i, sent, room), map[])) && |sent| == i
    requires forall k | 0 <= k < |sent| :: 1 <= sent[k] <= i
    ensures Reachable(System(ServerOf(i, sent, room), Page(i, Client(i, [], false), Live(i, i, [Ready(i)]))))
  {
    var server, client := ServerOf(i, sent, room), Client(i, [], false);
    var none: seq<Frame> := [];
    Extend(System(server, map[]), Join(0), System(server, Page(i, client, Offline)));
    PageStep(server, i, client, Offline, Subscribe(0), client, Subscribed(i, i));
    assert ReplayFrames(server.log, i) == (none, i) by {
      assert Notice(None) + none == none;
    }
    assert none + [Ready(i)] == [Ready(i)];
    PageStep(server, i, client, Subscribed(i, i), ReadLog(0), client, Live(i, i, [Ready(i)]));
  }

  /** It then receives an event that is not the next one, and is shown it. */
  lemma PageSkips(i: nat, e: nat, n: nat, sent: seq<nat>, room: nat)
    requires i + 1 < e <= n && |sent| == i + 1 && sent[i] == e && forall k | 0 <= k < |sent| :: 1 <= sent[k] <= n
    requires Reachable(System(ServerOf(n, sent, room), Page(i, Client(i, [], false), Live(i, i, [Ready(i)]))))
    ensures Reachable(System(ServerOf(n, sent, room),
                             Page(i, Client(e, [Delivered(Nth(e))], false), Live(e, i + 1, []))))
  {
    var server, client := ServerOf(n, sent, room), Client(i, [], false);
    var wire := [Ready(i), Sequenced(Nth(e))];
    assert [Ready(i)] + [Sequenced(Nth(e))] == wire;
    PageStep(server, i, client, Live(i, i, [Ready(i)]), Receive(0), client, Live(e, i + 1, wire));
    assert wire[1..] == [Sequenced(Nth(e))] && wire[1..][1..] == [];
    PageStep(server, i, client, Live(e, i + 1, wire), Deliver(0), client, Live(e, i + 1, wire[1..]));
    assert client.shown + [Delivered(Nth(e))] == [Delivered(Nth(e))];
    PageStep(server, i, client, Live(e, i + 1, wire[1..]), Deliver(0),
             Client(e, [Delivered(Nth(e))], false), Live(e, i + 1, []));
  }

  /** Some run sends the first events in order, and then a page attaches. */
  lemma AttachReached(sent: seq<nat>, i: nat, room: nat)
    requires IsBroadcast(sent) && i < |sent| && (forall k | 0 <= k < i :: sent[k] == k + 1) && i < room
    ensures Reachable(System(ServerOf(i, sent[..i], room), Page(i, Client(i, [], false), Live(i, i, [Ready(i)]))))
  {
    var start := System(ServerOf(0, sent[..0], room), map[]);
    assert LogOf(0).all == [] && Run([start], []) && [start][0] == start;
    GrowLog(0, i, sent[..0], room, map[]);
    SendMore(i, sent, 0, i, room, map[]);
    PageAttaches(i, sent[..i], room);
  }

  /** A page that attaches just before an event sent too early is shown that event, and then all is sent. */
  lemma SkipReached(sent: seq<nat>, i: nat, n: nat)
    requires IsBroadcast(sent) && i < |sent| && (forall k | 0 <= k < i :: sent[k] == k + 1) && i + 1 < sent[i]
    requires forall k | 0 <= k < |sent| :: sent[k] <= n
    ensures Reachable(System(ServerOf(n, sent, n + 1),
                             Page(i, Client(sent[i], [Delivered(Nth(sent[i]))], false), Live(sent[i], i + 1, []))))
  {
    AttachReached(sent, i, n + 1);
    var live := Page(i, Client(i, [], false), Live(i, i, [Ready(i)]));
    GrowLog(i, n, sent[..i], n + 1, live);
    SendMore(n, sent, i, i + 1, n + 1, live);
    PageSkips(i, sent[i], n, sent[..i + 1], n + 1);
    var skipped := Page(i, Client(sent[i], [Delivered(Nth(sent[i]))], false), Live(sent[i], i + 1, []));
    SendMore(n, sent, i + 1, |sent|, n + 1, skipped);
    assert sent[..|sent|] == sent;
  }

  /** Any broadcast out of order, to its end, loses an event for some page. */
  lemma OutOfOrderLoses(sent: seq<nat>)
    requires IsBroadcast(sent) && !InOrder(sent)
    ensures !AlwaysWhole(sent)
  {
    var i := FirstEarly(sent, 0);
    var n := Top(sent);
    SkipReached(sent, i, n);
    var client := Client(sent[i], [Delivered(Nth(sent[i]))], false);
    assert !Accounted(client.shown, i + 1) && !Whole(i, client);
    NotAlways(System(ServerOf(n, sent, n + 1), Page(i, client, Live(sent[i], i + 1, []))), 0);
  }

  lemma NotAlways(s: System, id: nat)
    requires Reachable(s) && id in s.sessions && !Whole(s.sessions[id].start, s.sessions[id].client)
    ensures !AlwaysWhole(s.server.sent)
  {
    var states: seq<System>, steps: seq<Step> :| Run(states, steps) && states[|states| - 1] == s;
    assert states[|states| - 1].server.sent == s.server.sent;
  }
}
