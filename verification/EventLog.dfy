/** Per-session event log with replay (src/server/src/acp/log.rs). */
module EventLog {
  import opened Wrappers

  datatype Logged<+E> = Logged(seqNo: nat, event: E, size: nat)

  /** Serialized size of the first k events. */
  function SizeOf<E>(all: seq<Logged<E>>, k: nat): nat
    requires k <= |all|
  {
    if k == 0 then 0 else SizeOf(all, k - 1) + all[k - 1].size
  }

  /** Every event ever appended, and how many of the oldest are no longer held. */
  datatype Log<+E> = Log(all: seq<Logged<E>>, dropped: nat) {
    ghost predicate Valid() {
      && (forall i | 0 <= i < |all| :: all[i].seqNo == i + 1)
      && dropped <= |all| && (all != [] ==> dropped < |all|)
    }
  }

  /** Both limits hold once the first d events are gone, or a single event is left. */
  ghost predicate Fits<E>(all: seq<Logged<E>>, d: nat, maxEvents: nat, maxBytes: nat) {
    && d <= |all| && |all| - d <= maxEvents
    && (SizeOf(all, |all|) - SizeOf(all, d) <= maxBytes || |all| - d <= 1)
  }

  /** h' is h with one event appended and as few old events dropped as the limits allow. */
  ghost predicate Appended<E>(h: Log<E>, event: E, size: nat, h': Log<E>, maxEvents: nat, maxBytes: nat) {
    && h'.all == h.all + [Logged(|h.all| + 1, event, size)]
    && h.dropped <= h'.dropped && Fits(h'.all, h'.dropped, maxEvents, maxBytes)
    && (h.dropped < h'.dropped ==> !Fits(h'.all, h'.dropped - 1, maxEvents, maxBytes))
  }

  /** The deque holds exactly the events not dropped. */
  ghost predicate Holds<E>(events: seq<Logged<E>>, h: Log<E>) {
    && h.dropped + |events| == |h.all|
    && forall i | 0 <= i < |events| :: events[i] == h.all[h.dropped + i]
  }

  datatype Replay<+E> = Replay(events: seq<Logged<E>>, truncatedFrom: Option<nat>, endSeq: nat)

  /**
   * A replay hands back every held event past the cursor, and reports where the stream resumes
   * exactly when the next event wanted is gone.
   */
  ghost predicate IsReplay<E>(h: Log<E>, after: nat, r: Replay<E>)
    requires h.Valid()
  {
    && r.endSeq == |h.all|
    && r.events == (if |h.all| <= after then [] else h.all[if h.dropped < after then after else h.dropped..])
    && r.truncatedFrom == if after < h.dropped then Some(h.dropped + 1) else None
  }

  function After<E>(events: seq<Logged<E>>, after: nat): seq<Logged<E>> {
    if events == [] then []
    else if after < events[0].seqNo then [events[0]] + After(events[1..], after)
    else After(events[1..], after)
  }

  lemma {:induction false} AfterIsTail<E>(all: seq<Logged<E>>, d: nat, after: nat)
    requires d <= |all| && forall i | 0 <= i < |all| :: all[i].seqNo == i + 1
    ensures After(all[d..], after) == if |all| <= after then [] else all[if d < after then after else d..]
    decreases |all| - d
  {
    if d < |all| {
      AfterIsTail(all, d + 1, after);
      assert all[d..][1..] == all[d + 1..];
      assert all[d..] == [all[d]] + all[d + 1..];
    }
  }

  /** Where a replay of these events resumes, if the one wanted next is not among them. */
  function ResumesAt<E>(found: seq<Logged<E>>, after: nat, endSeq: nat): Option<nat> {
    if found == [] then Some(endSeq)
    else if after + 1 < found[0].seqNo then Some(found[0].seqNo)
    else None
  }

  lemma HeldTailIsReplay<E>(h: Log<E>, after: nat)
    requires h.Valid() && after < |h.all|
    ensures var found := After(h.all[h.dropped..], after);
      found != [] && IsReplay(h, after, Replay(found, ResumesAt(found, after, |h.all|), |h.all|))
  {
    AfterIsTail(h.all, h.dropped, after);
  }

  lemma OneFewer<E>(events: seq<Logged<E>>, all: seq<Logged<E>>, d: nat)
    requires d + 1 < |all| && Holds(events, Log(all, d))
    ensures Holds(events[1..], Log(all, d + 1)) && SizeOf(all, d + 1) == SizeOf(all, d) + events[0].size
    ensures SizeOf(all, d + 1) <= SizeOf(all, |all|)
  {
    SizeOrder(all, d + 1, |all|);
  }

  class EventLog<E> {
    var events: seq<Logged<E>>
    var endSeq: nat
    var bytes: nat
    const maxEvents: nat
    const maxBytes: nat
    ghost var log: Log<E>

    ghost predicate Valid()
      reads this
    {
      && log.Valid() && 1 <= maxEvents
      && Holds(events, log)
      && endSeq == |log.all|
      && bytes == SizeOf(log.all, |log.all|) - SizeOf(log.all, log.dropped)
      && Fits(log.all, log.dropped, maxEvents, maxBytes)
    }

    constructor WithLimits(maxEvents: nat, maxBytes: nat)
      ensures Valid() && log == Log([], 0) && this.maxBytes == maxBytes
      ensures this.maxEvents == if maxEvents < 1 then 1 else maxEvents
    {
      events, endSeq, bytes, log := [], 0, 0, Log([], 0);
      this.maxEvents := if maxEvents < 1 then 1 else maxEvents;
      this.maxBytes := maxBytes;
    }

    /** The held sequence numbers are the unbroken run StartSeq()..endSeq. */
    function StartSeq(): (n: nat)
      requires Valid()
      reads this
      ensures forall i | 0 <= i < |events| :: events[i].seqNo == n + i
      ensures if endSeq == 0 then n == 0 && events == [] else events != [] && n + |events| == endSeq + 1
    {
      if events == [] then 0 else events[0].seqNo
    }

    method Append(event: E, size: nat) returns (logged: Logged<E>)
      requires Valid()
      modifies this
      ensures Valid() && Appended(old(log), event, size, log, maxEvents, maxBytes)
      ensures logged == log.all[|log.all| - 1] && logged == Logged(old(endSeq) + 1, event, size)
    {
      endSeq := endSeq + 1;
      logged := Logged(endSeq, event, size);
      SizeSnoc(log.all, logged, log.dropped);
      SizeSnoc(log.all, logged, |log.all|);
      bytes := bytes + size;
      events := events + [logged];
      log := log.(all := log.all + [logged]);
      PruneFront();
    }

    method PruneFront()
      requires log.Valid() && log.all != [] && 1 <= maxEvents
      requires Holds(events, log) && endSeq == |log.all|
      requires bytes == SizeOf(log.all, |log.all|) - SizeOf(log.all, log.dropped)
      modifies this`events, this`bytes, this`log
      ensures Valid() && log.all == old(log.all) && old(log.dropped) <= log.dropped
      ensures old(log.dropped) < log.dropped ==> !Fits(log.all, log.dropped - 1, maxEvents, maxBytes)
    {
      ghost var all := log.all;
      ghost var d: nat := log.dropped;
      while maxEvents < |events| || (maxBytes < bytes && 1 < |events|)
        invariant d < |all| && Holds(events, Log(all, d))
        invariant bytes == SizeOf(all, |all|) - SizeOf(all, d)
        invariant old(log.dropped) <= d && (old(log.dropped) < d ==> !Fits(all, d - 1, maxEvents, maxBytes))
        decreases |events|
      {
        OneFewer(events, all, d);
        bytes := bytes - events[0].size;
        events := events[1..];
        d := d + 1;
      }
      log := Log(all, d);
    }

    method ReplayFrom(after: nat) returns (r: Replay<E>)
      requires Valid()
      ensures IsReplay(log, after, r)
    {
      if endSeq <= after {
        return Replay([], None, endSeq);
      }
      HeldTailIsReplay(log, after);
      assert events == log.all[log.dropped..];
      var found := After(events, after);
      r := Replay(found, ResumesAt(found, after, endSeq), endSeq);
    }

    /** A cursor behind the end always finds something held: the "whole tail pruned" arm is dead. */
    lemma ReplayFindsSomething(after: nat)
      requires Valid() && after < endSeq
      ensures After(events, after) != []
    {
      HeldTailIsReplay(log, after);
      assert events == log.all[log.dropped..];
    }
  }

  lemma {:induction false} SizeSnoc<E>(all: seq<Logged<E>>, e: Logged<E>, k: nat)
    requires k <= |all|
    ensures SizeOf(all + [e], k) == SizeOf(all, k)
  {
    if 0 < k {
      SizeSnoc(all, e, k - 1);
    }
  }

  lemma {:induction false} SizeOrder<E>(all: seq<Logged<E>>, i: nat, j: nat)
    requires i <= j <= |all|
    ensures SizeOf(all, i) <= SizeOf(all, j)
  {
    if i < j {
      SizeOrder(all, i, j - 1);
    }
  }
}
