/**
 * The reconnect budget of a browser socket: how often and after which delays it tries again
 * (src/web/src/api/terminalSocket.ts, src/web/src/api/acpSocket.ts).
 */
module Reconnect {
  const BASE_MS: nat := 250
  const MAX_MS: nat := 5000
  const DEFAULT_MAX_ATTEMPTS: nat := 8

  /** What the rest of the page sees of a socket's life. */
  datatype Signal = Opened | Retry(delayMs: nat) | Finished

  datatype Link = Link(attempts: nat, finished: bool, signals: seq<Signal>)

  /**
   * What happens to a socket: it opens, it closes, or it is finished with (the shell or agent ended, or
   * the page is left).
   */
  datatype Happening = Open | Close | Finish

  function Pow2(n: nat): nat { if n == 0 then 1 else 2 * Pow2(n - 1) }

  function Delay(attempts: nat): nat {
    var doubled := BASE_MS * Pow2(attempts);
    if doubled < MAX_MS then doubled else MAX_MS
  }

  function Next(max: nat, l: Link, h: Happening): Link {
    match h
    case Open => Link(0, l.finished, l.signals + [Opened])
    case Close =>
      if l.finished then l
      else if max <= l.attempts then Link(l.attempts, true, l.signals + [Finished])
      else Link(l.attempts + 1, false, l.signals + [Retry(Delay(l.attempts))])
    case Finish => if l.finished then l else Link(l.attempts, true, l.signals + [Finished])
  }

  function LinkOf(max: nat, happenings: seq<Happening>): Link {
    if happenings == [] then Link(0, false, [])
    else Next(max, LinkOf(max, happenings[..|happenings| - 1]), happenings[|happenings| - 1])
  }

  // ---- one outage ------------------------------------------------------------------------------

  /** The delays of n retries in a row. */
  function Retries(n: nat): seq<Signal> {
    if n == 0 then [] else Retries(n - 1) + [Retry(Delay(n - 1))]
  }

  function Closes(max: nat, l: Link, n: nat): Link {
    if n == 0 then l else Next(max, Closes(max, l, n - 1), Close)
  }

  /**
   * However many times in a row an opened socket closes, it retries up to the limit, then finishes, and
   * nothing follows.
   */
  lemma {:induction false} ClosesInARow(max: nat, l: Link, n: nat)
    requires !l.finished && l.attempts == 0
    ensures Closes(max, l, n) ==
      if n <= max then Link(n, false, l.signals + Retries(n))
      else Link(max, true, l.signals + Retries(max) + [Finished])
  {
    if n == 0 {
      assert l.signals + [] == l.signals;
    } else {
      ClosesInARow(max, l, n - 1);
      if n <= max {
        assert (l.signals + Retries(n - 1)) + [Retry(Delay(n - 1))] == l.signals + Retries(n);
      }
    }
  }

  /** With the default limit the delays are these, and then no more. */
  lemma DefaultDelays()
    ensures Retries(DEFAULT_MAX_ATTEMPTS) ==
      [Retry(250), Retry(500), Retry(1000), Retry(2000), Retry(4000), Retry(5000), Retry(5000), Retry(5000)]
  {
    assert Pow2(3) == 8 && Pow2(5) == 32 && Pow2(7) == 128;
    assert Retries(2) == [Retry(250), Retry(500)];
    assert Retries(4) == [Retry(250), Retry(500), Retry(1000), Retry(2000)];
    assert Retries(6) == [Retry(250), Retry(500), Retry(1000), Retry(2000), Retry(4000), Retry(5000)];
  }

  // ---- any life of a socket ----------------------------------------------------------------------

  function CountRetries(signals: seq<Signal>): nat {
    if signals == [] then 0
    else CountRetries(signals[..|signals| - 1]) + if signals[|signals| - 1].Retry? then 1 else 0
  }

  /** Retries since the socket last opened. */
  function Streak(signals: seq<Signal>): nat {
    if signals == [] || signals[|signals| - 1] == Opened then 0
    else Streak(signals[..|signals| - 1]) + if signals[|signals| - 1].Retry? then 1 else 0
  }

  /** Each retry waited as its place in the streak says, within the limit, and none follows the finish. */
  ghost predicate InBudget(max: nat, signals: seq<Signal>) {
    if signals == [] then true
    else
      var before, last := signals[..|signals| - 1], signals[|signals| - 1];
      && InBudget(max, before)
      && (last.Retry? ==> Streak(before) < max && last.delayMs == Delay(Streak(before)))
      && (last != Opened ==> Finished !in before)
  }

  lemma SignalsSnoc(max: nat, signals: seq<Signal>, s: Signal)
    ensures InBudget(max, signals + [s]) <==>
      (&& InBudget(max, signals) && (s.Retry? ==> Streak(signals) < max && s.delayMs == Delay(Streak(signals)))
       && (s != Opened ==> Finished !in signals))
    ensures Streak(signals + [s]) == if s == Opened then 0 else Streak(signals) + if s.Retry? then 1 else 0
  {
    assert (signals + [s])[..|signals|] == signals;
  }

  lemma {:induction false} LinkSound(max: nat, happenings: seq<Happening>)
    ensures var l := LinkOf(max, happenings);
      InBudget(max, l.signals) && l.attempts == Streak(l.signals) <= max && (l.finished <==> Finished in l.signals)
  {
    if happenings != [] {
      LinkSound(max, happenings[..|happenings| - 1]);
      var l := LinkOf(max, happenings[..|happenings| - 1]);
      SignalsSnoc(max, l.signals, Opened);
      SignalsSnoc(max, l.signals, Finished);
      SignalsSnoc(max, l.signals, Retry(Delay(l.attempts)));
    }
  }

  lemma {:induction false} PrefixInBudget(max: nat, signals: seq<Signal>, j: nat)
    requires InBudget(max, signals) && j <= |signals|
    ensures InBudget(max, signals[..j]) && Streak(signals[..j]) <= max
  {
    if j < |signals| {
      PrefixInBudget(max, signals[..|signals| - 1], j);
      assert signals[..|signals| - 1][..j] == signals[..j];
    } else {
      assert signals[..j] == signals;
      if signals != [] {
        PrefixInBudget(max, signals[..|signals| - 1], |signals| - 1);
        assert signals[..|signals| - 1][..|signals| - 1] == signals[..|signals| - 1];
      }
    }
  }

  lemma {:induction false} WindowInStreak(signals: seq<Signal>, i: nat)
    requires i <= |signals| && forall k | i <= k < |signals| :: signals[k] != Opened
    ensures CountRetries(signals[i..]) <= Streak(signals)
  {
    if i < |signals| {
      WindowInStreak(signals[..|signals| - 1], i);
      assert signals[i..][..|signals| - 1 - i] == signals[..|signals| - 1][i..];
    }
  }

  /**
   * Whatever happens to a socket, between two openings there are at most as many retries as the
   * limit says, the k-th after its own delay, and once finished it never retries.
   */
  lemma ReconnectBudget(max: nat, happenings: seq<Happening>, i: nat, j: nat)
    requires i <= j <= |LinkOf(max, happenings).signals|
    requires forall k | i <= k < j :: LinkOf(max, happenings).signals[k] != Opened
    ensures var signals := LinkOf(max, happenings).signals;
      && CountRetries(signals[i..j]) <= max
      && InBudget(max, signals)
  {
    LinkSound(max, happenings);
    var signals := LinkOf(max, happenings).signals;
    PrefixInBudget(max, signals, j);
    WindowInStreak(signals[..j], i);
    assert signals[..j][i..] == signals[i..j];
  }

  /** It gives up exactly on a close that finds the limit of retries used up since it last opened. */
  lemma GivesUpIff(max: nat, happenings: seq<Happening>)
    ensures var l := LinkOf(max, happenings);
      !l.finished ==> (LinkOf(max, happenings + [Close]).finished <==> Streak(l.signals) == max)
  {
    LinkSound(max, happenings);
    assert (happenings + [Close])[..|happenings|] == happenings;
  }
}
