/** The pruned byte history of one terminal (src/server/src/pty/scrollback.rs). */
module Scrollback {
  import opened Chunks
  import opened Utf8

  /** Every chunk ever appended, and how many of the oldest are no longer held. */
  datatype History = History(all: seq<Bytes>, dropped: nat) {
    ghost predicate Valid() { dropped <= |all| && NonEmptyChunks(all) }

    ghost function Output(): Bytes { Flatten(all) }

    ghost function Start(): nat requires Valid() { Offset(all, dropped) }

    ghost function End(): nat { Total(all) }
  }

  lemma AppendOne(h: History, c: Bytes)
    requires h.Valid() && c != []
    ensures var h' := History(h.all + [c], h.dropped);
            h'.Valid() && h'.Start() == h.Start() <= h.End() && h'.End() == h.End() + |c|
  {
    OffsetStable(h.all, [c], h.dropped);
    OffsetStable(h.all, [c], |h.all|);
    OffsetOrder(h.all, h.dropped, |h.all|);
  }

  datatype Replay = Replay(chunks: seq<Bytes>, fromSeq: nat, endSeq: nat)

  /** The fewest oldest chunks, beyond the d already gone, whose loss leaves at most `rolling` bytes. */
  ghost predicate PrunedTo(all: seq<Bytes>, d: nat, d': nat, rolling: nat) {
    && d <= d' <= |all|
    && Total(all) - Offset(all, d') <= rolling
    && (d < d' ==> rolling < Total(all) - Offset(all, d' - 1))
  }

  ghost predicate Within(all: seq<Bytes>, k: nat, limit: nat)
    requires k <= |all|
  {
    Total(all) - Offset(all, k) <= limit
  }

  /** Pruning stops at the first cut, from d on, that leaves no more than `rolling` bytes. */
  lemma PrunedToFirst(all: seq<Bytes>, d: nat, d': nat, rolling: nat)
    requires d <= d' <= |all|
    ensures PrunedTo(all, d, d', rolling) <==>
      Within(all, d', rolling) && forall k: nat | d <= k < d' :: !Within(all, k, rolling)
  {
    forall k: nat | d <= k < d'
      ensures Offset(all, k) <= Offset(all, d' - 1)
    {
      OffsetOrder(all, k, d' - 1);
    }
    assert d < d' ==> (Within(all, d' - 1, rolling) <==> Total(all) - Offset(all, d' - 1) <= rolling);
  }

  /** What append drops: nothing up to the threshold, then down to the rolling size. */
  ghost predicate Pruned(all: seq<Bytes>, d: nat, d': nat, rolling: nat, prune: nat)
    requires d <= |all|
  {
    if Total(all) - Offset(all, d) <= prune then d' == d else PrunedTo(all, d, d', rolling)
  }

  /** Front-to-back scan of chunks d..hi for position t: what is collected, and where it starts. */
  ghost function Scan(all: seq<Bytes>, d: nat, hi: nat, t: nat): (seq<Bytes>, nat)
    requires d <= hi <= |all|
  {
    if hi == d then ([], t)
    else
      var (out, from) := Scan(all, d, hi - 1, t);
      var lo, chunk := Offset(all, hi - 1), all[hi - 1];
      if lo + |chunk| <= t then (out, from)
      else if t <= lo then (out + [chunk], from)
      else
        var split := CharBoundary(chunk, t - lo);
        (out + [chunk[split..]], lo + split)
  }

  ghost function Target(h: History, after: nat): nat
    requires h.Valid()
  {
    if h.Start() < after then after else h.Start()
  }

  /** The answer to a request for everything after a cursor. */
  ghost function ReplayOf(h: History, after: nat): Replay
    requires h.Valid()
  {
    if h.End() <= after then Replay([], h.End(), h.End())
    else
      var (out, from) := Scan(h.all, h.dropped, |h.all|, Target(h, after));
      Replay(out, from, h.End())
  }

  // ---- what a replay is ---------------------------------------------------------

  lemma {:induction false} ScanBefore(all: seq<Bytes>, d: nat, hi: nat, t: nat)
    requires d <= hi <= |all| && Offset(all, hi) <= t
    ensures Scan(all, d, hi, t) == ([], t)
  {
    if d < hi {
      ScanBefore(all, d, hi - 1, t);
    }
  }

  lemma OneMoreChunk(first: seq<Bytes>, all: seq<Bytes>, lo: nat, hi: nat)
    requires lo < hi <= |all|
    ensures first + all[lo..hi] == (first + all[lo..hi - 1]) + [all[hi - 1]]
  {
  }

  /** The chunk that holds t is cut at the character that covers t; the later ones are whole. */
  lemma {:induction false} ScanFrom(all: seq<Bytes>, d: nat, k: nat, hi: nat, t: nat)
    requires d <= k < hi <= |all| && Offset(all, k) <= t < Offset(all, k + 1)
    ensures var split := CharBoundary(all[k], t - Offset(all, k));
            Scan(all, d, hi, t) == ([all[k][split..]] + all[k + 1..hi], Offset(all, k) + split)
  {
    var split := CharBoundary(all[k], t - Offset(all, k));
    if hi == k + 1 {
      ScanBefore(all, d, k, t);
      assert all[k][0..] == all[k];
      assert [] + [all[k][split..]] == [all[k][split..]] + all[k + 1..hi];
    } else {
      ScanFrom(all, d, k, hi - 1, t);
      OffsetOrder(all, k + 1, hi - 1);
      OneMoreChunk([all[k][split..]], all, k + 1, hi);
    }
  }

  /** From a chunk boundary on, a replay is whole chunks, starting exactly there. */
  lemma ReplayAtBoundary(h: History, after: nat) returns (k: nat)
    requires h.Valid() && after < h.End() && IsBoundary(h.all, Target(h, after))
    ensures h.dropped <= k <= |h.all| && Offset(h.all, k) == Target(h, after)
    ensures ReplayOf(h, after) == Replay(h.all[k..], Target(h, after), h.End())
  {
    var t := Target(h, after);
    k :| EndsAt(h.all, k, t);
    if k < h.dropped {
      OffsetOrder(h.all, k, h.dropped);
    }
    if k == |h.all| {
      ScanBefore(h.all, h.dropped, k, t);
    } else {
      ScanFrom(h.all, h.dropped, k, |h.all|, t);
      assert h.all[k..] == [h.all[k][0..]] + h.all[k + 1..];
    }
  }

  lemma DropInto(p: Bytes, c: Bytes, r: Bytes, s: nat)
    requires s <= |c|
    ensures (p + (c + r))[|p| + s..] == c[s..] + r
  {
  }

  lemma FlattenTail(all: seq<Bytes>, k: nat, split: nat)
    requires k < |all| && split <= |all[k]|
    ensures Offset(all, k) + |all[k]| <= |Flatten(all)|
    ensures Flatten([all[k][split..]] + all[k + 1..]) == Flatten(all)[Offset(all, k) + split..]
  {
    FlattenConsOne(all[k][split..], all[k + 1..]);
    FlattenAround(all, k);
    DropInto(Flatten(all[..k]), all[k], Flatten(all[k + 1..]), split);
  }

  /** Inside the k-th chunk, the lead byte at `lead` is that of a character which covers t. */
  ghost predicate StraddledIn(all: seq<Bytes>, k: nat, lead: nat, t: nat) {
    k < |all| && Offset(all, k) <= lead < t && Covers(all[k], lead - Offset(all, k), t - Offset(all, k))
  }

  /** t is inside a chunk, after the lead byte, at `lead`, of a character that covers t. */
  ghost predicate Straddled(all: seq<Bytes>, lead: nat, t: nat) {
    exists k: nat :: StraddledIn(all, k, lead, t)
  }

  /** from is t, unless a character of one chunk covers t, when it is that character's lead byte. */
  ghost predicate CutAt(all: seq<Bytes>, from: nat, t: nat) {
    && (from < t <==> exists lead: nat :: Straddled(all, lead, t))
    && (from < t ==> Straddled(all, from, t))
  }

  /**
   * For any cursor still behind the end: the replayed bytes are exactly the output from
   * fromSeq on, and fromSeq is the wanted position unless a character of one chunk covers
   * that position, when it is the character's lead byte, at most 3 bytes before.
   */
  lemma ReplayBytes(h: History, after: nat)
    requires h.Valid() && after < h.End()
    ensures |h.Output()| == h.End()
    ensures var r, t := ReplayOf(h, after), Target(h, after);
      && r.fromSeq <= t <= r.endSeq == h.End() && t <= r.fromSeq + 3
      && Flatten(r.chunks) == h.Output()[r.fromSeq..] && CutAt(h.all, r.fromSeq, t)
  {
    FlattenLength(h.all);
    var t := Target(h, after);
    OffsetOrder(h.all, h.dropped, |h.all|);
    if t == h.End() {
      ScanBefore(h.all, h.dropped, |h.all|, t);
      assert Flatten<byte>([]) == h.Output()[t..];
      forall lead: nat
        ensures !Straddled(h.all, lead, t)
      {
        NotStraddledAtEnd(h.all, lead);
      }
    } else {
      var k := FindChunk(h.all, t);
      if k < h.dropped {
        OffsetOrder(h.all, k + 1, h.dropped);
      }
      ReplayInChunk(h, after, k);
    }
  }

  /** To a cursor at the end, or past it, nothing is replayed, and the answer is the end. */
  lemma ReplayPastEnd(h: History, after: nat)
    requires h.Valid() && |h.Output()| <= after
    ensures ReplayOf(h, after) == Replay([], |h.Output()|, |h.Output()|)
  {
    FlattenLength(h.all);
  }

  lemma NotStraddledAtEnd(all: seq<Bytes>, lead: nat)
    ensures !Straddled(all, lead, Total(all))
  {
    forall k: nat | k < |all|
      ensures Offset(all, k) + |all[k]| <= Total(all)
    {
      OffsetOrder(all, k + 1, |all|);
    }
  }

  /** The replay from a place inside the k-th chunk: that chunk from its cut on, then the later ones. */
  lemma ReplayFromChunk(h: History, after: nat, k: nat)
    requires h.Valid() && after < h.End() && h.dropped <= k < |h.all|
    requires Offset(h.all, k) <= Target(h, after) < Offset(h.all, k + 1)
    ensures var split := CharBoundary(h.all[k], Target(h, after) - Offset(h.all, k));
      ReplayOf(h, after) == Replay([h.all[k][split..]] + h.all[k + 1..], Offset(h.all, k) + split, h.End())
  {
    ScanFrom(h.all, h.dropped, k, |h.all|, Target(h, after));
    assert h.all[k + 1..|h.all|] == h.all[k + 1..];
  }

  lemma ReplayInChunk(h: History, after: nat, k: nat)
    requires h.Valid() && after < h.End() && h.dropped <= k < |h.all|
    requires Offset(h.all, k) <= Target(h, after) < Offset(h.all, k + 1)
    ensures var r, t := ReplayOf(h, after), Target(h, after);
      && r.fromSeq <= t <= r.fromSeq + 3 && r.fromSeq <= |h.Output()|
      && Flatten(r.chunks) == h.Output()[r.fromSeq..] && CutAt(h.all, r.fromSeq, t)
  {
    var t := Target(h, after);
    var split := CharBoundary(h.all[k], t - Offset(h.all, k));
    ReplayFromChunk(h, after, k);
    FlattenTail(h.all, k, split);
    CutInChunk(h.all, k, t, split);
  }

  /** Only the k-th chunk holds t. */
  lemma StraddledInside(all: seq<Bytes>, k: nat, t: nat, lead: nat)
    requires k < |all| && Offset(all, k) <= t < Offset(all, k + 1)
    ensures Straddled(all, lead, t) <==> StraddledIn(all, k, lead, t)
  {
    if Straddled(all, lead, t) {
      var j: nat :| StraddledIn(all, j, lead, t);
      if j < k {
        OffsetOrder(all, j + 1, k);
      } else if k < j {
        OffsetOrder(all, k + 1, j);
      }
    }
  }

  lemma CutInChunk(all: seq<Bytes>, k: nat, t: nat, split: nat)
    requires k < |all| && Offset(all, k) <= t < Offset(all, k + 1)
    requires split == CharBoundary(all[k], t - Offset(all, k))
    ensures CutAt(all, Offset(all, k) + split, t)
  {
    var from := Offset(all, k) + split;
    forall lead: nat | Straddled(all, lead, t)
      ensures lead == from
    {
      StraddledInside(all, k, t, lead);
    }
    StraddledInside(all, k, t, from);
  }

  /** A replay never contains an empty chunk. */
  lemma {:induction false} ScanNonEmpty(all: seq<Bytes>, d: nat, hi: nat, t: nat)
    requires NonEmptyChunks(all) && d <= hi <= |all|
    ensures NonEmptyChunks(Scan(all, d, hi, t).0)
  {
    if d < hi {
      ScanNonEmpty(all, d, hi - 1, t);
    }
  }

  lemma ReplayNonEmpty(h: History, after: nat)
    requires h.Valid()
    ensures NonEmptyChunks(ReplayOf(h, after).chunks)
  {
    if after < h.End() {
      ScanNonEmpty(h.all, h.dropped, |h.all|, Target(h, after));
    }
  }

  class Scrollback {
    var chunks: seq<Bytes>
    var startSeq: nat
    var endSeq: nat
    var bytes: nat
    const rolling: nat
    const prune: nat
    ghost var hist: History

    ghost predicate Valid()
      reads this
    {
      && hist.Valid()
      && hist.dropped + |chunks| == |hist.all|
      && (forall i | 0 <= i < |chunks| :: chunks[i] == hist.all[hist.dropped + i])
      && startSeq == hist.Start() && endSeq == hist.End()
      && bytes == endSeq - startSeq
    }

    constructor WithLimits(rolling: nat, prune: nat)
      ensures Valid() && hist == History([], 0)
      ensures this.rolling == rolling && this.prune == prune
    {
      chunks, startSeq, endSeq, bytes := [], 0, 0, 0;
      this.rolling, this.prune := rolling, prune;
      hist := History([], 0);
    }

    method Append(chunk: Bytes) returns (seqEnd: nat)
      requires Valid()
      modifies this
      ensures Valid() && seqEnd == endSeq
      ensures chunk == [] ==> hist == old(hist)
      ensures chunk != [] ==>
        && hist.all == old(hist.all) + [chunk]
        && Pruned(hist.all, old(hist.dropped), hist.dropped, rolling, prune)
    {
      if chunk == [] {
        return endSeq;
      }
      AppendOne(hist, chunk);
      endSeq := endSeq + |chunk|;
      bytes := bytes + |chunk|;
      chunks := chunks + [chunk];
      hist := History(hist.all + [chunk], hist.dropped);
      if prune < bytes {
        PruneFront();
      }
      return endSeq;
    }

    method PruneFront()
      requires Valid()
      modifies this
      ensures Valid() && hist.all == old(hist.all)
      ensures PrunedTo(hist.all, old(hist.dropped), hist.dropped, rolling)
    {
      ghost var all := hist.all;
      ghost var d: nat := hist.dropped;
      while rolling < bytes
        invariant d + |chunks| == |all| && forall i | 0 <= i < |chunks| :: chunks[i] == all[d + i]
        invariant startSeq == Offset(all, d) && endSeq == Total(all) && bytes == endSeq - startSeq
        invariant old(hist.dropped) <= d && (old(hist.dropped) < d ==> rolling < endSeq - Offset(all, d - 1))
        decreases |chunks|
      {
        if chunks == [] {
          break;
        }
        var front := chunks[0];
        OffsetOrder(all, d + 1, |all|);
        chunks := chunks[1..];
        bytes := bytes - |front|;
        startSeq := startSeq + |front|;
        d := d + 1;
      }
      hist := History(all, d);
    }

    method ReplayFrom(after: nat) returns (r: Replay)
      requires Valid()
      ensures r == ReplayOf(hist, after)
    {
      if endSeq <= after {
        return Replay([], endSeq, endSeq);
      }
      var target := if startSeq < after then after else startSeq;
      var out: seq<Bytes> := [];
      var fromSeq: nat := target;
      var cursor := startSeq;
      ghost var a, d := hist.all, hist.dropped;
      for i := 0 to |chunks|
        invariant cursor == Offset(a, d + i) && (out, fromSeq) == Scan(a, d, d + i, target)
      {
        var chunk := chunks[i];
        var chunkEnd := cursor + |chunk|;
        if chunkEnd <= target {
          cursor := chunkEnd;
          continue;
        }
        if target <= cursor {
          out := out + [chunk];
        } else {
          var split := PrevCharBoundary(chunk, target - cursor);
          fromSeq := cursor + split;
          out := out + [chunk[split..]];
        }
        cursor := chunkEnd;
      }
      r := Replay(out, fromSeq, endSeq);
    }
  }
}
