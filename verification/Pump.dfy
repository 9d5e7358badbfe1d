/** What the single writer of a terminal publishes and broadcasts (src/server/src/pty/mod.rs). */
module Pump {
  import opened Chunks
  import opened Utf8
  import opened Wrappers
  import Osc7
  import Scrollback

  const WS_CHUNK_MAX := 0x1_0000

  // ---- replay frames ---------------------------------------------------------------

  /** frame is the run of chunks lo..hi: as many as fit, or one that does not fit with anything. */
  ghost predicate IsFrame(frame: Bytes, chunks: seq<Bytes>, lo: nat, hi: nat) {
    && lo < hi <= |chunks| && frame == Flatten(chunks[lo..hi])
    && (|frame| <= 65_536 || hi == lo + 1)
    && (hi < |chunks| ==> 65_536 < |frame| + |chunks[hi]|)
  }

  /** The j-th frame is the run between two cuts. */
  ghost predicate FrameAt(frames: seq<Bytes>, chunks: seq<Bytes>, cuts: seq<nat>, j: nat)
    requires j < |frames| && |cuts| == |frames| + 1
  {
    IsFrame(frames[j], chunks, cuts[j], cuts[j + 1])
  }

  /** The frames are consecutive runs covering the chunks; cuts are the run ends. */
  ghost predicate Framed(frames: seq<Bytes>, chunks: seq<Bytes>, cuts: seq<nat>) {
    && |cuts| == |frames| + 1 && cuts[0] == 0
    && forall j: nat | j < |frames| :: FrameAt(frames, chunks, cuts, j)
  }

  /** The frames are the chunks, merged. */
  ghost predicate Merges(frames: seq<Bytes>, chunks: seq<Bytes>) {
    exists cuts: seq<nat> :: Framed(frames, chunks, cuts) && cuts[|frames|] == |chunks|
  }

  lemma ExtendRun(chunks: seq<Bytes>, lo: nat, hi: nat)
    requires lo <= hi < |chunks|
    ensures Flatten(chunks[lo..hi + 1]) == Flatten(chunks[lo..hi]) + chunks[hi]
    ensures lo == hi ==> Flatten(chunks[lo..hi]) == []
  {
    assert chunks[lo..hi + 1] == chunks[lo..hi] + [chunks[hi]];
    FlattenSnoc(chunks[lo..hi], chunks[hi]);
  }

  lemma FramedSnoc(frames: seq<Bytes>, chunks: seq<Bytes>, cuts: seq<nat>, frame: Bytes, hi: nat)
    requires Framed(frames, chunks, cuts) && IsFrame(frame, chunks, cuts[|frames|], hi)
    ensures Framed(frames + [frame], chunks, cuts + [hi])
  {
    forall j: nat | j < |frames| + 1
      ensures FrameAt(frames + [frame], chunks, cuts + [hi], j)
    {
      assert j < |frames| ==> FrameAt(frames, chunks, cuts, j);
    }
  }

  method Coalesce(chunks: seq<Bytes>) returns (out: seq<Bytes>)
    requires NonEmptyChunks(chunks)
    ensures Merges(out, chunks)
  {
    out := [];
    ghost var cuts: seq<nat> := [0];
    var buf: Bytes := [];
    for i := 0 to |chunks|
      invariant Framed(out, chunks, cuts) && cuts[|out|] <= i
      invariant buf == Flatten(chunks[cuts[|out|]..i]) && |buf| <= WS_CHUNK_MAX
      invariant buf == [] <==> cuts[|out|] == i
    {
      var chunk := chunks[i];
      if WS_CHUNK_MAX < |buf| + |chunk| && buf != [] {
        FramedSnoc(out, chunks, cuts, buf, i);
        out := out + [buf];
        cuts := cuts + [i];
        buf := [];
      }
      ExtendRun(chunks, cuts[|out|], i);
      if WS_CHUNK_MAX <= |chunk| {
        FramedSnoc(out, chunks, cuts, chunk, i + 1);
        out := out + [chunk];
        cuts := cuts + [i + 1];
        assert chunks[i + 1..i + 1] == [];
      } else {
        buf := buf + chunk;
      }
    }
    if buf != [] {
      FramedSnoc(out, chunks, cuts, buf, |chunks|);
      out := out + [buf];
      cuts := cuts + [|chunks|];
    }
    assert Framed(out, chunks, cuts) && cuts[|out|] == |chunks|;
  }

  lemma {:induction false} FramesKeepBytes(frames: seq<Bytes>, chunks: seq<Bytes>, cuts: seq<nat>, j: nat)
    requires Framed(frames, chunks, cuts) && j <= |frames|
    ensures cuts[j] <= |chunks|
    ensures Flatten(frames[..j]) == Flatten(chunks[..cuts[j]]) && Offset(frames, j) == Offset(chunks, cuts[j])
  {
    if j == 0 {
      assert chunks[..0] == [] && frames[..0] == [];
    } else {
      FramesKeepBytes(frames, chunks, cuts, j - 1);
      assert frames[..j] == frames[..j - 1] + [frames[j - 1]];
      FlattenSnoc(frames[..j - 1], frames[j - 1]);
      var lo, hi := cuts[j - 1], cuts[j];
      assert FrameAt(frames, chunks, cuts, j - 1);
      assert chunks[..hi] == chunks[..lo] + chunks[lo..hi];
      FlattenConcat(chunks[..lo], chunks[lo..hi]);
      FlattenSlice(chunks, lo, hi);
    }
  }

  /** Merging keeps the bytes, and each frame ends where a chunk ends. */
  lemma MergesKeepBytes(frames: seq<Bytes>, chunks: seq<Bytes>)
    requires Merges(frames, chunks)
    ensures Flatten(frames) == Flatten(chunks)
    ensures forall j: nat | j <= |frames| :: IsBoundary(chunks, Offset(frames, j))
  {
    var cuts: seq<nat> :| Framed(frames, chunks, cuts) && cuts[|frames|] == |chunks|;
    FramesKeepBytes(frames, chunks, cuts, |frames|);
    assert frames[..|frames|] == frames && chunks[..|chunks|] == chunks;
    forall j: nat | j <= |frames| ensures IsBoundary(chunks, Offset(frames, j)) {
      FramesKeepBytes(frames, chunks, cuts, j);
      assert EndsAt(chunks, cuts[j], Offset(frames, j));
    }
  }

  // ---- the stream of events -----------------------------------------------------------

  datatype ExitInfo = ExitInfo(code: Option<nat>, signal: Option<Bytes>)

  datatype Event =
    | Output(data: Bytes, seqEnd: nat)
    | Cwd(path: Bytes)
    | Exit(info: ExitInfo)

  function CwdEvents(paths: seq<Bytes>): seq<Event> {
    seq(|paths|, i requires 0 <= i < |paths| => Cwd(paths[i]))
  }

  /** The working directory after the given reports. */
  function LastPath(cwd: Bytes, paths: seq<Bytes>): Bytes {
    if paths == [] then cwd else paths[|paths| - 1]
  }

  // ---- the pump ------------------------------------------------------------------------

  /** What the pump waits for: a read, or the hold-back timeout passing without one. */
  datatype Arrival = Read(data: Bytes) | Quiet

  datatype Held = Held(published: seq<Bytes>, leftover: Bytes)

  ghost function PumpStep(p: Held, arrival: Arrival): Held {
    match arrival
    case Quiet => if p.leftover == [] then p else Held(p.published + [p.leftover], [])
    case Read(data) =>
      var buf := p.leftover + data;
      var n := SplitPoint(buf);
      Held(if 0 < n then p.published + [buf[..n]] else p.published, buf[n..])
  }

  ghost function PumpOf(arrivals: seq<Arrival>): Held {
    if arrivals == [] then Held([], []) else PumpStep(PumpOf(arrivals[..|arrivals| - 1]), arrivals[|arrivals| - 1])
  }

  /** Everything published by the time the reader has finished. */
  ghost function Published(arrivals: seq<Arrival>): seq<Bytes> {
    var p := PumpOf(arrivals);
    if p.leftover == [] then p.published else p.published + [p.leftover]
  }

  ghost function ScanOf(chunks: seq<Bytes>): (Osc7.Scan, seq<Bytes>) {
    Osc7.FeedOf(Osc7.Scan(Osc7.Idle, [], []), Flatten(chunks))
  }

  /** The events broadcast for a run of chunks: each chunk, then the directories it completes. */
  ghost function EventsOf(chunks: seq<Bytes>): seq<Event> {
    if chunks == [] then []
    else
      var init, last := chunks[..|chunks| - 1], chunks[|chunks| - 1];
      EventsOf(init) + [Output(last, Total(chunks))] + CwdEvents(Osc7.FeedOf(ScanOf(init).0, last).1)
  }

  lemma ScanNext(chunks: seq<Bytes>, c: Bytes)
    ensures var (s1, p1) := ScanOf(chunks);
            var (s2, p2) := Osc7.FeedOf(s1, c);
            ScanOf(chunks + [c]) == (s2, p1 + p2)
    ensures EventsOf(chunks + [c]) ==
      EventsOf(chunks) + [Output(c, Total(chunks + [c]))] + CwdEvents(Osc7.FeedOf(ScanOf(chunks).0, c).1)
  {
    FlattenSnoc(chunks, c);
    Osc7.FeedConcat(Osc7.Scan(Osc7.Idle, [], []), Flatten(chunks), c);
    assert (chunks + [c])[..|chunks|] == chunks;
  }

  lemma PumpNext(arrivals: seq<Arrival>, i: nat)
    requires i < |arrivals|
    ensures PumpOf(arrivals[..i + 1]) == PumpStep(PumpOf(arrivals[..i]), arrivals[i])
  {
    assert arrivals[..i + 1][..i] == arrivals[..i];
  }

  // ---- what the pump promises -------------------------------------------------------------

  function DataOf(arrival: Arrival): Bytes {
    if arrival.Read? then arrival.data else []
  }

  ghost function Input(arrivals: seq<Arrival>): Bytes {
    if arrivals == [] then []
    else Input(arrivals[..|arrivals| - 1]) + DataOf(arrivals[|arrivals| - 1])
  }

  lemma StepConserves(p: Held, arrival: Arrival)
    requires NonEmptyChunks(p.published) && |p.leftover| <= 3
    ensures var p' := PumpStep(p, arrival);
      && Flatten(p'.published) + p'.leftover == Flatten(p.published) + p.leftover + DataOf(arrival)
      && |p'.leftover| <= 3 && NonEmptyChunks(p'.published)
  {
    match arrival
    case Quiet =>
      FlattenSnoc(p.published, p.leftover);
    case Read(data) =>
      var buf := p.leftover + data;
      FlattenSnoc(p.published, buf[..SplitPoint(buf)]);
      CutAndRejoin(Flatten(p.published), p.leftover, data, SplitPoint(buf));
  }

  lemma CutAndRejoin(done: Bytes, held: Bytes, data: Bytes, n: nat)
    requires n <= |held + data|
    ensures done + (held + data)[..n] + (held + data)[n..] == done + held + data
    ensures n == 0 ==> done + (held + data)[n..] == done + held + data
  {
  }

  /** Nothing is lost or reordered, at most 3 bytes are held back, no empty chunk is published. */
  lemma {:induction false} PumpConserves(arrivals: seq<Arrival>)
    ensures var p := PumpOf(arrivals);
      && Flatten(p.published) + p.leftover == Input(arrivals)
      && |p.leftover| <= 3
      && NonEmptyChunks(p.published)
    ensures Flatten(Published(arrivals)) == Input(arrivals)
  {
    var p := PumpOf(arrivals);
    if arrivals != [] {
      PumpConserves(arrivals[..|arrivals| - 1]);
      StepConserves(PumpOf(arrivals[..|arrivals| - 1]), arrivals[|arrivals| - 1]);
    }
    FlattenSnoc(p.published, p.leftover);
  }

  /** Input still to come after the first i arrivals. */
  ghost function InputFrom(arrivals: seq<Arrival>, i: nat): Bytes
    requires i <= |arrivals|
    decreases |arrivals| - i
  {
    if i == |arrivals| then []
    else DataOf(arrivals[i]) + InputFrom(arrivals, i + 1)
  }

  lemma {:induction false} InputSplits(arrivals: seq<Arrival>, i: nat)
    requires i <= |arrivals|
    ensures Input(arrivals[..i]) + InputFrom(arrivals, i) == Input(arrivals)
    decreases |arrivals| - i
  {
    if i == |arrivals| {
      assert arrivals[..i] == arrivals;
    } else {
      InputSplits(arrivals, i + 1);
      assert arrivals[..i + 1][..i] == arrivals[..i];
      var before, data, rest := Input(arrivals[..i]), DataOf(arrivals[i]), InputFrom(arrivals, i + 1);
      assert (before + data) + rest == before + (data + rest);
    }
  }

  ghost predicate AllUtf8(chunks: seq<Bytes>) {
    forall k | 0 <= k < |chunks| :: IsUtf8(chunks[k])
  }

  lemma StepKeepsCharacters(p: Held, data: Bytes, rest: Bytes)
    requires AllUtf8(p.published) && IsUtf8(p.leftover + (data + rest))
    ensures var p' := PumpStep(p, Read(data)); AllUtf8(p'.published) && IsUtf8(p'.leftover + rest)
  {
    assert p.leftover + (data + rest) == (p.leftover + data) + rest;
    SplitOfValidStream(p.leftover + data, rest);
  }

  /** The hold-back timeout passes while bytes are held. */
  ghost predicate TimesOutHolding(arrivals: seq<Arrival>) {
    exists i :: 0 <= i < |arrivals| && arrivals[i].Quiet? && PumpOf(arrivals[..i]).leftover != []
  }

  lemma HeldNothing(arrivals: seq<Arrival>, i: nat)
    requires !TimesOutHolding(arrivals) && i < |arrivals| && arrivals[i].Quiet?
    ensures PumpOf(arrivals[..i]).leftover == []
  {
  }

  lemma {:induction false} PumpValidPrefix(arrivals: seq<Arrival>, i: nat)
    requires i <= |arrivals| && !TimesOutHolding(arrivals) && IsUtf8(Input(arrivals))
    ensures var p := PumpOf(arrivals[..i]);
            AllUtf8(p.published) && IsUtf8(p.leftover + InputFrom(arrivals, i))
  {
    if i == 0 {
      InputSplits(arrivals, 0);
      assert [] + InputFrom(arrivals, 0) == Input(arrivals);
    } else {
      PumpValidPrefix(arrivals, i - 1);
      PumpNext(arrivals, i - 1);
      var p, rest := PumpOf(arrivals[..i - 1]), InputFrom(arrivals, i);
      if arrivals[i - 1].Read? {
        StepKeepsCharacters(p, arrivals[i - 1].data, rest);
      } else {
        HeldNothing(arrivals, i - 1);
        assert [] + rest == rest;
      }
    }
  }

  lemma {:induction false} HeldIsIncomplete(arrivals: seq<Arrival>)
    ensures var held := PumpOf(arrivals).leftover; held == [] || Incomplete(held, 0)
  {
    if arrivals != [] {
      var init := arrivals[..|arrivals| - 1];
      HeldIsIncomplete(init);
      if arrivals[|arrivals| - 1].Read? {
        var buf := PumpOf(init).leftover + arrivals[|arrivals| - 1].data;
        var n := SplitPoint(buf);
        assert n < |buf| ==> Incomplete(buf[n..], 0);
      }
    }
  }

  lemma IncompleteIsNotUtf8(s: Bytes)
    requires Incomplete(s, 0)
    ensures !IsUtf8(s)
  {
    if IsUtf8(s) {
      var chars: seq<Bytes> :| AllChars(chars) && Flatten(chars) == s;
      CharShape(chars[0]);
      assert chars == [chars[0]] + chars[1..];
      FlattenConsOne(chars[0], chars[1..]);
      assert false;
    }
  }

  lemma {:induction false} PublishedGrows(arrivals: seq<Arrival>, i: nat)
    requires i <= |arrivals|
    ensures PumpOf(arrivals[..i]).published <= PumpOf(arrivals).published
    decreases |arrivals|
  {
    if i == |arrivals| {
      assert arrivals[..i] == arrivals;
    } else {
      var init := arrivals[..|arrivals| - 1];
      PublishedGrows(init, i);
      assert init[..i] == arrivals[..i];
    }
  }

  lemma FlushPublishesPart(arrivals: seq<Arrival>)
    requires TimesOutHolding(arrivals)
    ensures !AllUtf8(Published(arrivals))
  {
    var i :| 0 <= i < |arrivals| && arrivals[i].Quiet? && PumpOf(arrivals[..i]).leftover != [];
    HeldIsPublished(arrivals, i);
    HeldIsIncomplete(arrivals[..i]);
    IncompleteIsNotUtf8(PumpOf(arrivals[..i]).leftover);
  }

  /** What is held when the timeout passes is published as a chunk of its own. */
  lemma HeldIsPublished(arrivals: seq<Arrival>, i: nat)
    requires i < |arrivals| && arrivals[i].Quiet? && PumpOf(arrivals[..i]).leftover != []
    ensures var p := PumpOf(arrivals[..i]);
      |p.published| < |Published(arrivals)| && Published(arrivals)[|p.published|] == p.leftover
  {
    var p, published := PumpOf(arrivals[..i]), PumpOf(arrivals).published;
    PumpNext(arrivals, i);
    PublishedGrows(arrivals, i + 1);
    assert p.published + [p.leftover] <= published;
    assert published[|p.published|] == p.leftover;
  }

  /**
   * When the shell writes valid UTF-8, every published chunk is valid UTF-8 exactly when the
   * hold-back timeout never fires. (A flush publishes the beginning of a character on its own.)
   */
  lemma PumpKeepsCharacters(arrivals: seq<Arrival>)
    requires IsUtf8(Input(arrivals))
    ensures AllUtf8(Published(arrivals)) <==> !TimesOutHolding(arrivals)
  {
    if TimesOutHolding(arrivals) {
      FlushPublishesPart(arrivals);
    } else {
      PumpValidPrefix(arrivals, |arrivals|);
      assert arrivals[..|arrivals|] == arrivals;
      var p := PumpOf(arrivals);
      assert p.leftover + [] == p.leftover;
    }
  }

  lemma LeadIsHeld()
    ensures PumpOf([Read([0xE2])]).leftover != []
  {
    assert [Read([0xE2])][..0] == [];
    assert PumpOf([]).leftover + [0xE2] == [0xE2] && Incomplete([0xE2], 0);
  }

  lemma EuroInTwoReads()
    ensures Input([Read([0xE2]), Quiet, Read([0x82, 0xAC])]) == [0xE2, 0x82, 0xAC]
  {
    var first, second := [Read([0xE2])], [Read([0xE2]), Quiet];
    var arrivals := [Read([0xE2]), Quiet, Read([0x82, 0xAC])];
    assert arrivals[..2] == second && second[..1] == first && first[..0] == [];
    assert Input(first) == [0xE2] && Input(second) == [0xE2];
  }

  lemma EuroIsUtf8()
    ensures IsUtf8([0xE2, 0x82, 0xAC])
  {
    FlattenOne<byte>([0xE2, 0x82, 0xAC]);
    assert IsChar([0xE2, 0x82, 0xAC]) && AllChars([[0xE2, 0x82, 0xAC]]);
  }

  /** A valid stream whose flush cuts a character: the euro sign, read in two parts with a pause. */
  lemma FlushCutsCharacter()
    ensures var arrivals := [Read([0xE2]), Quiet, Read([0x82, 0xAC])];
            IsUtf8(Input(arrivals)) && !AllUtf8(Published(arrivals))
  {
    var arrivals := [Read([0xE2]), Quiet, Read([0x82, 0xAC])];
    LeadIsHeld();
    EuroInTwoReads();
    EuroIsUtf8();
    assert arrivals[..1] == [Read([0xE2])] && arrivals[1] == Quiet;
    PumpKeepsCharacters(arrivals);
  }

  ghost function Outputs(events: seq<Event>): seq<Event> {
    if events == [] then []
    else
      var init := Outputs(events[..|events| - 1]);
      if events[|events| - 1].Output? then init + [events[|events| - 1]] else init
  }

  lemma {:induction false} OutputsOfQuietTail(events: seq<Event>, tail: seq<Event>)
    requires forall k | 0 <= k < |tail| :: !tail[k].Output?
    ensures Outputs(events + tail) == Outputs(events)
  {
    if tail == [] {
      assert events + tail == events;
    } else {
      assert (events + tail)[..|events + tail| - 1] == events + tail[..|tail| - 1];
      OutputsOfQuietTail(events, tail[..|tail| - 1]);
    }
  }

  lemma OutputsNext(chunks: seq<Bytes>)
    requires chunks != []
    ensures var init, last := chunks[..|chunks| - 1], chunks[|chunks| - 1];
      Outputs(EventsOf(chunks)) == Outputs(EventsOf(init)) + [Output(last, Total(chunks))]
  {
    var init, last := chunks[..|chunks| - 1], chunks[|chunks| - 1];
    var before := EventsOf(init) + [Output(last, Total(chunks))];
    assert before[..|before| - 1] == EventsOf(init);
    OutputsOfQuietTail(before, CwdEvents(Osc7.FeedOf(ScanOf(init).0, last).1));
  }

  /**
   * The broadcast carries the chunks in order, each stamped with the offset of its end;
   * only the last event is the exit.
   */
  lemma {:induction false} BroadcastOrder(chunks: seq<Bytes>)
    ensures var outs := Outputs(EventsOf(chunks));
      && |outs| == |chunks|
      && forall k | 0 <= k < |chunks| :: outs[k] == Output(chunks[k], Offset(chunks, k + 1))
    ensures forall k | 0 <= k < |EventsOf(chunks)| :: !EventsOf(chunks)[k].Exit?
  {
    if chunks != [] {
      var init, last := chunks[..|chunks| - 1], chunks[|chunks| - 1];
      BroadcastOrder(init);
      OutputsNext(chunks);
      assert chunks == init + [last];
      forall k: nat | k <= |init|
        ensures Offset(chunks, k) == Offset(init, k)
      {
        OffsetStable(init, [last], k);
      }
    }
  }

  ghost function Paths(events: seq<Event>): seq<Bytes> {
    if events == [] then []
    else
      var init := Paths(events[..|events| - 1]);
      if events[|events| - 1].Cwd? then init + [events[|events| - 1].path] else init
  }

  lemma {:induction false} PathsOfCwds(events: seq<Event>, paths: seq<Bytes>)
    ensures Paths(events + CwdEvents(paths)) == Paths(events) + paths
  {
    var tail := CwdEvents(paths);
    if paths == [] {
      assert events + tail == events;
    } else {
      var init := paths[..|paths| - 1];
      PathsOfCwds(events, init);
      assert (events + tail)[..|events + tail| - 1] == events + CwdEvents(init);
      assert paths == init + [paths[|paths| - 1]];
    }
  }

  /** The directories broadcast are those of one scan over the whole output, however it was chunked. */
  lemma {:induction false} ChunkingDoesNotHidePaths(chunks: seq<Bytes>)
    ensures Paths(EventsOf(chunks)) == ScanOf(chunks).1
  {
    if chunks != [] {
      var init, last := chunks[..|chunks| - 1], chunks[|chunks| - 1];
      ChunkingDoesNotHidePaths(init);
      assert chunks == init + [last];
      ScanNext(init, last);
      var before := EventsOf(init) + [Output(last, Total(chunks))];
      assert before[..|before| - 1] == EventsOf(init);
      PathsOfCwds(before, Osc7.FeedOf(ScanOf(init).0, last).1);
    }
  }
}
