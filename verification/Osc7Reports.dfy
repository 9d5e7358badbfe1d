/** Which streams report a working directory, by the bytes alone (src/server/src/pty/osc7.rs). */
module Osc7Reports {
  import opened Chunks
  import opened Wrappers
  import opened Osc7

  /** The scanner at the start of a stream. */
  const FRESH: Scan := Scan(Idle, [], [])

  /** The last byte of the stream completes a report of the path. */
  ghost predicate Completes(stream: Bytes, path: Bytes) {
    stream != [] && StepOf(FeedOf(FRESH, stream[..|stream| - 1]).0, stream[|stream| - 1]).1 == Some(path)
  }

  /** A report: introducer, a payload without BEL and ESC that fits, then BEL or ESC \. */
  ghost predicate IsReport(report: Bytes, payload: Bytes) {
    && |payload| <= 4096 && 0x1B !in payload && 0x07 !in payload
    && (report == OSC7_START + payload + [0x07] || report == OSC7_START + payload + [0x1B, 0x5C])
  }

  /** The stream up to some place, where the scanner is not right after an ESC inside a payload, then the tail. */
  ghost predicate EndsIn(stream: Bytes, tail: Bytes) {
    exists before: Bytes :: FeedOf(FRESH, before).0.state != PayloadEsc && stream == before + tail
  }

  lemma EndsInMore(stream: Bytes, tail: Bytes, b: byte)
    requires EndsIn(stream, tail)
    ensures EndsIn(stream + [b], tail + [b])
  {
    var before: Bytes :| FeedOf(FRESH, before).0.state != PayloadEsc && stream == before + tail;
    assert stream + [b] == before + (tail + [b]);
  }

  /** What the scanner's state says about the end of the stream. */
  ghost predicate Tells(s: Scan, stream: Bytes) {
    match s.state
    case Idle => true
    case Esc => EndsIn(stream, [0x1B])
    case Command => EndsIn(stream, [0x1B, 0x5D] + s.command)
    case Payload => EndsIn(stream, OSC7_START + s.payload) && Plain(s.payload) && |s.payload| <= 4096
    case PayloadEsc =>
      && EndsIn(stream, OSC7_START + s.payload + [0x1B]) && EndsIn(stream, [0x1B])
      && Plain(s.payload) && |s.payload| <= 4096
  }

  lemma EscapeEnds(stream: Bytes)
    requires FeedOf(FRESH, stream).0.state != PayloadEsc
    ensures EndsIn(stream + [0x1B], [0x1B])
  {
  }

  lemma CommandTells(s: Scan, stream: Bytes, b: byte)
    requires s.state == Command && Tells(s, stream) && (b == ESC ==> EndsIn(stream + [b], [0x1B]))
    ensures Tells(StepOf(s, b).0, stream + [b])
  {
    EndsInMore(stream, [0x1B, 0x5D] + s.command, b);
    assert ([0x1B, 0x5D] + s.command) + [b] == [0x1B, 0x5D] + (s.command + [b]);
    if s.command == [SEVEN] && b == SEMICOLON {
      assert ([0x1B, 0x5D] + s.command) + [b] == OSC7_START + [];
    }
  }

  lemma PayloadTells(s: Scan, stream: Bytes, b: byte)
    requires s.state == Payload && Tells(s, stream) && (b == ESC ==> EndsIn(stream + [b], [0x1B]))
    ensures Tells(StepOf(s, b).0, stream + [b])
  {
    EndsInMore(stream, OSC7_START + s.payload, b);
    assert (OSC7_START + s.payload) + [b] == OSC7_START + (s.payload + [b]);
  }

  lemma EscapeTells(s: Scan, stream: Bytes, b: byte)
    requires (s.state == Esc || s.state == PayloadEsc) && Tells(s, stream)
    requires s.state == Esc && b == ESC ==> EndsIn(stream + [b], [0x1B])
    ensures Tells(StepOf(s, b).0, stream + [b])
  {
    EndsInMore(stream, [0x1B], b);
    assert [0x1B] + [b] == [0x1B, b] + [];
  }

  lemma StepTells(stream: Bytes, b: byte)
    requires Tells(FeedOf(FRESH, stream).0, stream)
    ensures Tells(StepOf(FeedOf(FRESH, stream).0, b).0, stream + [b])
  {
    var s := FeedOf(FRESH, stream).0;
    if b == ESC && s.state != PayloadEsc {
      EscapeEnds(stream);
    }
    match s.state
    case Idle =>
    case Command => CommandTells(s, stream, b);
    case Payload => PayloadTells(s, stream, b);
    case _ => EscapeTells(s, stream, b);
  }

  lemma {:induction false} ScanTells(stream: Bytes)
    ensures Tells(FeedOf(FRESH, stream).0, stream)
  {
    if stream != [] {
      var init, last := stream[..|stream| - 1], stream[|stream| - 1];
      ScanTells(init);
      StepTells(init, last);
      assert stream == init + [last];
    }
  }

  lemma BelEnds(s: Scan, stream: Bytes)
    requires s.state == Payload && Tells(s, stream)
    ensures var report := OSC7_START + s.payload + [0x07];
      IsReport(report, s.payload) && EndsIn(stream + [0x07], report)
  {
    EndsInMore(stream, OSC7_START + s.payload, 0x07);
  }

  lemma StEnds(s: Scan, stream: Bytes)
    requires s.state == PayloadEsc && Tells(s, stream)
    ensures var report := OSC7_START + s.payload + [0x1B, 0x5C];
      IsReport(report, s.payload) && EndsIn(stream + [0x5C], report)
  {
    EndsInMore(stream, OSC7_START + s.payload + [0x1B], 0x5C);
    assert OSC7_START + s.payload + [0x1B] + [0x5C] == OSC7_START + s.payload + [0x1B, 0x5C];
  }

  lemma CompletedEnds(stream: Bytes, path: Bytes) returns (report: Bytes, payload: Bytes)
    requires Completes(stream, path)
    ensures IsReport(report, payload) && EndsIn(stream, report) && ParseFileUrl(payload) == Some(path)
  {
    var init, last := stream[..|stream| - 1], stream[|stream| - 1];
    var s := FeedOf(FRESH, init).0;
    ScanTells(init);
    payload := s.payload;
    assert stream == init + [last];
    if s.state == Payload {
      report := OSC7_START + payload + [0x07];
      BelEnds(s, init);
    } else {
      report := OSC7_START + payload + [0x1B, 0x5C];
      StEnds(s, init);
    }
  }

  lemma BodyCollected(before: Bytes, payload: Bytes)
    requires FeedOf(FRESH, before).0.state != PayloadEsc && Plain(payload) && |payload| <= 4096
    ensures var s := FeedOf(FRESH, before + (OSC7_START + payload)).0; s.state == Payload && s.payload == payload
  {
    var s := FeedOf(FRESH, before).0;
    FeedStart(s);
    FeedConcat(s, OSC7_START, payload);
    FeedPayload(FeedOf(s, OSC7_START).0, payload);
    FeedConcat(FRESH, before, OSC7_START + payload);
  }

  lemma ReportCompletes(before: Bytes, report: Bytes, payload: Bytes, path: Bytes)
    requires FeedOf(FRESH, before).0.state != PayloadEsc
    requires IsReport(report, payload) && ParseFileUrl(payload) == Some(path)
    ensures Completes(before + report, path)
  {
    BodyCollected(before, payload);
    var body := before + (OSC7_START + payload);
    if report == OSC7_START + payload + [0x07] {
      assert before + report == body + [0x07];
      CompletesAfter(body, 0x07, path);
    } else {
      assert before + report == (body + [0x1B]) + [0x5C];
      assert (body + [0x1B])[..|body|] == body;
      CompletesAfter(body + [0x1B], 0x5C, path);
    }
  }

  lemma CompletesAfter(stream: Bytes, b: byte, path: Bytes)
    requires StepOf(FeedOf(FRESH, stream).0, b).1 == Some(path)
    ensures Completes(stream + [b], path)
  {
    assert (stream + [b])[..|stream|] == stream;
  }

  /**
   * A path is reported by the last byte of a stream exactly when the stream ends in a whole report
   * of it that does not start right after an ESC inside a payload.
   */
  lemma ReportedIff(stream: Bytes, path: Bytes)
    ensures Completes(stream, path) <==> exists report: Bytes, payload: Bytes ::
      IsReport(report, payload) && EndsIn(stream, report) && ParseFileUrl(payload) == Some(path)
  {
    if Completes(stream, path) {
      var report, payload := CompletedEnds(stream, path);
    }
    if report: Bytes, payload: Bytes :|
      IsReport(report, payload) && EndsIn(stream, report) && ParseFileUrl(payload) == Some(path)
    {
      var before: Bytes :| FeedOf(FRESH, before).0.state != PayloadEsc && stream == before + report;
      ReportCompletes(before, report, payload, path);
    }
  }
}
