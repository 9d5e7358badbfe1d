/** Resumable scanner for the shell's working-directory reports (src/server/src/pty/osc7.rs). */
module Osc7 {
  import opened Chunks
  import opened Wrappers
  import opened Utf8

  const MAX_PAYLOAD := 4096
  const ESC: byte := 0x1B
  const BEL: byte := 0x07
  const BACKSLASH: byte := 0x5C
  const BRACKET: byte := 0x5D
  const SEMICOLON: byte := 0x3B
  const SEVEN: byte := 0x37
  const SLASH: byte := 0x2F
  const PERCENT: byte := 0x25
  const FILE_SCHEME: Bytes := [0x66, 0x69, 0x6C, 0x65, 0x3A, 0x2F, 0x2F]

  datatype State = Idle | Esc | Command | Payload | PayloadEsc

  datatype Scan = Scan(state: State, command: Bytes, payload: Bytes) {
    ghost predicate Bounded() { |command| <= 4 && |payload| <= MAX_PAYLOAD }
  }

  // ---- parsing a payload --------------------------------------------------------

  function HexDigit(b: byte): Option<nat> {
    if 0x30 <= b <= 0x39 then Some(b - 0x30)
    else if 0x41 <= b <= 0x46 then Some(b - 0x37)
    else if 0x61 <= b <= 0x66 then Some(b - 0x57)
    else None
  }

  function Escaped(s: Bytes): Option<byte> {
    if 3 <= |s| && s[0] == PERCENT && HexDigit(s[1]).Some? && HexDigit(s[2]).Some?
    then Some(HexDigit(s[1]).value * 16 + HexDigit(s[2]).value)
    else None
  }

  function Decode(s: Bytes): Bytes {
    if s == [] then []
    else match Escaped(s)
      case Some(b) => [b] + Decode(s[3..])
      case None => [s[0]] + Decode(s[1..])
  }

  method PercentDecodePath(input: Bytes) returns (path: Bytes)
    ensures path == Lossy(Decode(input))
  {
    var out: Bytes := [];
    var i := 0;
    assert input[0..] == input;
    while i < |input|
      invariant i <= |input|
      invariant Decode(input) == out + Decode(input[i..])
    {
      ghost var rest := input[i..];
      assert rest[1..] == input[i + 1..] && (3 <= |rest| ==> rest[3..] == input[i + 3..]);
      if input[i] == PERCENT && i + 2 < |input| {
        var hi := HexDigit(input[i + 1]);
        var lo := HexDigit(input[i + 2]);
        if hi.Some? && lo.Some? {
          assert Escaped(rest).Some?;
          assert out + Decode(rest) == out + [hi.value * 16 + lo.value] + Decode(rest[3..]);
          out := out + [hi.value * 16 + lo.value];
          i := i + 3;
          continue;
        }
      }
      assert Escaped(rest) == None;
      assert out + Decode(rest) == out + [input[i]] + Decode(rest[1..]);
      out := out + [input[i]];
      i := i + 1;
    }
    assert input[i..] == [] && out + [] == out;
    path := Lossy(out);
  }

  function FindByte(s: Bytes, b: byte): (at: Option<nat>)
    ensures at.Some? ==> at.value < |s| && s[at.value] == b && b !in s[..at.value]
    ensures at.None? ==> b !in s
  {
    if s == [] then None
    else if s[0] == b then Some(0)
    else match FindByte(s[1..], b)
      case Some(k) => assert s[..k + 1] == [s[0]] + s[1..][..k]; Some(k + 1)
      case None => None
  }

  function ParseFileUrl(payload: Bytes): Option<Bytes> {
    var text := Lossy(payload);
    if !(FILE_SCHEME <= text) then None
    else
      var rest := text[|FILE_SCHEME|..];
      match FindByte(rest, SLASH)
      case None => None
      case Some(start) =>
        var path := Lossy(Decode(rest[start..]));
        if path != [] && path[0] == SLASH then Some(path) else None
  }

  // ---- the machine ----------------------------------------------------------------

  function StepOf(s: Scan, b: byte): (Scan, Option<Bytes>) {
    match s.state
    case Idle => (if b == ESC then s.(state := Esc) else s, None)
    case Esc =>
      (if b == BRACKET then s.(state := Command, command := [])
       else if b == ESC then s
       else s.(state := Idle), None)
    case Command =>
      (if 0x30 <= b <= 0x39 && |s.command| < 4 then s.(command := s.command + [b])
       else if b == SEMICOLON then
         if s.command == [SEVEN] then s.(state := Payload, payload := []) else s.(state := Idle)
       else if b == ESC then s.(state := Esc)
       else s.(state := Idle), None)
    case Payload =>
      if b == BEL then (s.(state := Idle, payload := []), ParseFileUrl(s.payload))
      else if b == ESC then (s.(state := PayloadEsc), None)
      else if MAX_PAYLOAD <= |s.payload| then (s.(state := Idle, payload := []), None)
      else (s.(payload := s.payload + [b]), None)
    case PayloadEsc =>
      if b == BACKSLASH then (s.(state := Idle, payload := []), ParseFileUrl(s.payload))
      else if b == BRACKET then (s.(state := Command, command := [], payload := []), None)
      else (s.(state := Idle, payload := []), None)
  }

  function Report(paths: seq<Bytes>, path: Option<Bytes>): seq<Bytes> {
    if path.Some? then paths + [path.value] else paths
  }

  function FeedOf(s: Scan, bytes: Bytes): (Scan, seq<Bytes>) {
    if bytes == [] then (s, [])
    else
      var (s1, paths) := FeedOf(s, bytes[..|bytes| - 1]);
      var (s2, path) := StepOf(s1, bytes[|bytes| - 1]);
      (s2, Report(paths, path))
  }

  class Scanner {
    var state: State
    var command: Bytes
    var payload: Bytes

    function View(): Scan
      reads this
    {
      Scan(state, command, payload)
    }

    constructor ()
      ensures View() == Scan(Idle, [], [])
    {
      state, command, payload := Idle, [], [];
    }

    method Feed(chunk: Bytes) returns (out: seq<Bytes>)
      modifies this
      ensures (View(), out) == FeedOf(old(View()), chunk)
    {
      out := [];
      for i := 0 to |chunk|
        invariant (View(), out) == FeedOf(old(View()), chunk[..i])
      {
        assert chunk[..i + 1][..i] == chunk[..i];
        var path := Step(chunk[i]);
        if path.Some? {
          out := out + [path.value];
        }
      }
      assert chunk[..|chunk|] == chunk;
    }

    method Step(b: byte) returns (path: Option<Bytes>)
      modifies this
      ensures (View(), path) == StepOf(old(View()), b)
    {
      path := None;
      match state {
        case Idle =>
          if b == ESC {
            state := Esc;
          }
        case Esc =>
          if b == BRACKET {
            state := Command;
            command := [];
          } else if b == ESC {
          } else {
            state := Idle;
          }
        case Command =>
          if 0x30 <= b <= 0x39 && |command| < 4 {
            command := command + [b];
          } else if b == SEMICOLON {
            if command == [SEVEN] {
              state := Payload;
              payload := [];
            } else {
              state := Idle;
            }
          } else if b == ESC {
            state := Esc;
          } else {
            state := Idle;
          }
        case Payload =>
          if b == BEL {
            state := Idle;
            var taken := payload;
            payload := [];
            path := ParseFileUrl(taken);
          } else if b == ESC {
            state := PayloadEsc;
          } else if MAX_PAYLOAD <= |payload| {
            payload := [];
            state := Idle;
          } else {
            payload := payload + [b];
          }
        case PayloadEsc =>
          if b == BACKSLASH {
            state := Idle;
            var taken := payload;
            payload := [];
            path := ParseFileUrl(taken);
          } else if b == BRACKET {
            payload := [];
            state := Command;
            command := [];
          } else {
            payload := [];
            state := Idle;
          }
      }
    }
  }

  // ---- what the scanner promises ---------------------------------------------------

  /** The chunking of the stream does not matter. */
  lemma {:induction false} FeedConcat(s: Scan, a: Bytes, b: Bytes)
    ensures var (s1, p1) := FeedOf(s, a);
            var (s2, p2) := FeedOf(s1, b);
            FeedOf(s, a + b) == (s2, p1 + p2)
  {
    if b == [] {
      assert a + b == a;
      assert FeedOf(s, a).1 + [] == FeedOf(s, a).1;
    } else {
      var init := b[..|b| - 1];
      FeedConcat(s, a, init);
      assert (a + b)[..|a + b| - 1] == a + init;
      var (s1, p1) := FeedOf(s, a);
      var (s2, p2) := FeedOf(s1, init);
      var path := StepOf(s2, b[|b| - 1]).1;
      assert path.Some? ==> (p1 + p2) + [path.value] == p1 + (p2 + [path.value]);
    }
  }

  /** Neither buffer outgrows its cap, whatever is fed. */
  lemma {:induction false} FeedBounded(s: Scan, bytes: Bytes)
    requires s.Bounded()
    ensures FeedOf(s, bytes).0.Bounded()
  {
    if bytes != [] {
      FeedBounded(s, bytes[..|bytes| - 1]);
    }
  }

  /** Neither ESC nor BEL. */
  predicate Plain(bytes: Bytes) { 0x1B !in bytes && 0x07 !in bytes }

  lemma {:induction false} FeedIdle(s: Scan, bytes: Bytes)
    requires s.state == Idle && ESC !in bytes
    ensures FeedOf(s, bytes) == (s, [])
  {
    if bytes != [] {
      FeedIdle(s, bytes[..|bytes| - 1]);
    }
  }

  /** A payload is collected up to the cap; one byte more and it is dropped. */
  lemma {:induction false} FeedPayload(s: Scan, bytes: Bytes)
    requires s.state == Payload && s.payload == [] && Plain(bytes)
    ensures FeedOf(s, bytes) ==
      (if |bytes| <= MAX_PAYLOAD then s.(payload := bytes) else s.(state := Idle), [])
  {
    if bytes != [] {
      var init := bytes[..|bytes| - 1];
      FeedPayload(s, init);
      assert bytes == init + [bytes[|bytes| - 1]];
    }
  }

  lemma FeedOne(s: Scan, b: byte)
    ensures FeedOf(s, [b]) == (StepOf(s, b).0, Report([], StepOf(s, b).1))
  {
    assert [b][..0] == [];
    assert FeedOf(s, []) == (s, []);
  }

  lemma FeedTwo(s: Scan, a: byte, b: byte)
    ensures var (s1, p1) := StepOf(s, a);
            var (s2, p2) := StepOf(s1, b);
            FeedOf(s, [a, b]) == (s2, Report(Report([], p1), p2))
  {
    FeedOne(s, a);
    assert [a, b][..1] == [a];
  }

  /** ESC ] 7 ; */
  const OSC7_START: Bytes := [0x1B, 0x5D, 0x37, 0x3B]

  lemma FeedIntroducer(s: Scan)
    ensures var (s', paths) := FeedOf(s, [ESC, BRACKET]);
            paths == [] && if s.state == PayloadEsc then s'.state == Idle else s'.state == Command && s'.command == []
  {
    FeedTwo(s, ESC, BRACKET);
  }

  lemma FeedSeven(s: Scan)
    requires s.state == Idle || (s.state == Command && s.command == [])
    ensures var (s', paths) := FeedOf(s, [SEVEN, SEMICOLON]);
            paths == [] && if s.state == Idle then s'.state == Idle else s'.state == Payload && s'.payload == []
  {
    FeedTwo(s, SEVEN, SEMICOLON);
    assert [] + [SEVEN] == [SEVEN];
  }

  lemma FeedStart(s: Scan)
    ensures var (s', paths) := FeedOf(s, OSC7_START);
            paths == [] && if s.state == PayloadEsc then s'.state == Idle else s'.state == Payload && s'.payload == []
  {
    FeedIntroducer(s);
    FeedSeven(FeedOf(s, [ESC, BRACKET]).0);
    FeedConcat(s, [ESC, BRACKET], [SEVEN, SEMICOLON]);
    assert OSC7_START == [ESC, BRACKET] + [SEVEN, SEMICOLON];
  }

  /** BEL, or ESC and a backslash. */
  predicate Terminator(t: Bytes) { t == [0x07] || t == [0x1B, 0x5C] }

  lemma FeedTerminator(s: Scan, t: Bytes)
    requires Terminator(t) && (s.state == Payload || s.state == Idle)
    ensures var (s', paths) := FeedOf(s, t);
            s'.state == Idle && paths == if s.state == Payload then Report([], ParseFileUrl(s.payload)) else []
  {
    if t == [BEL] {
      FeedOne(s, BEL);
    } else {
      FeedTwo(s, ESC, BACKSLASH);
    }
  }

  /**
   * Self-synchronisation. Whatever was fed before, a whole report leaves the scanner idle,
   * and it is reported exactly when the scanner was not between an ESC and what follows it
   * inside a payload, and the payload fits.
   */
  lemma ReportSynchronises(s: Scan, payload: Bytes, t: Bytes)
    requires Plain(payload) && Terminator(t)
    ensures var (s', paths) := FeedOf(s, OSC7_START + payload + t);
      && s'.state == Idle
      && paths == if s.state != PayloadEsc && |payload| <= MAX_PAYLOAD then Report([], ParseFileUrl(payload)) else []
  {
    FeedConcat(s, OSC7_START + payload, t);
    FeedConcat(s, OSC7_START, payload);
    FeedStart(s);
    var s1 := FeedOf(s, OSC7_START).0;
    if s.state == PayloadEsc {
      FeedIdle(s1, payload);
    } else {
      FeedPayload(s1, payload);
    }
    FeedTerminator(FeedOf(s1, payload).0, t);
  }

  const UPPER := "0123456789ABCDEF"
  const LOWER := "0123456789abcdef"

  /** The byte is the hexadecimal digit for n. */
  predicate IsHex(b: byte, n: nat) {
    n < 16 && (b == UPPER[n] as int || b == LOWER[n] as int)
  }

  /** A percent sign and the two digits of b. */
  predicate IsEscape(code: Bytes, b: byte) {
    3 <= |code| && code[0] == '%' as int && IsHex(code[1], b / 16) && IsHex(code[2], b % 16)
  }

  lemma HexDigitIff(b: byte, n: nat)
    ensures HexDigit(b) == Some(n) <==> IsHex(b, n)
  {
    if n < 10 {
      assert UPPER[n] as int == LOWER[n] as int == 0x30 + n;
    } else if n < 16 {
      assert UPPER[n] as int == 0x37 + n && LOWER[n] as int == 0x57 + n;
    }
  }

  lemma Nibbles(h: nat, l: nat, b: nat)
    requires h < 16 && l < 16
    ensures h * 16 + l == b <==> h == b / 16 && l == b % 16
  {
  }

  lemma EscapedIff(code: Bytes, b: byte)
    ensures Escaped(code) == Some(b) <==> IsEscape(code, b)
  {
    if 3 <= |code| && code[0] == PERCENT {
      HexDigitIff(code[1], b / 16);
      HexDigitIff(code[2], b % 16);
      if Escaped(code).Some? {
        Nibbles(HexDigit(code[1]).value, HexDigit(code[2]).value, b);
      } else {
        Nibbles(b / 16, b % 16, b);
      }
    }
  }

  /** The digits of a byte after a percent sign stand for that byte; any other byte, a percent sign too, for itself. */
  lemma DecodeReads(code: Bytes, b: byte)
    requires code != []
    ensures IsEscape(code, b) ==> Decode(code) == [b] + Decode(code[3..])
    ensures (forall e: byte :: !IsEscape(code, e)) ==> Decode(code) == [code[0]] + Decode(code[1..])
  {
    EscapedIff(code, b);
    if Escaped(code).Some? {
      EscapedIff(code, Escaped(code).value);
    }
  }

  /** code spells path with any choice of bytes escaped, as long as every % is. */
  ghost predicate Encodes(code: Bytes, path: Bytes) {
    if path == [] then code == []
    else
      || (code != [] && code[0] == path[0] != '%' as int && Encodes(code[1..], path[1..]))
      || (IsEscape(code, path[0]) && Encodes(code[3..], path[1..]))
  }

  /** Decoding undoes every such encoding. */
  lemma {:induction false} DecodeEncoded(code: Bytes, path: Bytes)
    requires Encodes(code, path)
    ensures Decode(code) == path
  {
    if path != [] {
      EscapedIff(code, path[0]);
      if code[0] == path[0] != PERCENT && Encodes(code[1..], path[1..]) {
        DecodeEncoded(code[1..], path[1..]);
      } else {
        DecodeEncoded(code[3..], path[1..]);
      }
    }
  }

  lemma {:induction false} FindAfter(s: Bytes, t: Bytes, b: byte)
    requires b !in s && t != [] && t[0] == b
    ensures FindByte(s + t, b) == Some(|s|)
  {
    if s == [] {
      assert s + t == t;
    } else {
      assert (s + t)[1..] == s[1..] + t;
      FindAfter(s[1..], t, b);
    }
  }

  lemma AfterScheme(host: Bytes, code: Bytes)
    ensures FILE_SCHEME <= FILE_SCHEME + host + code && (FILE_SCHEME + host + code)[|FILE_SCHEME|..] == host + code
  {
    assert FILE_SCHEME + host + code == FILE_SCHEME + (host + code);
  }

  lemma SlashStays(code: Bytes)
    requires code != [] && code[0] == SLASH
    ensures Decode(code) != [] && Decode(code)[0] == SLASH
  {
    assert SLASH != PERCENT;
  }

  /** file:// and a host without slashes, then what starts with the first slash. */
  ghost predicate IsFileUrl(text: Bytes, host: Bytes, code: Bytes) {
    && text == [0x66, 0x69, 0x6C, 0x65, 0x3A, 0x2F, 0x2F] + host + code
    && 0x2F !in host && code != [] && code[0] == 0x2F
  }

  /** Of any file URL the path is what is decoded from the first slash on, made valid text. */
  lemma ParseReads(payload: Bytes, host: Bytes, code: Bytes)
    requires IsFileUrl(Lossy(payload), host, code)
    ensures ParseFileUrl(payload) == Some(Lossy(Decode(code)))
  {
    AfterScheme(host, code);
    FindAfter(host, code, SLASH);
    assert (host + code)[|host|..] == code;
    SlashStays(code);
    SlashLeads(Decode(code));
  }

  lemma SlashLeads(s: Bytes)
    requires s != [] && s[0] == SLASH
    ensures Lossy(s) != [] && Lossy(s)[0] == SLASH
  {
    assert s[..1] == [SLASH] && HeadChar(s) == 1;
  }

  /** A file URL names the path it encodes, whatever the host. */
  lemma ParseEncoded(text: Bytes, host: Bytes, code: Bytes, path: Bytes)
    requires IsFileUrl(text, host, code) && Encodes(code, path) && IsUtf8(path) && IsUtf8(text)
    ensures ParseFileUrl(text) == Some(path)
  {
    LossyKeepsUtf8(text);
    ParseReads(text, host, code);
    DecodeEncoded(code, path);
    LossyKeepsUtf8(path);
  }

  lemma Rejoined(text: Bytes, start: Bytes, at: nat)
    requires start <= text && at <= |text| - |start|
    ensures text == start + text[|start|..][..at] + text[|start|..][at..]
  {
  }

  ghost predicate SomeFileUrl(text: Bytes) {
    exists host: Bytes, code: Bytes :: IsFileUrl(text, host, code)
  }

  lemma FileUrlIff(text: Bytes)
    ensures SomeFileUrl(text) <==> FILE_SCHEME <= text && FindByte(text[|FILE_SCHEME|..], SLASH).Some?
  {
    if SomeFileUrl(text) {
      var host: Bytes, code: Bytes :| IsFileUrl(text, host, code);
      AfterScheme(host, code);
      FindAfter(host, code, SLASH);
    }
    if FILE_SCHEME <= text && FindByte(text[|FILE_SCHEME|..], SLASH).Some? {
      var rest := text[|FILE_SCHEME|..];
      var at := FindByte(rest, SLASH).value;
      Rejoined(text, FILE_SCHEME, at);
      assert IsFileUrl(text, rest[..at], rest[at..]);
    }
  }

  /** What is accepted is exactly the file URLs: the last check of the parser never fails. */
  lemma ParseFails(payload: Bytes)
    ensures ParseFileUrl(payload).None? <==> !SomeFileUrl(Lossy(payload))
  {
    FileUrlIff(Lossy(payload));
    if SomeFileUrl(Lossy(payload)) {
      var host: Bytes, code: Bytes :| IsFileUrl(Lossy(payload), host, code);
      ParseReads(payload, host, code);
    }
  }

  /**
   * A directory report is picked up exactly: from every state but one, a report whose payload
   * fits yields the path that was encoded, once.
   */
  lemma ReportedPath(s: Scan, text: Bytes, host: Bytes, code: Bytes, path: Bytes, t: Bytes)
    requires IsFileUrl(text, host, code) && Encodes(code, path) && IsUtf8(path)
    requires Plain(text) && IsUtf8(text) && Terminator(t)
    ensures var (s', paths) := FeedOf(s, OSC7_START + text + t);
            && s'.state == Idle
            && (paths == [path] <==> s.state != PayloadEsc && |text| <= 4096)
  {
    ReportSynchronises(s, text, t);
    ParseEncoded(text, host, code, path);
  }
}
