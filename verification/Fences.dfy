/** Code fences in text that is still arriving (src/web/src/chat/fences.ts). */
module Fences {
  import opened Lines
  import opened Wrappers

  // ---- one line -----------------------------------------------------------------------------

  /** Characters that end a line for a regular expression; a carriage return is one of them. */
  predicate IsTerminator(c: char) {
    c == '\n' || c == '\r' || c == '\U{2028}' || c == '\U{2029}'
  }

  predicate IsSpace(c: char) {
    || IsTerminator(c) || c == '\t' || c == '\U{B}' || c == '\U{C}' || c == ' ' || c == '\U{A0}' || c == '\U{FEFF}'
    || c == '\U{1680}' || '\U{2000}' <= c <= '\U{200A}' || c == '\U{202F}' || c == '\U{205F}' || c == '\U{3000}'
  }

  /** The line terminators of section 12.3 of ECMA-262. */
  const TERMINATORS := "\n\r\U{2028}\U{2029}"

  /** The white space of section 12.2 of ECMA-262. */
  const WHITE_SPACE := "\t\U{B}\U{C} \U{A0}\U{FEFF}\U{1680}\U{2000}\U{2001}\U{2002}\U{2003}\U{2004}\U{2005}" +
    "\U{2006}\U{2007}\U{2008}\U{2009}\U{200A}\U{202F}\U{205F}\U{3000}"

  /** The classes of characters are the tables of the standard. */
  lemma ClassesAreTables(c: char)
    ensures IsTerminator(c) <==> c in TERMINATORS
    ensures IsSpace(c) <==> c in TERMINATORS || c in WHITE_SPACE
  {
  }

  predicate Blank(s: string) {
    forall c | c in s :: IsSpace(c)
  }

  function Trim(s: string): string {
    if s != "" && IsSpace(s[0]) then Trim(s[1..])
    else if s != "" && IsSpace(s[|s| - 1]) then Trim(s[..|s| - 1])
    else s
  }

  /** Trimming cuts off blanks at both ends, all of them, and nothing else. */
  lemma {:induction false} TrimCutsBlanks(s: string) returns (before: string, after: string)
    ensures s == before + (Trim(s) + after) && Blank(before) && Blank(after)
    ensures Trim(s) != "" ==> !IsSpace(Trim(s)[0]) && !IsSpace(Trim(s)[|Trim(s)| - 1])
    ensures Trim(s) == "" <==> Blank(s)
    decreases |s|
  {
    before, after := "", "";
    if s != "" && IsSpace(s[0]) {
      before, after := TrimCutsBlanks(s[1..]);
      OneBefore(s, before, Trim(s[1..]) + after);
      before := [s[0]] + before;
    } else if s != "" && IsSpace(s[|s| - 1]) {
      before, after := TrimCutsBlanks(s[..|s| - 1]);
      OneAfter(s, before, Trim(s[..|s| - 1]), after);
      after := after + [s[|s| - 1]];
    }
  }

  lemma OneBefore(s: string, before: string, rest: string)
    requires s != "" && s[1..] == before + rest
    ensures s == ([s[0]] + before) + rest
  {
  }

  lemma OneAfter(s: string, before: string, middle: string, after: string)
    requires s != "" && s[..|s| - 1] == before + (middle + after)
    ensures s == before + (middle + (after + [s[|s| - 1]]))
  {
  }

  /** How often c stands in a row from an index on. */
  function Run(s: string, from: nat, c: char): (n: nat)
    requires from <= |s|
    ensures from + n <= |s|
    ensures forall k | from <= k < from + n :: s[k] == c
    ensures from + n < |s| ==> s[from + n] != c
    decreases |s| - from
  {
    if from == |s| || s[from] != c then 0 else 1 + Run(s, from + 1, c)
  }

  predicate OneLine(s: string) {
    forall c | c in s :: !IsTerminator(c)
  }

  predicate IsFenceChar(c: char) { c == '`' || c == '~' }

  datatype FenceParts = FenceParts(marker: string, rest: string)

  /** The fence on a line: at most 3 spaces, 3 or more of one fence character, and what follows. */
  function FenceLine(line: string): Option<FenceParts> {
    var indent := Run(line, 0, ' ');
    if 3 < indent || indent == |line| || !IsFenceChar(line[indent]) then None
    else
      var length := Run(line, indent, line[indent]);
      var rest := line[indent + length..];
      if length < 3 || !OneLine(rest) then None
      else Some(FenceParts(line[indent..indent + length], rest))
  }

  /** The pattern ^ {0,3}(`{3,}|~{3,})(.*)$ with its greedy marker. */
  ghost predicate Matches(line: string, indent: nat, parts: FenceParts) {
    && indent <= 3 && 3 <= |parts.marker|
    && |line| == indent + |parts.marker| + |parts.rest|
    && (forall k | 0 <= k < indent :: line[k] == ' ')
    && line[indent..indent + |parts.marker|] == parts.marker && line[indent + |parts.marker|..] == parts.rest
    && IsFenceChar(parts.marker[0]) && (forall k | 0 <= k < |parts.marker| :: parts.marker[k] == parts.marker[0])
    && (parts.rest != "" ==> parts.rest[0] != parts.marker[0])
    && OneLine(parts.rest)
  }

  lemma RunIs(s: string, from: nat, c: char, n: nat)
    requires from + n <= |s| && (forall k | from <= k < from + n :: s[k] == c) && (from + n < |s| ==> s[from + n] != c)
    ensures Run(s, from, c) == n
  {
  }

  lemma FenceLineIsPattern(line: string, parts: FenceParts)
    ensures FenceLine(line) == Some(parts) <==> exists indent: nat :: Matches(line, indent, parts)
  {
    if FenceLine(line) == Some(parts) {
      assert Matches(line, Run(line, 0, ' '), parts);
    }
    if indent: nat :| Matches(line, indent, parts) {
      PatternIsFenceLine(line, indent, parts);
    }
  }

  lemma PatternIsFenceLine(line: string, indent: nat, parts: FenceParts)
    requires Matches(line, indent, parts)
    ensures FenceLine(line) == Some(parts)
  {
    PatternRuns(line, indent, parts);
  }

  lemma PatternRuns(line: string, indent: nat, parts: FenceParts)
    requires Matches(line, indent, parts)
    ensures Run(line, 0, ' ') == indent && line[indent] == parts.marker[0]
    ensures Run(line, indent, line[indent]) == |parts.marker|
  {
    var marker := parts.marker;
    forall k | indent <= k < indent + |marker| ensures line[k] == marker[0] {
      assert line[k] == line[indent..indent + |marker|][k - indent];
    }
    assert parts.rest != "" ==> line[indent + |marker|] == parts.rest[0];
    RunIs(line, 0, ' ', indent);
    RunIs(line, indent, marker[0], |marker|);
  }

  /** A line that keeps its carriage return is never a fence. */
  lemma CarriageReturnHidesFence(line: string)
    ensures FenceLine(line + "\r").None?
  {
    var whole := line + "\r";
    var indent := Run(whole, 0, ' ');
    if indent < |whole| && IsFenceChar(whole[indent]) {
      var length := Run(whole, indent, whole[indent]);
      var rest := whole[indent + length..];
      assert whole[|whole| - 1] == '\r' && indent + length < |whole|;
      assert rest[|rest| - 1] == '\r' && IsTerminator('\r');
    }
  }

  // ---- a text ---------------------------------------------------------------------------------

  datatype OpenFence = OpenFence(start: nat, info: string, marker: string)

  predicate Opens(line: string) {
    FenceLine(line).Some? &&
    var parts := FenceLine(line).value;
    !(parts.marker[0] == '`' && '`' in parts.rest)
  }

  predicate Closes(open: OpenFence, line: string)
    requires open.marker != ""
  {
    FenceLine(line).Some? &&
    var parts := FenceLine(line).value;
    parts.marker[0] == open.marker[0] && |open.marker| <= |parts.marker| && Blank(parts.rest)
  }

  /** length times the character c after at most 3 spaces, and no line terminator after that. */
  ghost predicate FencedBy(line: string, c: char, indent: nat, length: nat) {
    && indent <= 3 && indent + length <= |line| && (c == '`' || c == '~')
    && (forall k | 0 <= k < indent :: line[k] == ' ')
    && (forall k | indent <= k < indent + length :: line[k] == c)
    && forall k | indent + length <= k < |line| :: !IsTerminator(line[k])
  }

  /** Three or more fence characters open a fence, unless they are backticks and another follows them. */
  ghost predicate OpensBy(line: string, indent: nat, length: nat) {
    && 3 <= length && indent < |line| && FencedBy(line, line[indent], indent, length)
    && (line[indent] == '`' ==> forall k | indent + length <= k < |line| :: line[k] != '`')
  }

  /** At least as many of the same character as opened the fence, and nothing but blanks after them. */
  ghost predicate ClosesBy(open: OpenFence, line: string, indent: nat, length: nat)
    requires open.marker != ""
  {
    && 3 <= length && |open.marker| <= length && FencedBy(line, open.marker[0], indent, length)
    && forall k | indent + length <= k < |line| :: IsSpace(line[k])
  }

  /** The character c, length times and not once more. */
  lemma FenceParsed(line: string, c: char, indent: nat, length: nat)
    requires 3 <= length && FencedBy(line, c, indent, length)
    requires indent + length < |line| ==> line[indent + length] != c
    ensures FenceLine(line) == Some(FenceParts(line[indent..indent + length], line[indent + length..]))
  {
    RunIs(line, 0, ' ', indent);
    RunIs(line, indent, c, length);
  }

  lemma ParsedFence(line: string) returns (indent: nat, length: nat)
    requires FenceLine(line).Some?
    ensures 3 <= length && indent < |line| && FencedBy(line, line[indent], indent, length)
    ensures FenceLine(line) == Some(FenceParts(line[indent..indent + length], line[indent + length..]))
  {
    indent := Run(line, 0, ' ');
    length := Run(line, indent, line[indent]);
    var rest := line[indent + length..];
    forall k | indent + length <= k < |line|
      ensures !IsTerminator(line[k])
    {
      assert line[k] == rest[k - indent - length] && line[k] in rest;
    }
  }

  lemma ClosesIff(open: OpenFence, line: string)
    requires open.marker != ""
    ensures Closes(open, line) <==> exists indent: nat, length: nat :: ClosesBy(open, line, indent, length)
  {
    if Closes(open, line) {
      var indent, length := ParsedFence(line);
      var rest := line[indent + length..];
      forall k | indent + length <= k < |line|
        ensures IsSpace(line[k])
      {
        assert line[k] == rest[k - indent - length] && line[k] in rest;
      }
      assert ClosesBy(open, line, indent, length);
    }
    if indent: nat, length: nat :| ClosesBy(open, line, indent, length) {
      FenceParsed(line, open.marker[0], indent, length);
    }
  }

  lemma OpensIff(line: string)
    ensures Opens(line) <==> exists indent: nat, length: nat :: OpensBy(line, indent, length)
  {
    if Opens(line) {
      var indent, length := ParsedFence(line);
      var rest := line[indent + length..];
      forall k | indent + length <= k < |line|
        ensures line[indent] == '`' ==> line[k] != '`'
      {
        assert line[k] == rest[k - indent - length] && line[k] in rest;
      }
      assert OpensBy(line, indent, length);
    }
    if indent: nat, length: nat :| OpensBy(line, indent, length) {
      var c := line[indent];
      var more := Run(line, indent + length, c);
      FenceParsed(line, c, indent, length + more);
    }
  }

  function Step(open: Option<OpenFence>, line: string, start: nat): (after: Option<OpenFence>)
    requires open.Some? ==> open.value.marker != ""
    ensures after.Some? ==> after.value.marker != ""
  {
    if open.None? then
      if Opens(line) then
        Some(OpenFence(start, Trim(FenceLine(line).value.rest), FenceLine(line).value.marker))
      else None
    else if Closes(open.value, line) then None
    else open
  }

  /** The fence left open after some lines. */
  function After(lines: seq<string>): (open: Option<OpenFence>)
    ensures open.Some? ==> open.value.marker != ""
  {
    if lines == [] then None
    else Step(After(lines[..|lines| - 1]), lines[|lines| - 1], |Ended(lines[..|lines| - 1])|)
  }

  function FenceOf(text: string): Option<OpenFence> {
    After(Split(text))
  }

  method FindOpenFence(text: string) returns (open: Option<OpenFence>)
    ensures open == FenceOf(text)
  {
    var lines := Split(text);
    var offset := 0;
    open := None;
    for i := 0 to |lines|
      invariant offset == |Ended(lines[..i])| && open == After(lines[..i])
    {
      assert lines[..i + 1][..i] == lines[..i];
      var lineStart := offset;
      offset := offset + |lines[i]| + 1;
      var match' := FenceLine(lines[i]);
      if match'.Some? {
        var marker, rest := match'.value.marker, match'.value.rest;
        if open.None? {
          if !(marker[0] == '`' && '`' in rest) {
            open := Some(OpenFence(lineStart, Trim(rest), marker));
          }
        } else if marker[0] == open.value.marker[0] && |open.value.marker| <= |marker| && Blank(rest) {
          open := None;
        }
      }
    }
    assert lines[..|lines|] == lines;
  }

  // ---- the part that is safe to render ------------------------------------------------------------

  /** First index of a line break from an index on. */
  function IndexOfBreak(text: string, from: nat): (i: Option<nat>)
    requires from <= |text|
    ensures i.Some? ==> from <= i.value < |text| && text[i.value] == '\n' && '\n' !in text[from..i.value]
    ensures i.None? ==> '\n' !in text[from..]
    decreases |text| - from
  {
    if from == |text| then None
    else if text[from] == '\n' then Some(from)
    else
      var i := IndexOfBreak(text, from + 1);
      assert text[from..] == [text[from]] + text[from + 1..];
      assert i.Some? ==> text[from..i.value] == [text[from]] + text[from + 1..i.value];
      i
  }

  lemma AfterSnoc(lines: seq<string>, line: string)
    ensures After(lines + [line]) == Step(After(lines), line, |Ended(lines)|)
  {
    assert (lines + [line])[..|lines|] == lines;
  }

  /** Line k opened the fence that is open now: all were closed before it and no line since closes it. */
  ghost predicate OpenedBy(lines: seq<string>, f: OpenFence, k: nat)
    requires f.marker != ""
  {
    && k < |lines| && After(lines[..k]).None? && f.start == |Ended(lines[..k])|
    && Opens(lines[k]) && f.marker == FenceLine(lines[k]).value.marker && f.info == Trim(FenceLine(lines[k]).value.rest)
    && forall j | k < j < |lines| :: !Closes(f, lines[j])
  }

  lemma OpenedByMore(init: seq<string>, line: string, f: OpenFence, k: nat)
    requires f.marker != "" && OpenedBy(init, f, k) && !Closes(f, line)
    ensures OpenedBy(init + [line], f, k)
  {
    assert (init + [line])[..k] == init[..k];
  }

  lemma {:induction false} OpenedAt(lines: seq<string>) returns (k: nat)
    requires After(lines).Some?
    ensures OpenedBy(lines, After(lines).value, k)
  {
    var init := lines[..|lines| - 1];
    if After(init).None? {
      k := |init|;
    } else {
      k := OpenedAt(init);
      Cut(lines, |init|);
      OpenedByMore(init, lines[|init|], After(init).value, k);
    }
  }

  /** A text around one of its lines before the last, and the lines of what follows it. */
  lemma TextAround(text: string, k: nat) returns (code: string)
    requires k < |Split(text)| - 1
    ensures text == Ended(Split(text)[..k]) + (Split(text)[k] + ("\n" + code)) && Split(code) == Split(text)[k + 1..]
  {
    var lines := Init(Split(text));
    var last := Last(Split(text));
    JoinSplit(text);
    SplitIsEnded(text);
    InitSlices(Split(text), k);
    code := Ended(lines[k + 1..]) + last;
    SplitOfEnded(lines[k + 1..], last);
    Cut(lines, k);
    EndedConcat(lines[..k] + [lines[k]], lines[k + 1..]);
    EndedSnoc(lines[..k], lines[k]);
    Regroup(Ended(lines[..k]), lines[k], Ended(lines[k + 1..]), last);
  }

  lemma InitSlices<T>(s: seq<T>, k: nat)
    requires k < |s| - 1
    ensures s[..|s| - 1][..k] == s[..k] && s[..|s| - 1][k + 1..] + [s[|s| - 1]] == s[k + 1..]
  {
  }

  lemma Regroup(before: string, line: string, after: string, last: string)
    ensures ((before + (line + "\n")) + after) + last == before + (line + ("\n" + (after + last)))
  {
  }

  datatype Tail = Tail(open: OpenFence, code: string)

  /** stable, the opener's line and the code make up the text; the line opens the fence and no code line closes it. */
  ghost predicate Rebuilds(text: string, stable: string, opener: string, tail: Tail) {
    && '\n' !in opener && Opens(opener)
    && tail.open == OpenFence(|stable|, Trim(FenceLine(opener).value.rest), FenceLine(opener).value.marker)
    && (|| (text == stable + opener && tail.code == "")
        || text == stable + (opener + ("\n" + tail.code)))
    && forall line | line in Split(tail.code) :: !Closes(tail.open, line)
  }

  lemma {:induction false} FirstBreak(text: string, from: nat, at: nat)
    requires from <= at < |text| && text[at] == '\n' && forall j | from <= j < at :: text[j] != '\n'
    ensures IndexOfBreak(text, from) == Some(at)
    decreases at - from
  {
    if from < at {
      FirstBreak(text, from + 1, at);
    }
  }

  /** The code as the program cuts it out of the text. */
  function CodeFrom(text: string, start: nat): string
    requires start <= |text|
  {
    var afterOpener := IndexOfBreak(text, start);
    if afterOpener.None? then "" else text[afterOpener.value + 1..]
  }

  /** Looking for the next line break finds the end of the opener's line. */
  lemma CodeAfterOpener(text: string, stable: string, opener: string, code: Option<string>)
    requires '\n' !in opener && text == stable + if code.Some? then opener + ("\n" + code.value) else opener
    ensures text[..|stable|] == stable
    ensures CodeFrom(text, |stable|) == if code.Some? then code.value else ""
  {
    assert forall j | |stable| <= j < |stable| + |opener| :: text[j] == opener[j - |stable|];
    if code.Some? {
      FirstBreak(text, |stable|, |stable| + |opener|);
    }
  }

  lemma BalancedBefore(lines: seq<string>, k: nat)
    requires k <= |lines| && Unbroken(lines[..k]) && After(lines[..k]).None?
    ensures FenceOf(Ended(lines[..k])).None?
  {
    SplitOfEnded(lines[..k], "");
    assert Ended(lines[..k]) + "" == Ended(lines[..k]);
    AfterSnoc(lines[..k], "");
  }

  lemma CodeKeepsOpen(lines: seq<string>, f: OpenFence, k: nat, code: string)
    requires f.marker != "" && OpenedBy(lines, f, k) && Split(code) == lines[k + 1..]
    ensures forall line | line in Split(code) :: !Closes(f, line)
  {
    forall line | line in Split(code) ensures !Closes(f, line) {
      var j :| 0 <= j < |Split(code)| && Split(code)[j] == line;
      assert lines[k + 1 + j] == line;
    }
  }

  lemma NoCodeKeepsOpen(f: OpenFence)
    requires f.marker != ""
    ensures forall line | line in Split("") :: !Closes(f, line)
  {
    assert Split("") == [""];
  }

  /** The text around the line that opened the fence, and what comes after that line, if anything does. */
  lemma AfterOpener(text: string, f: OpenFence, k: nat) returns (code: Option<string>)
    requires f.marker != "" && OpenedBy(Split(text), f, k)
    ensures text == Ended(Split(text)[..k]) +
      if code.Some? then Split(text)[k] + ("\n" + code.value) else Split(text)[k]
    ensures forall line | line in Split(if code.Some? then code.value else "") :: !Closes(f, line)
  {
    if k == |Split(text)| - 1 {
      SplitIsEnded(text);
      code := None;
      NoCodeKeepsOpen(f);
    } else {
      var after := TextAround(text, k);
      code := Some(after);
      CodeKeepsOpen(Split(text), f, k, after);
    }
  }

  /** What comes before an open fence, the line that opens it, and what comes after that line, if anything does. */
  lemma OpenText(text: string) returns (stable: string, opener: string, code: Option<string>)
    requires FenceOf(text).Some?
    ensures text == stable + if code.Some? then opener + ("\n" + code.value) else opener
    ensures FenceOf(stable).None? && FenceOf(text).value.start == |stable| && '\n' !in opener
    ensures Rebuilds(text, stable, opener, Tail(FenceOf(text).value, if code.Some? then code.value else ""))
  {
    var lines := Split(text);
    JoinSplit(text);
    var k := OpenedAt(lines);
    BalancedBefore(lines, k);
    stable, opener := Ended(lines[..k]), lines[k];
    code := AfterOpener(text, FenceOf(text).value, k);
  }

  lemma StableIs(text: string, stable: string)
    requires FenceOf(text).Some? && FenceOf(text).value.start == |stable| <= |text| && text[..|stable|] == stable
    ensures Stable(text) == stable
  {
  }

  lemma TailIsCode(text: string) returns (opener: string)
    requires FenceOf(text).Some?
    ensures FenceOf(text).value.start <= |text|
    ensures var f := FenceOf(text).value;
      Rebuilds(text, Stable(text), opener, Tail(f, CodeFrom(text, f.start)))
    ensures FenceOf(Stable(text)).None? && Stable(text) == text[..FenceOf(text).value.start]
  {
    var stable, code;
    stable, opener, code := OpenText(text);
    CodeAfterOpener(text, stable, opener, code);
    StableIs(text, stable);
  }

  /**
   * A text with no fence open is stable as a whole; otherwise the part before the open fence is, and it
   * is balanced.
   */
  method SplitStreamingTail(text: string) returns (stable: string, tail: Option<Tail>)
    ensures FenceOf(stable).None? && stable == Stable(text)
    ensures FenceOf(text).None? ==> stable == text && tail.None?
    ensures FenceOf(text).Some? ==>
      && tail.Some? && tail.value.open == FenceOf(text).value
      && exists opener :: Rebuilds(text, stable, opener, tail.value)
  {
    var open := FindOpenFence(text);
    if open.None? {
      return text, None;
    }
    ghost var opener := TailIsCode(text);
    stable := text[..open.value.start];
    var afterOpener := IndexOfBreak(text, open.value.start);
    var code := if afterOpener.None? then "" else text[afterOpener.value + 1..];
    tail := Some(Tail(open.value, code));
    assert Rebuilds(text, stable, opener, tail.value);
  }

  // ---- growth ---------------------------------------------------------------------------------------

  /** Where the stable part of a text ends. */
  function StableEnd(text: string): (n: nat)
    ensures n <= |text|
  {
    if FenceOf(text).Some? && FenceOf(text).value.start <= |text| then FenceOf(text).value.start else |text|
  }

  /** The part of a text that is safe to render. */
  function Stable(text: string): string {
    text[..StableEnd(text)]
  }

  /** A line, all of it spaces and fewer than 3 fence characters, that may yet become an opener. */
  predicate Undecided(line: string) {
    var indent := Run(line, 0, ' ');
    && indent <= 3
    && (indent == |line| || (IsFenceChar(line[indent]) && Run(line, indent, line[indent]) <= 2 &&
                             indent + Run(line, indent, line[indent]) == |line|))
  }

  /** Whether what is stable now stays so: the line in progress neither may become an opener nor closes a fence. */
  predicate Settled(text: string) {
    var before, line := After(Init(Split(text))), Last(Split(text));
    if before.Some? then !Closes(before.value, line) else line == "" || Opens(line) || !Undecided(line)
  }

  lemma RunAppend(s: string, more: string, from: nat, c: char)
    requires from <= |s|
    ensures from + Run(s, from, c) < |s| ==> Run(s + more, from, c) == Run(s, from, c)
    ensures from + Run(s, from, c) == |s| ==> Run(s, from, c) <= Run(s + more, from, c)
    decreases |s| - from
  {
    if from < |s| && s[from] == c {
      RunAppend(s, more, from + 1, c);
    }
  }

  /** What a line with a marker of some length at an indent opens. */
  lemma OpensAt(line: string, indent: nat, length: nat)
    requires indent < |line| && Run(line, 0, ' ') == indent && Run(line, indent, line[indent]) == length
    ensures var c, rest := line[indent], line[indent + length..];
      Opens(line) <==> indent <= 3 && IsFenceChar(c) && 3 <= length && OneLine(rest) && (c == '`' ==> '`' !in rest)
  {
    assert 3 <= length ==> line[indent..indent + length][0] == line[indent];
  }

  /** A line that goes on to open a fence opened one before or was undecided. */
  lemma OpenerGrew(line: string, more: string)
    requires Opens(line + more)
    ensures Opens(line) || Undecided(line)
  {
    RunAppend(line, more, 0, ' ');
    var indent := Run(line, 0, ' ');
    if indent < |line| {
      var c := line[indent];
      RunAppend(line, more, indent, c);
      var length := Run(line, indent, c);
      OpensAt(line, indent, length);
      OpensAt(line + more, indent, Run(line + more, indent, c));
      if indent + length < |line| {
        RestGrew(line, more, indent + length);
      }
    }
  }

  lemma RestGrew(line: string, more: string, at: nat)
    requires at <= |line|
    ensures OneLine((line + more)[at..]) ==> OneLine(line[at..])
    ensures '`' in line[at..] ==> '`' in (line + more)[at..]
  {
    assert (line + more)[at..] == line[at..] + more;
  }

  lemma LaterOne(lines: seq<string>, init: seq<string>, last: string)
    ensures var before, after := After(lines + init), After((lines + init) + [last]);
      after == before || after.None? || |Ended(lines)| <= after.value.start
  {
    AfterSnoc(lines + init, last);
    EndedConcat(lines, init);
  }

  /** Later lines leave the open fence, close it, or open one at or after them. */
  lemma {:induction false} Later(lines: seq<string>, more: seq<string>)
    ensures var open := After(lines + more);
      open == After(lines) || open.None? || |Ended(lines)| <= open.value.start
  {
    if more == [] {
      assert lines + more == lines;
    } else {
      var init, last := Init(more), Last(more);
      Later(lines, init);
      LaterOne(lines, init, last);
      assert lines + more == (lines + init) + [last];
    }
  }

  lemma {:induction false} StartWithin(lines: seq<string>)
    ensures After(lines).Some? ==> After(lines).value.start < |Ended(lines)|
  {
    if lines != [] {
      StartWithin(Init(lines));
      assert lines == Init(lines) + [Last(lines)];
      EndedSnoc(Init(lines), Last(lines));
    }
  }

  /** A text that goes on keeps its ended lines. */
  lemma GrownLines(text: string, more: string)
    ensures Split(text + more) == (Init(Split(text)) + [Last(Split(text)) + Split(more)[0]]) + Split(more)[1..]
    ensures |text| == |Ended(Init(Split(text)))| + |Last(Split(text))|
    ensures FenceOf(text) == Step(After(Init(Split(text))), Last(Split(text)), |Ended(Init(Split(text)))|)
  {
    SplitAppend(text, more);
    SplitIsEnded(text);
    var ended, line := Init(Split(text)), Last(Split(text));
    Regrouped(ended, line + Split(more)[0], Split(more)[1..]);
    Cut(Split(text), |ended|);
    AfterSnoc(ended, line);
  }

  lemma Regrouped<T>(a: seq<T>, x: T, b: seq<T>)
    ensures a + ([x] + b) == (a + [x]) + b
  {
  }

  /** From a settled text on, what is stable only grows. */
  lemma SettledGrows(text: string, more: string)
    requires Settled(text)
    ensures Stable(text) <= Stable(text + more)
  {
    var ended, line := Init(Split(text)), Last(Split(text));
    var first, rest := Split(more)[0], Split(more)[1..];
    GrownLines(text, more);
    AfterSnoc(ended, line + first);
    StartWithin(ended);
    Later(ended + [line + first], rest);
    EndedSnoc(ended, line + first);
    LaterLine(After(ended), line, first, |Ended(ended)|);
    StableByStart(text, text + more);
  }

  /** In a settled text the line in progress goes on without taking anything back. */
  lemma LaterLine(before: Option<OpenFence>, line: string, first: string, start: nat)
    requires before.Some? ==> before.value.marker != "" && before.value.start < start && !Closes(before.value, line)
    requires before.None? ==> line == "" || Opens(line) || !Undecided(line)
    ensures var now, later := Step(before, line, start), Step(before, line + first, start);
      && (now.Some? && later.Some? ==> now.value.start <= later.value.start)
      && (now.None? && later.Some? ==> line == "" && later.value.start == start)
      && (now.Some? ==> now.value.start <= start)
  {
    if before.None? && line != "" && Opens(line + first) {
      OpenerGrew(line, first);
    }
  }

  lemma StableByStart(text: string, grown: string)
    requires text <= grown
    ensures Stable(text) <= Stable(grown) <==> StableEnd(text) <= StableEnd(grown)
  {
    assert Stable(text) == text[..StableEnd(text)] == grown[..StableEnd(text)];
    assert Stable(grown) == grown[..StableEnd(grown)];
    assert |Stable(text)| == StableEnd(text) && |Stable(grown)| == StableEnd(grown);
  }

  /** Text with one more character no longer closes the fence that its last line closed. */
  lemma CloserShrinks(text: string)
    requires var before := After(Init(Split(text))); before.Some? && Closes(before.value, Last(Split(text)))
    ensures !(Stable(text) <= Stable(text + "x"))
  {
    StartWithin(Init(Split(text)));
    SpoiledCloser(After(Init(Split(text))).value, Last(Split(text)));
    GrownLines(text, "x");
    LineGrown(text, "x");
    StableByStart(text, text + "x");
  }

  /** Text whose last line may become an opener, once it does. */
  lemma OpenerShrinks(text: string, more: string)
    requires After(Init(Split(text))).None? && Undecided(Last(Split(text))) && Last(Split(text)) != ""
    requires more == Completion(Last(Split(text)))
    ensures !(Stable(text) <= Stable(text + more))
  {
    CompletedOpener(Last(Split(text)), more);
    GrownLines(text, more);
    LineGrown(text, more);
    StableByStart(text, text + more);
  }

  /** What turns an undecided line into an opener. */
  function Completion(line: string): string {
    var indent := Run(line, 0, ' ');
    if indent == |line| then "```" else [line[indent], line[indent], line[indent]]
  }

  /** Some continuation takes back part of what an unsettled text shows as stable. */
  lemma UnsettledShrinks(text: string) returns (more: string)
    requires !Settled(text)
    ensures !(Stable(text) <= Stable(text + more))
  {
    if After(Init(Split(text))).Some? {
      more := "x";
      CloserShrinks(text);
    } else {
      more := Completion(Last(Split(text)));
      OpenerShrinks(text, more);
    }
  }

  /** Text without a line break goes on with the last line. */
  lemma LineGrown(text: string, more: string)
    requires '\n' !in more
    ensures FenceOf(text + more) ==
      Step(After(Init(Split(text))), Last(Split(text)) + more, |Ended(Init(Split(text)))|)
  {
    SplitUnbroken(more);
    GrownLines(text, more);
    var ended, line := Init(Split(text)), Last(Split(text));
    AfterSnoc(ended, line + more);
    assert (ended + [line + more]) + [] == ended + [line + more];
  }

  lemma SpoiledCloser(open: OpenFence, line: string)
    requires open.marker != "" && Closes(open, line)
    ensures !Closes(open, line + "x") && line != ""
  {
    var indent := Run(line, 0, ' ');
    var length := Run(line, indent, line[indent]);
    RunIs(line + "x", 0, ' ', indent);
    RunIs(line + "x", indent, line[indent], length);
    XIsNotBlank(line, indent + length);
  }

  lemma XIsNotBlank(line: string, at: nat)
    requires at <= |line|
    ensures !Blank((line + "x")[at..])
  {
    var rest := (line + "x")[at..];
    assert rest[|rest| - 1] == 'x' && !IsSpace('x');
  }

  lemma CompletedOpener(line: string, more: string)
    requires Undecided(line) && line != ""
    requires more == Completion(line)
    ensures Opens(line + more) && !Opens(line)
  {
    var indent, whole := Run(line, 0, ' '), line + more;
    RunIs(whole, 0, ' ', indent);
    RunIs(whole, indent, whole[indent], |whole| - indent);
    OpensAt(whole, indent, |whole| - indent);
    if indent < |line| {
      OpensAt(line, indent, |line| - indent);
    }
  }

  /** What is stable never shrinks, whatever arrives, exactly for settled texts. */
  lemma StableGrowsIffSettled(text: string)
    ensures Settled(text) <==> forall more :: Stable(text) <= Stable(text + more)
  {
    if Settled(text) {
      forall more ensures Stable(text) <= Stable(text + more) {
        SettledGrows(text, more);
      }
    } else {
      var more := UnsettledShrinks(text);
    }
  }

  /** So it is at every line break. */
  lemma LineBreakSettles(text: string)
    requires text == "" || text[|text| - 1] == '\n'
    ensures Settled(text)
  {
  }
}
