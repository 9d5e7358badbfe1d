/**
 * Highlighting search matches by byte ranges (src/web/src/search/highlight.ts, truncate_line in
 * src/server/src/search/mod.rs).
 */
module Highlight {
  import opened Chunks
  import opened Utf8

  const MAX_LINE_BYTES: nat := 4096

  datatype Range = Range(start: int, end: int)

  predicate In(r: Range, p: int) { r.start <= p < r.end }

  predicate Covered(ranges: seq<Range>, p: int) {
    ranges != [] && (In(ranges[|ranges| - 1], p) || Covered(ranges[..|ranges| - 1], p))
  }

  /** Non-empty ranges within the limit, in order, no two of them touching. */
  ghost predicate Canonical(ranges: seq<Range>, limit: nat) {
    && (forall k | 0 <= k < |ranges| :: 0 <= ranges[k].start < ranges[k].end <= limit)
    && (forall j, k | 0 <= j < k < |ranges| :: ranges[j].end < ranges[k].start)
  }

  /** The canonical list that covers exactly the positions of ranges below the limit. */
  ghost predicate IsNormal(merged: seq<Range>, ranges: seq<Range>, limit: nat) {
    Canonical(merged, limit) && forall p :: Covered(merged, p) <==> 0 <= p < limit && Covered(ranges, p)
  }

  // ---- normal forms -----------------------------------------------------------------------

  lemma CoveredAppend(ranges: seq<Range>, r: Range)
    ensures forall p :: Covered(ranges + [r], p) <==> Covered(ranges, p) || In(r, p)
  {
    assert (ranges + [r])[..|ranges|] == ranges;
  }

  /** Covered positions lie below the end of the last range. */
  lemma {:induction false} CoveredBelow(ranges: seq<Range>, limit: nat, p: int)
    requires Canonical(ranges, limit) && Covered(ranges, p)
    ensures p < ranges[|ranges| - 1].end
  {
    if !In(ranges[|ranges| - 1], p) {
      CoveredBelow(ranges[..|ranges| - 1], limit, p);
    }
  }

  lemma LastRange(ranges: seq<Range>, limit: nat)
    requires ranges != [] && Canonical(ranges, limit)
    ensures var last := ranges[|ranges| - 1];
      && Covered(ranges, last.end - 1) && !Covered(ranges, last.end)
      && !Covered(ranges, last.start - 1)
      && forall p :: Covered(ranges[..|ranges| - 1], p) <==> p < last.start && Covered(ranges, p)
  {
    var init, last := ranges[..|ranges| - 1], ranges[|ranges| - 1];
    forall p | Covered(init, p) ensures p < last.start - 1 {
      CoveredBelow(init, limit, p);
    }
  }

  ghost predicate SameCover(a: seq<Range>, b: seq<Range>) {
    forall p :: Covered(a, p) <==> Covered(b, p)
  }

  /** Canonical lists that cover the same end with the same range. */
  lemma LastsAgree(a: seq<Range>, b: seq<Range>, limit: nat)
    requires a != [] && b != [] && Canonical(a, limit) && Canonical(b, limit) && SameCover(a, b)
    ensures a[|a| - 1] == b[|b| - 1] && SameCover(a[..|a| - 1], b[..|b| - 1])
  {
    LastRange(a, limit);
    LastRange(b, limit);
    var x, y := a[|a| - 1], b[|b| - 1];
    assert Covered(a, y.end - 1) && Covered(b, x.end - 1);
    CoveredBelow(a, limit, y.end - 1);
    CoveredBelow(b, limit, x.end - 1);
    StartsAgree(a, b, limit);
    var a', b' := a[..|a| - 1], b[..|b| - 1];
    forall p
      ensures Covered(a', p) <==> Covered(b', p)
    {
      assert Covered(a, p) <==> Covered(b, p);
    }
  }

  /** A set of positions has one canonical list of ranges. */
  lemma {:induction false} CanonicalIsUnique(a: seq<Range>, b: seq<Range>, limit: nat)
    requires Canonical(a, limit) && Canonical(b, limit) && SameCover(a, b)
    ensures a == b
    decreases |a|
  {
    if a == [] {
      if b != [] {
        LastRange(b, limit);
      }
    } else if b == [] {
      LastRange(a, limit);
    } else {
      LastsAgree(a, b, limit);
      CanonicalIsUnique(a[..|a| - 1], b[..|b| - 1], limit);
      assert a == a[..|a| - 1] + [a[|a| - 1]] && b == b[..|b| - 1] + [b[|b| - 1]];
    }
  }

  lemma StartsAgree(a: seq<Range>, b: seq<Range>, limit: nat)
    requires a != [] && b != [] && Canonical(a, limit) && Canonical(b, limit)
    requires SameCover(a, b)
    requires a[|a| - 1].end == b[|b| - 1].end
    ensures a[|a| - 1].start == b[|b| - 1].start
  {
    LastRange(a, limit);
    LastRange(b, limit);
    var x, y := a[|a| - 1], b[|b| - 1];
    assert x.start < y.start ==> Covered(a, y.start - 1);
    assert y.start < x.start ==> Covered(b, x.start - 1);
  }

  ghost predicate SameBelow(a: seq<Range>, b: seq<Range>, limit: nat) {
    forall p | 0 <= p < limit :: Covered(a, p) <==> Covered(b, p)
  }

  /**
   * Inputs have the same normal form, in whatever order, exactly when they cover the same positions
   * below the limit.
   */
  lemma NormalIsUnique(a: seq<Range>, ranges: seq<Range>, b: seq<Range>, others: seq<Range>, limit: nat)
    requires IsNormal(a, ranges, limit) && IsNormal(b, others, limit)
    ensures a == b <==> SameBelow(ranges, others, limit)
  {
    if SameBelow(ranges, others, limit) {
      CanonicalIsUnique(a, b, limit);
    } else {
      var p :| 0 <= p < limit && !(Covered(ranges, p) <==> Covered(others, p));
      assert Covered(a, p) != Covered(b, p);
    }
  }

  /** Normalizing again changes nothing. */
  lemma NormalIsFixed(a: seq<Range>, ranges: seq<Range>, b: seq<Range>, limit: nat)
    requires IsNormal(a, ranges, limit) && IsNormal(b, a, limit)
    ensures b == a
  {
    CanonicalIsUnique(a, b, limit);
  }

  // ---- sorting -------------------------------------------------------------------------------

  predicate Precedes(a: Range, b: Range) { a.start < b.start || (a.start == b.start && a.end <= b.end) }

  function InsertSorted(r: Range, sorted: seq<Range>): seq<Range> {
    if sorted == [] || Precedes(sorted[|sorted| - 1], r) then sorted + [r]
    else InsertSorted(r, sorted[..|sorted| - 1]) + [sorted[|sorted| - 1]]
  }

  /** Stands for the library's sort by start, then end. */
  function Sort(ranges: seq<Range>): seq<Range> {
    if ranges == [] then [] else InsertSorted(ranges[|ranges| - 1], Sort(ranges[..|ranges| - 1]))
  }

  ghost predicate Sorted(ranges: seq<Range>) {
    forall j, k | 0 <= j < k < |ranges| :: Precedes(ranges[j], ranges[k])
  }

  ghost predicate UpTo(ranges: seq<Range>, r: Range) {
    forall k | 0 <= k < |ranges| :: Precedes(ranges[k], r)
  }

  lemma {:induction false} InsertUpTo(r: Range, sorted: seq<Range>, last: Range)
    requires UpTo(sorted, last) && Precedes(r, last)
    ensures UpTo(InsertSorted(r, sorted), last)
  {
    if sorted != [] && !Precedes(sorted[|sorted| - 1], r) {
      InsertUpTo(r, sorted[..|sorted| - 1], last);
    }
  }

  lemma {:induction false} InsertSorts(r: Range, sorted: seq<Range>)
    requires Sorted(sorted)
    ensures Sorted(InsertSorted(r, sorted))
  {
    if sorted != [] {
      var init, last := sorted[..|sorted| - 1], sorted[|sorted| - 1];
      if !Precedes(last, r) {
        InsertSorts(r, init);
        InsertUpTo(r, init, last);
      }
    }
  }

  lemma {:induction false} InsertKeeps(r: Range, sorted: seq<Range>)
    ensures multiset(InsertSorted(r, sorted)) == multiset(sorted) + multiset{r}
    ensures forall p :: Covered(InsertSorted(r, sorted), p) <==> Covered(sorted, p) || In(r, p)
  {
    if sorted == [] || Precedes(sorted[|sorted| - 1], r) {
      CoveredAppend(sorted, r);
    } else {
      var init, last := sorted[..|sorted| - 1], sorted[|sorted| - 1];
      InsertKeeps(r, init);
      assert sorted == init + [last];
      CoveredAppend(InsertSorted(r, init), last);
    }
  }

  lemma {:induction false} SortKeeps(ranges: seq<Range>)
    ensures Sorted(Sort(ranges)) && multiset(Sort(ranges)) == multiset(ranges)
    ensures forall p :: Covered(Sort(ranges), p) <==> Covered(ranges, p)
  {
    if ranges != [] {
      var init, last := ranges[..|ranges| - 1], ranges[|ranges| - 1];
      SortKeeps(init);
      InsertSorts(last, Sort(init));
      InsertKeeps(last, Sort(init));
      assert ranges == init + [last];
    }
  }

  // ---- normalizing ------------------------------------------------------------------------------

  function Clip(x: int, limit: nat): nat {
    if x < 0 then 0 else if limit < x then limit else x
  }

  method NormalizeRanges(ranges: seq<Range>, limit: nat) returns (merged: seq<Range>)
    ensures IsNormal(merged, ranges, limit)
  {
    var clean := ClipRanges(ranges, limit);
    SortKeeps(clean);
    var sorted := Sort(clean);
    forall k | 0 <= k < |sorted| ensures 0 <= sorted[k].start < sorted[k].end <= limit {
      assert sorted[k] in multiset(sorted);
      assert sorted[k] in clean;
    }
    merged := MergeSorted(sorted, limit);
  }

  method ClipRanges(ranges: seq<Range>, limit: nat) returns (clean: seq<Range>)
    ensures forall r | r in clean :: 0 <= r.start < r.end <= limit
    ensures forall p :: Covered(clean, p) <==> 0 <= p < limit && Covered(ranges, p)
  {
    clean := [];
    for i := 0 to |ranges|
      invariant forall r | r in clean :: 0 <= r.start < r.end <= limit
      invariant forall p :: Covered(clean, p) <==> 0 <= p < limit && Covered(ranges[..i], p)
    {
      var start, end := Clip(ranges[i].start, limit), Clip(ranges[i].end, limit);
      ghost var was := clean;
      if start < end {
        clean := clean + [Range(start, end)];
      }
      CoveredPrefix(ranges, i);
      CoveredAppend(was, Range(start, end));
    }
    assert ranges[..|ranges|] == ranges;
  }

  /** A range that meets the last one stretches it. */
  lemma StretchLast(merged: seq<Range>, range: Range, limit: nat) returns (stretched: seq<Range>)
    requires merged != [] && Canonical(merged, limit) && 0 <= range.start < range.end <= limit
    requires merged[|merged| - 1].start <= range.start <= merged[|merged| - 1].end
    ensures var last := merged[|merged| - 1];
      stretched == merged[|merged| - 1 := Range(last.start, if last.end < range.end then range.end else last.end)]
    ensures Canonical(stretched, limit)
    ensures forall p :: Covered(stretched, p) <==> Covered(merged, p) || In(range, p)
  {
    var last := merged[|merged| - 1];
    stretched := merged[|merged| - 1 := Range(last.start, if last.end < range.end then range.end else last.end)];
    assert stretched[..|merged| - 1] == merged[..|merged| - 1];
  }

  lemma CoveredPrefix(ranges: seq<Range>, i: nat)
    requires i < |ranges|
    ensures forall p :: Covered(ranges[..i + 1], p) <==> Covered(ranges[..i], p) || In(ranges[i], p)
  {
    assert ranges[..i + 1][..i] == ranges[..i];
  }

  /** merged covers the first i ranges, and does not start after the next one. */
  ghost predicate MergedUpTo(merged: seq<Range>, sorted: seq<Range>, i: nat, limit: nat) {
    && i <= |sorted| && Canonical(merged, limit) && SameCover(merged, sorted[..i])
    && (merged != [] && i < |sorted| ==> merged[|merged| - 1].start <= sorted[i].start)
  }

  lemma MergeStretches(merged: seq<Range>, sorted: seq<Range>, i: nat, limit: nat) returns (stretched: seq<Range>)
    requires Sorted(sorted) && forall k | 0 <= k < |sorted| :: 0 <= sorted[k].start < sorted[k].end <= limit
    requires MergedUpTo(merged, sorted, i, limit) && i < |sorted|
    requires merged != [] && sorted[i].start <= merged[|merged| - 1].end
    ensures var last, end := merged[|merged| - 1], sorted[i].end;
      stretched == merged[|merged| - 1 := Range(last.start, if last.end < end then end else last.end)]
    ensures MergedUpTo(stretched, sorted, i + 1, limit)
  {
    CoveredPrefix(sorted, i);
    stretched := StretchLast(merged, sorted[i], limit);
  }

  lemma MergeAppends(merged: seq<Range>, sorted: seq<Range>, i: nat, limit: nat)
    requires Sorted(sorted) && forall k | 0 <= k < |sorted| :: 0 <= sorted[k].start < sorted[k].end <= limit
    requires MergedUpTo(merged, sorted, i, limit) && i < |sorted|
    requires merged == [] || merged[|merged| - 1].end < sorted[i].start
    ensures MergedUpTo(merged + [sorted[i]], sorted, i + 1, limit)
  {
    CoveredPrefix(sorted, i);
    CoveredAppend(merged, sorted[i]);
  }

  method MergeSorted(sorted: seq<Range>, limit: nat) returns (merged: seq<Range>)
    requires Sorted(sorted) && forall k | 0 <= k < |sorted| :: 0 <= sorted[k].start < sorted[k].end <= limit
    ensures Canonical(merged, limit) && forall p :: Covered(merged, p) <==> Covered(sorted, p)
  {
    merged := [];
    for i := 0 to |sorted|
      invariant MergedUpTo(merged, sorted, i, limit)
    {
      var range := sorted[i];
      if merged != [] && range.start <= merged[|merged| - 1].end {
        ghost var stretched := MergeStretches(merged, sorted, i, limit);
        var last := merged[|merged| - 1];
        merged := merged[|merged| - 1 := Range(last.start, if last.end < range.end then range.end else last.end)];
        assert merged == stretched;
      } else {
        MergeAppends(merged, sorted, i, limit);
        merged := merged + [range];
      }
    }
    assert sorted[..|sorted|] == sorted;
  }

  // ---- segments ---------------------------------------------------------------------------------

  datatype Segment = Segment(text: Bytes, marked: bool)

  function Spelled(segments: seq<Segment>): Bytes {
    if segments == [] then [] else Spelled(segments[..|segments| - 1]) + segments[|segments| - 1].text
  }

  /** Whether each byte lies in a marked segment. */
  function Marks(segments: seq<Segment>): (marks: seq<bool>)
    ensures |marks| == |Spelled(segments)|
  {
    if segments == [] then []
    else
      var last := segments[|segments| - 1];
      Marks(segments[..|segments| - 1]) + seq(|last.text|, _ => last.marked)
  }

  /** Segments that are not empty and take turns. */
  ghost predicate Alternating(segments: seq<Segment>) {
    && (forall k | 0 <= k < |segments| :: segments[k].text != [])
    && (forall k | 0 <= k < |segments| - 1 :: segments[k].marked != segments[k + 1].marked)
  }

  /** segments spell the first n bytes and mark the covered ones. */
  ghost predicate Shows(segments: seq<Segment>, bytes: Bytes, n: nat, ranges: seq<Range>) {
    && n <= |bytes| && Spelled(segments) == bytes[..n]
    && Alternating(segments)
    && forall p | 0 <= p < n :: Marks(segments)[p] <==> Covered(ranges, p)
  }

  lemma PushSegment(segments: seq<Segment>, bytes: Bytes, n: nat, m: nat, marked: bool, ranges: seq<Range>)
    requires Shows(segments, bytes, n, ranges) && n < m <= |bytes|
    requires segments != [] ==> segments[|segments| - 1].marked != marked
    requires forall p | n <= p < m :: marked <==> Covered(ranges, p)
    ensures Shows(segments + [Segment(bytes[n..m], marked)], bytes, m, ranges)
  {
    var pushed := segments + [Segment(bytes[n..m], marked)];
    assert pushed[..|segments|] == segments;
    assert bytes[..m] == bytes[..n] + bytes[n..m];
  }

  /** A range is shown by the plain bytes before it, if any, and the marked bytes in it. */
  lemma PushRange(segments: seq<Segment>, bytes: Bytes, cursor: nat, start: nat, end: nat, ranges: seq<Range>)
    requires Shows(segments, bytes, cursor, ranges) && cursor <= start < end <= |bytes|
    requires segments != [] ==> segments[|segments| - 1].marked && cursor < start
    requires forall p | cursor <= p < end :: Covered(ranges, p) <==> start <= p
    ensures var plain := if cursor < start then segments + [Segment(bytes[cursor..start], false)] else segments;
      Shows(plain + [Segment(bytes[start..end], true)], bytes, end, ranges)
  {
    if cursor < start {
      PushSegment(segments, bytes, cursor, start, false, ranges);
      PushSegment(segments + [Segment(bytes[cursor..start], false)], bytes, start, end, true, ranges);
    } else {
      PushSegment(segments, bytes, start, end, true, ranges);
    }
  }

  lemma OnePlainSegment(bytes: Bytes, ranges: seq<Range>)
    requires bytes != [] && forall p | 0 <= p < |bytes| :: !Covered(ranges, p)
    ensures Shows([Segment(bytes, false)], bytes, |bytes|, ranges)
  {
    PushSegment([], bytes, 0, |bytes|, false, ranges);
    assert bytes[0..|bytes|] == bytes && [] + [Segment(bytes, false)] == [Segment(bytes, false)];
  }

  /** Which positions a canonical list covers between two of its ranges. */
  lemma {:induction false} CoveredAt(ranges: seq<Range>, limit: nat, p: int, k: nat)
    requires Canonical(ranges, limit) && k <= |ranges|
    requires k < |ranges| ==> p < ranges[k].end
    requires 0 < k ==> ranges[k - 1].end <= p
    ensures Covered(ranges, p) <==> k < |ranges| && ranges[k].start <= p
  {
    if k < |ranges| {
      LastRange(ranges, limit);
      var init, last := ranges[..|ranges| - 1], ranges[|ranges| - 1];
      if k < |ranges| - 1 {
        CoveredAt(init, limit, p, k);
        EndsIncrease(ranges, limit, k, |ranges| - 1);
      } else {
        CoveredAt(init, limit, p, k);
      }
    } else if ranges != [] && Covered(ranges, p) {
      CoveredBelow(ranges, limit, p);
    }
  }

  lemma {:induction false} EndsIncrease(ranges: seq<Range>, limit: nat, i: nat, j: nat)
    requires Canonical(ranges, limit) && i < j < |ranges|
    ensures ranges[i].end < ranges[j].start
  {
    if i + 1 < j {
      EndsIncrease(ranges, limit, i, j - 1);
    }
  }

  /**
   * The segments of a line spell its bytes and mark exactly those in some range, however the
   * ranges overlap, overhang or are ordered.
   */
  method HighlightLine(bytes: Bytes, ranges: seq<Range>) returns (segments: seq<Segment>)
    ensures Shows(segments, bytes, |bytes|, ranges)
  {
    if bytes == [] {
      return [];
    }
    if ranges == [] {
      OnePlainSegment(bytes, ranges);
      return [Segment(bytes, false)];
    }
    var merged := NormalizeRanges(ranges, |bytes|);
    if merged == [] {
      assert forall p | 0 <= p < |bytes| :: !Covered(merged, p);
      OnePlainSegment(bytes, ranges);
      return [Segment(bytes, false)];
    }
    segments := [];
    var cursor := 0;
    for i := 0 to |merged|
      invariant Shows(segments, bytes, cursor, ranges)
      invariant cursor == if i == 0 then 0 else merged[i - 1].end
      invariant segments != [] ==> 0 < i && segments[|segments| - 1].marked
    {
      var start, end := merged[i].start, merged[i].end;
      forall p | cursor <= p < end ensures Covered(ranges, p) <==> start <= p {
        CoveredAt(merged, |bytes|, p, i);
      }
      PushRange(segments, bytes, cursor, start, end, ranges);
      if cursor < start {
        segments := segments + [Segment(bytes[cursor..start], false)];
      }
      segments := segments + [Segment(bytes[start..end], true)];
      cursor := end;
    }
    if cursor < |bytes| {
      forall p | cursor <= p < |bytes| ensures !Covered(ranges, p) {
        CoveredAt(merged, |bytes|, p, |merged|);
      }
      PushSegment(segments, bytes, cursor, |bytes|, false, ranges);
      assert bytes[cursor..] == bytes[cursor..|bytes|];
      segments := segments + [Segment(bytes[cursor..], false)];
    }
  }

  // ---- cutting long lines ------------------------------------------------------------------------

  /** Whether a string may be cut at an index: its ends, and wherever a character starts. */
  predicate IsCharBoundary(text: Bytes, i: nat)
    requires i <= |text|
  {
    i == 0 || i == |text| || !IsTail(text[i])
  }

  function Retained(ranges: seq<Range>, cut: nat): seq<Range> {
    if ranges == [] then []
    else
      var init, last := Retained(ranges[..|ranges| - 1], cut), ranges[|ranges| - 1];
      if last.start < cut then init + [last] else init
  }

  function Shortened(r: Range, cut: nat): Range {
    Range(r.start, if cut < r.end then cut else r.end)
  }

  /** A line of at most 4096 bytes is kept; a longer one is cut at the last place a character starts. */
  method TruncateLine(text: Bytes, ranges: seq<Range>) returns (line: Bytes, kept: seq<Range>)
    requires IsUtf8(text)
    ensures IsUtf8(line) && |line| <= 4096 && line <= text
    ensures |text| <= 4096 ==> line == text && kept == ranges
    ensures MAX_LINE_BYTES < |text| ==>
      && MAX_LINE_BYTES - 3 <= |line|
      && IsCharBoundary(text, |line|) && (forall k | |line| < k <= MAX_LINE_BYTES :: !IsCharBoundary(text, k))
      && (forall r | r in kept :: r.start < |line| && r.end <= |line|)
    ensures forall p | 0 <= p < |line| :: Covered(kept, p) <==> Covered(ranges, p)
  {
    if |text| <= MAX_LINE_BYTES {
      assert text[..|text|] == text;
      return text, ranges;
    }
    var cut := MAX_LINE_BYTES;
    while 0 < cut && !IsCharBoundary(text, cut)
      invariant 0 <= cut <= MAX_LINE_BYTES
      invariant forall k | cut < k <= MAX_LINE_BYTES :: !IsCharBoundary(text, k)
    {
      cut := cut - 1;
    }
    CutIsUtf8(text, cut);
    line := text[..cut];
    kept := Retained(ranges, cut);
    RetainedStarts(ranges, cut);
    ghost var starts := kept;
    for i := 0 to |kept|
      invariant |kept| == |starts|
      invariant forall k | 0 <= k < |kept| :: kept[k] == if k < i then Shortened(starts[k], cut) else starts[k]
    {
      kept := kept[i := Range(kept[i].start, if cut < kept[i].end then cut else kept[i].end)];
    }
    forall p | 0 <= p < cut ensures Covered(kept, p) <==> Covered(ranges, p) {
      RetainedCovers(ranges, cut, p);
      ShortenedCovers(starts, kept, cut, p);
    }
  }

  lemma {:induction false} RetainedStarts(ranges: seq<Range>, cut: nat)
    ensures forall r | r in Retained(ranges, cut) :: r.start < cut
  {
    if ranges != [] {
      RetainedStarts(ranges[..|ranges| - 1], cut);
    }
  }

  lemma {:induction false} RetainedCovers(ranges: seq<Range>, cut: nat, p: int)
    requires p < cut
    ensures Covered(Retained(ranges, cut), p) <==> Covered(ranges, p)
  {
    if ranges != [] {
      RetainedCovers(ranges[..|ranges| - 1], cut, p);
      CoveredAppend(Retained(ranges[..|ranges| - 1], cut), ranges[|ranges| - 1]);
    }
  }

  lemma {:induction false} ShortenedCovers(ranges: seq<Range>, shortened: seq<Range>, cut: nat, p: int)
    requires p < cut && |shortened| == |ranges|
    requires forall k | 0 <= k < |ranges| :: shortened[k] == Shortened(ranges[k], cut)
    ensures Covered(shortened, p) <==> Covered(ranges, p)
  {
    if ranges != [] {
      ShortenedCovers(ranges[..|ranges| - 1], shortened[..|ranges| - 1], cut, p);
    }
  }

  /** In UTF-8 text characters start exactly between characters, never more than 3 bytes back. */
  lemma CutIsUtf8(text: Bytes, cut: nat)
    requires IsUtf8(text) && cut <= MAX_LINE_BYTES < |text| && IsCharBoundary(text, cut)
    requires forall k | cut < k <= MAX_LINE_BYTES :: !IsCharBoundary(text, k)
    ensures IsUtf8(text[..cut]) && MAX_LINE_BYTES - 3 <= cut
  {
    var chars: seq<Bytes> :| AllChars(chars) && Flatten(chars) == text;
    FlattenLength(chars);
    var k := FindChunk(chars, MAX_LINE_BYTES);
    CharShape(chars[k]);
    FlattenAround(chars, k);
    var lead := Offset(chars, k);
    assert text[lead] == chars[k][0];
    assert IsCharBoundary(text, lead) && lead <= cut;
    assert forall j | 0 < j < |chars[k]| :: text[lead + j] == chars[k][j];
    assert cut == lead + (cut - lead);
    FlattenSlice(chars, 0, k);
    assert chars[0..k] == chars[..k] && text[0..cut] == text[..cut];
  }

  /** Highlighting a cut line marks the bytes that highlighting the whole line marks there. */
  lemma CutKeepsMarks(text: Bytes, ranges: seq<Range>, whole: seq<Segment>, line: Bytes, kept: seq<Range>,
                      cut: seq<Segment>)
    requires line <= text && forall p | 0 <= p < |line| :: Covered(kept, p) <==> Covered(ranges, p)
    requires Shows(whole, text, |text|, ranges) && Shows(cut, line, |line|, kept)
    ensures Marks(cut) == Marks(whole)[..|line|]
  {
  }
}
