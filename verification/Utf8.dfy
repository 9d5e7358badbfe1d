/** Splitting a byte stream so that no UTF-8 character is cut (src/server/src/pty/utf8.rs). */
module Utf8 {
  import opened Chunks
  import opened Wrappers

  const MAX_UTF8_LEN := 4

  // ---- the grammar of section 4 of RFC 3629 ----------------------------------

  predicate IsTail(b: byte) { 0x80 <= b <= 0xBF }

  /** UTF8-char: one character of one to four octets. */
  predicate IsChar(c: Bytes) {
    if |c| == 1 then c[0] <= 0x7F
    else if |c| == 2 then 0xC2 <= c[0] <= 0xDF && IsTail(c[1])
    else if |c| == 3 then
      && IsTail(c[2])
      && (|| (c[0] == 0xE0 && 0xA0 <= c[1] <= 0xBF)
          || (0xE1 <= c[0] <= 0xEC && IsTail(c[1]))
          || (c[0] == 0xED && 0x80 <= c[1] <= 0x9F)
          || (0xEE <= c[0] <= 0xEF && IsTail(c[1])))
    else if |c| == 4 then
      && IsTail(c[2]) && IsTail(c[3])
      && (|| (c[0] == 0xF0 && 0x90 <= c[1] <= 0xBF)
          || (0xF1 <= c[0] <= 0xF3 && IsTail(c[1]))
          || (c[0] == 0xF4 && 0x80 <= c[1] <= 0x8F))
    else false
  }

  ghost predicate AllChars(chars: seq<Bytes>) {
    forall k | 0 <= k < |chars| :: IsChar(chars[k])
  }

  /** UTF8-octets: any number of characters. */
  ghost predicate IsUtf8(s: Bytes) {
    exists chars: seq<Bytes> :: AllChars(chars) && Flatten(chars) == s
  }

  // ---- the code --------------------------------------------------------------

  /** Length of the sequence a lead byte announces; None if b leads nothing. */
  function SeqLen(b: byte): Option<nat> {
    if b <= 0x7F then Some(1)
    else if 0xC2 <= b <= 0xDF then Some(2)
    else if 0xE0 <= b <= 0xEF then Some(3)
    else if 0xF0 <= b <= 0xF4 then Some(4)
    else None
  }

  /** buf[k..] is a lead byte and continuation bytes, too few to complete the sequence. */
  ghost predicate Incomplete(buf: Bytes, k: nat) {
    && k < |buf|
    && SeqLen(buf[k]).Some? && |buf| < k + SeqLen(buf[k]).value
    && forall j | k < j < |buf| :: IsTail(buf[j])
  }

  /** Where an incomplete trailing sequence starts, or the end when there is none. */
  ghost function SplitPoint(buf: Bytes): (n: nat)
    ensures n <= |buf|
    ensures n < |buf| ==> Incomplete(buf, n)
    ensures forall k: nat :: Incomplete(buf, k) ==> n == k
  {
    if exists k: nat :: Incomplete(buf, k) then
      var k: nat :| Incomplete(buf, k);
      assert forall k': nat | Incomplete(buf, k') :: !(k < k') && !(k' < k);
      k
    else |buf|
  }

  method SplitIncompleteTail(buf: Bytes) returns (n: nat)
    ensures n == SplitPoint(buf)
    ensures |buf| - n <= 3
  {
    var len := |buf|;
    var i := len;
    var floor := if len < MAX_UTF8_LEN then 0 else len - MAX_UTF8_LEN;
    while floor < i
      invariant floor <= i <= len
      invariant forall j | i <= j < len :: IsTail(buf[j])
    {
      var candidate := i - 1;
      var b := buf[candidate];
      if IsTail(b) {
        i := candidate;
        continue;
      }
      match SeqLen(b) {
        case Some(need) =>
          if len < candidate + need {
            assert Incomplete(buf, candidate);
            return candidate;
          }
        case None =>
      }
      assert forall k: nat | k < candidate :: !Incomplete(buf, k);
      return len;
    }
    return len;
  }

  /** buf[lead] leads a sequence that covers position idx. */
  ghost predicate Covers(buf: Bytes, lead: nat, idx: nat) {
    && lead < idx < |buf|
    && SeqLen(buf[lead]).Some? && idx < lead + SeqLen(buf[lead]).value
    && forall j | lead < j <= idx :: IsTail(buf[j])
  }

  /** idx rounded down to the lead of the character that covers it, if one does. */
  ghost function CharBoundary(buf: Bytes, idx: nat): (n: nat)
    requires idx <= |buf|
    ensures n <= idx <= n + 3
    ensures n < idx ==> Covers(buf, n, idx)
    ensures forall lead: nat :: Covers(buf, lead, idx) ==> n == lead
  {
    if exists lead: nat :: Covers(buf, lead, idx) then
      var lead: nat :| Covers(buf, lead, idx);
      assert forall l: nat | Covers(buf, l, idx) :: !(lead < l) && !(l < lead);
      lead
    else idx
  }

  method PrevCharBoundary(buf: Bytes, index: nat) returns (n: nat)
    ensures n == CharBoundary(buf, if index < |buf| then index else |buf|)
  {
    var idx := if index < |buf| then index else |buf|;
    if idx == 0 || idx == |buf| {
      return idx;
    }
    if !IsTail(buf[idx]) {
      return idx;
    }
    var floor := if idx < MAX_UTF8_LEN - 1 then 0 else idx - (MAX_UTF8_LEN - 1);
    var i := idx;
    while floor < i
      invariant floor <= i <= idx
      invariant forall j | i <= j <= idx :: IsTail(buf[j])
    {
      i := i - 1;
      if !IsTail(buf[i]) {
        match SeqLen(buf[i]) {
          case Some(need) =>
            if idx < i + need {
              assert Covers(buf, i, idx);
              return i;
            }
          case None =>
        }
        assert forall l: nat | l < i :: !Covers(buf, l, idx);
        return idx;
      }
    }
    return idx;
  }

  /**
   * Rounding a cut down is splitting off what the cut leaves incomplete, if the byte after the cut
   * goes on with it.
   */
  lemma BoundaryIsSplit(buf: Bytes, idx: nat)
    requires idx <= |buf|
    ensures CharBoundary(buf, idx) ==
      if idx < |buf| && 0x80 <= buf[idx] <= 0xBF then SplitPoint(buf[..idx]) else idx
  {
    if idx < |buf| && IsTail(buf[idx]) {
      var n := SplitPoint(buf[..idx]);
      if n < idx {
        assert Incomplete(buf[..idx], n);
        assert Covers(buf, n, idx);
      }
      var m := CharBoundary(buf, idx);
      if m < idx {
        assert Incomplete(buf[..idx], m);
      }
    }
  }

  // ---- what the split is for --------------------------------------------------

  /** The code's length table agrees with the grammar, and only the lead is not a tail byte. */
  lemma CharShape(c: Bytes)
    requires IsChar(c)
    ensures SeqLen(c[0]) == Some(|c|)
    ensures !IsTail(c[0])
    ensures forall j | 0 < j < |c| :: IsTail(c[j])
  {
  }

  /** ... and lists exactly the lead bytes there are. */
  lemma LeadIff(b: byte, n: nat)
    ensures SeqLen(b) == Some(n) <==> exists c: Bytes :: IsChar(c) && c[0] == b && |c| == n
  {
    if SeqLen(b) == Some(n) {
      var second: byte := if b == 0xE0 || b == 0xF0 then 0xBF else 0x80;
      var c: Bytes := if n == 1 then [b] else [b, second] + seq(n - 2, _ => 0x80);
      assert IsChar(c) && c[0] == b && |c| == n;
    }
    forall c: Bytes | IsChar(c) && c[0] == b && |c| == n
      ensures SeqLen(b) == Some(n)
    {
      CharShape(c);
    }
  }

  /** After whole characters nothing is held back. */
  lemma SplitAfterWholeChars(chars: seq<Bytes>)
    requires AllChars(chars)
    ensures SplitPoint(Flatten(chars)) == |Flatten(chars)|
  {
    if chars != [] {
      var buf, last := Flatten(chars), chars[|chars| - 1];
      CharShape(last);
      var lead := |buf| - |last|;
      assert forall k | lead <= k < |buf| :: buf[k] == last[k - lead];
      forall k: nat | k < lead
        ensures !Incomplete(buf, k)
      {
        assert buf[lead] == last[0];
      }
    }
  }

  /** A character cut short after whole ones is held back from its lead on. */
  lemma SplitBeforeCutChar(v: Bytes, c: Bytes, part: nat)
    requires IsChar(c) && 0 < part < |c|
    ensures SplitPoint(v + c[..part]) == |v|
  {
    CharShape(c);
    assert Incomplete(v + c[..part], |v|);
  }

  lemma Utf8Snoc(s: Bytes, c: Bytes)
    requires IsUtf8(s) && IsChar(c)
    ensures IsUtf8(s + c)
  {
    var chars: seq<Bytes> :| AllChars(chars) && Flatten(chars) == s;
    FlattenSnoc(chars, c);
    assert AllChars(chars + [c]);
  }

  /** Two ways to cut one string in two: each longer piece contains the shorter one. */
  lemma TwoCuts(x: Bytes, y: Bytes, v: Bytes, c: Bytes)
    requires x + y == v + c
    ensures |c| <= |y| ==> v == x + y[..|y| - |c|] && y == y[..|y| - |c|] + c
    ensures |y| <= |c| ==> x == v + c[..|c| - |y|] && c == c[..|c| - |y|] + y
  {
    assert x == (v + c)[..|x|] && y == (v + c)[|x|..];
    assert v == (x + y)[..|v|] && c == (x + y)[|v|..];
  }

  /**
   * If what is buffered can be continued to valid UTF-8, the part let through is valid
   * and the part held back, with what follows, still is.
   */
  lemma {:induction false} SplitOfChars(chars: seq<Bytes>, buf: Bytes, rest: Bytes)
    requires AllChars(chars) && Flatten(chars) == buf + rest
    ensures IsUtf8(buf[..SplitPoint(buf)])
    ensures IsUtf8(buf[SplitPoint(buf)..] + rest)
  {
    var n := SplitPoint(buf);
    if rest == [] {
      assert buf + rest == buf == buf[..|buf|];
      SplitAfterWholeChars(chars);
      assert AllChars([]) && Flatten<byte>([]) == buf[n..] + rest;
    } else {
      var init, c := chars[..|chars| - 1], chars[|chars| - 1];
      TwoCuts(buf, rest, Flatten(init), c);
      if |c| <= |rest| {
        var rest' := rest[..|rest| - |c|];
        SplitOfChars(init, buf, rest');
        Utf8Snoc(buf[n..] + rest', c);
        assert buf[n..] + rest == (buf[n..] + rest') + c;
      } else {
        SplitOfCutChar(init, c, buf, rest);
      }
    }
  }

  lemma SplitOfCutChar(init: seq<Bytes>, c: Bytes, buf: Bytes, rest: Bytes)
    requires AllChars(init) && IsChar(c) && 0 < |rest| < |c|
    requires buf == Flatten(init) + c[..|c| - |rest|] && c == c[..|c| - |rest|] + rest
    ensures IsUtf8(buf[..SplitPoint(buf)])
    ensures IsUtf8(buf[SplitPoint(buf)..] + rest)
  {
    SplitBeforeCutChar(Flatten(init), c, |c| - |rest|);
    assert buf[..SplitPoint(buf)] == Flatten(init);
    assert buf[SplitPoint(buf)..] + rest == c;
    FlattenOne(c);
    assert AllChars([c]);
  }

  lemma SplitOfValidStream(buf: Bytes, rest: Bytes)
    requires IsUtf8(buf + rest)
    ensures IsUtf8(buf[..SplitPoint(buf)])
    ensures IsUtf8(buf[SplitPoint(buf)..] + rest)
  {
    var chars: seq<Bytes> :| AllChars(chars) && Flatten(chars) == buf + rest;
    SplitOfChars(chars, buf, rest);
  }

  // ---- lossy text -------------------------------------------------------------

  const REPLACEMENT: Bytes := [0xEF, 0xBF, 0xBD]

  /** Length of the character s begins with, or 0. */
  function HeadChar(s: Bytes): (n: nat)
    ensures n <= |s| && (0 < n ==> IsChar(s[..n]))
  {
    if s == [] || SeqLen(s[0]) == None then 0
    else
      var n := SeqLen(s[0]).value;
      if n <= |s| && IsChar(s[..n]) then n else 0
  }

  /** p can be completed to a character. */
  predicate CharStart(p: Bytes) {
    && p != [] && SeqLen(p[0]).Some? && |p| < SeqLen(p[0]).value
    && var missing := SeqLen(p[0]).value - |p|;
       IsChar(p + seq(missing, _ => 0x80)) || IsChar(p + seq(missing, _ => 0xBF))
  }

  /** Length of the longest start of a character s begins with, or 1. */
  function BadLength(s: Bytes): (n: nat)
    requires s != []
    ensures 1 <= n <= |s|
  {
    if 3 <= |s| && CharStart(s[..3]) then 3
    else if 2 <= |s| && CharStart(s[..2]) then 2
    else 1
  }

  /** Decoding that replaces each maximal ill-formed part by U+FFFD. */
  function Lossy(s: Bytes): Bytes {
    if s == [] then []
    else if 0 < HeadChar(s) then s[..HeadChar(s)] + Lossy(s[HeadChar(s)..])
    else REPLACEMENT + Lossy(s[BadLength(s)..])
  }

  lemma Utf8Cons(c: Bytes, s: Bytes)
    requires IsChar(c) && IsUtf8(s)
    ensures IsUtf8(c + s)
  {
    var chars: seq<Bytes> :| AllChars(chars) && Flatten(chars) == s;
    FlattenConsOne(c, chars);
    assert AllChars([c] + chars);
  }

  /** Lossy decoding yields valid text from any bytes. */
  lemma {:induction false} LossyIsUtf8(s: Bytes)
    ensures IsUtf8(Lossy(s))
  {
    if s == [] {
      assert AllChars([]) && Flatten<byte>([]) == [];
    } else if 0 < HeadChar(s) {
      LossyIsUtf8(s[HeadChar(s)..]);
      Utf8Cons(s[..HeadChar(s)], Lossy(s[HeadChar(s)..]));
    } else {
      LossyIsUtf8(s[BadLength(s)..]);
      Utf8Cons(REPLACEMENT, Lossy(s[BadLength(s)..]));
    }
  }

  /** ... and leaves valid text alone. */
  lemma {:induction false} LossyOfChars(chars: seq<Bytes>)
    requires AllChars(chars)
    ensures Lossy(Flatten(chars)) == Flatten(chars)
  {
    if chars != [] {
      var c, rest := chars[0], chars[1..];
      assert chars == [c] + rest;
      FlattenConsOne(c, rest);
      LossyOfChars(rest);
      CharShape(c);
      var s := c + Flatten(rest);
      assert s[..|c|] == c && s[|c|..] == Flatten(rest);
    }
  }

  lemma LossyKeepsUtf8(s: Bytes)
    requires IsUtf8(s)
    ensures Lossy(s) == s
  {
    var chars: seq<Bytes> :| AllChars(chars) && Flatten(chars) == s;
    LossyOfChars(chars);
  }

  /** CharStart is the grammar's notion: exactly the proper beginnings of characters. */
  lemma CharStartIsProperPrefix(p: Bytes)
    ensures CharStart(p) <==> exists c: Bytes :: IsChar(c) && p < c && p != []
  {
    if CharStart(p) {
      var missing := SeqLen(p[0]).value - |p|;
      assert p < p + seq(missing, _ => 0x80) && p < p + seq(missing, _ => 0xBF);
    }
    forall c: Bytes | IsChar(c) && p < c && p != []
      ensures CharStart(p)
    {
      CharShape(c);
      assert p[0] == c[0] && (1 < |p| ==> p[1] == c[1]) && (2 < |p| ==> p[2] == c[2]);
      var lo, hi := p + seq(|c| - |p|, _ => 0x80), p + seq(|c| - |p|, _ => 0xBF);
      assert IsChar(lo) || IsChar(hi);
    }
  }

  /**
   * Bytes that begin no character are replaced by U+FFFD as long as they go on as the beginning of
   * one, or else one at a time.
   */
  lemma LossyReplaces(s: Bytes, m: nat)
    requires 1 <= m <= |s| && forall k | 0 < k <= |s| :: !IsChar(s[..k])
    requires m == 1 || exists c: Bytes :: IsChar(c) && s[..m] < c
    requires forall k, c: Bytes | m < k <= |s| && IsChar(c) :: !(s[..k] < c)
    ensures Lossy(s) == [0xEF, 0xBF, 0xBD] + Lossy(s[m..])
  {
    CharStartIsProperPrefix(s[..m]);
    if m < 2 <= |s| {
      CharStartIsProperPrefix(s[..2]);
    }
    if m < 3 <= |s| {
      CharStartIsProperPrefix(s[..3]);
    }
    LossyAt(s, m);
  }

  lemma LossyAt(s: Bytes, m: nat)
    requires 1 <= m <= |s| && HeadChar(s) == 0 && (m == 1 || CharStart(s[..m]))
    requires (m < 2 <= |s| ==> !CharStart(s[..2])) && (m < 3 <= |s| ==> !CharStart(s[..3]))
    ensures Lossy(s) == [0xEF, 0xBF, 0xBD] + Lossy(s[m..])
  {
    BadLengthIs(s, m);
  }

  lemma BadLengthIs(s: Bytes, m: nat)
    requires 1 <= m <= |s| && (m == 1 || CharStart(s[..m]))
    requires (m < 2 <= |s| ==> !CharStart(s[..2])) && (m < 3 <= |s| ==> !CharStart(s[..3]))
    ensures BadLength(s) == m
  {
    if m != 1 {
      StartIsShort(s[..m]);
    }
  }

  lemma StartIsShort(p: Bytes)
    requires CharStart(p)
    ensures |p| <= 3
  {
  }

  // ---- what is held back -----------------------------------------------------------

  /** The second bytes that characters with this lead have. */
  predicate SuitsLead(lead: byte, second: byte) {
    IsTail(second) && (
      if lead == 0xE0 then 0xA0 <= second
      else if lead == 0xED then second <= 0x9F
      else if lead == 0xF0 then 0x90 <= second
      else if lead == 0xF4 then second <= 0x8F
      else true)
  }

  lemma IncompleteIsStart(p: Bytes)
    requires Incomplete(p, 0)
    ensures CharStart(p) <==> |p| == 1 || SuitsLead(p[0], p[1])
  {
    var missing := SeqLen(p[0]).value - |p|;
    var lo, hi := p + seq(missing, _ => 0x80), p + seq(missing, _ => 0xBF);
    assert |lo| == |hi| == SeqLen(p[0]).value;
    if |p| == 1 {
      assert lo[0] == hi[0] == p[0] && lo[1] == 0x80 && hi[1] == 0xBF;
    } else {
      assert lo[..2] == hi[..2] == p[..2];
    }
  }

  /**
   * What is held back can still become a character exactly when its second byte, if it has one yet,
   * suits its lead; otherwise bytes are held that no input completes.
   */
  lemma HeldCanComplete(buf: Bytes)
    requires SplitPoint(buf) < |buf|
    ensures var n := SplitPoint(buf);
      (exists c: Bytes :: IsChar(c) && buf[n..] < c && buf[n..] != []) <==> n + 1 == |buf| || SuitsLead(buf[n],
                                                                                                        buf[n + 1])
  {
    var n := SplitPoint(buf);
    var held := buf[n..];
    assert Incomplete(held, 0);
    IncompleteIsStart(held);
    CharStartIsProperPrefix(held);
  }

  /** Two bytes that begin no character, held back. */
  lemma HeldCanBeInvalid()
    ensures SplitPoint([0xE0, 0x80]) == 0 && forall c: Bytes :: !(IsChar(c) && [0xE0, 0x80] < c)
  {
    var buf: Bytes := [0xE0, 0x80];
    assert Incomplete(buf, 0);
    assert buf[0..] == buf;
    HeldCanComplete(buf);
  }
}
