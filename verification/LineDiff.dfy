/** Line diff by longest common subsequence (src/web/src/chat/diff.ts). */
module LineDiff {
  import opened Lines
  import opened Wrappers

  const MAX_LINES := 2000

  datatype Kind = Context | Add | Remove

  datatype Row = Row(kind: Kind, text: string, oldLine: Option<nat>, newLine: Option<nat>)

  datatype DiffResult = DiffResult(lines: seq<Row>, added: nat, removed: nat, truncated: bool)

  // ---- lines -----------------------------------------------------------------------

  function SplitLines(text: string): seq<string> {
    if text == "" then []
    else
      var pieces := Split(text);
      if pieces[|pieces| - 1] == "" then pieces[..|pieces| - 1] else pieces
  }

  /** The lines are the text between line breaks; a final line break opens no further line. */
  lemma JoinSplitLines(text: string)
    requires text != ""
    ensures Join(SplitLines(text)) == if text[|text| - 1] == '\n' then text[..|text| - 1] else text
    ensures SplitLines(text) != [] && forall k | 0 <= k < |SplitLines(text)| :: '\n' !in SplitLines(text)[k]
  {
    JoinSplit(text);
    var init := text[..|text| - 1];
    JoinSplit(init);
    var pieces := Split(text);
    if text[|text| - 1] == '\n' {
      assert pieces[..|pieces| - 1] == Split(init);
    }
  }

  /** As many lines as line breaks, and one more exactly when the text does not end at one; none in an empty text. */
  lemma LineCount(text: string)
    ensures |SplitLines(text)| == multiset(text)['\n'] + if text != "" && text[|text| - 1] != '\n' then 1 else 0
  {
    SplitCount(text);
  }

  // ---- what a diff is ------------------------------------------------------------------

  function Count(rows: seq<Row>, kind: Kind): nat {
    if rows == [] then 0
    else Count(rows[..|rows| - 1], kind) + if rows[|rows| - 1].kind == kind then 1 else 0
  }

  /** The rows other than those of one kind, as text and line number in the other file. */
  function OldSide(rows: seq<Row>): seq<(string, Option<nat>)> {
    if rows == [] then []
    else
      var init, last := OldSide(rows[..|rows| - 1]), rows[|rows| - 1];
      if last.kind == Add then init else init + [(last.text, last.oldLine)]
  }

  function NewSide(rows: seq<Row>): seq<(string, Option<nat>)> {
    if rows == [] then []
    else
      var init, last := NewSide(rows[..|rows| - 1]), rows[|rows| - 1];
      if last.kind == Remove then init else init + [(last.text, last.newLine)]
  }

  /** The first n lines with their 1-based numbers. */
  function Numbered(lines: seq<string>, n: nat): seq<(string, Option<nat>)>
    requires n <= |lines|
  {
    if n == 0 then [] else Numbered(lines, n - 1) + [(lines[n - 1], Some(n))]
  }

  /** Added rows have no line number in the old file, removed rows none in the new one. */
  predicate Proper(rows: seq<Row>) {
    rows == [] ||
    var last := rows[|rows| - 1];
    && Proper(rows[..|rows| - 1])
    && (last.kind == Add ==> last.oldLine == None) && (last.kind == Remove ==> last.newLine == None)
  }

  /** rows turn a into b: without added rows they spell a, without removed rows they spell b. */
  ghost predicate IsScript(rows: seq<Row>, a: seq<string>, b: seq<string>) {
    OldSide(rows) == Numbered(a, |a|) && NewSide(rows) == Numbered(b, |b|) && Proper(rows)
  }

  /** No added line stands right above a removed one. */
  predicate RemovalsFirst(rows: seq<Row>) {
    |rows| < 2 ||
    (RemovalsFirst(rows[..|rows| - 1]) && !(rows[|rows| - 2].kind == Add && rows[|rows| - 1].kind == Remove))
  }

  lemma Push(rows: seq<Row>, r: Row)
    ensures OldSide(rows + [r]) == OldSide(rows) + if r.kind == Add then [] else [(r.text, r.oldLine)]
    ensures NewSide(rows + [r]) == NewSide(rows) + if r.kind == Remove then [] else [(r.text, r.newLine)]
    ensures Proper(rows + [r]) <==>
      Proper(rows) && (r.kind == Add ==> r.oldLine == None) && (r.kind == Remove ==> r.newLine == None)
    ensures RemovalsFirst(rows + [r]) <==>
      RemovalsFirst(rows) && (rows != [] ==> !(rows[|rows| - 1].kind == Add && r.kind == Remove))
    ensures forall kind :: Count(rows + [r], kind) == Count(rows, kind) + if r.kind == kind then 1 else 0
  {
    assert (rows + [r])[..|rows|] == rows;
  }

  /** rows turn the first i lines of a into the first j lines of b, and the counters count them. */
  ghost predicate Partial(rows: seq<Row>, a: seq<string>, b: seq<string>, i: nat, j: nat, added: nat, removed: nat) {
    && i <= |a| && j <= |b|
    && OldSide(rows) == Numbered(a, i) && NewSide(rows) == Numbered(b, j) && Proper(rows)
    && added == Count(rows, Add) && removed == Count(rows, Remove)
  }

  function ContextRow(a: seq<string>, i: nat, j: nat): Row
    requires i < |a|
  {
    Row(Context, a[i], Some(i + 1), Some(j + 1))
  }

  function RemoveRow(a: seq<string>, i: nat): Row
    requires i < |a|
  {
    Row(Remove, a[i], Some(i + 1), None)
  }

  function AddRow(b: seq<string>, j: nat): Row
    requires j < |b|
  {
    Row(Add, b[j], None, Some(j + 1))
  }

  lemma PushContext(rows: seq<Row>, a: seq<string>, b: seq<string>, i: nat, j: nat, added: nat, removed: nat)
    requires Partial(rows, a, b, i, j, added, removed) && i < |a| && j < |b| && a[i] == b[j]
    ensures Partial(rows + [ContextRow(a, i, j)], a, b, i + 1, j + 1, added, removed)
    ensures Tidy(rows, a, b, i, j) ==> Tidy(rows + [ContextRow(a, i, j)], a, b, i + 1, j + 1)
    ensures Count(rows + [ContextRow(a, i, j)], Context) == Count(rows, Context) + 1
  {
    Push(rows, ContextRow(a, i, j));
  }

  lemma PushRemove(rows: seq<Row>, a: seq<string>, b: seq<string>, i: nat, j: nat, added: nat, removed: nat)
    requires Partial(rows, a, b, i, j, added, removed) && i < |a|
    ensures Partial(rows + [RemoveRow(a, i)], a, b, i + 1, j, added, removed + 1)
    ensures Tidy(rows, a, b, i, j) && !NoRemoval(a, b, i, j) ==> Tidy(rows + [RemoveRow(a, i)], a, b, i + 1, j)
    ensures Count(rows + [RemoveRow(a, i)], Context) == Count(rows, Context)
  {
    Push(rows, RemoveRow(a, i));
  }

  lemma PushAdd(rows: seq<Row>, a: seq<string>, b: seq<string>, i: nat, j: nat, added: nat, removed: nat)
    requires Partial(rows, a, b, i, j, added, removed) && j < |b|
    ensures Partial(rows + [AddRow(b, j)], a, b, i, j + 1, added + 1, removed)
    ensures Tidy(rows, a, b, i, j) && NoRemoval(a, b, i, j + 1) ==> Tidy(rows + [AddRow(b, j)], a, b, i, j + 1)
    ensures Count(rows + [AddRow(b, j)], Context) == Count(rows, Context)
  {
    Push(rows, AddRow(b, j));
  }

  // ---- what the rows of a diff say ------------------------------------------------------------

  lemma {:induction false} NumberedAt(lines: seq<string>, n: nat, k: nat)
    requires k < n <= |lines|
    ensures |Numbered(lines, n)| == n && Numbered(lines, n)[k] == (lines[k], Some(k + 1))
  {
    if k < n - 1 {
      NumberedAt(lines, n - 1, k);
    } else if 0 < k {
      NumberedAt(lines, n - 1, k - 1);
    }
  }

  /** A row that is not added stands in the old side at the place that counts the rows before it. */
  lemma {:induction false} SideAt(rows: seq<Row>, k: nat)
    requires k < |rows|
    ensures var row, init := rows[k], rows[..k];
      && (row.kind != Add ==>
            var i := Count(init, Context) + Count(init, Remove);
            i < |OldSide(rows)| && OldSide(rows)[i] == (row.text, row.oldLine))
      && (row.kind != Remove ==>
            var j := Count(init, Context) + Count(init, Add);
            j < |NewSide(rows)| && NewSide(rows)[j] == (row.text, row.newLine))
  {
    var init := rows[..|rows| - 1];
    if k < |init| {
      SideAt(init, k);
      assert init[..k] == rows[..k];
    } else {
      ContextIsCommon(init);
    }
  }

  lemma {:induction false} ProperAt(rows: seq<Row>, k: nat)
    requires Proper(rows) && k < |rows|
    ensures (rows[k].kind == Add ==> rows[k].oldLine == None) && (rows[k].kind == Remove ==> rows[k].newLine == None)
  {
    if k < |rows| - 1 {
      ProperAt(rows[..|rows| - 1], k);
    }
  }

  /**
   * Each row shows the line of the old file after those shown so far, the like of the new file, or,
   * unchanged, both, with their 1-based numbers.
   */
  lemma RowShowsLine(rows: seq<Row>, a: seq<string>, b: seq<string>, k: nat)
    requires IsScript(rows, a, b) && k < |rows|
    ensures var row := rows[k];
      var i := Count(rows[..k], Context) + Count(rows[..k], Remove);
      var j := Count(rows[..k], Context) + Count(rows[..k], Add);
      && (if row.kind == Add then row.oldLine == None
          else i < |a| && row.text == a[i] && row.oldLine == Some(i + 1))
      && (if row.kind == Remove then row.newLine == None
          else j < |b| && row.text == b[j] && row.newLine == Some(j + 1))
  {
    SideAt(rows, k);
    ProperAt(rows, k);
    ContextIsCommon(rows);
    NumberedTexts(a, |a|);
    NumberedTexts(b, |b|);
    var i := Count(rows[..k], Context) + Count(rows[..k], Remove);
    var j := Count(rows[..k], Context) + Count(rows[..k], Add);
    if rows[k].kind != Add {
      NumberedAt(a, |a|, i);
    }
    if rows[k].kind != Remove {
      NumberedAt(b, |b|, j);
    }
  }

  /** A diff from nothing only adds, a diff to nothing only removes. */
  lemma OneSided(rows: seq<Row>, a: seq<string>, b: seq<string>)
    requires IsScript(rows, a, b)
    ensures a == [] ==> Count(rows, Remove) == 0 && forall k | 0 <= k < |rows| :: rows[k].kind == Add
    ensures b == [] ==> Count(rows, Add) == 0 && forall k | 0 <= k < |rows| :: rows[k].kind == Remove
  {
    forall k: nat | k < |rows|
      ensures (a == [] ==> rows[k].kind == Add) && (b == [] ==> rows[k].kind == Remove)
    {
      RowShowsLine(rows, a, b, k);
    }
    ContextIsCommon(rows);
    NumberedTexts(a, |a|);
    NumberedTexts(b, |b|);
  }

  // ---- the table -----------------------------------------------------------------------------

  /** Length of a longest common subsequence of a[i..] and b[j..]. */
  function Lcs(a: seq<string>, b: seq<string>, i: nat, j: nat): nat
    requires i <= |a| && j <= |b|
    decreases |a| - i + |b| - j
  {
    if i == |a| || j == |b| then 0
    else if a[i] == b[j] then Lcs(a, b, i + 1, j + 1) + 1
    else if Lcs(a, b, i + 1, j) < Lcs(a, b, i, j + 1) then Lcs(a, b, i, j + 1)
    else Lcs(a, b, i + 1, j)
  }

  /** The walk does not remove a line here. */
  ghost predicate NoRemoval(a: seq<string>, b: seq<string>, i: nat, j: nat)
    requires i <= |a| && j <= |b|
  {
    i < |a| ==> j < |b| && (a[i] == b[j] || Lcs(a, b, i + 1, j) < Lcs(a, b, i, j + 1))
  }

  /** Removals come first so far, and no removal is next if the last row is an addition. */
  ghost predicate Tidy(rows: seq<Row>, a: seq<string>, b: seq<string>, i: nat, j: nat) {
    && i <= |a| && j <= |b| && RemovalsFirst(rows)
    && (rows != [] && rows[|rows| - 1].kind == Add ==> NoRemoval(a, b, i, j))
  }

  /** With fewer lines of b there is no more in common. */
  lemma LcsShrinks(a: seq<string>, b: seq<string>, i: nat, j: nat)
    requires i <= |a| && j < |b|
    ensures Lcs(a, b, i, j + 1) <= Lcs(a, b, i, j)
  {
    var c := LcsIsAttained(a, b, i, j + 1);
    SubseqCons(c, b[j + 1..], b[j]);
    assert [b[j]] + b[j + 1..] == b[j..];
    LcsIsBound(c, a, b, i, j);
  }

  /** Having added a line because removing gains less, the walk does not remove the next. */
  lemma AfterAddition(a: seq<string>, b: seq<string>, i: nat, j: nat)
    requires i < |a| && j < |b| && a[i] != b[j] && Lcs(a, b, i + 1, j) < Lcs(a, b, i, j + 1)
    ensures NoRemoval(a, b, i, j + 1)
  {
    LcsShrinks(a, b, i + 1, j);
  }

  /** Cells of the table that are filled once row i is done down to column j. */
  ghost predicate Filled(table: array2<nat>, a: seq<string>, b: seq<string>, i: nat, j: nat)
    requires table.Length0 == |a| + 1 && table.Length1 == |b| + 1
    reads table
  {
    && (forall k, l | 0 <= k <= |a| && 0 <= l <= |b| && (i < k || (k == i && j <= l)) :: table[k, l] == Lcs(a, b, k, l))
    && (forall k | 0 <= k <= |a| :: table[k, |b|] == 0)
  }

  method FillCell(table: array2<nat>, a: seq<string>, b: seq<string>, i: nat, j: nat)
    requires table.Length0 == |a| + 1 && table.Length1 == |b| + 1
    requires i < |a| && j < |b| && Filled(table, a, b, i, j + 1)
    modifies table
    ensures Filled(table, a, b, i, j)
  {
    table[i, j] :=
      if a[i] == b[j] then table[i + 1, j + 1] + 1
      else if table[i + 1, j] < table[i, j + 1] then table[i, j + 1]
      else table[i + 1, j];
  }

  method LcsTable(a: seq<string>, b: seq<string>) returns (table: array2<nat>)
    ensures fresh(table) && table.Length0 == |a| + 1 && table.Length1 == |b| + 1
    ensures forall i, j | 0 <= i <= |a| && 0 <= j <= |b| :: table[i, j] == Lcs(a, b, i, j)
  {
    table := new nat[|a| + 1, |b| + 1]((i, j) => 0);
    var i := |a|;
    while 0 < i
      invariant 0 <= i <= |a| && Filled(table, a, b, i, 0)
    {
      i := i - 1;
      var j := |b|;
      while 0 < j
        invariant 0 <= j <= |b| && Filled(table, a, b, i, j)
      {
        j := j - 1;
        FillCell(table, a, b, i, j);
      }
    }
  }

  // ---- the diff -------------------------------------------------------------------------------

  method LineDiff(oldText: Option<string>, newText: string) returns (r: DiffResult)
    ensures var before, after := SplitLines(if oldText.Some? then oldText.value else ""), SplitLines(newText);
      && IsScript(r.lines, before, after) && RemovalsFirst(r.lines)
      && r.added == Count(r.lines, Add) && r.removed == Count(r.lines, Remove)
      && r.truncated == (2000 < |before| || 2000 < |after|)
      && Count(r.lines, Context) == if r.truncated then 0 else Lcs(before, after, 0, 0)
    ensures oldText.None? || oldText.value == "" ==>
      r.removed == 0 && forall k | 0 <= k < |r.lines| :: r.lines[k].kind == Add
    ensures newText == "" ==> r.added == 0 && forall k | 0 <= k < |r.lines| :: r.lines[k].kind == Remove
  {
    var before := SplitLines(if oldText.Some? then oldText.value else "");
    var after := SplitLines(newText);
    if MAX_LINES < |before| || MAX_LINES < |after| {
      r := WholeFile(before, after);
    } else {
      var lcs := LcsTable(before, after);
      r := Walk(before, after, lcs);
    }
    LineCount(if oldText.Some? then oldText.value else "");
    LineCount(newText);
    OneSided(r.lines, before, after);
  }

  /** The walk has come to (i, j) by tidy rows that keep as many lines as the rest allows. */
  ghost predicate Walked(rows: seq<Row>, a: seq<string>, b: seq<string>, i: nat, j: nat, added: nat, removed: nat) {
    && Partial(rows, a, b, i, j, added, removed) && Tidy(rows, a, b, i, j)
    && Count(rows, Context) + Lcs(a, b, i, j) == Lcs(a, b, 0, 0)
  }

  lemma WalkContext(rows: seq<Row>, a: seq<string>, b: seq<string>, i: nat, j: nat, added: nat, removed: nat)
    requires Walked(rows, a, b, i, j, added, removed) && i < |a| && j < |b| && a[i] == b[j]
    ensures Walked(rows + [ContextRow(a, i, j)], a, b, i + 1, j + 1, added, removed)
  {
    PushContext(rows, a, b, i, j, added, removed);
  }

  lemma WalkRemove(rows: seq<Row>, a: seq<string>, b: seq<string>, i: nat, j: nat, added: nat, removed: nat)
    requires Walked(rows, a, b, i, j, added, removed) && i < |a| && j < |b| && a[i] != b[j]
    requires Lcs(a, b, i, j + 1) <= Lcs(a, b, i + 1, j)
    ensures Walked(rows + [RemoveRow(a, i)], a, b, i + 1, j, added, removed + 1)
  {
    PushRemove(rows, a, b, i, j, added, removed);
  }

  lemma WalkAdd(rows: seq<Row>, a: seq<string>, b: seq<string>, i: nat, j: nat, added: nat, removed: nat)
    requires Walked(rows, a, b, i, j, added, removed) && i < |a| && j < |b| && a[i] != b[j]
    requires Lcs(a, b, i + 1, j) < Lcs(a, b, i, j + 1)
    ensures Walked(rows + [AddRow(b, j)], a, b, i, j + 1, added + 1, removed)
  {
    AfterAddition(a, b, i, j);
    PushAdd(rows, a, b, i, j, added, removed);
  }

  /** The greedy walk down the table, then the rest of whichever file is left over. */
  method Walk(before: seq<string>, after: seq<string>, lcs: array2<nat>) returns (r: DiffResult)
    requires lcs.Length0 == |before| + 1 && lcs.Length1 == |after| + 1
    requires forall i, j | 0 <= i <= |before| && 0 <= j <= |after| :: lcs[i, j] == Lcs(before, after, i, j)
    ensures IsScript(r.lines, before, after) && RemovalsFirst(r.lines) && !r.truncated
    ensures r.added == Count(r.lines, Add) && r.removed == Count(r.lines, Remove)
    ensures Count(r.lines, Context) == Lcs(before, after, 0, 0)
  {
    var lines: seq<Row> := [];
    var added, removed, i, j := 0, 0, 0, 0;
    while i < |before| && j < |after|
      invariant i <= |before| && j <= |after| && Walked(lines, before, after, i, j, added, removed)
      decreases |before| - i + |after| - j
    {
      if before[i] == after[j] {
        WalkContext(lines, before, after, i, j, added, removed);
        lines := lines + [Row(Context, before[i], Some(i + 1), Some(j + 1))];
        i, j := i + 1, j + 1;
      } else if lcs[i, j + 1] <= lcs[i + 1, j] {
        WalkRemove(lines, before, after, i, j, added, removed);
        lines := lines + [Row(Remove, before[i], Some(i + 1), None)];
        removed, i := removed + 1, i + 1;
      } else {
        WalkAdd(lines, before, after, i, j, added, removed);
        lines := lines + [Row(Add, after[j], None, Some(j + 1))];
        added, j := added + 1, j + 1;
      }
    }
    r := AppendRest(before, after, lines, i, j, added, removed);
  }

  method AppendRest(before: seq<string>, after: seq<string>, start: seq<Row>, i0: nat, j0: nat, added0: nat,
                    removed0: nat)
    returns (r: DiffResult)
    requires Partial(start, before, after, i0, j0, added0, removed0) && Tidy(start, before, after, i0, j0)
    requires i0 == |before| || j0 == |after|
    ensures IsScript(r.lines, before, after) && RemovalsFirst(r.lines) && !r.truncated
    ensures r.added == Count(r.lines, Add) && r.removed == Count(r.lines, Remove)
    ensures Count(r.lines, Context) == Count(start, Context)
  {
    var lines, i, j, added, removed := start, i0, j0, added0, removed0;
    while i < |before|
      invariant Partial(lines, before, after, i, j, added, removed) && Tidy(lines, before, after, i, j)
      invariant i < |before| ==> j == |after|
      invariant Count(lines, Context) == Count(start, Context)
    {
      PushRemove(lines, before, after, i, j, added, removed);
      lines := lines + [Row(Remove, before[i], Some(i + 1), None)];
      removed, i := removed + 1, i + 1;
    }
    while j < |after|
      invariant Partial(lines, before, after, |before|, j, added, removed) && Tidy(lines, before, after, |before|, j)
      invariant Count(lines, Context) == Count(start, Context)
    {
      PushAdd(lines, before, after, |before|, j, added, removed);
      lines := lines + [Row(Add, after[j], None, Some(j + 1))];
      added, j := added + 1, j + 1;
    }
    r := DiffResult(lines, added, removed, false);
  }

  method WholeFile(before: seq<string>, after: seq<string>) returns (r: DiffResult)
    ensures IsScript(r.lines, before, after) && RemovalsFirst(r.lines) && r.truncated
    ensures r.added == Count(r.lines, Add) && r.removed == Count(r.lines, Remove) && Count(r.lines, Context) == 0
  {
    var lines: seq<Row> := [];
    for i := 0 to |before|
      invariant Partial(lines, before, after, i, 0, 0, i) && Count(lines, Context) == 0
      invariant RemovalsFirst(lines) && (lines != [] ==> lines[|lines| - 1].kind == Remove)
    {
      PushRemove(lines, before, after, i, 0, 0, i);
      lines := lines + [Row(Remove, before[i], Some(i + 1), None)];
    }
    for j := 0 to |after|
      invariant Partial(lines, before, after, |before|, j, j, |before|) && Count(lines, Context) == 0
      invariant RemovalsFirst(lines)
    {
      PushAdd(lines, before, after, |before|, j, j, |before|);
      lines := lines + [Row(Add, after[j], None, Some(j + 1))];
    }
    r := DiffResult(lines, |after|, |before|, true);
  }

  // ---- optimality --------------------------------------------------------------------------------

  ghost predicate IsSubseq(c: seq<string>, s: seq<string>) {
    if c == [] then true
    else s != [] && ((c[0] == s[0] && IsSubseq(c[1..], s[1..])) || IsSubseq(c, s[1..]))
  }

  ghost predicate IsCommon(c: seq<string>, a: seq<string>, b: seq<string>) { IsSubseq(c, a) && IsSubseq(c, b) }

  lemma {:induction false} SubseqTail(c: seq<string>, s: seq<string>)
    requires c != [] && IsSubseq(c, s)
    ensures IsSubseq(c[1..], s[1..])
  {
    if !(c[0] == s[0] && IsSubseq(c[1..], s[1..])) {
      SubseqTail(c, s[1..]);
      SubseqCons(c[1..], s[1..][1..], s[1]);
      assert s[1..] == [s[1]] + s[1..][1..];
    }
  }

  lemma SubseqCons(c: seq<string>, s: seq<string>, x: string)
    requires IsSubseq(c, s)
    ensures IsSubseq(c, [x] + s)
  {
    assert ([x] + s)[1..] == s;
  }

  /** No common subsequence is longer than the table says. */
  lemma {:induction false} LcsIsBound(c: seq<string>, a: seq<string>, b: seq<string>, i: nat, j: nat)
    requires i <= |a| && j <= |b| && IsCommon(c, a[i..], b[j..])
    ensures |c| <= Lcs(a, b, i, j)
    decreases |a| - i + |b| - j
  {
    if c != [] {
      assert a[i..][1..] == a[i + 1..] && b[j..][1..] == b[j + 1..];
      if a[i] == b[j] {
        SubseqTail(c, a[i..]);
        SubseqTail(c, b[j..]);
        LcsIsBound(c[1..], a, b, i + 1, j + 1);
      } else if c[0] != a[i] {
        LcsIsBound(c, a, b, i + 1, j);
      } else {
        LcsIsBound(c, a, b, i, j + 1);
      }
    }
  }

  lemma {:induction false} SubseqSnoc(c: seq<string>, s: seq<string>, x: string)
    requires IsSubseq(c, s)
    ensures IsSubseq(c, s + [x]) && IsSubseq(c + [x], s + [x])
  {
    if s == [] {
      assert [x][1..] == [];
    } else {
      assert (s + [x])[1..] == s[1..] + [x];
      if c == [] {
        SubseqSnoc([], s[1..], x);
      } else if c[0] == s[0] && IsSubseq(c[1..], s[1..]) {
        SubseqSnoc(c[1..], s[1..], x);
        assert (c + [x])[1..] == c[1..] + [x];
      } else {
        SubseqSnoc(c, s[1..], x);
      }
    }
  }

  function Texts(side: seq<(string, Option<nat>)>): seq<string> {
    seq(|side|, i requires 0 <= i < |side| => side[i].0)
  }

  lemma {:induction false} NumberedTexts(lines: seq<string>, n: nat)
    requires n <= |lines|
    ensures Texts(Numbered(lines, n)) == lines[..n]
  {
    if n > 0 {
      NumberedTexts(lines, n - 1);
      assert lines[..n] == lines[..n - 1] + [lines[n - 1]];
    }
  }

  function ContextTexts(rows: seq<Row>): seq<string> {
    if rows == [] then []
    else
      var init, last := ContextTexts(rows[..|rows| - 1]), rows[|rows| - 1];
      if last.kind == Context then init + [last.text] else init
  }

  /** The unchanged lines of any rows are a common subsequence of what the rows spell. */
  lemma {:induction false} ContextIsCommon(rows: seq<Row>)
    ensures IsCommon(ContextTexts(rows), Texts(OldSide(rows)), Texts(NewSide(rows)))
    ensures |ContextTexts(rows)| == Count(rows, Context)
    ensures |OldSide(rows)| == Count(rows, Context) + Count(rows, Remove)
    ensures |NewSide(rows)| == Count(rows, Context) + Count(rows, Add)
  {
    if rows != [] {
      var init, last := rows[..|rows| - 1], rows[|rows| - 1];
      ContextIsCommon(init);
      var c, a, b := ContextTexts(init), Texts(OldSide(init)), Texts(NewSide(init));
      assert last.kind != Add ==> Texts(OldSide(rows)) == a + [last.text];
      assert last.kind != Remove ==> Texts(NewSide(rows)) == b + [last.text];
      SubseqSnoc(c, a, last.text);
      SubseqSnoc(c, b, last.text);
    }
  }

  /** Some common subsequence is as long as the table says: Lcs is the maximum. */
  lemma {:induction false} LcsIsAttained(a: seq<string>, b: seq<string>, i: nat, j: nat) returns (c: seq<string>)
    requires i <= |a| && j <= |b|
    ensures IsCommon(c, a[i..], b[j..]) && |c| == Lcs(a, b, i, j)
    decreases |a| - i + |b| - j
  {
    if i == |a| || j == |b| {
      c := [];
    } else {
      assert a[i..][1..] == a[i + 1..] && b[j..][1..] == b[j + 1..];
      if a[i] == b[j] {
        var rest := LcsIsAttained(a, b, i + 1, j + 1);
        c := [a[i]] + rest;
        assert c[1..] == rest;
      } else if Lcs(a, b, i + 1, j) < Lcs(a, b, i, j + 1) {
        c := LcsIsAttained(a, b, i, j + 1);
      } else {
        c := LcsIsAttained(a, b, i + 1, j);
      }
    }
  }

  /**
   * A diff with Lcs unchanged rows is the shortest there is: any rows at all that spell the two
   * files add and remove at least as many lines.
   */
  lemma DiffIsMinimal(rows: seq<Row>, other: seq<Row>, a: seq<string>, b: seq<string>)
    requires IsScript(rows, a, b) && Count(rows, Context) == Lcs(a, b, 0, 0)
    requires IsScript(other, a, b)
    ensures Count(rows, Add) + Count(rows, Remove) <= Count(other, Add) + Count(other, Remove)
  {
    ContextIsCommon(rows);
    ContextIsCommon(other);
    NumberedTexts(a, |a|);
    NumberedTexts(b, |b|);
    assert a[..|a|] == a == a[0..] && b[..|b|] == b == b[0..];
    LcsIsBound(ContextTexts(other), a, b, 0, 0);
  }
}
