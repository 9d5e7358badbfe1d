/** Text as lines. */
module Lines {
  /** The pieces of a text between line breaks. */
  function Split(text: string): (pieces: seq<string>)
    ensures pieces != []
  {
    if text == "" then [""]
    else
      Grow(Split(text[..|text| - 1]), text[|text| - 1])
  }

  function Grow(pieces: seq<string>, c: char): (grown: seq<string>)
    requires pieces != []
    ensures grown != []
  {
    if c == '\n' then pieces + [""] else pieces[|pieces| - 1 := pieces[|pieces| - 1] + [c]]
  }

  function Join(pieces: seq<string>): string {
    if pieces == [] then ""
    else if |pieces| == 1 then pieces[0]
    else Join(pieces[..|pieces| - 1]) + "\n" + pieces[|pieces| - 1]
  }

  lemma {:induction false} JoinSplit(text: string)
    ensures Join(Split(text)) == text
    ensures forall k | 0 <= k < |Split(text)| :: '\n' !in Split(text)[k]
  {
    if text != "" {
      var init, c := text[..|text| - 1], text[|text| - 1];
      JoinSplit(init);
      var before := Split(init);
      assert text == init + [c];
      assert Split(text)[..|Split(text)| - 1] == if c == '\n' then before else before[..|before| - 1];
    }
  }

  lemma {:induction false} SplitCount(text: string)
    ensures |Split(text)| == multiset(text)['\n'] + 1
    ensures text != "" ==> (Last(Split(text)) == "" <==> text[|text| - 1] == '\n')
  {
    if text != "" {
      var init, c := text[..|text| - 1], text[|text| - 1];
      SplitCount(init);
      assert text == init + [c];
    }
  }

  lemma Cut<T>(s: seq<T>, k: nat)
    requires k < |s|
    ensures s == (s[..k] + [s[k]]) + s[k + 1..]
    ensures k == |s| - 1 ==> s == s[..k] + [s[k]]
  {
  }

  // ---- lines of a growing text ---------------------------------------------------------

  /** Lines, each with its line break. */
  function Ended(lines: seq<string>): string {
    if lines == [] then "" else Ended(lines[..|lines| - 1]) + (lines[|lines| - 1] + "\n")
  }

  function Init(pieces: seq<string>): seq<string>
    requires pieces != []
  {
    pieces[..|pieces| - 1]
  }

  function Last(pieces: seq<string>): string
    requires pieces != []
  {
    pieces[|pieces| - 1]
  }

  lemma GrowIsEnded(pieces: seq<string>, c: char)
    requires pieces != []
    ensures Ended(Init(Grow(pieces, c))) + Last(Grow(pieces, c)) == Ended(Init(pieces)) + Last(pieces) + [c]
  {
    if c == '\n' {
      assert Init(Grow(pieces, c)) == pieces;
    } else {
      assert Init(Grow(pieces, c)) == Init(pieces);
    }
  }

  /** A text is its ended lines and the line it is in. */
  lemma {:induction false} SplitIsEnded(text: string)
    ensures text == Ended(Init(Split(text))) + Last(Split(text))
  {
    if text != "" {
      var init, c := text[..|text| - 1], text[|text| - 1];
      SplitIsEnded(init);
      GrowIsEnded(Split(init), c);
      assert text == init + [c];
    }
  }

  lemma EndedSnoc(lines: seq<string>, line: string)
    ensures Ended(lines + [line]) == Ended(lines) + (line + "\n")
  {
    assert (lines + [line])[..|lines|] == lines;
  }

  /** Pieces whose last goes on with the first of others. */
  function Glue(a: seq<string>, b: seq<string>): (glued: seq<string>)
    requires a != [] && b != []
    ensures glued != []
  {
    Init(a) + ([Last(a) + b[0]] + b[1..])
  }

  lemma GlueGrow(a: seq<string>, b: seq<string>, c: char)
    requires a != [] && b != []
    ensures Glue(a, Grow(b, c)) == Grow(Glue(a, b), c)
  {
    var last := b[|b| - 1] + [c];
    if c == '\n' {
      GlueSnoc(Init(a), Last(a), b);
    } else if |b| == 1 {
      assert (Last(a) + b[0]) + [c] == Last(a) + (b[0] + [c]);
    } else {
      GlueUpdate(Init(a), [Last(a) + b[0]], b, last);
    }
  }

  lemma GlueSnoc(init: seq<string>, last: string, b: seq<string>)
    requires b != []
    ensures init + ([last + (b + [""])[0]] + (b + [""])[1..]) == (init + ([last + b[0]] + b[1..])) + [""]
  {
    assert (b + [""])[1..] == b[1..] + [""];
  }

  lemma GlueUpdate(init: seq<string>, joined: seq<string>, b: seq<string>, last: string)
    requires |b| > 1 && |joined| == 1
    ensures var glued := init + (joined + b[1..]);
      init + (joined + b[|b| - 1 := last][1..]) == glued[|glued| - 1 := last]
  {
  }

  /** Appended text goes on in the last line. */
  lemma {:induction false} SplitAppend(text: string, more: string)
    ensures Split(text + more) == Glue(Split(text), Split(more))
  {
    if more == "" {
      assert text + more == text;
      assert Glue(Split(text), [""]) == Init(Split(text)) + [Last(Split(text)) + ""];
      assert Last(Split(text)) + "" == Last(Split(text));
    } else {
      var init, c := more[..|more| - 1], more[|more| - 1];
      SplitAppend(text, init);
      GlueGrow(Split(text), Split(init), c);
      assert (text + more)[..|text + more| - 1] == text + init;
    }
  }

  ghost predicate Unbroken(lines: seq<string>) {
    forall k | 0 <= k < |lines| :: '\n' !in lines[k]
  }

  lemma {:induction false} EndedConcat(a: seq<string>, b: seq<string>)
    ensures Ended(a + b) == Ended(a) + Ended(b)
  {
    if b == [] {
      assert a + b == a;
    } else {
      EndedConcat(a, Init(b));
      EndedSnoc(a + Init(b), Last(b));
      assert a + b == (a + Init(b)) + [Last(b)];
      assert (Ended(a) + Ended(Init(b))) + (Last(b) + "\n") == Ended(a) + (Ended(Init(b)) + (Last(b) + "\n"));
    }
  }

  lemma {:induction false} SplitUnbroken(line: string)
    requires '\n' !in line
    ensures Split(line) == [line]
  {
    if line != "" {
      SplitUnbroken(line[..|line| - 1]);
      assert line == line[..|line| - 1] + [line[|line| - 1]];
    }
  }

  lemma SplitAfterBreak(line: string)
    requires '\n' !in line
    ensures Split("\n" + line) == ["", line]
  {
    SplitUnbroken(line);
    SplitAppend("\n", line);
    assert "\n"[..0] == "" && Split("\n") == ["", ""];
    assert "" + line == line;
  }

  /** Splitting gives back the lines a text was put together from. */
  lemma {:induction false} SplitOfEnded(lines: seq<string>, last: string)
    requires Unbroken(lines) && '\n' !in last
    ensures Split(Ended(lines) + last) == lines + [last]
  {
    SplitUnbroken(last);
    if lines == [] {
      assert Ended(lines) + last == last;
    } else {
      SplitOfEnded(Init(lines), Last(lines));
      assert Init(lines) + [Last(lines)] == lines;
      var before := Ended(Init(lines)) + Last(lines);
      assert Ended(lines) + last == before + ("\n" + last);
      SplitAppend(before, "\n" + last);
      SplitAfterBreak(last);
      assert Last(lines) + "" == Last(lines);
      assert Glue(lines, ["", last]) == Init(lines) + ([Last(lines)] + [last]) == lines + [last];
    }
  }
}
