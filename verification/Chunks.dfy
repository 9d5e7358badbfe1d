/** Sequences of chunks and the byte offsets at which one chunk ends and the next begins. */
module Chunks {
  type byte = b: int | 0 <= b < 256
  type Bytes = seq<byte>

  function Flatten<T>(chunks: seq<seq<T>>): seq<T> {
    if chunks == [] then [] else Flatten(chunks[..|chunks| - 1]) + chunks[|chunks| - 1]
  }

  /** Number of elements in the first k chunks. */
  function Offset<T>(chunks: seq<seq<T>>, k: nat): nat
    requires k <= |chunks|
  {
    if k == 0 then 0 else Offset(chunks, k - 1) + |chunks[k - 1]|
  }

  function Total<T>(chunks: seq<seq<T>>): nat {
    Offset(chunks, |chunks|)
  }

  ghost predicate EndsAt<T>(chunks: seq<seq<T>>, k: nat, o: nat) { k <= |chunks| && Offset(chunks, k) == o }

  ghost predicate IsBoundary<T>(chunks: seq<seq<T>>, o: nat) {
    exists k: nat :: EndsAt(chunks, k, o)
  }

  ghost predicate NonEmptyChunks<T>(chunks: seq<seq<T>>) {
    forall k | 0 <= k < |chunks| :: chunks[k] != []
  }

  lemma FlattenSnoc<T>(chunks: seq<seq<T>>, c: seq<T>)
    ensures Flatten(chunks + [c]) == Flatten(chunks) + c
  {
    assert (chunks + [c])[..|chunks|] == chunks;
  }

  lemma {:induction false} FlattenConcat<T>(a: seq<seq<T>>, b: seq<seq<T>>)
    ensures Flatten(a + b) == Flatten(a) + Flatten(b)
  {
    if b == [] {
      assert a + b == a;
    } else {
      var init, last := b[..|b| - 1], b[|b| - 1];
      FlattenConcat(a, init);
      FlattenSnoc(a + init, last);
      assert a + b == (a + init) + [last];
      assert Flatten(b) == Flatten(init) + last;
      assert (Flatten(a) + Flatten(init)) + last == Flatten(a) + (Flatten(init) + last);
    }
  }

  lemma FlattenOne<T>(c: seq<T>)
    ensures Flatten([c]) == c
  {
    FlattenSnoc([], c);
  }

  lemma {:induction false} OffsetOrder<T>(chunks: seq<seq<T>>, i: nat, j: nat)
    requires i <= j <= |chunks|
    ensures Offset(chunks, i) <= Offset(chunks, j)
    ensures NonEmptyChunks(chunks) && i < j ==> Offset(chunks, i) < Offset(chunks, j)
  {
    if i < j {
      OffsetOrder(chunks, i, j - 1);
    }
  }

  /** Appending chunks moves no earlier offset. */
  lemma {:induction false} OffsetStable<T>(chunks: seq<seq<T>>, more: seq<seq<T>>, k: nat)
    requires k <= |chunks|
    ensures Offset(chunks + more, k) == Offset(chunks, k)
  {
    if 0 < k {
      OffsetStable(chunks, more, k - 1);
    }
  }

  lemma BoundaryStable<T>(chunks: seq<seq<T>>, more: seq<seq<T>>, o: nat)
    requires IsBoundary(chunks, o)
    ensures IsBoundary(chunks + more, o)
  {
    var k: nat :| EndsAt(chunks, k, o);
    OffsetStable(chunks, more, k);
    assert EndsAt(chunks + more, k, o);
  }

  lemma {:induction false} FlattenLength<T>(chunks: seq<seq<T>>)
    ensures |Flatten(chunks)| == Total(chunks)
  {
    if chunks != [] {
      var init := chunks[..|chunks| - 1];
      FlattenLength(init);
      OffsetStable(init, [chunks[|chunks| - 1]], |init|);
      assert chunks == init + [chunks[|chunks| - 1]];
    }
  }

  /** The elements of a run of chunks are the elements between the offsets of its ends. */
  lemma FlattenSlice<T>(chunks: seq<seq<T>>, i: nat, j: nat)
    requires i <= j <= |chunks|
    ensures Offset(chunks, i) <= Offset(chunks, j) <= |Flatten(chunks)|
    ensures Flatten(chunks[i..j]) == Flatten(chunks)[Offset(chunks, i)..Offset(chunks, j)]
  {
    var a, b, c := chunks[..i], chunks[i..j], chunks[j..];
    assert chunks == (a + b) + c;
    FlattenConcat(a + b, c);
    FlattenConcat(a, b);
    FlattenLength(a);
    FlattenLength(a + b);
    OffsetStable(a + b, c, i);
    OffsetStable(a + b, c, j);
    OffsetStable(a, b, i);
  }

  lemma FlattenAround<T>(chunks: seq<seq<T>>, k: nat)
    requires k < |chunks|
    ensures Flatten(chunks) == Flatten(chunks[..k]) + (chunks[k] + Flatten(chunks[k + 1..]))
    ensures |Flatten(chunks[..k])| == Offset(chunks, k)
  {
    assert chunks == chunks[..k] + ([chunks[k]] + chunks[k + 1..]);
    FlattenConcat(chunks[..k], [chunks[k]] + chunks[k + 1..]);
    FlattenConsOne(chunks[k], chunks[k + 1..]);
    FlattenLength(chunks[..k]);
    OffsetStable(chunks[..k], [chunks[k]] + chunks[k + 1..], k);
  }

  lemma FlattenConsOne<T>(c: seq<T>, rest: seq<seq<T>>)
    ensures Flatten([c] + rest) == c + Flatten(rest)
  {
    FlattenConcat([c], rest);
    FlattenOne(c);
  }

  /** The chunk that holds position o. */
  lemma FindChunk<T>(chunks: seq<seq<T>>, o: nat) returns (k: nat)
    requires o < Total(chunks)
    ensures k < |chunks| && Offset(chunks, k) <= o < Offset(chunks, k + 1)
  {
    k := 0;
    while Offset(chunks, k + 1) <= o
      invariant k < |chunks| && Offset(chunks, k) <= o
      decreases |chunks| - k
    {
      k := k + 1;
    }
  }
}
