/**
 * `divide(lst, n)`: the generator that cuts a list into consecutive slices
 * `lst[i : i + n]` for `i` in `range(0, len(lst), n)`; the payloads are
 * sent to the marketplace one slice at a time.
 */
module Batches {
  import opened Wrappers

  function Flatten<T>(chunks: seq<seq<T>>): seq<T> {
    if chunks == [] then [] else chunks[0] + Flatten(chunks[1..])
  }

  function Min(a: int, b: int): int { if a <= b then a else b }

  /**
   * The slices for a positive step: concatenated they give back `lst`; each
   * is non-empty and at most `n` long, and all but the last are exactly `n` long.
   */
  function Chunks<T>(lst: seq<T>, n: nat): (r: seq<seq<T>>)
    requires n > 0
    ensures Flatten(r) == lst
    ensures forall i :: 0 <= i < |r| ==> 0 < |r[i]| <= n
    ensures forall i :: 0 <= i < |r| - 1 ==> |r[i]| == n
    decreases |lst|
  {
    if |lst| == 0 then []
    else if |lst| <= n then [lst]
    else [lst[..n]] + Chunks(lst[n..], n)
  }

  /** Why `divide` fails: Python's `range` refuses a zero step. */
  datatype DivideError = ZeroStep

  /**
   * A zero step raises ValueError; a negative step gives an empty range and
   * so no slices at all; a positive step gives `Chunks`.
   */
  function Divide<T>(lst: seq<T>, n: int): (r: Result<seq<seq<T>>, DivideError>)
    ensures n == 0 <==> r.Err?
    ensures n > 0 ==> r.Ok? && Flatten(r.value) == lst
    ensures n < 0 ==> r == Ok([])
  {
    if n == 0 then Err(ZeroStep) else if n < 0 then Ok([]) else Ok(Chunks(lst, n))
  }

  /** An empty list yields no slices. */
  lemma DivideEmpty<T>(n: int)
    requires n > 0
    ensures Divide<T>([], n) == Ok([])
  {
  }

  /** Slice `i` is `lst[i * n : i * n + n]`, exactly the slice the generator yields for index `i * n`. */
  lemma {:induction false} ChunkAt<T>(lst: seq<T>, n: nat, i: nat)
    requires n > 0 && i < |Chunks(lst, n)|
    ensures i * n < |lst|
    ensures Chunks(lst, n)[i] == lst[i * n .. Min(i * n + n, |lst|)]
    decreases i, 0
  {
    if i > 0 {
      ChunksTail(lst, n);
      ChunkAtNext(lst, n, i - 1, i);
    }
  }

  /** The inductive step of `ChunkAt`: slice `j` of the tail is slice `j + 1` of the list. */
  lemma {:induction false} ChunkAtNext<T>(lst: seq<T>, n: nat, j: nat, i: nat)
    requires n > 0 && |lst| > n && j < |Chunks(lst[n..], n)| && i == j + 1
    ensures i * n < |lst|
    ensures Chunks(lst[n..], n)[j] == lst[i * n .. Min(i * n + n, |lst|)]
    decreases j, 1
  {
    ChunkAt(lst[n..], n, j);
    var a := j * n;
    MulStep(i, n);
    SliceShift(lst, n, a);
  }

  /** A list longer than one slice starts with a full slice. */
  lemma ChunksTail<T>(lst: seq<T>, n: nat)
    requires n > 0 && |Chunks(lst, n)| > 1
    ensures |lst| > n && Chunks(lst, n) == [lst[..n]] + Chunks(lst[n..], n)
  {
  }

  lemma SliceShift<T>(lst: seq<T>, n: nat, a: nat)
    requires n <= |lst| && a < |lst| - n
    ensures lst[n..][a .. Min(a + n, |lst| - n)] == lst[a + n .. Min(a + n + n, |lst|)]
  {
  }

  lemma MulStep(i: nat, n: nat)
    requires i > 0
    ensures i * n == (i - 1) * n + n
  {
  }

  /** There is one slice per index of `range(0, len(lst), n)`: every start `i * n` below `|lst|`. */
  lemma {:induction false} ChunkCount<T>(lst: seq<T>, n: nat, i: nat)
    requires n > 0
    ensures i * n < |lst| <==> i < |Chunks(lst, n)|
    decreases |lst|
  {
    if |lst| > n && i > 0 {
      ChunkCount(lst[n..], n, i - 1);
      MulStep(i, n);
    } else if i > 0 {
      assert i * n >= n;
    }
  }

  /** The documented example `divide([1, 2, 3, 4], 2) == [[1, 2], [3, 4]]`, and an uneven tail. */
  lemma DivideExamples()
    ensures Divide([1, 2, 3, 4], 2) == Ok([[1, 2], [3, 4]])
    ensures Divide([1, 2, 3, 4, 5], 2) == Ok([[1, 2], [3, 4], [5]])
  {
    assert [1, 2, 3, 4][..2] == [1, 2] && [1, 2, 3, 4][2..] == [3, 4];
    assert Chunks([1, 2, 3, 4], 2) == [[1, 2]] + Chunks([3, 4], 2);
    assert [1, 2, 3, 4, 5][..2] == [1, 2] && [1, 2, 3, 4, 5][2..] == [3, 4, 5];
    assert [3, 4, 5][..2] == [3, 4] && [3, 4, 5][2..] == [5];
    assert Chunks([1, 2, 3, 4, 5], 2) == [[1, 2]] + Chunks([3, 4, 5], 2);
    assert Chunks([3, 4, 5], 2) == [[3, 4]] + Chunks([5], 2);
    assert Chunks([3, 4], 2) == [[3, 4]] && Chunks([5], 2) == [[5]];
    assert [[1, 2]] + [[3, 4]] == [[1, 2], [3, 4]];
    assert [[1, 2]] + ([[3, 4]] + [[5]]) == [[1, 2], [3, 4], [5]];
  }
}
