/** Circular index arithmetic shared by every ring buffer of the repository.
    A ring of n cells is a sequence of length n; positions wrap once at most,
    so everything below is linear and `%` appears only in `StepIsCell`.
 */
module RingIndex {

  /** The cell reached k places after `from` in a ring of n cells. */
  function Cell(n: nat, from: nat, k: nat): (c: nat)
    requires from < n && k <= n
    ensures c < n
  {
    if from + k < n then from + k else from + k - n
  }

  /** How many cells lie from `tail` up to, and not including, `head`. */
  function Occupied(n: nat, tail: nat, head: nat): (k: nat)
    requires tail < n && head < n
    ensures k < n && Cell(n, tail, k) == head
  {
    if head >= tail then head - tail else head + n - tail
  }

  /** The k elements stored from `tail` onwards, oldest first. */
  function Window<T>(data: seq<T>, tail: nat, k: nat): (w: seq<T>)
    requires tail < |data| && k <= |data|
    ensures |w| == k
    ensures forall i :: 0 <= i < k ==> w[i] == data[Cell(|data|, tail, i)]
  {
    seq(k, i requires 0 <= i < k => data[Cell(|data|, tail, i)])
  }

  /** The elements between `tail` and `head`, oldest first. */
  function Unread<T>(data: seq<T>, tail: nat, head: nat): (w: seq<T>)
    requires tail < |data| && head < |data|
  {
    Window(data, tail, Occupied(|data|, tail, head))
  }

  lemma MulMono(n: int, a: int, b: int)
    requires 0 <= n && a <= b
    ensures n * a <= n * b
  {
    assert n * (b - a) >= 0;
  }

  lemma ModOnce(x: nat, n: nat)
    requires x < n
    ensures (x + n) % n == x && x % n == x
  {
    var q := (x + n) / n;
    assert n * q + (x + n) % n == x + n;
    if q >= 2 {
      MulMono(n, 2, q);
    } else if q <= 0 {
      MulMono(n, q, 0);
    }
  }

  /** The source advances an index with `(i + k) % n`. */
  lemma StepIsCell(n: nat, from: nat, k: nat)
    requires from < n && k <= n
    ensures (from + k) % n == Cell(n, from, k)
  {
    ModOnce(Cell(n, from, k), n);
  }

  /** The source's `(i + k) % n` on a ring index. */
  method Advance(n: nat, i: nat, k: nat) returns (j: nat)
    requires i < n && k <= n
    ensures j == Cell(n, i, k)
  {
    StepIsCell(n, i, k);
    j := (i + k) % n;
  }

  /** Filling the cells right after a window extends the window. */
  lemma WindowAppend<T>(data: seq<T>, data': seq<T>, tail: nat, k: nat, src: seq<T>)
    requires |data| == |data'| && tail < |data| && k + |src| <= |data|
    requires forall i :: 0 <= i < k ==> data'[Cell(|data|, tail, i)] == data[Cell(|data|, tail, i)]
    requires forall j :: 0 <= j < |src| ==> data'[Cell(|data|, Cell(|data|, tail, k), j)] == src[j]
    ensures Window(data', tail, k + |src|) == Window(data, tail, k) + src
  {
    var n := |data|;
    forall i | 0 <= i < k + |src|
      ensures Window(data', tail, k + |src|)[i] == (Window(data, tail, k) + src)[i]
    {
      if i >= k {
        assert Cell(n, tail, i) == Cell(n, Cell(n, tail, k), i - k);
      }
    }
  }

  /** Advancing the tail by j drops the j oldest elements. */
  lemma WindowDrop<T>(data: seq<T>, tail: nat, k: nat, j: nat)
    requires tail < |data| && j <= k <= |data|
    ensures Window(data, Cell(|data|, tail, j), k - j) == Window(data, tail, k)[j..]
  {
    var n := |data|;
    forall i | 0 <= i < k - j
      ensures Cell(n, Cell(n, tail, j), i) == Cell(n, tail, j + i)
    {
    }
  }

  /** Cells of the window and cells of the gap behind it never coincide. */
  lemma WindowApart(n: nat, tail: nat, k: nat, i: nat, j: nat)
    requires tail < n && i < k <= n && j < n - k
    ensures Cell(n, tail, i) != Cell(n, Cell(n, tail, k), j)
  {
  }
}
