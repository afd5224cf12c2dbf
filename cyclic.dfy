/**
  Indexing modulo the length, the lookup rule shared by `InfList` and
  `Palette` (`self.data[i % len(self.data)]`).  For a positive divisor
  Python's floored `%` and Dafny's Euclidean `%` agree, so `i % n` below is
  exactly the source's expression, negative `i` included.
*/
module Cyclic {
  import opened Results

  /** `data[i % len(data)]`; an empty list divides by zero. */
  function At<T>(data: seq<T>, i: int): (r: Result<T>)
    ensures r.Failure? <==> |data| == 0
    ensures r.Failure? ==> r.error == ZeroDivisionError
    ensures r.Success? ==> r.value in data
    ensures 0 <= i < |data| ==> r == Success(data[i])
    ensures -|data| <= i < 0 ==> r == Success(data[i + |data|])
  {
    if |data| == 0 then Failure(ZeroDivisionError) else Success(data[i % |data|])
  }

  /** Euclidean division is unique: `j == n * q + r` with `0 <= r < n` fixes `j % n` as `r`. */
  lemma ModOfDecomposition(j: int, q: int, r: int, n: int)
    requires n > 0 && 0 <= r < n && j == n * q + r
    ensures j % n == r
  {
    assert j == n * (j / n) + j % n;
    assert n * (j / n - q) == r - j % n;
    var d := j / n - q;
    if d >= 1 {
      assert n * d == n + n * (d - 1);
    }
  }

  /** The lookup returns the element at the unique in-range position congruent to `i`. */
  lemma AtCongruent<T>(data: seq<T>, i: int, k: int)
    requires 0 <= k < |data| && (i - k) % |data| == 0
    ensures At(data, i) == Success(data[k])
  {
    var n := |data|;
    assert i - k == n * ((i - k) / n) + (i - k) % n;
    ModOfDecomposition(i, (i - k) / n, k, n);
  }

  /** Indexing is periodic: shifting the index by any multiple of the length changes nothing. */
  lemma AtPeriodic<T>(data: seq<T>, i: int, m: int)
    requires |data| > 0
    ensures At(data, i + m * |data|) == At(data, i)
  {
    var n := |data|;
    assert i == n * (i / n) + i % n;
    assert i + m * n == n * (i / n + m) + i % n;
    ModOfDecomposition(i + m * n, i / n + m, i % n, n);
  }
}
