/** Facts about `i % n` for a positive column count `n`: the layout assigns
    item `i` to column `i % n`, and the proofs about columns reduce to these. */
module Residues {

  /** A quotient-remainder decomposition is the one `/` and `%` compute. */
  lemma ModUnique(x: int, q: int, r: int, n: int)
    requires n > 0 && 0 <= r < n && x == q * n + r
    ensures x % n == r && x / n == q
  {
    var q', r' := x / n, x % n;
    assert x == q' * n + r';
    if q' != q {
      var lo, hi := if q' < q then q' else q, if q' < q then q else q';
      Distribute(hi, lo, n);
      AtLeastOnce(hi - lo, n);
    }
  }

  lemma Distribute(a: int, b: int, n: int)
    ensures (a - b) * n == a * n - b * n
  {
  }

  lemma AtLeastOnce(d: int, n: int)
    requires d >= 1 && n > 0
    ensures d * n >= n
  {
  }

  /** The wrapping column counter agrees with the residue of the next index. */
  lemma ModSucc(i: nat, n: nat)
    requires n > 0
    ensures (i + 1) % n == if i % n < n - 1 then i % n + 1 else 0
  {
    var q := i / n;
    assert i == q * n + i % n;
    if i % n < n - 1 {
      ModUnique(i + 1, q, i % n + 1, n);
    } else {
      assert i + 1 == (q + 1) * n + 0;
      ModUnique(i + 1, q + 1, 0, n);
    }
  }

  /** Indices that differ by less than `n` lie in different columns. */
  lemma ModShiftDistinct(i: nat, d: nat, n: nat)
    requires 0 < d < n
    ensures (i + d) % n != i % n
  {
    var q, r := i / n, i % n;
    assert i == q * n + r;
    if r + d < n {
      ModUnique(i + d, q, r + d, n);
    } else {
      assert i + d == (q + 1) * n + (r + d - n);
      ModUnique(i + d, q + 1, r + d - n, n);
    }
  }

  /** Indices `n` apart lie in the same column. */
  lemma ModAddPeriod(i: nat, n: nat)
    requires n > 0
    ensures (i + n) % n == i % n
  {
    var q := i / n;
    assert i == q * n + i % n;
    assert i + n == (q + 1) * n + i % n;
    ModUnique(i + n, q + 1, i % n, n);
  }

  /** Any `n` consecutive indices starting at `lo` meet every column. */
  lemma ModHit(lo: nat, c: nat, n: nat) returns (j: nat)
    requires c < n
    ensures lo <= j < lo + n && j % n == c
  {
    var q, r := lo / n, lo % n;
    assert lo == q * n + r;
    if r <= c {
      j := lo + (c - r);
      assert j == q * n + c;
      ModUnique(j, q, c, n);
    } else {
      j := lo + (n - r + c);
      assert j == (q + 1) * n + c;
      ModUnique(j, q + 1, c, n);
    }
  }
}
