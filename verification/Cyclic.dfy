/** Indices into rings. */
module Cyclic {

  /** A physical index that may have run over the end once. */
  function Wrap(i: nat, size: nat): (r: nat)
    requires i < 2 * size
    ensures r < size
  {
    if i < size then i else i - size
  }

  /** Positions less than one turn apart have different cells. */
  lemma CellsDiffer(a: nat, b: nat, size: nat)
    requires a < b < a + size
    ensures a % size != b % size
  {
    WrapIsRemainder(a, b - a, size);
  }

  /** The remainder of an index that moves by less than one turn of the ring. */
  lemma WrapIsRemainder(l: nat, k: nat, size: nat)
    requires size > 0 && k <= size
    ensures l % size + k < 2 * size
    ensures Wrap(l % size + k, size) == (l + k) % size
  {
    var d, m := l / size, l % size;
    assert l == d * size + m;
    if m + k < size {
      ModUnique(l + k, size, d, m + k);
    } else {
      assert (d + 1) * size == d * size + size;
      ModUnique(l + k, size, d + 1, m + k - size);
    }
  }

  lemma ModUnique(x: nat, size: nat, d: nat, m: nat)
    requires m < size && x == d * size + m
    ensures x % size == m
  {
    var d' := x / size;
    if d' < d {
      MultiplesApart(d', d, size);
    } else if d < d' {
      MultiplesApart(d, d', size);
    }
  }

  lemma MultiplesApart(a: nat, b: nat, size: nat)
    requires a < b
    ensures a * size + size <= b * size
  {
    assert (a + 1) * size <= b * size;
  }
}
