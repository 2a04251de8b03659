/** Bytes, unsigned 32-bit counters, and the slots of a ring such counters run over. */
module Wrap {

  const TWO32 := 0x1_0000_0000 // 2^32, where an unsigned number wraps

  type Byte = x: int | 0 <= x < 256

  function Inc(x: nat): nat { (x + 1) % TWO32 }

  function Dec(x: nat): nat { if x == 0 then TWO32 - 1 else x - 1 }

  lemma DivMod(x: nat, size: nat, q: nat, r: nat)
    requires r < size && x == size * q + r
    ensures x % size == r
  {
    var p := x / size;
    assert x == size * p + x % size;
    assert p < q ==> size * q >= size * (p + 1);
    assert p > q ==> size * p >= size * (q + 1);
  }

  /** Adding less than 2^32 wraps at most once. */
  lemma PlusMod(x: nat, n: nat)
    requires n < TWO32
    ensures (x + n) % TWO32 == x % TWO32 + n - if x % TWO32 + n < TWO32 then 0 else TWO32
  {
    var q, r := x / TWO32, x % TWO32 + n;
    if r < TWO32 {
      DivMod(x + n, TWO32, q, r);
    } else {
      DivMod(x + n, TWO32, q + 1, r - TWO32);
    }
  }

  /** Where the size of the ring divides 2^32, a slot does not depend on how often the counter
      wrapped. */
  lemma SlotOf(x: nat, size: nat, n: nat)
    requires size * n == TWO32
    ensures size > 0 && x % TWO32 % size == x % size
  {
    var q, y := x / TWO32, x % TWO32;
    assert size > 0;
    var p, r := y / size, y % size;
    assert size * n * q == size * (n * q);
    assert size * (n * q) + size * p == size * (n * q + p);
    assert x == size * (n * q + p) + r;
    DivMod(x, size, n * q + p, r);
  }

  /** Less than a round apart, two counters never share a slot. */
  lemma Apart(a: nat, b: nat, size: nat)
    requires a < b < a + size
    ensures a % size != b % size
  {
    var p, r := a / size, a % size + (b - a);
    if r < size {
      DivMod(b, size, p, r);
    } else {
      assert b == size * (p + 1) + (r - size);
      DivMod(b, size, p + 1, r - size);
    }
  }
}
