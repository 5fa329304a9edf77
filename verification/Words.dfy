/** Machine words, options and the little arithmetic every other module shares. */
module Words {
  const TWO32: int := 0x1_0000_0000

  type u32 = x: int | 0 <= x < TWO32

  datatype Option<+T> = None | Some(value: T)

  /** What a C expression of type `u32` keeps of the integer `x`. */
  function Wrap32(x: int): u32 {
    x % TWO32
  }

  function Min(a: int, b: int): int {
    if a < b then a else b
  }

  function Max(a: int, b: int): int {
    if a < b then b else a
  }

  function Abs(a: int): nat {
    if a < 0 then -a else a
  }

  /** `ALIGN(x, 4)`. */
  function Align4(x: nat): nat {
    (x + 3) / 4 * 4
  }

  lemma Align4Is(x: nat)
    ensures Align4(x) % 4 == 0 && x <= Align4(x) < x + 4
  {
  }

  function Pow2(k: nat): (p: nat)
    ensures p >= 1
  {
    if k == 0 then 1 else 2 * Pow2(k - 1)
  }

  lemma {:induction false} Pow2Grows(a: nat, b: nat)
    requires a <= b
    ensures a < b ==> 2 * Pow2(a) <= Pow2(b)
    ensures a == b ==> Pow2(a) == Pow2(b)
  {
    if a == b {
    } else {
      Pow2Grows(a, b - 1);
    }
  }

  lemma MulMonotone(a: int, b: int, c: nat)
    requires a <= b
    ensures a * c <= b * c
  {
  }

  /** Euclidean division is unique. */
  lemma QuotientIs(a: int, d: int, q: int, r: int)
    requires d > 0 && a == q * d + r && 0 <= r < d
    ensures a / d == q && a % d == r
  {
    var k := a / d;
    assert a == k * d + a % d;
    if k < q {
      MulMonotone(k + 1, q, d);
    } else {
      MulMonotone(q, k, d);
      if q < k {
        MulMonotone(q + 1, k, d);
      }
    }
  }
}
