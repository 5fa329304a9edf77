/** Clock divider selection and read-back (drivers/rda/ap_clk.c). */
module ClkDiv {
  import opened Words

  const CLK_DIV_MAP: seq<int> :=
    [240, 240, 240, 240, 240, 240, 240, 240, 160, 120, 96, 80, 68, 60, 52, 48,
     44, 40, 36, 32, 28, 26, 24, 22, 20, 18, 16, 14, 12, 10, 8, 4]

  const UART_CLK := 26000000

  predicate IsIndex(i: int) {
    0 <= i < 32
  }

  /** Divider entry `i`, in quarters. */
  function Div(i: int): (d: int)
    requires IsIndex(i)
    ensures 4 <= d <= 240 && d % 2 == 0
  {
    CLK_DIV_MAP[i]
  }

  /** The dividers in quarters: 60 for the first eight settings, then down to 12 in shrinking steps, by ones
      down to 7, by halves down to 2, and 1 at the end. */
  lemma TableIs(i: int)
    requires IsIndex(i)
    ensures i <= 7 ==> Div(i) == 4 * 60
    ensures i == 8 ==> Div(i) == 4 * 40
    ensures i == 9 ==> Div(i) == 4 * 30
    ensures i == 10 ==> Div(i) == 4 * 24
    ensures i == 11 ==> Div(i) == 4 * 20
    ensures 12 <= i <= 13 ==> Div(i) == 4 * 17 - 8 * (i - 12)
    ensures 14 <= i <= 20 ==> Div(i) == 4 * 13 - 4 * (i - 14)
    ensures 20 <= i <= 30 ==> Div(i) == 4 * 7 - 2 * (i - 20)
    ensures i == 31 ==> Div(i) == 4
  {
  }

  /** `(clk_div_map[i] + clk_div_map[i-1]) >> 1`. */
  function Middle(i: int): (m: int)
    requires 1 <= i < 32
    ensures 2 * m == Div(i) + Div(i - 1)
  {
    (Div(i) + Div(i - 1)) / 2
  }

  /** The entry the scan from the end of the table stops at. */
  function Nearest(n: int, i: int): (index: int)
    requires IsIndex(i)
    ensures 0 <= index <= i
  {
    if i == 0 || n < Middle(i) then i else Nearest(n, i - 1)
  }

  /** The divider a register setting stands for: the table entry, doubled in halved mode. */
  function Effective(i: int, div2: bool): int
    requires IsIndex(i)
  {
    if div2 then 2 * Div(i) else Div(i)
  }

  /** The scan loop of `apsys_get_divreg`. */
  method Scan(n: u32) returns (index: int)
    ensures IsIndex(index) && index == Nearest(n, 31)
  {
    hide Div;
    index := 31;
    while index >= 1 && !(n < (Div(index) + Div(index - 1)) / 2)
      invariant IsIndex(index) && Nearest(n, index) == Nearest(n, 31)
    {
      index := index - 1;
    }
  }

  /** `basefreq / (reqfreq >> 2)`, the divider asked for, in quarters. */
  function Quotient(basefreq: u32, reqfreq: u32): u32
    requires reqfreq >= 4
  {
    basefreq / (reqfreq / 4)
  }

  /** How far setting `(i, div2)` is from the wanted quotient `n`. */
  function Distance(n: int, i: int, div2: bool): nat
    requires IsIndex(i)
  {
    Abs(n - Effective(i, div2))
  }

  /** No entry of this mode is nearer, and of equally near ones none is larger. */
  ghost predicate Best(n: int, i: int, div2: bool) {
    IsIndex(i) &&
    forall j :: IsIndex(j) ==>
      && Distance(n, i, div2) <= Distance(n, j, div2)
      && (Distance(n, i, div2) == Distance(n, j, div2) ==> Div(j) <= Div(i))
  }

  /** `apsys_get_divreg`. A caller that passes no `pdiv2` asks for `halving == false` and gets
      `div2 == false`. Dividing by `reqfreq >> 2` is what asks for a rate of at least 4; below
      2^31 the signed `abs` of the source is the distance. */
  method GetDivReg(basefreq: u32, reqfreq: u32, halving: bool) returns (index: int, div2: bool)
    requires basefreq < 0x8000_0000 && reqfreq >= 4
    ensures (div2 ==> halving) && Best(Quotient(basefreq, reqfreq), index, div2)
    // halved mode wins ties, so the chosen mode is the better one of the two
    ensures halving && div2 ==> forall j :: IsIndex(j) ==>
              Distance(Quotient(basefreq, reqfreq), index, true) <= Distance(Quotient(basefreq, reqfreq), j, false)
    ensures halving && !div2 ==> forall j :: IsIndex(j) ==>
              Distance(Quotient(basefreq, reqfreq), index, false) < Distance(Quotient(basefreq, reqfreq), j, true)
  {
    hide Div;
    var adiv: u32 := Quotient(basefreq, reqfreq);
    var ndiv: u32 := if halving then adiv / 2 else adiv;
    div2 := false;
    index := Scan(ndiv);
    DirectIsBest(adiv);
    if halving {
      HalvedIsBest(adiv);
      if adiv == 2 * Div(index) {
        div2 := true;
      } else {
        var i := Scan(adiv);
        if Abs(adiv - 2 * Div(index)) <= Abs(adiv - Div(i)) {
          div2 := true;
        } else {
          index := i;
        }
      }
    }
  }

  lemma {:induction false} TableDescends(i: int, j: int)
    requires 0 <= i <= j < 32
    ensures Div(i) >= Div(j)
    decreases j - i
  {
    if i == j {
    } else {
      TableDescends(i, j - 1);
    }
  }

  lemma {:induction false} NearestStops(n: int, i: int)
    requires IsIndex(i)
    ensures var k := Nearest(n, i);
            && (k == 0 || n < Middle(k))
            && forall m :: k < m <= i ==> n >= Middle(m)
  {
    hide Div, Middle;
    if i == 0 || n < Middle(i) {
    } else {
      NearestStops(n, i - 1);
    }
  }

  /** The scan minimises the distance, and every entry to its left or right is worse in the way
      that also decides the doubled distances. */
  lemma NearestSplits(n: int, j: int)
    requires IsIndex(j)
    ensures var k := Nearest(n, 31);
            && (j < k ==> Div(j) >= Div(k) && 2 * n < Div(k) + Div(j))
            && (j > k ==> Div(j) <= Div(k) && 2 * n >= Div(k) + Div(j))
  {
    hide Div, Middle, Nearest;
    var k := Nearest(n, 31);
    NearestStops(n, 31);
    if j < k {
      TableDescends(j, k - 1);
      TableDescends(k - 1, k);
    } else if j > k {
      assert n >= Middle(k + 1);
      TableDescends(k + 1, j);
      TableDescends(k, k + 1);
    }
  }

  lemma DirectIsBest(n: int)
    ensures Best(n, Nearest(n, 31), false)
  {
    hide Div, Nearest;
    forall j | IsIndex(j)
      ensures Distance(n, Nearest(n, 31), false) <= Distance(n, j, false)
      ensures Distance(n, Nearest(n, 31), false) == Distance(n, j, false) ==> Div(j) <= Div(Nearest(n, 31))
    {
      NearestSplits(n, j);
    }
  }

  /** The halved scan works on a truncated quotient and still finds the nearest doubled entry. */
  lemma HalvedIsBest(n: nat)
    ensures Best(n, Nearest(n / 2, 31), true)
  {
    hide Div, Nearest;
    forall j | IsIndex(j)
      ensures Distance(n, Nearest(n / 2, 31), true) <= Distance(n, j, true)
      ensures Distance(n, Nearest(n / 2, 31), true) == Distance(n, j, true) ==> Div(j) <= Div(Nearest(n / 2, 31))
    {
      NearestSplits(n / 2, j);
    }
  }

  /** `apsys_cal_freq_by_divreg`. */
  function CalFreq(basefreq: u32, reg: u32, div2: bool): u32
  {
    var r := if reg >= 32 then 31 else reg;
    Wrap32(if div2 then basefreq else basefreq * 2) / (Div(r) / 2)
  }

  lemma DivideTwice(a: nat, b: nat, c: nat)
    requires b > 0 && c > 0
    ensures b * c > 0 && a / b / c == a / (b * c)
  {
    var q, r := a / b, a % b;
    var q', r' := q / c, q % c;
    assert q * b == (q' * c + r') * b == q' * (b * c) + r' * b;
    MulMonotone(0, r', b);
    MulMonotone(r', c - 1, b);
    QuotientIs(a, b * c, q', r' * b + r);
  }

  /** The rate read back is `floor(4 * base / divider)` and a quarter of it is `floor(base / divider)`. */
  lemma ReadBackRate(basefreq: u32, reg: u32, div2: bool)
    requires basefreq < 0x8000_0000 && IsIndex(reg)
    ensures CalFreq(basefreq, reg, div2) / 4 == basefreq / Effective(reg, div2)
  {
    hide Div;
    var half, num := Div(reg) / 2, if div2 then basefreq else basefreq * 2;
    DivideTwice(num, half, 4);
    var eff := Effective(reg, div2);
    if div2 {
      assert half * 4 == eff;
    } else {
      assert half * 4 == 2 * eff;
      DivideTwice(num, 2, eff);
    }
  }

  /** Dividing the base by its quotient gives the divider back exactly when the remainder is
      smaller than the quotient. */
  lemma QuotientOfQuotient(base: nat, eff: nat)
    requires 0 < eff <= base
    ensures base / eff > 0
    ensures base / (base / eff) == eff <==> base % eff < base / eff
  {
    var q, r := base / eff, base % eff;
    assert q > 0;
    assert base == eff * q + r;
    if r < q {
      QuotientIs(base, q, eff, r);
    } else {
      var m := base / q;
      assert base == m * q + base % q;
    }
  }

  /** What a read-back rate asks for is the divider it was read from. */
  lemma ReadBackQuotient(basefreq: u32, reg: u32, div2: bool)
    requires basefreq < 0x8000_0000 && IsIndex(reg)
    requires basefreq % Effective(reg, div2) < basefreq / Effective(reg, div2)
    ensures CalFreq(basefreq, reg, div2) >= 4
    ensures Quotient(basefreq, CalFreq(basefreq, reg, div2)) == Effective(reg, div2)
  {
    hide Div, CalFreq;
    ReadBackRate(basefreq, reg, div2);
    QuotientOfQuotient(basefreq, Effective(reg, div2));
  }

  /** From 230400, the square of the largest divider, every setting reads back. */
  lemma LargeBase(base: nat, eff: nat)
    requires 230400 <= base && 0 < eff <= 480
    ensures base % eff < base / eff
  {
    var q := base / eff;
    assert base == q * eff + base % eff;
    MulMonotone(eff, 480, q);
  }

  /** Feeding a read-back rate into the search gives the same divider back, for every base from
      230400 on, and for a smaller one that leaves a remainder below the quotient. */
  method ReadBackAndSet(basefreq: u32, reg: u32, div2: bool) returns (rate: u32, reg': int, div2': bool)
    requires IsIndex(reg) && Effective(reg, div2) <= basefreq < 0x8000_0000
    ensures rate == CalFreq(basefreq, reg, div2) >= 4 && IsIndex(reg')
    ensures basefreq >= 230400 || basefreq % Effective(reg, div2) < basefreq / Effective(reg, div2) ==>
              Effective(reg', div2') == Effective(reg, div2)
  {
    hide Div, Quotient, CalFreq;
    rate := CalFreq(basefreq, reg, div2);
    ReadBackRate(basefreq, reg, div2);
    QuotientOfQuotient(basefreq, Effective(reg, div2));
    reg', div2' := GetDivReg(basefreq, rate, true);
    if basefreq >= 230400 {
      LargeBase(basefreq, Effective(reg, div2));
    }
    if basefreq % Effective(reg, div2) < basefreq / Effective(reg, div2) {
      ReadBackQuotient(basefreq, reg, div2);
      assert Distance(Effective(reg, div2), reg, div2) == 0;
    }
  }

  // ----- UART -----

  /** The divider `apsys_set_uart_clk_rate` writes. */
  function UartDivider(rate: u32): int {
    var r := if rate > 3250000 then 3250000 else if rate < 6342 then 6342 else rate;
    (UART_CLK + 2 * r) / (4 * r) - 2
  }

  /** What `apsys_get_uart_clk_rate` reads from a register that selects the slow clock. */
  function UartRate(div: nat): int {
    UART_CLK / 4 / (div + 2)
  }

  /** Every written divider fits the ten-bit field. */
  lemma UartDividerFits(rate: u32)
    ensures 0 <= UartDivider(rate) <= 0x3ff
  {
    var r := if rate > 3250000 then 3250000 else if rate < 6342 then 6342 else rate;
    var n := (UART_CLK + 2 * r) / (4 * r);
    FloorBounds(UART_CLK + 2 * r, 4 * r, 2, 1025);
  }

  /** Between the clamps no other divider comes nearer to what the rate asks for, and of two that come
      equally near the larger is written; beyond the clamps it is the divider of the clamp. */
  lemma UartIsNearest(rate: u32, n: int)
    ensures rate <= 6342 ==> UartDivider(rate) == 1023
    ensures 3_250_000 <= rate ==> UartDivider(rate) == 0
    ensures 6342 <= rate <= 3_250_000 ==>
              var d := UartDivider(rate);
              var off, other := Abs(26_000_000 - 4 * rate * (d + 2)), Abs(26_000_000 - 4 * rate * (n + 2));
              off <= other && (n > d ==> off < other)
  {
    if 6342 <= rate <= 3_250_000 {
      RoundedIsNearest(26_000_000, 2 * rate, UartDivider(rate) + 2, n + 2);
    }
  }

  /** Rounding half up to a multiple of `2 * h`. */
  lemma RoundedIsNearest(c: int, h: int, d: int, n: int)
    requires h > 0 && d == (c + h) / (2 * h)
    ensures Abs(c - 2 * h * d) <= Abs(c - 2 * h * n)
    ensures n > d ==> Abs(c - 2 * h * d) < Abs(c - 2 * h * n)
  {
    var q, rest := 2 * h, (c + h) % (2 * h);
    var near, far := q * d, q * n;
    assert c + h == near + rest;
    if n > d {
      MulMonotone(d + 1, n, q);
      assert far >= near + q;
    } else if n < d {
      MulMonotone(n + 1, d, q);
      assert near >= far + q;
    }
  }

  lemma FloorBounds(a: int, d: int, lo: int, hi: int)
    requires d > 0 && lo * d <= a < (hi + 1) * d
    ensures lo <= a / d <= hi
  {
    var k := a / d;
    assert a == k * d + a % d;
    if k < lo {
      MulMonotone(k + 1, lo, d);
    }
    if hi < k {
      MulMonotone(hi + 1, k, d);
    }
  }

  /** Writing back a rate that was read leaves the ten-bit divider as it was. */
  lemma UartReadBack(div: nat)
    requires div <= 0x3ff
    ensures UartDivider(UartRate(div)) == div
  {
    var n := div + 2;
    var r, s := 6500000 / n, 6500000 % n;
    MulMonotone(2, n, 3250000);
    MulMonotone(n, 1025, 6341);
    FloorBounds(6500000, n, 6341, 3250000);
    assert 6500000 == n * r + s;
    assert 4 * (n * r) == n * (4 * r);
    // 6341 is one below the lower clamp, and is reached only by the largest divider
    if r == 6341 {
      UartSlowest(n);
    } else {
      QuotientIs(UART_CLK + 2 * r, 4 * r, n, 4 * s + 2 * r);
    }
  }

  lemma UartSlowest(n: int)
    requires 2 <= n <= 1025 && 6500000 / n == 6341
    ensures n == 1025
  {
    assert 6500000 == n * 6341 + 6500000 % n;
  }
}
