/**
  The time DIVU and DIVS take. The loops run through the division bit by bit, in 32-bit
  arithmetic that wraps around, and charge for every bit.
*/
module Divide {
  import opened Powers

  const W: nat := 0x1_0000_0000

  // ---- restoring division ----

  /** One step: the remainder is doubled and the divisor `h` subtracted if it fits. */
  function Fits(r: nat, h: nat): bool {
    2 * r >= h
  }

  function Remainder(d: nat, h: nat, k: nat): (r: nat) {
    if k == 0 then d
    else
      var r := Remainder(d, h, k - 1);
      if Fits(r, h) then 2 * r - h else 2 * r
  }

  function Quotient(d: nat, h: nat, k: nat): (q: nat) {
    if k == 0 then 0 else 2 * Quotient(d, h, k - 1) + if Fits(Remainder(d, h, k - 1), h) then 1 else 0
  }

  /** Before each step the remainder is below the divisor, and nothing is lost. */
  lemma {:induction false} RestoringDivision(d: nat, h: nat, k: nat)
    requires d < h
    ensures Remainder(d, h, k) < h
    ensures d * Pow2(k) == Quotient(d, h, k) * h + Remainder(d, h, k)
  {
    if k > 0 {
      RestoringDivision(d, h, k - 1);
      Doubled(d, Pow2(k - 1));
      Doubled(Quotient(d, h, k - 1), h);
    }
  }

  /** After 15 steps the subtractions spell the quotient without its last bit. */
  lemma {:induction false} QuotientBits(dividend: nat, divisor: nat)
    requires dividend / 0x1_0000 < divisor
    ensures Quotient(dividend, divisor * 0x1_0000, 15) == dividend / divisor / 2
  {
    Bit15();
    QuotientAfter(dividend, divisor, 15);
  }

  lemma {:induction false} QuotientAfter(dividend: nat, divisor: nat, k: nat)
    requires dividend / 0x1_0000 < divisor && Pow2(k) == 0x8000
    ensures Quotient(dividend, divisor * 0x1_0000, k) == dividend / divisor / 2
  {
    var t, s := dividend / divisor, dividend % divisor;
    QuotientSplit(dividend, divisor, k, t, s);
  }

  lemma {:induction false} QuotientSplit(dividend: nat, divisor: nat, k: nat, t: nat, s: nat)
    requires dividend == t * divisor + s && s < divisor && dividend < divisor * 0x1_0000 && Pow2(k) == 0x8000
    ensures Quotient(dividend, divisor * 0x1_0000, k) == t / 2
  {
    var h, rest := divisor * 0x1_0000, (t % 2 * divisor + s) * 0x8000;
    RestoringDivision(dividend, h, k);
    Halves(divisor, s, t, t / 2, t % 2);
    Unique(dividend * 0x8000, Quotient(dividend, h, k), Remainder(dividend, h, k), t / 2, rest, h);
  }

  /** A quotient `t` and its remainder `s`, without the last bit `v` of the quotient. */
  lemma {:induction false} Halves(divisor: nat, s: nat, t: nat, u: nat, v: nat)
    requires s < divisor && t == 2 * u + v && v <= 1
    ensures (t * divisor + s) * 0x8000 == u * (divisor * 0x1_0000) + (v * divisor + s) * 0x8000
    ensures (v * divisor + s) * 0x8000 < divisor * 0x1_0000
  {
    var m := u * divisor;
    Doubled(u, divisor);
    assert t * divisor == 2 * m + v * divisor by {
      if v == 0 {
        assert t == 2 * u;
      } else {
        assert t == 2 * u + 1;
      }
    }
    Associates(u, divisor, 0x1_0000);
    assert v * divisor <= divisor;
  }

  lemma {:induction false} Associates(a: nat, b: nat, c: nat)
    ensures a * (b * c) == (a * b) * c
  {
  }

  /** What a step costs, in units of two cycles. */
  function StepCost(r: nat, h: nat): (c: nat)
    ensures c <= 2
  {
    if r >= 0x8000_0000 then 0 else if Fits(r, h) then 1 else 2
  }

  function Cost(d: nat, h: nat, k: nat): (c: nat)
    ensures c <= 2 * k
  {
    if k == 0 then 0 else Cost(d, h, k - 1) + StepCost(Remainder(d, h, k - 1), h)
  }

  /** A step in 32 bits that wraps is a step of the division. */
  lemma {:induction false} WrappingStep(r: nat, h: nat)
    requires r < h < W
    ensures var twice := 2 * r % W;
      && (r >= 0x8000_0000 ==> Fits(r, h) && (twice - h) % W == 2 * r - h)
      && (r < 0x8000_0000 ==> twice == 2 * r)
  {
  }

  /** What the loop computes in step `k`, and what it charges. */
  lemma {:induction false} StepOfLoop(d: nat, h: nat, k: nat)
    requires d < h < W
    ensures var r, r' := Remainder(d, h, k), Remainder(d, h, k + 1);
      var twice, c := 2 * r % W, Cost(d, h, k + 1) - Cost(d, h, k);
      if r >= 0x8000_0000 then r' == (twice - h) % W && c == 0
      else if twice >= h then r' == (twice - h) % W && c == 1
      else r' == twice && c == 2
  {
    RestoringDivision(d, h, k);
    RestoringDivision(d, h, k + 1);
    WrappingStep(Remainder(d, h, k), h);
  }

  /** Ones among the low `n` bits. */
  function Ones(v: nat, n: nat): (k: nat)
    ensures k <= n
  {
    if n == 0 then 0 else v % 2 + Ones(v / 2, n - 1)
  }

  /** How many of the remainders of `d`, `2d`, `4d`, ... by `h` have bit 31 set. */
  function Tops(d: nat, h: nat, n: nat): (k: nat)
    requires h > 0
    ensures k <= n
  {
    if n == 0 then 0 else Tops(d, h, n - 1) + if d * Pow2(n - 1) % h >= 0x8000_0000 then 1 else 0
  }

  /** The loop's remainders are those of the doubled dividend. */
  lemma {:induction false} RemainderIs(d: nat, h: nat, k: nat)
    requires d < h
    ensures Remainder(d, h, k) == d * Pow2(k) % h
  {
    RestoringDivision(d, h, k);
    Divided(d * Pow2(k), Quotient(d, h, k), Remainder(d, h, k), h);
  }

  lemma {:induction false} OnesOf(q: nat, bit: nat, n: nat)
    requires bit <= 1
    ensures Ones(2 * q + bit, n + 1) == Ones(q, n) + bit
  {
  }

  /** How many of the loop's remainders have bit 31 set. */
  function Highs(d: nat, h: nat, n: nat): (k: nat) {
    if n == 0 then 0 else Highs(d, h, n - 1) + if Remainder(d, h, n - 1) >= 0x8000_0000 then 1 else 0
  }

  lemma {:induction false} HighsAreTops(d: nat, h: nat, n: nat)
    requires d < h
    ensures Highs(d, h, n) == Tops(d, h, n)
  {
    if n > 0 {
      HighsAreTops(d, h, n - 1);
      RemainderIs(d, h, n - 1);
    }
  }

  /** A step costs two units, less one for a one in the quotient and less one for bit 31. */
  lemma {:induction false} StepUnits(d: nat, h: nat, k: nat)
    requires d < h < W
    ensures Cost(d, h, k) + Ones(Quotient(d, h, k), k) + Highs(d, h, k) == 2 * k
  {
    if k > 0 {
      StepUnits(d, h, k - 1);
      RestoringDivision(d, h, k - 1);
      var r := Remainder(d, h, k - 1);
      var bit := if Fits(r, h) then 1 else 0;
      OnesOf(Quotient(d, h, k - 1), bit, k - 1);
      assert Quotient(d, h, k) == 2 * Quotient(d, h, k - 1) + bit;
      assert StepCost(r, h) + bit + (if r >= 0x8000_0000 then 1 else 0) == 2;
    }
  }

  lemma {:induction false} CostIs(d: nat, h: nat, k: nat)
    requires d < h < W
    ensures Cost(d, h, k) + Ones(Quotient(d, h, k), k) + Tops(d, h, k) == 2 * k
  {
    StepUnits(d, h, k);
    HighsAreTops(d, h, k);
  }

  /** Cycles of DIVU: fixed by the quotient without its last bit and by bit 31 of the remainders. */
  function DivuTime(dividend: nat, divisor: nat): (cycles: nat)
    ensures dividend / 0x1_0000 < divisor ==> 76 <= cycles <= 136
  {
    if dividend / 0x1_0000 >= divisor then 10
    else 136 - 2 * (Ones(dividend / divisor / 2, 15) + Tops(dividend, divisor * 0x1_0000, 15))
  }

  method DivuCycles(dividend: nat, divisor: nat) returns (cycles: nat)
    requires dividend < W && divisor < 0x1_0000
    ensures cycles == DivuTime(dividend, divisor)
  {
    var h := divisor * 0x1_0000;
    var m := 38;
    if dividend / 0x1_0000 >= divisor {
      return 10;
    }
    var d := dividend;
    for i := 0 to 15
      invariant d == Remainder(dividend, h, i) && m == 38 + Cost(dividend, h, i)
    {
      StepOfLoop(dividend, h, i);
      var temp := d;
      d := 2 * d % W;
      if temp >= 0x8000_0000 {
        d := (d - h) % W;
      } else {
        m := m + 2;
        if d >= h {
          d := (d - h) % W;
          m := m - 1;
        }
      }
    }
    TimeIs(dividend, divisor, 15);
    cycles := 2 * m;
  }

  lemma {:induction false} ZeroCosts(h: nat, k: nat)
    requires h > 0
    ensures Remainder(0, h, k) == 0 && Quotient(0, h, k) == 0 && Cost(0, h, k) == 2 * k
  {
    if k > 0 {
      ZeroCosts(h, k - 1);
    }
  }

  /** `top` is the largest power of two that the 15 steps reach. */
  lemma {:induction false} JustBelowCosts(h: nat, k: nat, top: nat)
    requires 0x8000_0000 + top <= h < W && Pow2(k) <= top
    ensures Remainder(h - 1, h, k) == h - Pow2(k) && Cost(h - 1, h, k) == 0
  {
    if k > 0 {
      JustBelowCosts(h, k - 1, top);
    }
  }

  /** Both bounds are met: zero takes 136 cycles. */
  lemma {:induction false} ZeroIsSlowest(divisor: nat)
    requires 0 < divisor < 0x1_0000
    ensures DivuTime(0, divisor) == 136
  {
    TimeIs(0, divisor, 15);
    ZeroCosts(divisor * 0x1_0000, 15);
  }

  /** A large divisor and the largest dividend that does not overflow take 76. */
  lemma {:induction false} JustBelowIsFastest(divisor: nat)
    requires 0x8001 <= divisor < 0x1_0000
    ensures DivuTime(divisor * 0x1_0000 - 1, divisor) == 76
  {
    Bit15();
    TimeIs(divisor * 0x1_0000 - 1, divisor, 15);
    JustBelowCosts(divisor * 0x1_0000, 15, 0x8000);
  }

  lemma {:induction false} TimeIs(dividend: nat, divisor: nat, k: nat)
    requires dividend / 0x1_0000 < divisor < 0x1_0000 && k == 15
    ensures DivuTime(dividend, divisor) == 76 + 2 * Cost(dividend, divisor * 0x1_0000, k)
  {
    CostIs(dividend, divisor * 0x1_0000, k);
    QuotientBits(dividend, divisor);
  }

  // ---- DIVS ----

  function BitAt(v: nat, k: nat): (b: bool) {
    if k == 0 then v % 2 == 1 else BitAt(v / 2, k - 1)
  }

  /** Zeros among the bits 15 down to `16 - n`. */
  function Zeros(q: nat, n: nat): (z: nat)
    requires n <= 16
    ensures z <= n
  {
    if n == 0 then 0 else Zeros(q, n - 1) + if BitAt(q, 16 - n) then 0 else 1
  }

  lemma {:induction false} BitAtIs(v: nat, k: nat)
    ensures BitAt(v, k) <==> v / Pow2(k) % 2 == 1
  {
    if k > 0 {
      BitAtIs(v / 2, k - 1);
      HalfThen(v, Pow2(k - 1));
    }
  }

  lemma {:induction false} HalfThen(v: nat, p: nat)
    requires p > 0
    ensures v / 2 / p == v / (2 * p)
  {
    var q, r := v / 2 / p, v / 2 % p;
    assert v / 2 == q * p + r;
    Doubled(q, p);
    Divided(v, q, 2 * r + v % 2, 2 * p);
  }

  /** The sign bits of the loop: the quotient, shifted left, brings its bits to bit 15. */
  lemma {:induction false} ShiftedBit(q: nat, i: nat, k: nat)
    ensures BitAt(q * Pow2(i), k + i) == BitAt(q, k)
  {
    if i > 0 {
      var v := q * Pow2(i - 1);
      assert q * Pow2(i) == 2 * v by {
        Doubled(q, Pow2(i - 1));
      }
      assert 2 * v / 2 == v;
      ShiftedBit(q, i - 1, k);
    }
  }

  function Abs(v: int): (a: nat) {
    if v < 0 then -v else v
  }

  /** Units of two cycles before the quotient is looked at. */
  function SignCost(dividend: int, divisor: int): (c: nat) {
    6 + (if dividend < 0 then 1 else 0) + 55 + (if divisor < 0 then 0 else if dividend >= 0 then -1 else 1)
  }

  lemma {:induction false} QuotientRange(dividend: nat, divisor: nat)
    requires divisor > 0 && dividend / 0x1_0000 < divisor
    ensures dividend / divisor < 0x1_0000
  {
    DivBelow(0x1_0000, divisor, dividend);
    DivBelow(divisor, 0x1_0000, dividend);
  }

  /** The quotient of the absolute values does not fit in 16 bits, or does not exist. */
  predicate TooLarge(dividend: int, divisor: int) {
    Abs(dividend) / 0x1_0000 >= Abs(divisor)
  }

  function AbsQuotient(dividend: int, divisor: int): (q: nat)
    requires !TooLarge(dividend, divisor)
    ensures q < 0x1_0000
  {
    QuotientRange(Abs(dividend), Abs(divisor));
    Abs(dividend) / Abs(divisor)
  }

  /** Zeros and ones among bits 15 down to `16 - n` are all of them. */
  lemma {:induction false} ZerosAndOnes(q: nat, n: nat, p: nat)
    requires n <= 16 && p == Pow2(16 - n)
    ensures Zeros(q, n) + Ones(DivNat(q, p), n) == n
  {
    if n > 0 {
      ZerosAndOnes(q, n - 1, 2 * p);
      BitAtIs(q, 16 - n);
      ThenHalf(q, p);
    }
  }

  lemma {:induction false} ThenHalf(v: nat, p: nat)
    requires p > 0
    ensures v / p / 2 == v / (2 * p)
  {
    var q, r := v / p, v % p;
    DivMod(v, p);
    Doubled(q / 2, p);
    assert q == 2 * (q / 2) + q % 2;
    Divided(v, q / 2, q % 2 * p + r, 2 * p);
  }

  /** The four sign cases: 120 cycles at least. */
  lemma {:induction false} SignCases(dividend: int, divisor: int)
    ensures 2 * SignCost(dividend, divisor)
         == if dividend >= 0 then (if divisor >= 0 then 120 else 122) else if divisor >= 0 then 126 else 124
  {
  }

  /** A divisor that is too small, zero included, is noticed at once; else a unit for every zero among bits 15 to 1. */
  method DivsCycles(dividend: int, divisor: int) returns (cycles: nat)
    requires -0x8000_0000 <= dividend < 0x8000_0000 && -0x8000 <= divisor < 0x8000
    ensures TooLarge(dividend, divisor) ==> cycles == 16 + if dividend < 0 then 2 else 0
    ensures !TooLarge(dividend, divisor) ==>
      cycles == 2 * (SignCost(dividend, divisor) + Zeros(AbsQuotient(dividend, divisor), 15))
    ensures !TooLarge(dividend, divisor) ==>
      cycles == (if dividend >= 0 then (if divisor >= 0 then 150 else 152) else if divisor >= 0 then 156 else 154)
        - 2 * Ones(Abs(dividend) / Abs(divisor) / 2, 15)
  {
    var m := 6;
    if dividend < 0 {
      m := m + 1;
    }
    if Abs(divisor) == 0 || TooLarge(dividend, divisor) {
      return 2 * (m + 2);
    }
    var q := AbsQuotient(dividend, divisor);
    m := m + 55;
    if divisor >= 0 {
      m := if dividend >= 0 then m - 1 else m + 1;
    }
    var z := CountZeros(q);
    assert Pow2(1) == 2;
    ZerosAndOnes(q, 15, 2);
    SignCases(dividend, divisor);
    cycles := 2 * (m + z);
  }

  /** The loop looks at bit 15 of a 32-bit word and shifts it left, 15 times. */
  method CountZeros(q0: nat) returns (z: nat)
    requires q0 < 0x1_0000
    ensures z == Zeros(q0, 15)
  {
    var q := q0;
    z := 0;
    for i := 0 to 15
      invariant q == q0 * Pow2(i) && z == Zeros(q0, i)
    {
      ShiftedBit(q0, i, 15 - i);
      BitAtIs(q, 15);
      Bit15();
      if q / 0x8000 % 2 == 0 {
        z := z + 1;
      }
      NoWrap(q0, i);
      q := 2 * q % W;
    }
  }

  lemma {:induction false} NoWrap(q: nat, i: nat)
    requires q < 0x1_0000 && i < 15
    ensures 2 * (q * Pow2(i)) < W && q * Pow2(i + 1) == 2 * (q * Pow2(i))
  {
    Pow2Grows(i, 14);
    Bit15();
    assert Pow2(15) == 2 * Pow2(14);
    var p := Pow2(i);
    Scaled(q, 0x1_0000, p);
    Doubled(q, p);
  }

  lemma {:induction false} Bit15()
    ensures Pow2(15) == 0x8000
  {
    assert Pow2(5) == 32 && Pow2(10) == 1024;
  }
}
