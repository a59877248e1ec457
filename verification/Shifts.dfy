/**
  Shifts and rotates of a data register by a count. The handlers build the result with two
  shifts and a mask; the manual describes them as that many steps of one bit. Words are
  lists of bits, the lowest first, of 8, 16 or 32.
*/
module Shifts {
  import opened Limbs
  import opened Powers

  type Bits = seq<bool>

  function Zeros(n: nat): (z: Bits)
    ensures |z| == n && forall i :: 0 <= i < n ==> !z[i]
  {
    seq(n, i => false)
  }

  // ---- the operators of the program, on words of a fixed width ----

  function Shl(d: Bits, c: nat): (r: Bits)
    ensures |r| == |d|
  {
    if c <= |d| then Zeros(c) + d[..|d| - c] else Zeros(|d|)
  }

  function Shr(d: Bits, c: nat): (r: Bits)
    ensures |r| == |d|
  {
    if c <= |d| then d[c..] + Zeros(c) else Zeros(|d|)
  }

  /** The signed shift. */
  function Sar(d: Bits, c: nat): (r: Bits)
    requires |d| > 0 && c <= |d|
    ensures |r| == |d|
  {
    d[c..] + seq(c, i => d[|d| - 1])
  }

  function Or(a: Bits, b: Bits): (r: Bits)
    requires |a| == |b|
    ensures |r| == |a|
  {
    seq(|a|, i requires 0 <= i < |a| => a[i] || b[i])
  }

  predicate IsZero(d: Bits) {
    forall i :: 0 <= i < |d| ==> !d[i]
  }

  // ---- one bit at a time ----

  datatype Op = Asl | Asr | Lsl | Lsr | Rol | Ror | Roxl | Roxr

  datatype State = State(d: Bits, x: bool, c: bool, v: bool)

  function Step(op: Op, s: State): (s': State)
    requires |s.d| > 0
    ensures |s'.d| == |s.d|
  {
    var n := |s.d|;
    var top, low := s.d[n - 1], s.d[0];
    match op
    case Lsl => State([false] + s.d[..n - 1], top, top, s.v)
    case Lsr => State(s.d[1..] + [false], low, low, s.v)
    case Asl => var d := [false] + s.d[..n - 1]; State(d, top, top, s.v || d[n - 1] != top)
    case Asr => State(s.d[1..] + [top], low, low, s.v)
    case Rol => State([top] + s.d[..n - 1], s.x, top, s.v)
    case Ror => State(s.d[1..] + [low], s.x, low, s.v)
    case Roxl => State([s.x] + s.d[..n - 1], top, top, s.v)
    case Roxr => State(s.d[1..] + [s.x], low, low, s.v)
  }

  /** A count of 0 clears carry, except that the rotates through X copy X. */
  function Start(op: Op, d: Bits, x: bool): (s: State) {
    State(d, x, if op.Roxl? || op.Roxr? then x else false, false)
  }

  function Steps(op: Op, s: State, count: nat): (s': State)
    requires |s.d| > 0
    ensures |s'.d| == |s.d|
  {
    if count == 0 then s else Step(op, Steps(op, s, count - 1))
  }

  // ---- the steps on numbers ----

  function Bit(b: bool): (n: nat) {
    if b then 1 else 0
  }

  /** The number a list of bits stands for. */
  function Num(d: Bits): (v: nat) {
    if |d| == 0 then 0 else Bit(d[0]) + 2 * Num(d[1..])
  }

  lemma {:induction false} NumTop(d: Bits, b: bool)
    ensures Num(d + [b]) == Num(d) + Bit(b) * Pow2(|d|)
  {
    if |d| > 0 {
      assert (d + [b])[1..] == d[1..] + [b];
      NumTop(d[1..], b);
    }
  }

  lemma {:induction false} NumBelow(d: Bits)
    ensures Num(d) < Pow2(|d|)
  {
    if |d| > 0 {
      NumBelow(d[1..]);
    }
  }

  lemma {:induction false} UpNumber(d: Bits, b: bool)
    requires |d| > 0
    ensures var half, top := Pow2(|d| - 1), d[|d| - 1];
      && Num(d) == Num(d[..|d| - 1]) + Bit(top) * half && (top <==> Num(d) >= half)
      && Num([b] + d[..|d| - 1]) == Bit(b) + 2 * (Num(d) - Bit(top) * half)
  {
    var low := d[..|d| - 1];
    NumTop(low, d[|d| - 1]);
    NumBelow(low);
    assert low + [d[|d| - 1]] == d && ([b] + low)[1..] == low;
  }

  lemma {:induction false} DownNumber(d: Bits, b: bool)
    requires |d| > 0
    ensures (d[0] <==> Num(d) % 2 == 1) && Num(d[1..] + [b]) == Num(d) / 2 + Bit(b) * Pow2(|d| - 1)
  {
    NumTop(d[1..], b);
  }

  /**
    One step to the left on numbers of n bits: the number doubles, without its top bit, which
    goes to C, and to X but for ROL; 0, the top bit or X comes in at the bottom, and ASL notes
    a change of sign.
  */
  lemma {:induction false} StepLeft(op: Op, s: State, t: State)
    requires |s.d| > 0 && op in {Asl, Lsl, Rol, Roxl} && t == Step(op, s)
    ensures var v, half := Num(s.d), Pow2(|s.d| - 1);
      var top := v >= half;
      && Num(t.d) == 2 * (v - Bit(top) * half) + Bit((op == Rol && top) || (op == Roxl && s.x))
      && t.c == top && t.x == (if op == Rol then s.x else top)
      && t.v == (s.v || (op == Asl && top != (Num(t.d) >= half)))
  {
    var top := s.d[|s.d| - 1];
    UpNumber(s.d, (op == Rol && top) || (op == Roxl && s.x));
    UpNumber(t.d, false);
  }

  /**
    One step to the right: the number is halved, its bottom bit goes to C, and to X but for
    ROR; 0, the sign, the bottom bit or X comes in at the top.
  */
  lemma {:induction false} StepRight(op: Op, s: State, t: State)
    requires |s.d| > 0 && op in {Asr, Lsr, Ror, Roxr} && t == Step(op, s)
    ensures var v, half := Num(s.d), Pow2(|s.d| - 1);
      var top, low := v >= half, v % 2 == 1;
      && Num(t.d) == v / 2 + Bit((op == Asr && top) || (op == Ror && low) || (op == Roxr && s.x)) * half
      && t.c == low && t.x == (if op == Ror then s.x else low) && t.v == s.v
  {
    var top, low := s.d[|s.d| - 1], s.d[0];
    UpNumber(s.d, false);
    DownNumber(s.d, (op == Asr && top) || (op == Ror && low) || (op == Roxr && s.x));
  }

  /** A count of 0 leaves the word and X, clears V, and clears carry but for the rotates through X, which copy it. */
  lemma {:induction false} NoSteps(op: Op, d: Bits, x: bool)
    requires |d| > 0
    ensures Steps(op, Start(op, d, x), 0) == State(d, x, op in {Roxl, Roxr} && x, false)
  {
  }

  // ---- what the steps come to ----

  lemma {:induction false} ShlNext(d: Bits, k: nat)
    requires |d| > 0 && k > 0
    ensures [false] + Shl(d, k - 1)[..|d| - 1] == Shl(d, k)
    ensures Shl(d, k - 1)[|d| - 1] == (k <= |d| && d[|d| - k])
  {
    var n := |d|;
    if k <= n {
      assert Shl(d, k - 1) == Zeros(k - 1) + d[..n - (k - 1)];
      assert Shl(d, k - 1)[..n - 1] == Zeros(k - 1) + d[..n - k];
      assert [false] + Zeros(k - 1) == Zeros(k);
    }
  }

  lemma {:induction false} ShrNext(d: Bits, k: nat)
    requires |d| > 0 && k > 0
    ensures Shr(d, k - 1)[1..] + [false] == Shr(d, k)
    ensures Shr(d, k - 1)[0] == (k <= |d| && d[k - 1])
  {
    if k <= |d| {
      assert Shr(d, k - 1) == d[k - 1..] + Zeros(k - 1);
      assert Shr(d, k - 1)[1..] == d[k..] + Zeros(k - 1);
      assert Zeros(k - 1) + [false] == Zeros(k);
    }
  }

  lemma {:induction false} SarNext(d: Bits, k: nat)
    requires 0 < k <= |d|
    ensures Sar(d, k - 1)[1..] + [d[|d| - 1]] == Sar(d, k) && Sar(d, k - 1)[0] == d[k - 1]
    ensures Sar(d, |d|)[1..] + [d[|d| - 1]] == Sar(d, |d|)
      && Sar(d, k - 1)[|d| - 1] == d[|d| - 1] == Sar(d, |d|)[|d| - 1]
  {
    var top := d[|d| - 1];
    assert Sar(d, k - 1)[1..] == d[k..] + seq(k - 1, i => top);
    assert seq(k - 1, i => top) + [top] == seq(k, i => top);
  }

  /** What `k` steps of LSL come to. */
  predicate LslAt(s: State, r: State, k: nat)
    requires |s.d| > 0
  {
    && r.d == Shl(s.d, k) && r.v == s.v
    && (k > 0 ==> r.c == r.x == (k <= |s.d| && s.d[|s.d| - k])) && (k == 0 ==> r == s)
  }

  lemma {:induction false} LslSteps(s: State, k: nat)
    requires |s.d| > 0
    ensures LslAt(s, Steps(Lsl, s, k), k)
  {
    if k > 0 {
      LslSteps(s, k - 1);
      ShlNext(s.d, k);
    } else {
      assert Shl(s.d, 0) == s.d;
    }
  }

  predicate LsrAt(s: State, r: State, k: nat)
    requires |s.d| > 0
  {
    && r.d == Shr(s.d, k) && r.v == s.v
    && (k > 0 ==> r.c == r.x == (k <= |s.d| && s.d[k - 1])) && (k == 0 ==> r == s)
  }

  lemma {:induction false} LsrSteps(s: State, k: nat)
    requires |s.d| > 0
    ensures LsrAt(s, Steps(Lsr, s, k), k)
  {
    if k > 0 {
      LsrSteps(s, k - 1);
      ShrNext(s.d, k);
    } else {
      assert Shr(s.d, 0) == s.d;
    }
  }

  /** The `k + 1` top bits are not all the same; below the word there are zeros. */
  predicate SignChanges(d: Bits, k: nat)
    requires |d| > 0
  {
    (k >= |d| && d[|d| - 1]) || exists i :: 0 <= i < |d| && |d| - 1 - k <= i && d[i] != d[|d| - 1]
  }

  /** One more bit comes into play, or a zero. */
  lemma {:induction false} SignChangesNext(d: Bits, k: nat)
    requires |d| > 0 && k > 0
    ensures SignChanges(d, k) <==>
      SignChanges(d, k - 1) || (k < |d| && d[|d| - 1 - k]) != (k - 1 < |d| && d[|d| - k])
  {
    var n := |d|;
    if k < n && d[n - 1 - k] != d[n - k] {
      assert d[n - k] != d[n - 1] || d[n - 1 - k] != d[n - 1];
    }
    if k < n && SignChanges(d, k) && !SignChanges(d, k - 1) {
      assert d[n - k] == d[n - 1];
    }
    if k == n && d[0] {
      assert d[n - 1] || d[0] != d[n - 1];
    }
    if k == n && !d[0] && d[n - 1] {
      assert d[0] != d[n - 1];
    }
  }

  /** The test of the program: the mask of the top `k + 1` bits, or of the whole word. */
  predicate MaskTest(d: Bits, k: nat)
    requires |d| > 0
  {
    if k < |d| then exists i :: |d| - 1 - k <= i < |d| && d[i] != d[|d| - 1] else !IsZero(d)
  }

  lemma {:induction false} MaskTestsSign(d: Bits, k: nat)
    requires |d| > 0
    ensures MaskTest(d, k) <==> SignChanges(d, k)
  {
    if k >= |d| && MaskTest(d, k) && !d[|d| - 1] {
      var i :| 0 <= i < |d| && d[i];
      assert d[i] != d[|d| - 1];
    }
  }

  predicate AslAt(s: State, r: State, k: nat)
    requires |s.d| > 0
  {
    && r.d == Shl(s.d, k) && (r.v <==> SignChanges(s.d, k))
    && (k > 0 ==> r.c == r.x == (k <= |s.d| && s.d[|s.d| - k])) && (k == 0 ==> r == s)
  }

  lemma {:induction false} AslNext(s: State, r: State, r': State, k: nat)
    requires |s.d| > 0 && k > 0 && AslAt(s, r, k - 1) && r' == Step(Asl, r)
    ensures AslAt(s, r', k)
  {
    var n, d := |s.d|, Shl(s.d, k);
    ShlNext(s.d, k);
    ShlNext(s.d, k + 1);
    SignChangesNext(s.d, k);
    assert r' == State(d, r.d[n - 1], r.d[n - 1], r.v || d[n - 1] != r.d[n - 1]);
  }

  lemma {:induction false} AslSteps(s: State, k: nat)
    requires |s.d| > 0 && !s.v
    ensures AslAt(s, Steps(Asl, s, k), k)
  {
    if k > 0 {
      AslSteps(s, k - 1);
      AslNext(s, Steps(Asl, s, k - 1), Steps(Asl, s, k), k);
    } else {
      assert Shl(s.d, 0) == s.d;
    }
  }

  predicate AsrAt(s: State, r: State, k: nat)
    requires |s.d| > 0
  {
    var n := |s.d|;
    && r.d == Sar(s.d, if k <= n then k else n) && r.v == s.v
    && (k > 0 ==> r.c == r.x == if k <= n then s.d[k - 1] else s.d[n - 1]) && (k == 0 ==> r == s)
  }

  lemma {:induction false} AsrNext(s: State, r: State, r': State, k: nat)
    requires |s.d| > 0 && k > 0 && AsrAt(s, r, k - 1) && r' == Step(Asr, r)
    ensures AsrAt(s, r', k)
  {
    var n := |s.d|;
    SarNext(s.d, if k <= n then k else n);
    assert r' == State(r.d[1..] + [r.d[n - 1]], r.d[0], r.d[0], r.v);
  }

  lemma {:induction false} AsrSteps(s: State, k: nat)
    requires |s.d| > 0
    ensures AsrAt(s, Steps(Asr, s, k), k)
  {
    if k > 0 {
      AsrSteps(s, k - 1);
      AsrNext(s, Steps(Asr, s, k - 1), Steps(Asr, s, k), k);
    } else {
      assert Sar(s.d, 0) == s.d;
    }
  }

  /** `w` turned by `k` places, so that what falls off the low end comes in at the top. */
  function Turn(w: Bits, k: nat): (r: Bits)
    requires k <= |w|
    ensures |r| == |w|
  {
    w[k..] + w[..k]
  }

  lemma {:induction false} TurnOn(w: Bits, k: nat)
    requires k < |w|
    ensures var t := Turn(w, k); t[1..] + [t[0]] == Turn(w, if k + 1 == |w| then 0 else k + 1)
  {
    var t, n := Turn(w, k), |w|;
    assert t[0] == w[k];
    if k + 1 == n {
      assert t[1..] + [t[0]] == w;
    } else {
      assert t[1..] == w[k + 1..] + w[..k];
      assert w[..k] + [w[k]] == w[..k + 1];
    }
  }

  lemma {:induction false} TurnBack(w: Bits, k: nat)
    requires 0 < k <= |w|
    ensures var t := Turn(w, k); [t[|w| - 1]] + t[..|w| - 1] == Turn(w, k - 1)
  {
    var t := Turn(w, k);
    assert t[|w| - 1] == w[k - 1];
    assert t[..|w| - 1] == w[k..] + w[..k - 1];
    assert [w[k - 1]] + w[k..] == w[k - 1..];
  }

  lemma {:induction false} WholeTurn(w: Bits)
    ensures Turn(w, 0) == Turn(w, |w|) == w
  {
  }

  /** A count, reduced to the width it turns in. */
  function Reduced(k: nat, m: nat): (r: nat)
    requires m > 0
    ensures r < m
  {
    if k == 0 then 0
    else
      var r := Reduced(k - 1, m);
      if r + 1 == m then 0 else r + 1
  }

  lemma {:induction false} ReducedQuotient(k: nat, m: nat) returns (q: nat)
    requires m > 0
    ensures k == q * m + Reduced(k, m)
  {
    if k == 0 {
      q := 0;
    } else {
      q := ReducedQuotient(k - 1, m);
      if Reduced(k - 1, m) + 1 == m {
        assert (q + 1) * m == q * m + m;
        q := q + 1;
      }
    }
  }

  lemma {:induction false} ReducedIs(k: nat, m: nat)
    requires m > 0
    ensures Reduced(k, m) == k % m
  {
    var q := ReducedQuotient(k, m);
    Divided(k, q, Reduced(k, m), m);
  }

  predicate RorAt(s: State, r: State, k: nat)
    requires |s.d| > 0
  {
    && r.d == Turn(s.d, Reduced(k, |s.d|)) && r.x == s.x && r.v == s.v
    && r.c == if k > 0 then r.d[|s.d| - 1] else s.c
  }

  lemma {:induction false} RorNext(s: State, r: State, k: nat)
    requires |s.d| > 0 && k > 0 && RorAt(s, r, k - 1)
    ensures RorAt(s, Step(Ror, r), k)
  {
    TurnOn(s.d, Reduced(k - 1, |s.d|));
  }

  lemma {:induction false} RorSteps(s: State, k: nat)
    requires |s.d| > 0
    ensures RorAt(s, Steps(Ror, s, k), k)
  {
    if k > 0 {
      RorSteps(s, k - 1);
      RorNext(s, Steps(Ror, s, k - 1), k);
    } else {
      WholeTurn(s.d);
    }
  }

  predicate RolAt(s: State, r: State, k: nat)
    requires |s.d| > 0
  {
    && r.d == Turn(s.d, |s.d| - Reduced(k, |s.d|)) && r.x == s.x && r.v == s.v
    && r.c == if k > 0 then r.d[0] else s.c
  }

  /** One place up, from `n - j` places. */
  lemma {:induction false} TurnUpOnce(d: Bits, t: Bits, u: Bits, j: nat)
    requires |d| == |t| > 0 && j < |d| && t == Turn(d, |d| - j) && u == [t[|d| - 1]] + t[..|d| - 1]
    ensures u == Turn(d, |d| - if j + 1 == |d| then 0 else j + 1)
  {
    TurnBack(d, |d| - j);
    if j + 1 == |d| {
      WholeTurn(d);
    }
  }

  lemma {:induction false} RolStep(r: State, r': State)
    requires |r.d| > 0 && r' == Step(Rol, r)
    ensures r'.d == [r.d[|r.d| - 1]] + r.d[..|r.d| - 1] && r'.c == r'.d[0] && r'.x == r.x && r'.v == r.v
  {
  }

  lemma {:induction false} RolNext(s: State, r: State, r': State, k: nat)
    requires |s.d| > 0 && k > 0 && RolAt(s, r, k - 1) && r' == Step(Rol, r)
    ensures RolAt(s, r', k)
  {
    RolStep(r, r');
    TurnUpOnce(s.d, r.d, r'.d, Reduced(k - 1, |s.d|));
  }

  lemma {:induction false} RolSteps(s: State, k: nat)
    requires |s.d| > 0
    ensures RolAt(s, Steps(Rol, s, k), k)
  {
    if k > 0 {
      RolSteps(s, k - 1);
      RolNext(s, Steps(Rol, s, k - 1), Steps(Rol, s, k), k);
    } else {
      WholeTurn(s.d);
    }
  }

  /** The rotates through X turn the word with X on top. */
  function WithX(s: State): (w: Bits) {
    s.d + [s.x]
  }

  predicate RoxrAt(s: State, r: State, k: nat) {
    WithX(r) == Turn(WithX(s), Reduced(k, |s.d| + 1)) && r.c == r.x && r.v == s.v
  }

  lemma {:induction false} RoxrNext(s: State, r: State, k: nat)
    requires |s.d| > 0 && k > 0 && |r.d| == |s.d| && RoxrAt(s, r, k - 1)
    ensures RoxrAt(s, Step(Roxr, r), k)
  {
    TurnOn(WithX(s), Reduced(k - 1, |s.d| + 1));
    assert (r.d + [r.x])[1..] == r.d[1..] + [r.x];
  }

  lemma {:induction false} RoxrSteps(s: State, k: nat)
    requires |s.d| > 0 && s.c == s.x
    ensures RoxrAt(s, Steps(Roxr, s, k), k)
  {
    if k > 0 {
      RoxrSteps(s, k - 1);
      RoxrNext(s, Steps(Roxr, s, k - 1), k);
    } else {
      WholeTurn(WithX(s));
    }
  }

  predicate RoxlAt(s: State, r: State, k: nat) {
    WithX(r) == Turn(WithX(s), |s.d| + 1 - Reduced(k, |s.d| + 1)) && r.c == r.x && r.v == s.v
  }

  lemma {:induction false} RoxlNext(s: State, r: State, k: nat)
    requires |s.d| > 0 && k > 0 && |r.d| == |s.d| && RoxlAt(s, r, k - 1)
    ensures RoxlAt(s, Step(Roxl, r), k)
  {
    RoxlOne(r);
    TurnUpOnce(WithX(s), WithX(r), WithX(Step(Roxl, r)), Reduced(k - 1, |s.d| + 1));
  }

  lemma {:induction false} RoxlOne(r: State)
    requires |r.d| > 0
    ensures var w, l := WithX(r), Step(Roxl, r); WithX(l) == [w[|w| - 1]] + w[..|w| - 1] && l.c == l.x && l.v == r.v
  {
    var n := |r.d|;
    assert r.d == r.d[..n - 1] + [r.d[n - 1]];
  }

  lemma {:induction false} RoxlSteps(s: State, k: nat)
    requires |s.d| > 0 && s.c == s.x
    ensures RoxlAt(s, Steps(Roxl, s, k), k)
  {
    if k > 0 {
      RoxlSteps(s, k - 1);
      RoxlNext(s, Steps(Roxl, s, k - 1), k);
    } else {
      WholeTurn(WithX(s));
    }
  }

  // ---- the formulas of the handlers ----

  /** Two parts that do not overlap. */
  lemma {:induction false} OrParts(a: Bits, b: Bits)
    ensures Or(a + Zeros(|b|), Zeros(|a|) + b) == a + b
    ensures Or(Zeros(|a|) + b, a + Zeros(|b|)) == a + b
  {
  }

  lemma {:induction false} RorFormula(d: Bits, c: nat)
    requires 0 < c < |d|
    ensures Or(Shr(d, c), Shl(d, |d| - c)) == Turn(d, c)
    ensures Or(Shl(d, |d| - c), Shr(d, c)) == Turn(d, c)
  {
    OrParts(d[c..], d[..c]);
  }

  /** The word moved up by one, with X below it; its top bit is lost. */
  function UpWithX(d: Bits, x: bool): (t: Bits)
    requires |d| > 0
    ensures |t| == |d|
  {
    Shl(d, 1)[0 := x]
  }

  function DownWithX(d: Bits, x: bool): (t: Bits)
    requires |d| > 0
    ensures |t| == |d|
  {
    Shr(d, 1)[|d| - 1 := x]
  }

  lemma {:induction false} UpParts(d: Bits, x: bool, c: nat)
    requires 0 < c <= |d|
    ensures Shl(UpWithX(d, x), |d| - c) == Zeros(|d| - c) + ([x] + d[..c - 1])
  {
    assert UpWithX(d, x)[..c] == [x] + d[..c - 1];
  }

  lemma {:induction false} Regrouped(a: Bits, b: Bits, c: Bits, y: bool)
    ensures a + (b + c) + [y] == a + b + (c + [y])
  {
  }

  lemma {:induction false} RoxrOr(d: Bits, x: bool, c: nat)
    requires 0 < c <= |d|
    ensures Or(Shr(d, c), Shl(UpWithX(d, x), |d| - c)) == d[c..] + ([x] + d[..c - 1])
  {
    UpParts(d, x, c);
    OrParts(d[c..], [x] + d[..c - 1]);
  }

  lemma {:induction false} RoxrTurn(d: Bits, x: bool, c: nat)
    requires 0 < c <= |d|
    ensures d[c..] + ([x] + d[..c - 1]) + [d[c - 1]] == Turn(d + [x], c)
  {
    TurnParts(d, x, c);
    assert d[..c] == d[..c - 1] + [d[c - 1]];
    Regrouped(d[c..], [x], d[..c - 1], d[c - 1]);
  }

  lemma {:induction false} RoxrFormula(d: Bits, x: bool, c: nat)
    requires 0 < c <= |d|
    ensures Or(Shr(d, c), Shl(UpWithX(d, x), |d| - c)) + [d[c - 1]] == Turn(d + [x], c)
  {
    RoxrOr(d, x, c);
    RoxrTurn(d, x, c);
  }

  lemma {:induction false} TurnParts(d: Bits, x: bool, c: nat)
    requires c <= |d|
    ensures Turn(d + [x], c) == d[c..] + [x] + d[..c]
  {
  }

  lemma {:induction false} RoxlOr(d: Bits, x: bool, k: nat)
    requires k < |d|
    ensures Or(Shl(d, |d| - k), Shr(DownWithX(d, x), k)) == (d + [x])[k + 1..] + d[..k]
  {
    var t := DownWithX(d, x);
    var high, low := t[k..], d[..k];
    assert high == (d + [x])[k + 1..];
    assert Shl(d, |d| - k) == Zeros(|high|) + low && Shr(t, k) == high + Zeros(|low|);
    OrParts(high, low);
  }

  lemma {:induction false} RoxlTurn(d: Bits, x: bool, k: nat)
    requires k < |d|
    ensures (d + [x])[k + 1..] + d[..k] + [d[k]] == Turn(d + [x], k + 1)
  {
    assert (d + [x])[..k + 1] == d[..k] + [d[k]];
  }

  lemma {:induction false} RoxlFormula(d: Bits, x: bool, c: nat)
    requires 0 < c <= |d|
    ensures Or(Shl(d, c), Shr(DownWithX(d, x), |d| - c)) + [d[|d| - c]] == Turn(d + [x], |d| + 1 - c)
  {
    RoxlOr(d, x, |d| - c);
    RoxlTurn(d, x, |d| - c);
  }

  /** The rotate of long words through X in a word of 64 bits. */
  lemma {:induction false} WideTurn(w: Bits, c: nat)
    requires |w| == 33 && 0 < c < 33
    ensures var r := w + Zeros(31);
      Or(Shr(r, c), Shl(r, 33 - c))[..33] == Or(Shl(r, 33 - c), Shr(r, c))[..33] == Turn(w, c)
  {
    var r, t := w + Zeros(31), Turn(w, c);
    var up, down := Shl(r, 33 - c), Shr(r, c);
    forall i | 0 <= i < 33 ensures up[i] == (i >= 33 - c && w[i - (33 - c)]) && down[i] == (i + c < 33 && w[i + c]) {
    }
    forall i | 0 <= i < 33 ensures t[i] == if i + c < 33 then w[i + c] else w[i - (33 - c)] {
    }
  }

  // ---- the handlers ----

  method Reduce(count: nat, m: nat) returns (c: nat)
    requires m > 0
    ensures c == Reduced(count, m)
  {
    c := count % m;
    ReducedIs(count, m);
  }

  method TurnDown(d: Bits, count: nat) returns (r: Bits)
    requires |d| > 0
    ensures r == Turn(d, Reduced(count, |d|))
  {
    var c := Reduce(count, |d|);
    WholeTurn(d);
    r := d;
    if c != 0 {
      RorFormula(d, c);
      r := Or(Shr(d, c), Shl(d, |d| - c));
    }
  }

  method TurnUp(d: Bits, count: nat) returns (r: Bits)
    requires |d| > 0
    ensures r == Turn(d, |d| - Reduced(count, |d|))
  {
    var c := Reduce(count, |d|);
    WholeTurn(d);
    r := d;
    if c != 0 {
      RorFormula(d, |d| - c);
      r := Or(Shl(d, c), Shr(d, |d| - c));
    }
  }

  method TurnDownX(d: Bits, x: bool, count: nat) returns (r: Bits, out: bool)
    requires |d| > 0
    ensures r + [out] == Turn(d + [x], Reduced(count, |d| + 1))
  {
    var c := Reduce(count, |d| + 1);
    WholeTurn(d + [x]);
    r, out := d, x;
    if c != 0 {
      RoxrFormula(d, x, c);
      r, out := Or(Shr(d, c), Shl(UpWithX(d, x), |d| - c)), d[c - 1];
    }
  }

  method TurnUpX(d: Bits, x: bool, count: nat) returns (r: Bits, out: bool)
    requires |d| > 0
    ensures r + [out] == Turn(d + [x], |d| + 1 - Reduced(count, |d| + 1))
  {
    var c := Reduce(count, |d| + 1);
    WholeTurn(d + [x]);
    r, out := d, x;
    if c != 0 {
      RoxlFormula(d, x, c);
      r, out := Or(Shl(d, c), Shr(DownWithX(d, x), |d| - c)), d[|d| - c];
    }
  }

  /** Beyond the width all bits are the sign, but the bit shifted out is lost. */
  method ShiftSigned(d: Bits, count: nat) returns (r: Bits, out: bool)
    requires |d| > 0
    ensures r == Sar(d, if count <= |d| then count else |d|) && out == (0 < count <= |d| && d[count - 1])
  {
    var n, negative := |d|, d[|d| - 1];
    out := 0 < count <= n && d[count - 1];
    r := if count < n then Sar(d, count) else seq(n, i => negative);
    assert Sar(d, n) == seq(n, i => d[n - 1]);
  }

  /** X and the register are one word of 33 bits in one of 64. */
  method TurnDownXLong(d: Bits, x: bool, count: nat) returns (r: Bits, out: bool)
    requires |d| == 32
    ensures r + [out] == Turn(d + [x], Reduced(count, |d| + 1))
  {
    var c := Reduce(count, |d| + 1);
    WholeTurn(d + [x]);
    r, out := d, x;
    if c != 0 {
      WideTurn(d + [x], c);
      var w := d + [x] + Zeros(31);
      w := Or(Shr(w, c), Shl(w, 33 - c));
      r, out := w[..32], w[32];
      assert r + [out] == w[..33];
    }
  }

  method TurnUpXLong(d: Bits, x: bool, count: nat) returns (r: Bits, out: bool)
    requires |d| == 32
    ensures r + [out] == Turn(d + [x], |d| + 1 - Reduced(count, |d| + 1))
  {
    var c := Reduce(count, |d| + 1);
    WholeTurn(d + [x]);
    r, out := d, x;
    if c != 0 {
      WideTurn(d + [x], 33 - c);
      var w := d + [x] + Zeros(31);
      w := Or(Shl(w, c), Shr(w, 33 - c));
      r, out := w[..32], w[32];
      assert r + [out] == w[..33];
    }
  }

  /** The carry that the program leaves after ASR by `count`. */
  predicate AsrOut(d: Bits, count: nat) {
    0 < count <= |d| && d[count - 1]
  }

  /** The byte 0x80 by nine places: the steps leave carry and X set, the program clears them. */
  lemma {:induction false} AsrByNine(x: bool)
    ensures var d := Zeros(7) + [true];
      var s := Steps(Asr, Start(Asr, d, x), 9);
      s.c && s.x && !AsrOut(d, 9)
  {
    AsrSteps(Start(Asr, Zeros(7) + [true], x), 9);
  }

  /** The part of a data register that the instruction takes, and the flags. */
  class Register {
    var d: Bits
    var f: Flags

    constructor (word: Bits, flags: Flags)
      ensures d == word && f == flags
    {
      d, f := word, flags;
    }

    /** The register and the flags are those of `count` steps from `was` and the old X. */
    predicate Shows(op: Op, was: Bits, x: bool, count: nat)
      reads this
      requires |was| > 0
    {
      && State(d, f.x, f.c, f.v) == Steps(op, Start(op, was, x), count)
      && |d| == |was| && f.n == d[|d| - 1] && f.z == IsZero(d)
    }

    /** Z and N of the result. */
    method Tested(x: bool, c: bool, v: bool)
      requires |d| > 0
      modifies this`f
      ensures f == Flags(x, c, IsZero(d), d[|d| - 1], v)
    {
      f := Flags(x, c, IsZero(d), d[|d| - 1], v);
    }

    method LslRegister(count: nat)
      requires |d| > 0
      modifies this
      ensures Shows(Lsl, old(d), old(f.x), count)
    {
      LslSteps(Start(Lsl, d, f.x), count);
      var n := |d|;
      if count == 0 {
        Tested(f.x, false, false);
      } else {
        var out := count <= n && d[n - count];
        d := if count < n then Shl(d, count) else Zeros(n);
        Tested(out, out, false);
      }
    }

    method LsrRegister(count: nat)
      requires |d| > 0
      modifies this
      ensures Shows(Lsr, old(d), old(f.x), count)
    {
      LsrSteps(Start(Lsr, d, f.x), count);
      var n := |d|;
      if count == 0 {
        Tested(f.x, false, false);
      } else {
        var out := count <= n && d[count - 1];
        d := if count < n then Shr(d, count) else Zeros(n);
        Tested(out, out, false);
      }
    }

    /** V: the mask takes the top `count + 1` bits, which must all be the sign. */
    method AslRegister(count: nat)
      requires |d| > 0
      modifies this
      ensures Shows(Asl, old(d), old(f.x), count)
    {
      AslSteps(Start(Asl, d, f.x), count);
      var n := |d|;
      if count == 0 {
        Tested(f.x, false, false);
      } else {
        var out, negative := count <= n && d[n - count], d[n - 1];
        var overflow := if count < n then exists i :: n - 1 - count <= i < n && d[i] != negative else !IsZero(d);
        MaskTestsSign(d, count);
        assert overflow == MaskTest(d, count);
        d := if count < n then Shl(d, count) else Zeros(n);
        Tested(out, out, overflow);
      }
    }

    /**
      ASR. For counts above the width the program clears carry and X where the steps leave
      the sign there, so that it shows them if and only if the sign is clear.
    */
    method AsrRegister(count: nat)
      requires |d| > 0
      modifies this
      ensures Shows(Asr, old(d), old(f.x), count) <==> count <= |old(d)| || !old(d)[|old(d)| - 1]
      ensures d == Steps(Asr, Start(Asr, old(d), old(f.x)), count).d && f.n == d[|d| - 1] && f.z == IsZero(d) && !f.v
      ensures f.c == AsrOut(old(d), count) && f.x == if count == 0 then old(f.x) else f.c
    {
      AsrSteps(Start(Asr, d, f.x), count);
      var r, out := ShiftSigned(d, count);
      d := r;
      Tested(if count == 0 then f.x else out, out, false);
    }

    method RorRegister(count: nat)
      requires |d| > 0
      modifies this
      ensures Shows(Ror, old(d), old(f.x), count)
    {
      RorSteps(Start(Ror, d, f.x), count);
      d := TurnDown(d, count);
      Tested(f.x, count > 0 && d[|d| - 1], false);
    }

    method RolRegister(count: nat)
      requires |d| > 0
      modifies this
      ensures Shows(Rol, old(d), old(f.x), count)
    {
      ghost var r := Steps(Rol, Start(Rol, d, f.x), count);
      RolSteps(Start(Rol, d, f.x), count);
      d := TurnUp(d, count);
      assert d == r.d;
      Tested(f.x, count > 0 && d[0], false);
    }

    /** Bytes and words. */
    method RoxrRegister(count: nat)
      requires |d| > 0
      modifies this
      ensures Shows(Roxr, old(d), old(f.x), count)
    {
      RoxrSteps(Start(Roxr, d, f.x), count);
      var r, out := TurnDownX(d, f.x, count);
      SplitX(r, out, Steps(Roxr, Start(Roxr, d, f.x), count));
      d := r;
      Tested(out, out, false);
    }

    method RoxlRegister(count: nat)
      requires |d| > 0
      modifies this
      ensures Shows(Roxl, old(d), old(f.x), count)
    {
      RoxlSteps(Start(Roxl, d, f.x), count);
      var r, out := TurnUpX(d, f.x, count);
      SplitX(r, out, Steps(Roxl, Start(Roxl, d, f.x), count));
      d := r;
      Tested(out, out, false);
    }

    /** Long words: X and the register are one word of 33 bits in one of 64. */
    method RoxrLong(count: nat)
      requires |d| == 32
      modifies this
      ensures Shows(Roxr, old(d), old(f.x), count)
    {
      RoxrSteps(Start(Roxr, d, f.x), count);
      var r, out := TurnDownXLong(d, f.x, count);
      SplitX(r, out, Steps(Roxr, Start(Roxr, d, f.x), count));
      d := r;
      Tested(out, out, false);
    }

    method RoxlLong(count: nat)
      requires |d| == 32
      modifies this
      ensures Shows(Roxl, old(d), old(f.x), count)
    {
      RoxlSteps(Start(Roxl, d, f.x), count);
      var r, out := TurnUpXLong(d, f.x, count);
      SplitX(r, out, Steps(Roxl, Start(Roxl, d, f.x), count));
      d := r;
      Tested(out, out, false);
    }

    // The immediate forms take the count from three bits, where 0 stands for 8.

    method LslImmediate(field: nat)
      requires |d| in {8, 16, 32} && field < 8
      modifies this
      ensures Shows(Lsl, old(d), old(f.x), Count(field))
    {
      LslSteps(Start(Lsl, d, f.x), Count(field));
      if |d| == 8 && field == 0 {
        var out := d[0];
        d := Zeros(8);
        Tested(out, out, false);
      } else {
        var c := Count(field);
        var out := d[|d| - c];
        d := Shl(d, c);
        Tested(out, out, false);
      }
    }

    method LsrImmediate(field: nat)
      requires |d| in {8, 16, 32} && field < 8
      modifies this
      ensures Shows(Lsr, old(d), old(f.x), Count(field))
    {
      LsrSteps(Start(Lsr, d, f.x), Count(field));
      if |d| == 8 && field == 0 {
        var out := d[7];
        d := Zeros(8);
        Tested(out, out, false);
      } else {
        var c := Count(field);
        var out := d[c - 1];
        d := Shr(d, c);
        Tested(out, out, false);
      }
    }

    method AslImmediate(field: nat)
      requires |d| in {8, 16, 32} && field < 8
      modifies this
      ensures Shows(Asl, old(d), old(f.x), Count(field))
    {
      AslSteps(Start(Asl, d, f.x), Count(field));
      var c, n := Count(field), |d|;
      var out, negative := d[n - c], d[n - 1];
      var overflow := if n == 8 && c == 8 then !IsZero(d) else exists i :: n - 1 - c <= i < n && d[i] != negative;
      MaskTestsSign(d, c);
      assert overflow == MaskTest(d, c);
      d := Shl(d, c);
      Tested(out, out, overflow);
    }

    method RorImmediate(field: nat)
      requires |d| in {8, 16, 32} && field < 8
      modifies this
      ensures Shows(Ror, old(d), old(f.x), Count(field))
    {
      RorSteps(Start(Ror, d, f.x), Count(field));
      d := TurnDownField(d, field);
      Tested(f.x, d[|d| - 1], false);
    }

    method RolImmediate(field: nat)
      requires |d| in {8, 16, 32} && field < 8
      modifies this
      ensures Shows(Rol, old(d), old(f.x), Count(field))
    {
      ghost var r := Steps(Rol, Start(Rol, d, f.x), Count(field));
      RolSteps(Start(Rol, d, f.x), Count(field));
      d := TurnUpField(d, field);
      assert d == r.d;
      Tested(f.x, d[0], false);
    }

    method RoxrImmediate(field: nat)
      requires |d| in {8, 16, 32} && field < 8
      modifies this
      ensures Shows(Roxr, old(d), old(f.x), Count(field))
    {
      RoxrSteps(Start(Roxr, d, f.x), Count(field));
      var r, out := TurnDownXField(d, f.x, field);
      SplitX(r, out, Steps(Roxr, Start(Roxr, d, f.x), Count(field)));
      d := r;
      Tested(out, out, false);
    }

    method RoxlImmediate(field: nat)
      requires |d| in {8, 16, 32} && field < 8
      modifies this
      ensures Shows(Roxl, old(d), old(f.x), Count(field))
    {
      RoxlSteps(Start(Roxl, d, f.x), Count(field));
      var r, out := TurnUpXField(d, f.x, field);
      SplitX(r, out, Steps(Roxl, Start(Roxl, d, f.x), Count(field)));
      d := r;
      Tested(out, out, false);
    }
  }

  method TurnDownField(d: Bits, field: nat) returns (r: Bits)
    requires |d| in {8, 16, 32} && field < 8
    ensures r == Turn(d, Reduced(Count(field), |d|))
  {
    SmallCount(field, |d|);
    r := d;
    if |d| > 8 || field != 0 {
      var c := Count(field);
      RorFormula(d, c);
      r := Or(Shr(d, c), Shl(d, |d| - c));
    } else {
      WholeTurn(d);
    }
  }

  method TurnUpField(d: Bits, field: nat) returns (r: Bits)
    requires |d| in {8, 16, 32} && field < 8
    ensures r == Turn(d, |d| - Reduced(Count(field), |d|))
  {
    SmallCount(field, |d|);
    r := d;
    if |d| > 8 || field != 0 {
      var n, c := |d|, Count(field);
      RorFormula(d, n - c);
      r := Or(Shl(d, c), Shr(d, n - c));
    } else {
      WholeTurn(d);
    }
  }

  /** Eight places of a byte and X are one place the other way. */
  method TurnDownXField(d: Bits, x: bool, field: nat) returns (r: Bits, out: bool)
    requires |d| in {8, 16, 32} && field < 8
    ensures r + [out] == Turn(d + [x], Reduced(Count(field), |d| + 1))
  {
    var c := Count(field);
    SmallCount(field, |d| + 1);
    RoxrFormula(d, x, c);
    out := d[c - 1];
    if |d| == 8 && field == 0 {
      EightPlaces(d, x);
      r := UpWithX(d, x);
    } else {
      r := Or(Shr(d, c), Shl(UpWithX(d, x), |d| - c));
    }
  }

  method TurnUpXField(d: Bits, x: bool, field: nat) returns (r: Bits, out: bool)
    requires |d| in {8, 16, 32} && field < 8
    ensures r + [out] == Turn(d + [x], |d| + 1 - Reduced(Count(field), |d| + 1))
  {
    var c := Count(field);
    SmallCount(field, |d| + 1);
    RoxlFormula(d, x, c);
    out := d[|d| - c];
    if |d| == 8 && field == 0 {
      EightPlaces(d, x);
      r := DownWithX(d, x);
    } else {
      r := Or(Shl(d, c), Shr(DownWithX(d, x), |d| - c));
    }
  }

  /** The field of an immediate form holds the count modulo 8. */
  function Count(field: nat): (c: nat)
    ensures field < 8 ==> 0 < c <= 8 && c % 8 == field
  {
    if field == 0 then 8 else field
  }

  lemma {:induction false} SmallCount(field: nat, m: nat)
    requires field < 8 && 8 <= m
    ensures Reduced(Count(field), m) == if Count(field) == m then 0 else Count(field)
  {
    ReducedBelow(Count(field) - 1, m);
  }

  lemma {:induction false} ReducedBelow(k: nat, m: nat)
    requires k < m
    ensures Reduced(k, m) == k
  {
    if k > 0 {
      ReducedBelow(k - 1, m);
    }
  }

  lemma {:induction false} EightPlaces(d: Bits, x: bool)
    requires |d| == 8
    ensures Or(Shr(d, 8), Shl(UpWithX(d, x), 0)) == UpWithX(d, x)
    ensures Or(Shl(d, 8), Shr(DownWithX(d, x), 0)) == DownWithX(d, x)
  {
  }

  lemma {:induction false} SplitX(d: Bits, x: bool, s: State)
    requires WithX(s) == d + [x]
    ensures s.d == d && s.x == x
  {
    assert |s.d| == |d|;
    assert (d + [x])[..|d|] == d && WithX(s)[..|s.d|] == s.d;
  }
}
