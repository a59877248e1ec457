/**
  The arithmetic instructions that take part in multi-precision arithmetic: ADDX, SUBX and
  NEGX on bytes, words and long words, ABCD, SBCD and NBCD on bytes. Each takes the carry
  or borrow of the limb before it from X, leaves its own there, and can only clear Z.
*/
module Limbs {

  datatype Size = Byte | Word | Long

  /** The weight of the sign bit. */
  function Half(z: Size): nat {
    match z
    case Byte => 0x80
    case Word => 0x8000
    case Long => 0x8000_0000
  }

  function Modulus(z: Size): nat {
    2 * Half(z)
  }

  datatype Flags = Flags(x: bool, c: bool, z: bool, n: bool, v: bool)

  datatype Out = Out(r: nat, f: Flags)

  function Int(b: bool): (i: nat) {
    if b then 1 else 0
  }

  function Signed(z: Size, n: nat): int {
    if n >= Half(z) then n - Modulus(z) else n
  }

  predicate Fits(z: Size, v: int) {
    -(Half(z) as int) <= v < Half(z)
  }

  function Addx(z: Size, d: nat, s: nat, f: Flags): (o: Out) {
    var r := (d + s + Int(f.x)) % Modulus(z);
    var dn, sn, rn := d >= Half(z), s >= Half(z), r >= Half(z);
    var carry := (!rn && (sn || dn)) || (sn && dn);
    var overflow := (sn && dn && !rn) || (rn && !dn && !sn);
    Out(r, Flags(carry, carry, f.z && r == 0, rn, overflow))
  }

  function Subx(z: Size, d: nat, s: nat, f: Flags): (o: Out) {
    var r := (d - s - Int(f.x)) % Modulus(z);
    var dn, sn, rn := d >= Half(z), s >= Half(z), r >= Half(z);
    var carry := (!dn && (sn || rn)) || (sn && rn);
    var overflow := (!sn && dn && !rn) || (rn && !dn && sn);
    Out(r, Flags(carry, carry, f.z && r == 0, rn, overflow))
  }

  function Negx(z: Size, d: nat, f: Flags): (o: Out) {
    var r := (0 - d - Int(f.x)) % Modulus(z);
    var dn, rn := d >= Half(z), r >= Half(z);
    Out(r, Flags(dn || rn, dn || rn, f.z && r == 0, rn, rn && dn))
  }

  predicate Bit3(v: nat) { v % 16 >= 8 }
  predicate Bit4(v: nat) { v % 32 >= 16 }
  predicate Bit7(v: nat) { v % 256 >= 128 }
  predicate Bit8(v: nat) { v % 512 >= 256 }

  /** The correction of the two digits: 6 and 0x60 from the bits 3 and 7 that ask for it. */
  function Correction(low: bool, high: bool): (k: nat) {
    (if low then 8 - 2 else 0) + (if high then 0x80 - 0x20 else 0)
  }

  /** Carry out of bits 3 and 7, from the operands and the byte sum. */
  predicate CarryBit(d: bool, s: bool, sum: bool) {
    (d && s) || (!sum && d) || (!sum && s)
  }

  predicate BorrowBit(d: bool, s: bool, diff: bool) {
    (!d && s) || (diff && !d) || (diff && s)
  }

  function UpFlags(ss: nat, b7: bool, r: nat, f: Flags): (f': Flags) {
    var carry := b7 || (Bit7(ss) && !Bit7(r));
    Flags(carry, carry, f.z && r == 0, Bit7(r), !Bit7(ss) && Bit7(r))
  }

  function DownFlags(dd: nat, b7: bool, r: nat, f: Flags): (f': Flags) {
    var borrow := b7 || (!Bit7(dd) && Bit7(r));
    Flags(borrow, borrow, f.z && r == 0, Bit7(r), Bit7(dd) && !Bit7(r))
  }

  function AdjustUp(ss: nat, b3: bool, b7: bool, f: Flags): (o: Out) {
    var d3 := Bit4(ss + 0x66) != Bit4(ss);
    var d7 := Bit8(ss + 0x66) != Bit8(ss);
    var r := (ss + Correction(b3 || d3, b7 || d7)) % 256;
    Out(r, UpFlags(ss, b7, r, f))
  }

  function Abcd(d: nat, s: nat, f: Flags): (o: Out) {
    var ss := (d + s + Int(f.x)) % 256;
    AdjustUp(ss, CarryBit(Bit3(d), Bit3(s), Bit3(ss)), CarryBit(Bit7(d), Bit7(s), Bit7(ss)), f)
  }

  function AdjustDown(dd: nat, b3: bool, b7: bool, f: Flags): (o: Out) {
    var r := (dd - Correction(b3, b7)) % 256;
    Out(r, DownFlags(dd, b7, r, f))
  }

  function Sbcd(d: nat, s: nat, f: Flags): (o: Out) {
    var dd: int := (d - s - Int(f.x)) % 256;
    AdjustDown(dd, BorrowBit(Bit3(d), Bit3(s), Bit3(dd)), BorrowBit(Bit7(d), Bit7(s), Bit7(dd)), f)
  }

  function Nbcd(d: nat, f: Flags): (o: Out) {
    var dd: int := (0 - d - Int(f.x)) % 256;
    AdjustDown(dd, Bit3(d) || Bit3(dd), Bit7(d) || Bit7(dd), f)
  }

  // ---- one limb ----

  /** X is the carry and V the overflow of the signed sum. */
  lemma {:induction false} AddxExact(z: Size, d: nat, s: nat, f: Flags)
    requires d < Modulus(z) && s < Modulus(z)
    ensures var o := Addx(z, d, s, f);
      && o.r < Modulus(z) && o.r + Modulus(z) * Int(o.f.x) == d + s + Int(f.x)
      && (o.f.v <==> !Fits(z, Signed(z, d) + Signed(z, s) + Int(f.x)))
      && (!o.f.v ==> Signed(z, o.r) == Signed(z, d) + Signed(z, s) + Int(f.x))
    ensures OtherFlags(z, Addx(z, d, s, f), f)
  {
  }

  /** C is X, N is the sign of the result, and Z stays set only for a zero. */
  predicate OtherFlags(z: Size, o: Out, f: Flags) {
    o.f.c == o.f.x && (o.f.n <==> Signed(z, o.r) < 0) && (o.f.z <==> f.z && o.r == 0)
  }

  lemma {:induction false} SubxExact(z: Size, d: nat, s: nat, f: Flags)
    requires d < Modulus(z) && s < Modulus(z)
    ensures var o := Subx(z, d, s, f);
      && o.r < Modulus(z) && o.r + s + Int(f.x) == d + Modulus(z) * Int(o.f.x)
      && (o.f.v <==> !Fits(z, Signed(z, d) - Signed(z, s) - Int(f.x)))
      && (!o.f.v ==> Signed(z, o.r) == Signed(z, d) - Signed(z, s) - Int(f.x))
    ensures OtherFlags(z, Subx(z, d, s, f), f)
  {
  }

  /** NEGX is SUBX from 0, and NBCD is SBCD from 0, flags included. */
  lemma {:induction false} NegxIsSubxFromZero(z: Size, d: nat, f: Flags)
    requires d < Modulus(z)
    ensures Negx(z, d, f) == Subx(z, 0, d, f)
  {
  }

  lemma {:induction false} NbcdIsSbcdFromZero(d: nat, f: Flags)
    requires d < 256
    ensures Nbcd(d, f) == Sbcd(0, d, f)
  {
  }

  predicate Decimal(b: nat) {
    b < 160 && b % 16 < 10
  }

  /** The number a byte of two decimal digits stands for. */
  function Dec(b: nat): nat {
    10 * (b / 16) + b % 16
  }

  lemma {:induction false} Rem16(v: int, k: int, r: int)
    requires v == 16 * k + r
    ensures v % 16 == r % 16
  {
  }

  /** The carries out of bits 3 and 7 of a sum. */
  lemma {:induction false} LowCarry(d: nat, s: nat, x: bool, ss: nat)
    requires d < 256 && s < 256 && ss == (d + s + Int(x)) % 256
    ensures CarryBit(Bit3(d), Bit3(s), Bit3(ss)) <==> d % 16 + s % 16 + Int(x) >= 16
  {
    var total := d + s + Int(x);
    assert ss == if total < 256 then total else total - 256;
    Rem16(ss, d / 16 + s / 16 - (if total < 256 then 0 else 16), d % 16 + s % 16 + Int(x));
  }

  lemma {:induction false} HighCarry(d: nat, s: nat, x: bool, ss: nat)
    requires d < 256 && s < 256 && ss == (d + s + Int(x)) % 256
    ensures CarryBit(Bit7(d), Bit7(s), Bit7(ss)) <==> d + s + Int(x) >= 256
  {
  }

  /** The digits that exceed 9 on their own. */
  lemma {:induction false} DigitCarries(ss: nat)
    requires ss < 256
    ensures Bit4(ss + 0x66) != Bit4(ss) <==> ss % 16 >= 10
    ensures Bit8(ss + 0x66) != Bit8(ss) <==> ss >= 0x9a
  {
    assert ss % 32 == ss % 16 || ss % 32 == ss % 16 + 16;
  }

  /** What the correction does to the sums of the digits. */
  lemma {:induction false} Corrected(tens: nat, ones: nat, ss: nat, r: nat)
    requires tens <= 18 && ones <= 19 && ss == (16 * tens + ones) % 256
    requires r == (ss + Correction(ones >= 10, 16 * tens + ones >= 0x9a)) % 256
    ensures Decimal(r) && Dec(r) + 100 * Int(16 * tens + ones >= 0x9a) == 10 * tens + ones
  {
    var carry := Int(ones >= 10);
    var high := Int(tens + carry >= 10);
    assert 16 * tens + ones >= 0x9a <==> tens + carry >= 10;
    var total := 16 * tens + ones;
    assert ss == if total < 256 then total else total - 256;
    var sum := ss + Correction(ones >= 10, total >= 0x9a);
    assert r == if sum < 256 then sum else sum - 256;
    var h, l := tens + carry - 10 * high, ones - 10 * carry;
    assert r == 16 * h + l;
    assert r / 16 == h && r % 16 == l;
  }

  /** X, which looks only at bit 7, is set exactly if the upper digit was corrected. */
  lemma {:induction false} AdjustUpIs(ss: nat, b3: bool, b7: bool, f: Flags)
    requires ss < 256 && (b3 ==> ss % 16 < 10) && (b7 ==> ss < 0x9a)
    ensures var o := AdjustUp(ss, b3, b7, f);
      && o.r == (ss + Correction(b3 || ss % 16 >= 10, b7 || ss >= 0x9a)) % 256
      && o.f.x == (b7 || ss >= 0x9a)
  {
    DigitCarries(ss);
  }

  /** `tens` and `ones` are the sums of the digits, `ss` what is left of them in a byte. */
  lemma {:induction false} DigitSums(tens: nat, ones: nat, ss: nat)
    requires tens <= 18 && ones <= 19 && ss == (16 * tens + ones) % 256
    ensures (ones >= 16 ==> ss % 16 < 10) && (ones >= 16 || ss % 16 >= 10 <==> ones >= 10)
    ensures (16 * tens + ones >= 256 ==> ss < 0x9a)
      && (16 * tens + ones >= 256 || ss >= 0x9a <==> 16 * tens + ones >= 0x9a)
  {
    var total := 16 * tens + ones;
    assert ss == if total < 256 then total else total - 256;
    Rem16(ss, if total < 256 then tens else tens - 16, ones);
  }

  lemma {:induction false} AdjustUpExact(tens: nat, ones: nat, ss: nat, f: Flags)
    requires tens <= 18 && ones <= 19 && ss == (16 * tens + ones) % 256
    ensures var o := AdjustUp(ss, ones >= 16, 16 * tens + ones >= 256, f);
      && Decimal(o.r) && Dec(o.r) + 100 * Int(o.f.x) == 10 * tens + ones
  {
    DigitSums(tens, ones, ss);
    AdjustUpIs(ss, ones >= 16, 16 * tens + ones >= 256, f);
    Corrected(tens, ones, ss, AdjustUp(ss, ones >= 16, 16 * tens + ones >= 256, f).r);
  }

  lemma {:induction false} TopBitIsSign(r: nat)
    requires r < 256
    ensures Bit7(r) <==> Signed(Byte, r) < 0
  {
  }

  /** The other flags of the decimal instructions, on any operands. */
  lemma {:induction false} AdjustFlags(ss: nat, b3: bool, b7: bool, f: Flags)
    ensures OtherFlags(Byte, AdjustUp(ss, b3, b7, f), f) && OtherFlags(Byte, AdjustDown(ss, b3, b7, f), f)
  {
    TopBitIsSign(AdjustUp(ss, b3, b7, f).r);
    TopBitIsSign(AdjustDown(ss, b3, b7, f).r);
  }

  lemma {:induction false} DecimalFlags(d: nat, s: nat, f: Flags)
    ensures OtherFlags(Byte, Abcd(d, s, f), f) && OtherFlags(Byte, Sbcd(d, s, f), f)
  {
    var ss := (d + s + Int(f.x)) % 256;
    AdjustFlags(ss, CarryBit(Bit3(d), Bit3(s), Bit3(ss)), CarryBit(Bit7(d), Bit7(s), Bit7(ss)), f);
    var dd: int := (d - s - Int(f.x)) % 256;
    AdjustFlags(dd, BorrowBit(Bit3(d), Bit3(s), Bit3(dd)), BorrowBit(Bit7(d), Bit7(s), Bit7(dd)), f);
  }

  /** A byte as its two digits. */
  lemma {:induction false} Digits(d: nat)
    requires Decimal(d)
    ensures d == 16 * (d / 16) + d % 16 && d / 16 <= 9 && d % 16 <= 9
  {
  }

  lemma {:induction false} AbcdExact(d: nat, s: nat, f: Flags)
    requires Decimal(d) && Decimal(s)
    ensures var o := Abcd(d, s, f);
      && Decimal(o.r) && Dec(o.r) + 100 * Int(o.f.x) == Dec(d) + Dec(s) + Int(f.x)
  {
    var ss := (d + s + Int(f.x)) % 256;
    Digits(d);
    Digits(s);
    LowCarry(d, s, f.x, ss);
    HighCarry(d, s, f.x, ss);
    var tens, ones := d / 16 + s / 16, d % 16 + s % 16 + Int(f.x);
    assert d + s + Int(f.x) == 16 * tens + ones;
    AdjustUpExact(tens, ones, ss, f);
  }

  lemma {:induction false} DigitBorrow(d: nat, s: nat, x: nat, r: int)
    requires d < 16 && s < 16 && x <= 1 && r == d - s - x + if d < s + x then 16 else 0
    ensures BorrowBit(d >= 8, s >= 8, r >= 8) <==> d < s + x
  {
  }

  lemma {:induction false} LowBorrow(d: nat, s: nat, x: bool, dd: nat)
    requires d < 256 && s < 256 && dd as int == (d - s - Int(x)) % 256
    ensures BorrowBit(Bit3(d), Bit3(s), Bit3(dd)) <==> d % 16 < s % 16 + Int(x)
  {
    LowDifference(d, s, Int(x), dd);
    DigitBorrow(d % 16, s % 16, Int(x), dd % 16);
  }

  lemma {:induction false} LowDifference(d: nat, s: nat, x: nat, dd: nat)
    requires d < 256 && s < 256 && x <= 1 && dd as int == (d - s - x) % 256
    ensures dd % 16 == d % 16 - s % 16 - x + if d % 16 < s % 16 + x then 16 else 0
  {
    var total, low: int := d - s - x, d % 16 - s % 16 - x;
    assert dd as int == if total < 0 then total + 256 else total;
    Rem16(dd, d / 16 - s / 16 + (if total < 0 then 16 else 0), low);
  }

  lemma {:induction false} HighBorrow(d: nat, s: nat, x: bool, dd: nat)
    requires d < 256 && s < 256 && dd as int == (d - s - Int(x)) % 256
    ensures BorrowBit(Bit7(d), Bit7(s), Bit7(dd)) <==> d < s + Int(x)
  {
    var total: int := d - s - Int(x);
    assert dd as int == if total < 0 then total + 256 else total;
  }

  /** The same for the differences of the digits. */
  lemma {:induction false} CorrectedDown(tens: int, ones: int, dd: nat, r: nat)
    requires -9 <= tens <= 9 && -10 <= ones <= 9 && dd as int == (16 * tens + ones) % 256
    requires r as int == (dd - Correction(ones < 0, 16 * tens + ones < 0)) % 256
    ensures Decimal(r) && Dec(r) as int - 100 * Int(16 * tens + ones < 0) == 10 * tens + ones
  {
    var borrow := Int(ones < 0);
    var high := Int(tens < borrow);
    assert 16 * tens + ones < 0 <==> tens < borrow;
    var total := 16 * tens + ones;
    assert dd as int == if total < 0 then total + 256 else total;
    var diff := dd - Correction(ones < 0, total < 0);
    assert r as int == if diff < 0 then diff + 256 else diff;
    var h, l := tens - borrow + 10 * high, ones + 10 * borrow;
    assert r as int == 16 * h + l;
    assert r / 16 == h && r % 16 == l;
  }

  lemma {:induction false} AdjustDownIs(dd: nat, b3: bool, b7: bool, f: Flags)
    requires dd < 256 && (b7 || dd < 160) && (b3 ==> dd % 16 >= 6)
    ensures var o := AdjustDown(dd, b3, b7, f);
      o.r as int == (dd - Correction(b3, b7)) % 256 && o.f.x == b7
  {
  }

  lemma {:induction false} DigitDifferences(tens: int, ones: int, dd: nat)
    requires -9 <= tens <= 9 && -10 <= ones <= 9 && dd as int == (16 * tens + ones) % 256
    ensures (16 * tens + ones < 0 || dd < 160) && (ones < 0 ==> dd % 16 >= 6)
  {
    var total := 16 * tens + ones;
    assert dd as int == if total < 0 then total + 256 else total;
    Rem16(dd, if total < 0 then tens + 16 else tens, ones);
  }

  lemma {:induction false} AdjustDownExact(tens: int, ones: int, dd: nat, f: Flags)
    requires -9 <= tens <= 9 && -10 <= ones <= 9 && dd as int == (16 * tens + ones) % 256
    ensures var o := AdjustDown(dd, ones < 0, 16 * tens + ones < 0, f);
      && Decimal(o.r) && Dec(o.r) as int - 100 * Int(o.f.x) == 10 * tens + ones
  {
    DigitDifferences(tens, ones, dd);
    AdjustDownIs(dd, ones < 0, 16 * tens + ones < 0, f);
    CorrectedDown(tens, ones, dd, AdjustDown(dd, ones < 0, 16 * tens + ones < 0, f).r);
  }

  lemma {:induction false} SbcdExact(d: nat, s: nat, f: Flags)
    requires Decimal(d) && Decimal(s)
    ensures var o := Sbcd(d, s, f);
      && Decimal(o.r) && Dec(o.r) + Dec(s) + Int(f.x) == Dec(d) + 100 * Int(o.f.x)
  {
    var dd: int := (d - s - Int(f.x)) % 256;
    LowBorrow(d, s, f.x, dd);
    HighBorrow(d, s, f.x, dd);
    AdjustDownExact(d / 16 - s / 16, d % 16 - s % 16 - Int(f.x), dd, f);
  }

  // ---- any number of limbs ----

  datatype Op = AddX | SubX | AddBcd | SubBcd

  predicate IsBcd(op: Op) {
    op.AddBcd? || op.SubBcd?
  }

  /** One instruction on the limbs `d` (destination) and `s`. */
  function Exec(op: Op, z: Size, d: nat, s: nat, f: Flags): (o: Out) {
    match op
    case AddX => Addx(z, d, s, f)
    case SubX => Subx(z, d, s, f)
    case AddBcd => Abcd(d, s, f)
    case SubBcd => Sbcd(d, s, f)
  }

  /** The limbs an instruction takes: decimal ones only on bytes. */
  predicate Limb(op: Op, z: Size, v: nat) {
    if IsBcd(op) then z.Byte? && Decimal(v) else v < Modulus(z)
  }

  function Base(op: Op, z: Size): (b: nat)
    ensures b > 0
  {
    if IsBcd(op) then 100 else Modulus(z)
  }

  /** The number one limb stands for. */
  function Digit(op: Op, v: nat): nat {
    if IsBcd(op) then Dec(v) else v
  }

  predicate Number(op: Op, z: Size, ds: seq<nat>) {
    forall i :: 0 <= i < |ds| ==> Limb(op, z, ds[i])
  }

  predicate Adds(op: Op) {
    op.AddX? || op.AddBcd?
  }

  /** `r` with carry or borrow `x'` of weight `p` is the sum or difference of `d` and `s`, with `x`. */
  predicate Exact(op: Op, p: nat, d: nat, s: nat, x: bool, r: nat, x': bool) {
    && r < p
    && if Adds(op) then r + (if x' then p else 0) == d + s + Int(x)
       else r + s + Int(x) == d + (if x' then p else 0)
  }

  lemma {:induction false} DecZero(b: nat)
    requires Decimal(b)
    ensures Dec(b) < 100 && (Dec(b) == 0 <==> b == 0)
  {
  }

  /** What a step promises: it adds or subtracts its limbs and the carry before it, exactly. */
  predicate ExactOut(op: Op, z: Size, d: nat, s: nat, f: Flags, o: Out) {
    && Limb(op, z, o.r)
    && Exact(op, Base(op, z), Digit(op, d), Digit(op, s), f.x, Digit(op, o.r), o.f.x)
    && (o.f.z <==> f.z && Digit(op, o.r) == 0) && o.f.c == o.f.x
  }

  lemma {:induction false} ExecExact(op: Op, z: Size, d: nat, s: nat, f: Flags)
    requires Limb(op, z, d) && Limb(op, z, s)
    ensures ExactOut(op, z, d, s, f, Exec(op, z, d, s, f))
  {
    match op {
      case AddX => AddxStep(z, d, s, f);
      case SubX => SubxStep(z, d, s, f);
      case AddBcd => AbcdStep(d, s, f);
      case SubBcd => SbcdStep(d, s, f);
    }
  }

  lemma {:induction false} AddxStep(z: Size, d: nat, s: nat, f: Flags)
    requires d < Modulus(z) && s < Modulus(z)
    ensures ExactOut(AddX, z, d, s, f, Addx(z, d, s, f))
  {
    AddxExact(z, d, s, f);
  }

  lemma {:induction false} SubxStep(z: Size, d: nat, s: nat, f: Flags)
    requires d < Modulus(z) && s < Modulus(z)
    ensures ExactOut(SubX, z, d, s, f, Subx(z, d, s, f))
  {
    SubxExact(z, d, s, f);
  }

  lemma {:induction false} AbcdStep(d: nat, s: nat, f: Flags)
    requires Decimal(d) && Decimal(s)
    ensures ExactOut(AddBcd, Byte, d, s, f, Abcd(d, s, f))
  {
    AbcdExact(d, s, f);
    DecZero(Abcd(d, s, f).r);
  }

  lemma {:induction false} SbcdStep(d: nat, s: nat, f: Flags)
    requires Decimal(d) && Decimal(s)
    ensures ExactOut(SubBcd, Byte, d, s, f, Sbcd(d, s, f))
  {
    SbcdExact(d, s, f);
    DecZero(Sbcd(d, s, f).r);
  }

  function Pow(b: nat, n: nat): (p: nat)
    ensures b > 0 ==> p > 0
  {
    if n == 0 then 1 else Times(b, Pow(b, n - 1))
  }

  function Times(a: nat, b: nat): (p: nat)
    ensures a > 0 && b > 0 ==> p > 0
  {
    a * b
  }

  /** The value of the `n` lowest limbs; limbs are listed from the lowest up. */
  function Value(op: Op, z: Size, ds: seq<nat>, n: nat): nat
    requires n <= |ds|
  {
    if n == 0 then 0 else Value(op, z, ds, n - 1) + Times(Pow(Base(op, z), n - 1), Digit(op, ds[n - 1]))
  }

  datatype Sum = Sum(rs: seq<nat>, f: Flags)

  /** An instruction as a function of destination, source and flags. */
  type Alu = (nat, nat, Flags) -> Out

  function Executes(op: Op, z: Size): (alu: Alu) {
    (d: nat, s: nat, f: Flags) => Exec(op, z, d, s, f)
  }

  /** `n` instructions, from the lowest limbs up. */
  function Chain(alu: Alu, ds: seq<nat>, ss: seq<nat>, f: Flags, n: nat): (c: Sum)
    requires n <= |ds| && n <= |ss|
    ensures |c.rs| == n
  {
    if n == 0 then Sum([], f)
    else
      var c := Chain(alu, ds, ss, f, n - 1);
      var o := alu(ds[n - 1], ss[n - 1], c.f);
      Sum(c.rs + [o.r], o.f)
  }

  lemma {:induction false} TimesAdd(p: nat, a: nat, b: nat)
    ensures Times(p, a + b) == Times(p, a) + Times(p, b)
  {
  }

  lemma {:induction false} TimesLess(p: nat, a: nat, b: nat)
    requires a < b
    ensures Times(p, a) + p <= Times(p, b)
  {
    assert p * a + p == p * (a + 1) <= p * b;
  }

  lemma {:induction false} ValuePrefix(op: Op, z: Size, rs: seq<nat>, r: nat, n: nat)
    requires n <= |rs|
    ensures Value(op, z, rs + [r], n) == Value(op, z, rs, n)
  {
    if n > 0 {
      ValuePrefix(op, z, rs, r, n - 1);
    }
  }

  lemma {:induction false} TimesInt(p: nat, b: bool)
    ensures Times(p, Int(b)) == if b then p else 0
  {
  }

  lemma {:induction false} Scaled(p: nat, a: nat, a': nat, b: nat, b': nat, b'': nat)
    requires a + a' == b + b' + b''
    ensures Times(p, a) + Times(p, a') == Times(p, b) + Times(p, b') + Times(p, b'')
  {
    TimesAdd(p, a, a');
    TimesAdd(p, b, b');
    TimesAdd(p, b + b', b'');
  }

  /** A limb of weight `p` on top of an exact result. */
  lemma {:induction false} ExactStep(op: Op, p: nat, b: nat, d: nat, s: nat, x: bool, r: nat, x1: bool, dn: nat,
      sn: nat, rn: nat, x2: bool)
    requires Exact(op, p, d, s, x, r, x1) && Exact(op, b, dn, sn, x1, rn, x2)
    ensures Exact(op, Times(b, p), d + Times(p, dn), s + Times(p, sn), x, r + Times(p, rn), x2)
    ensures r + Times(p, rn) == 0 <==> r == 0 && rn == 0
  {
    var b' := if x2 then b else 0;
    var pr, pd, ps, pc, pb := Times(p, rn), Times(p, dn), Times(p, sn), Times(p, Int(x1)), Times(p, b');
    assert (if Adds(op) then pr + pb == pd + ps + pc else pd + pb == pr + ps + pc) && pc == (if x1 then p else 0) by {
      TimesInt(p, x1);
      if Adds(op) {
        Scaled(p, rn, b', dn, sn, Int(x1));
      } else {
        Scaled(p, dn, b', rn, sn, Int(x1));
      }
    }
    assert pb == (if x2 then Times(b, p) else 0) && pr + p <= Times(b, p) && (pr == 0 <==> rn == 0) by {
      TimesLess(p, rn, b);
      if rn > 0 {
        TimesLess(p, 0, rn);
      }
    }
  }

  /** A chain as far as it has come, with the limbs `ds` and `ss`. */
  predicate ExactSum(op: Op, z: Size, ds: seq<nat>, ss: seq<nat>, f: Flags, c: Sum, n: nat)
    requires n <= |ds| && n <= |ss| && n == |c.rs|
  {
    && Number(op, z, c.rs)
    && Exact(op, Pow(Base(op, z), n), Value(op, z, ds, n), Value(op, z, ss, n), f.x, Value(op, z, c.rs, n), c.f.x)
    && (c.f.z <==> f.z && Value(op, z, c.rs, n) == 0)
  }

  lemma {:induction false} ChainStep(op: Op, z: Size, ds: seq<nat>, ss: seq<nat>, f: Flags, c: Sum, n: nat, o: Out)
    requires n < |ds| && n < |ss| && n == |c.rs| && ExactSum(op, z, ds, ss, f, c, n)
    requires ExactOut(op, z, ds[n], ss[n], c.f, o)
    ensures ExactSum(op, z, ds, ss, f, Sum(c.rs + [o.r], o.f), n + 1)
  {
    var b := Base(op, z);
    ValuePrefix(op, z, c.rs, o.r, n);
    ExactStep(op, Pow(b, n), b, Value(op, z, ds, n), Value(op, z, ss, n), f.x, Value(op, z, c.rs, n), c.f.x,
              Digit(op, ds[n]), Digit(op, ss[n]), Digit(op, o.r), o.f.x);
  }

  /**
    The chain is exact: X leaves it as the carry or borrow of the whole numbers, and Z,
    which starts set, says whether the whole result is zero.
  */
  lemma {:induction false} ChainExact(op: Op, z: Size, ds: seq<nat>, ss: seq<nat>, f: Flags, n: nat)
    requires n <= |ds| && n <= |ss| && Number(op, z, ds) && Number(op, z, ss)
    ensures ExactSum(op, z, ds, ss, f, Chain(Executes(op, z), ds, ss, f, n), n)
  {
    if n > 0 {
      ChainExact(op, z, ds, ss, f, n - 1);
      var c := Chain(Executes(op, z), ds, ss, f, n - 1);
      ExecExact(op, z, ds[n - 1], ss[n - 1], c.f);
      ChainStep(op, z, ds, ss, f, c, n - 1, Exec(op, z, ds[n - 1], ss[n - 1], c.f));
    }
  }

  function Weigh(p: nat, v: int): int {
    p * v
  }

  /** The value of `n` limbs in two's complement: the top limb carries the sign. */
  function SignedValue(op: Op, z: Size, ds: seq<nat>, n: nat): int
    requires 0 < n <= |ds|
  {
    Value(op, z, ds, n - 1) + Weigh(Pow(Base(op, z), n - 1), Signed(z, ds[n - 1]))
  }

  lemma {:induction false} WeighLess(p: nat, a: int, b: int)
    ensures a < b ==> Weigh(p, a) + p <= Weigh(p, b)
    ensures a == b ==> Weigh(p, a) == Weigh(p, b)
    ensures Weigh(p, 0) == 0 && Weigh(p, -b) == -Weigh(p, b)
  {
    if a < b {
      assert p * a + p == p * (a + 1) <= p * b;
    }
  }

  /** `low` below the weight of the top limb decides nothing about the range. */
  lemma {:induction false} FitsOnTop(p: nat, low: nat, v: int, h: int)
    requires low < p
    ensures -h <= v < h <==> -Weigh(p, h) <= low + Weigh(p, v) < Weigh(p, h)
    ensures v < 0 <==> low + Weigh(p, v) < 0
  {
    WeighLess(p, v, h);
    WeighLess(p, h, v);
    WeighLess(p, v, -h);
    WeighLess(p, -h, v);
    WeighLess(p, v, 0);
    WeighLess(p, 0, v);
    WeighLess(p, 0, h);
  }

  lemma {:induction false} WeighSum(p: nat, a: int, b: int, x: int)
    ensures Weigh(p, a + b + x) == Weigh(p, a) + Weigh(p, b) + Weigh(p, x)
  {
  }

  lemma {:induction false} WeighInt(p: nat, b: bool, v: int)
    ensures Weigh(p, Int(b)) == if b then p else 0
    ensures Weigh(p, -v) == -Weigh(p, v)
  {
  }

  /** The top limb's sum or difference `v` of signed numbers, with the limbs below. */
  lemma {:induction false} SignedTop(op: Op, p: nat, d: nat, s: nat, x: bool, r: nat, x1: bool, dn: int, sn: int)
    requires Exact(op, p, d, s, x, r, x1)
    ensures Adds(op) ==> r + Weigh(p, dn + sn + Int(x1)) == (d + Weigh(p, dn)) + (s + Weigh(p, sn)) + Int(x)
    ensures !Adds(op) ==> r + Weigh(p, dn - sn - Int(x1)) == (d + Weigh(p, dn)) - (s + Weigh(p, sn)) - Int(x)
  {
    var c: int := Int(x1);
    WeighInt(p, x1, c);
    WeighInt(p, x1, sn);
    WeighSum(p, dn, sn, c);
    WeighSum(p, dn, -sn, -c);
  }

  /** The sum or difference of the signed numbers. */
  function SignedTotal(op: Op, z: Size, ds: seq<nat>, ss: seq<nat>, x: bool, n: nat): int
    requires 0 < n <= |ds| && n <= |ss|
  {
    if Adds(op) then SignedValue(op, z, ds, n) + SignedValue(op, z, ss, n) + Int(x)
    else SignedValue(op, z, ds, n) - SignedValue(op, z, ss, n) - Int(x)
  }

  /** The sum or difference of the top limbs, as signed numbers. */
  function TopValue(op: Op, z: Size, d: nat, s: nat, x: bool): int {
    if Adds(op) then Signed(z, d) + Signed(z, s) + Int(x) else Signed(z, d) - Signed(z, s) - Int(x)
  }

  lemma {:induction false} SignedTotalIs(op: Op, z: Size, ds: seq<nat>, ss: seq<nat>, f: Flags, c: Sum, n: nat)
    requires 0 < n <= |ds| && n <= |ss| && |c.rs| == n - 1 && ExactSum(op, z, ds, ss, f, c, n - 1)
    ensures var low, p := Value(op, z, c.rs, n - 1), Pow(Base(op, z), n - 1);
      && low < p
      && SignedTotal(op, z, ds, ss, f.x, n) == low + Weigh(p, TopValue(op, z, ds[n - 1], ss[n - 1], c.f.x))
  {
    SignedTop(op, Pow(Base(op, z), n - 1), Value(op, z, ds, n - 1), Value(op, z, ss, n - 1), f.x,
              Value(op, z, c.rs, n - 1), c.f.x, Signed(z, ds[n - 1]), Signed(z, ss[n - 1]));
  }

  /** After the top limb, N is the sign of the whole result, and V says that it does not fit. */
  lemma {:induction false} ChainSigned(op: Op, z: Size, ds: seq<nat>, ss: seq<nat>, f: Flags, n: nat)
    requires 0 < n <= |ds| && n <= |ss| && Number(op, z, ds) && Number(op, z, ss) && !IsBcd(op)
    ensures var c := Chain(Executes(op, z), ds, ss, f, n);
      var half := Weigh(Pow(Base(op, z), n - 1), Half(z));
      && (c.f.n <==> SignedValue(op, z, c.rs, n) < 0)
      && (c.f.v <==> !(-half <= SignedTotal(op, z, ds, ss, f.x, n) < half))
  {
    var c, p := Chain(Executes(op, z), ds, ss, f, n - 1), Pow(Base(op, z), n - 1);
    ChainExact(op, z, ds, ss, f, n - 1);
    SignedTotalIs(op, z, ds, ss, f, c, n);
    var o := Exec(op, z, ds[n - 1], ss[n - 1], c.f);
    ValuePrefix(op, z, c.rs, o.r, n - 1);
    TopFlags(op, z, p, ds[n - 1], ss[n - 1], c.f, Value(op, z, c.rs, n - 1), SignedTotal(op, z, ds, ss, f.x, n));
  }

  lemma {:induction false} TopFlags(op: Op, z: Size, p: nat, d: nat, s: nat, f: Flags, low: nat, total: int)
    requires !IsBcd(op) && Limb(op, z, d) && Limb(op, z, s) && low < p
    requires total == low + Weigh(p, TopValue(op, z, d, s, f.x))
    ensures var o := Exec(op, z, d, s, f);
      && (o.f.n <==> low + Weigh(p, Signed(z, o.r)) < 0)
      && (o.f.v <==> !(-Weigh(p, Half(z)) <= total < Weigh(p, Half(z))))
  {
    FitsOnTop(p, low, Signed(z, Exec(op, z, d, s, f).r), Half(z));
    if op.AddX? {
      AddxExact(z, d, s, f);
      FitsOnTop(p, low, Signed(z, d) + Signed(z, s) + Int(f.x), Half(z));
    } else {
      SubxExact(z, d, s, f);
      FitsOnTop(p, low, Signed(z, d) - Signed(z, s) - Int(f.x), Half(z));
    }
  }
}
