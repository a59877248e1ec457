/**
  The handlers of ADDX, SUBX, ABCD and SBCD: data registers, or bytes of memory addressed
  through two address registers that step down before each access; and NEGX and NBCD of a
  data register or of an operand in memory whose address is given. A program that executes
  one of the first four repeatedly on memory works on numbers of any length.
*/
module Arithmetic {
  import opened Limbs
  import Sectors

  type Octet = Sectors.Byte   // `Byte` is the size of an operand here

  const RAM_BASE: nat := 0x20000
  const WORD32: nat := 0x1_0000_0000
  const ADDRESS_SPACE: nat := 0x100_0000

  function Width(z: Size): nat {
    match z
    case Byte => 1
    case Word => 2
    case Long => 4
  }

  /** The stack pointer stays even: bytes take two addresses there. */
  function Decrement(z: Size, r: nat): (k: nat)
    ensures 0 < k <= 4 && (r == 7 ==> k % 2 == 0) && (k != Width(z) ==> r == 7 && k == Width(z) + 1)
  {
    if z.Byte? && r == 7 then 2 else Width(z)
  }

  /** The number big-endian bytes stand for. */
  function Big(b: seq<Octet>): (v: nat) {
    if |b| == 0 then 0 else 256 * Big(b[..|b| - 1]) + b[|b| - 1] as int
  }

  /** The low bytes of `v`, big-endian. */
  function Bytes(z: Size, v: nat): (b: seq<Octet>)
    ensures |b| == Width(z)
  {
    match z
    case Byte => [v % 256]
    case Word => [v / 256 % 256, v % 256]
    case Long => [v / 256 / 256 / 256 % 256, v / 256 / 256 % 256, v / 256 % 256, v % 256]
  }

  function Get(z: Size, ram: seq<Octet>, a: nat): (v: nat)
    requires a + Width(z) <= |ram|
  {
    Big(ram[a..a + Width(z)])
  }

  function Put(z: Size, ram: seq<Octet>, a: nat, v: nat): (r: seq<Octet>)
    requires a + Width(z) <= |ram|
    ensures |r| == |ram|
  {
    ram[..a] + Bytes(z, v) + ram[a + Width(z)..]
  }

  lemma {:induction false} BigRange(z: Size, b: seq<Octet>)
    requires |b| == Width(z)
    ensures Big(b) < Modulus(z)
  {
    BigIs(z, b);
  }

  lemma {:induction false} BigPushed(b: seq<Octet>, last: Octet)
    ensures Big(b + [last]) == 256 * Big(b) + last as int
  {
    assert (b + [last])[..|b|] == b;
  }

  lemma {:induction false} BigOne(b: seq<Octet>)
    requires |b| == 1
    ensures Big(b) == b[0] as int
  {
    BigPushed([], b[0]);
    assert b == [] + [b[0]];
  }

  lemma {:induction false} BigTwo(b: seq<Octet>)
    requires |b| == 2
    ensures Big(b) == 256 * b[0] as int + b[1] as int
  {
    BigOne(b[..1]);
    BigPushed(b[..1], b[1]);
    assert b == b[..1] + [b[1]];
  }

  lemma {:induction false} BigFour(b: seq<Octet>)
    requires |b| == 4
    ensures Big(b) == 256 * (256 * (256 * b[0] as int + b[1] as int) + b[2] as int) + b[3] as int
  {
    BigTwo(b[..2]);
    BigPushed(b[..2], b[2]);
    assert b[..3] == b[..2] + [b[2]];
    BigPushed(b[..3], b[3]);
    assert b == b[..3] + [b[3]];
  }

  /** The number that the bytes of an operand stand for. */
  lemma {:induction false} BigIs(z: Size, b: seq<Octet>)
    requires |b| == Width(z)
    ensures z.Byte? ==> Big(b) == b[0] as int
    ensures z.Word? ==> Big(b) == 256 * b[0] as int + b[1] as int
    ensures z.Long? ==> Big(b) == 256 * (256 * (256 * b[0] as int + b[1] as int) + b[2] as int) + b[3] as int
  {
    match z
    case Byte => BigOne(b);
    case Word => BigTwo(b);
    case Long => BigFour(b);
  }

  lemma {:induction false} BigBytes(z: Size, v: nat)
    requires v < Modulus(z)
    ensures Big(Bytes(z, v)) == v
  {
    BigIs(z, Bytes(z, v));
  }

  lemma {:induction false} BytesOfBig(z: Size, b: seq<Octet>)
    requires |b| == Width(z)
    ensures Bytes(z, Big(b)) == b
  {
    BigIs(z, b);
    if !z.Byte? {
      var v := 256 * b[0] as int + b[1] as int;
      Split256(b[0] as int, b[1]);
      if z.Long? {
        Split256(v, b[2]);
        Split256(256 * v + b[2] as int, b[3]);
      }
    }
  }

  lemma {:induction false} Split256(v: nat, b: Octet)
    ensures (256 * v + b as int) / 256 == v && (256 * v + b as int) % 256 == b as int
  {
  }

  /** Storing what is already there. */
  lemma {:induction false} PutSame(z: Size, ram: seq<Octet>, a: nat)
    requires a + Width(z) <= |ram|
    ensures Put(z, ram, a, Get(z, ram, a)) == ram
  {
    BytesOfBig(z, ram[a..a + Width(z)]);
  }

  /** The three parts of a sequence are found in it again. */
  lemma {:induction false} Parts(p: seq<Octet>, b: seq<Octet>, s: seq<Octet>)
    ensures var r := p + b + s; r[..|p|] == p && r[|p|..|p| + |b|] == b && r[|p| + |b|..] == s
  {
  }

  /** A slice of the bytes below or above an address. */
  lemma {:induction false} SliceOf(r: seq<Octet>, a: nat, b: nat, k: nat)
    requires b + k <= |r| && a <= |r|
    ensures b + k <= a ==> r[b..b + k] == r[..a][b..b + k]
    ensures a <= b ==> r[b..b + k] == r[a..][b - a..b - a + k]
  {
  }

  lemma {:induction false} PutParts(z: Size, ram: seq<Octet>, a: nat, v: nat)
    requires a + Width(z) <= |ram|
    ensures var r := Put(z, ram, a, v); r[..a] == ram[..a] && r[a + Width(z)..] == ram[a + Width(z)..]
  {
    Parts(ram[..a], Bytes(z, v), ram[a + Width(z)..]);
  }

  /** Slices of equal parts are equal. */
  lemma {:induction false} SameSlice(r: seq<Octet>, ram: seq<Octet>, a: nat, e: nat, b: nat, j: nat)
    requires |r| == |ram| && a <= e <= |ram| && r[..a] == ram[..a] && r[e..] == ram[e..]
    requires b + j <= |ram| && (b + j <= a || e <= b)
    ensures r[b..b + j] == ram[b..b + j]
  {
    if b + j <= a {
      SliceOf(r, a, b, j);
      SliceOf(ram, a, b, j);
    } else {
      SliceOf(r, e, b, j);
      SliceOf(ram, e, b, j);
    }
  }

  /** An operand apart from the one stored, of any size. */
  lemma {:induction false} PutOther(z: Size, ram: seq<Octet>, a: nat, v: nat, y: Size, b: nat)
    requires a + Width(z) <= |ram| && b + Width(y) <= |ram| && (b + Width(y) <= a || a + Width(z) <= b)
    ensures Get(y, Put(z, ram, a, v), b) == Get(y, ram, b)
  {
    PutParts(z, ram, a, v);
    SameSlice(Put(z, ram, a, v), ram, a, a + Width(z), b, Width(y));
  }

  lemma {:induction false} PutGet(z: Size, ram: seq<Octet>, a: nat, v: nat, b: nat)
    requires a + Width(z) <= |ram| && b + Width(z) <= |ram|
    ensures b == a && v < Modulus(z) ==> Get(z, Put(z, ram, a, v), b) == v
    ensures b + Width(z) <= a || a + Width(z) <= b ==> Get(z, Put(z, ram, a, v), b) == Get(z, ram, b)
  {
    if b == a && v < Modulus(z) {
      Parts(ram[..a], Bytes(z, v), ram[a + Width(z)..]);
      BigBytes(z, v);
    } else if b + Width(z) <= a || a + Width(z) <= b {
      PutOther(z, ram, a, v, z, b);
    }
  }

  datatype Machine = Machine(d: seq<nat>, a: seq<nat>, ram: seq<Octet>, f: Flags)

  predicate Regs(m: Machine) {
    |m.d| == |m.a| == 8 && (forall i :: 0 <= i < 8 ==> m.d[i] < WORD32 && m.a[i] < WORD32)
  }

  /** The register after it stepped down by 32-bit subtraction. */
  function Down(z: Size, r: nat, a: nat): (a': nat)
    requires a < WORD32
    ensures a' < WORD32
  {
    var k := Decrement(z, r);
    if k <= a then a - k else a + WORD32 - k
  }

  /** The address on the bus: the register without its upper byte. */
  function Bus(a: nat): (b: nat)
    ensures b < ADDRESS_SPACE
  {
    if a < ADDRESS_SPACE then a else Bus(a - ADDRESS_SPACE)
  }

  /** The address bus has 24 lines. */
  lemma {:induction false} BusIs(a: nat)
    ensures Bus(a) == a % ADDRESS_SPACE
  {
    if a >= ADDRESS_SPACE {
      BusIs(a - ADDRESS_SPACE);
    }
  }

  /** An operand in RAM, words and long words at even addresses. */
  predicate Operand(z: Size, ram: seq<Octet>, a: nat) {
    RAM_BASE <= a && a + Width(z) <= |ram| && (z.Byte? || a % 2 == 0)
  }

  /** Address of the source of the instruction -(Ay),-(Ax), and of its destination. */
  function Source(z: Size, y: nat, m: Machine): (a: nat)
    requires Regs(m) && y < 8
  {
    Bus(Down(z, y, m.a[y]))
  }

  /** If both are the same register it steps down twice. */
  function Dest(z: Size, y: nat, x: nat, m: Machine): (a: nat)
    requires Regs(m) && y < 8 && x < 8
  {
    Bus(Down(z, x, if x == y then Down(z, y, m.a[y]) else m.a[x]))
  }

  lemma {:induction false} DownIs(z: Size, r: nat, a: nat)
    requires a < WORD32
    ensures Down(z, r, a) as int == (a as int - Decrement(z, r)) % WORD32
  {
  }

  lemma {:induction false} DownTwice(a: int, k: int)
    requires 0 <= a < WORD32 && 0 < k <= 4
    ensures ((a - k) % WORD32 - k) % WORD32 == (a - 2 * k) % WORD32
  {
  }

  /** The addresses of the two operands, in 32 bits seen through 24 lines; the registers end at them. */
  lemma {:induction false} OperandsAt(z: Size, y: nat, x: nat, m: Machine)
    requires Regs(m) && y < 8 && x < 8
    ensures var k: int, j: int, a: int, b: int := Decrement(z, y), Decrement(z, x), m.a[y], m.a[x];
      && Source(z, y, m) == Bus((a - k) % WORD32)
      && Dest(z, y, x, m) == Bus((if x == y then a - 2 * k else b - j) % WORD32)
      && Bus(BothDown(z, y, x, m)[x]) == Dest(z, y, x, m)
      && (x != y ==> Bus(BothDown(z, y, x, m)[y]) == Source(z, y, m))
      && forall i :: 0 <= i < 8 && i != x && i != y ==> BothDown(z, y, x, m)[i] == m.a[i]
  {
    DownIs(z, y, m.a[y]);
    DownIs(z, x, m.a[x]);
    DownIs(z, y, Down(z, y, m.a[y]));
    DownTwice(m.a[y], Decrement(z, y));
  }

  function BothDown(z: Size, y: nat, x: nat, m: Machine): (a: seq<nat>)
    requires Regs(m) && y < 8 && x < 8
    ensures |a| == 8 && forall i :: 0 <= i < 8 ==> a[i] < WORD32
  {
    var a := m.a[y := Down(z, y, m.a[y])];
    a[x := Down(z, x, a[x])]
  }

  predicate InRam(z: Size, m: Machine, y: nat, x: nat)
    requires Regs(m) && y < 8 && x < 8
  {
    Operand(z, m.ram, Source(z, y, m)) && Operand(z, m.ram, Dest(z, y, x, m))
  }

  lemma {:induction false} ExecRange(op: Op, z: Size, d: nat, s: nat, f: Flags)
    requires IsBcd(op) ==> z.Byte?
    ensures Exec(op, z, d, s, f).r < Modulus(z)
  {
  }

  /** What the instruction with operands -(Ay),-(Ax) does. */
  function MemoryForm(op: Op, z: Size, y: nat, x: nat, m: Machine): (m': Machine)
    requires Regs(m) && y < 8 && x < 8 && InRam(z, m, y, x) && (IsBcd(op) ==> z.Byte?)
    ensures Regs(m') && |m'.ram| == |m.ram|
  {
    var s, d := Get(z, m.ram, Source(z, y, m)), Get(z, m.ram, Dest(z, y, x, m));
    var o := Exec(op, z, d, s, m.f);
    ExecRange(op, z, d, s, m.f);
    Machine(m.d, BothDown(z, y, x, m), Put(z, m.ram, Dest(z, y, x, m), o.r), o.f)
  }

  /** `v` in the lower part of a register. */
  function Low(z: Size, d: nat, v: nat): (r: nat)
    requires v < Modulus(z) && d < WORD32
    ensures r < WORD32 && r % Modulus(z) == v && r / Modulus(z) == d / Modulus(z)
  {
    d - d % Modulus(z) + v
  }

  function RegisterForm(op: Op, z: Size, y: nat, x: nat, m: Machine): (m': Machine)
    requires Regs(m) && y < 8 && x < 8 && (IsBcd(op) ==> z.Byte?)
    ensures Regs(m') && |m'.ram| == |m.ram|
  {
    var o := Exec(op, z, m.d[x] % Modulus(z), m.d[y] % Modulus(z), m.f);
    ExecRange(op, z, m.d[x] % Modulus(z), m.d[y] % Modulus(z), m.f);
    m.(d := m.d[x := Low(z, m.d[x], o.r)], f := o.f)
  }

  // ---- numbers in memory ----

  /** Addresses taken by `n` operands. */
  function Scale(z: Size, n: nat): (k: nat)
    ensures n <= k
  {
    if n == 0 then 0 else Scale(z, n - 1) + Width(z)
  }

  lemma {:induction false} ScaleFacts(z: Size, i: nat, n: nat)
    requires i <= n
    ensures Scale(z, i) <= Scale(z, n) && (i < n ==> Scale(z, i + 1) <= Scale(z, n))
    ensures !z.Byte? ==> Scale(z, n) % 2 == 0
  {
    if i < n {
      ScaleFacts(z, i, n - 1);
    } else if n > 0 {
      ScaleFacts(z, i - 1, n - 1);
    }
  }

  /** A number of `n` limbs ends below the address in register `r`. */
  predicate Area(z: Size, m: Machine, r: nat, n: nat)
    requires Regs(m) && r < 8
  {
    && RAM_BASE + Scale(z, n) <= m.a[r] <= |m.ram| <= ADDRESS_SPACE
    && (z.Byte? || m.a[r] % 2 == 0) && (z.Byte? ==> r != 7)
  }

  lemma {:induction false} PlainAddress(z: Size, r: nat, a: nat)
    requires Decrement(z, r) <= a <= ADDRESS_SPACE
    ensures Down(z, r, a) == a - Decrement(z, r) && Bus(Down(z, r, a)) == a - Decrement(z, r)
  {
  }

  /** `n` instructions later the two registers have stepped over `n` operands. */
  predicate Stepped(z: Size, y: nat, x: nat, m: Machine, m': Machine, n: nat)
    requires Regs(m) && Regs(m') && y < 8 && x < 8
  {
    && m'.d == m.d && |m'.ram| == |m.ram|
    && m'.a[y] + Scale(z, n) == m.a[y] && m'.a[x] + Scale(z, n) == m.a[x]
    && forall i :: 0 <= i < 8 && i != y && i != x ==> m'.a[i] == m.a[i]
  }

  /** One more instruction finds its operand in RAM. */
  lemma {:induction false} OneDown(z: Size, r: nat, m: Machine, w: Machine, n: nat)
    requires Regs(m) && Regs(w) && r < 8 && n > 0 && Area(z, m, r, n)
    requires w.a[r] + Scale(z, n - 1) == m.a[r] && |w.ram| == |m.ram|
    ensures var p := m.a[r] - Scale(z, n); Down(z, r, w.a[r]) == Bus(p) == p && Operand(z, w.ram, p)
  {
    OperandBelow(z, r, m.a[r], n, w.ram);
  }

  lemma {:induction false} OperandBelow(z: Size, r: nat, top: nat, n: nat, ram: seq<Octet>)
    requires n > 0 && RAM_BASE + Scale(z, n) <= top <= |ram| <= ADDRESS_SPACE && (z.Byte? || top % 2 == 0)
      && (z.Byte? ==> r != 7)
    ensures var p := top - Scale(z, n);
      && p == top - Scale(z, n - 1) - Width(z) && Down(z, r, top - Scale(z, n - 1)) == Bus(p) == p
      && Operand(z, ram, p)
  {
    ScaleFacts(z, n - 1, n);
    PlainAddress(z, r, top - Scale(z, n - 1));
  }

  /** The limbs below address `top`, the lowest one first. */
  function LimbsAt(z: Size, ram: seq<Octet>, top: nat, n: nat): (ls: seq<nat>)
    requires Scale(z, n) <= top <= |ram|
    ensures |ls| == n
  {
    if n == 0 then [] else LimbsAt(z, ram, top, n - 1) + [Get(z, ram, top - Scale(z, n))]
  }

  lemma {:induction false} BigJoined(high: seq<Octet>, low: seq<Octet>)
    ensures Big(high + low) == Times(Pow(256, |low|), Big(high)) + Big(low)
  {
    if |low| == 0 {
      assert high + low == high;
    } else {
      var l, last, k := low[..|low| - 1], low[|low| - 1], |low| - 1;
      BigJoined(high, l);
      assert (high + low)[..|high + low| - 1] == high + l;
      OneByteUp(Pow(256, k), Big(high));
    }
  }

  lemma {:induction false} OneByteUp(p: nat, v: nat)
    ensures Times(Times(256, p), v) == 256 * Times(p, v)
  {
  }

  /** A limb is one digit to the base of its modulus, or as many bytes. */
  lemma {:induction false} PowOfBytes(z: Size, n: nat)
    ensures Pow(256, Scale(z, n)) == Pow(Modulus(z), n)
  {
    if n > 0 {
      PowOfBytes(z, n - 1);
      BytesUp(Scale(z, n - 1), Width(z));
      WidthIsModulus(z);
    }
  }

  lemma {:induction false} BytesUp(k: nat, w: nat)
    ensures Pow(256, k + w) == Times(Pow(256, w), Pow(256, k))
  {
    if w > 0 {
      BytesUp(k, w - 1);
      TimesUp(Pow(256, w - 1), Pow(256, k));
    }
  }

  lemma {:induction false} TimesUp(a: nat, b: nat)
    ensures Times(256, Times(a, b)) == Times(Times(256, a), b)
  {
  }

  lemma {:induction false} WidthIsModulus(z: Size)
    ensures Pow(256, Width(z)) == Modulus(z)
  {
    assert Pow(256, 1) == 256 && Pow(256, 2) == 0x1_0000;
    assert Pow(256, 3) == 0x100_0000 && Pow(256, 4) == 0x1_0000_0000;
  }

  lemma {:induction false} MemorySplit(z: Size, ram: seq<Octet>, a: nat, b: nat, top: nat, k: nat)
    requires a + Width(z) == b <= top <= |ram| && top - b == Scale(z, k)
    ensures Big(ram[a..top]) == Times(Pow(Modulus(z), k), Get(z, ram, a)) + Big(ram[b..top])
  {
    assert ram[a..b] + ram[b..top] == ram[a..top];
    BigJoined(ram[a..b], ram[b..top]);
    PowOfBytes(z, k);
  }

  lemma {:induction false} OneLimbUp(op: Op, z: Size, ls: seq<nat>, v: nat)
    requires !IsBcd(op)
    ensures Value(op, z, ls + [v], |ls| + 1) == Value(op, z, ls, |ls|) + Times(Pow(Modulus(z), |ls|), v)
  {
    ValuePrefix(op, z, ls, v, |ls|);
  }

  /** The limbs of a binary number in memory are its bytes: the whole is one big-endian number. */
  lemma {:induction false} NumberIsBytes(op: Op, z: Size, ram: seq<Octet>, top: nat, n: nat)
    requires Scale(z, n) <= top <= |ram| && !IsBcd(op)
    ensures Value(op, z, LimbsAt(z, ram, top, n), n) == Big(ram[top - Scale(z, n)..top])
  {
    if n == 0 {
      assert ram[top..top] == [];
    } else {
      NumberIsBytes(op, z, ram, top, n - 1);
      OneLimbMore(op, z, ram, top, n - 1, top - Scale(z, n), top - Scale(z, n - 1));
    }
  }

  lemma {:induction false} OneLimbMore(op: Op, z: Size, ram: seq<Octet>, top: nat, n: nat, a: nat, b: nat)
    requires !IsBcd(op) && a + Width(z) == b <= top <= |ram| && b == top - Scale(z, n)
    requires Value(op, z, LimbsAt(z, ram, top, n), n) == Big(ram[b..top])
    ensures Value(op, z, LimbsAt(z, ram, top, n + 1), n + 1) == Big(ram[a..top])
  {
    OneLimbUp(op, z, LimbsAt(z, ram, top, n), Get(z, ram, a));
    MemorySplit(z, ram, a, b, top, n);
  }

  lemma {:induction false} LimbIndex(z: Size, ram: seq<Octet>, top: nat, n: nat, all: nat)
    requires 0 < n <= all && Scale(z, all) <= top <= |ram|
    ensures Scale(z, n) <= top && LimbsAt(z, ram, top, all)[n - 1] == Get(z, ram, top - Scale(z, n))
  {
    if n < all {
      LimbIndex(z, ram, top, n, all - 1);
    }
  }

  lemma {:induction false} LimbsSame(z: Size, ram: seq<Octet>, w: seq<Octet>, low: nat, top: nat, n: nat)
    requires low + Scale(z, n) <= top <= |ram| == |w| && w[low..] == ram[low..]
    ensures LimbsAt(z, ram, top, n) == LimbsAt(z, w, top, n)
  {
    if n > 0 {
      LimbsSame(z, ram, w, low, top, n - 1);
      SliceOf(ram, low, top - Scale(z, n), Width(z));
      SliceOf(w, low, top - Scale(z, n), Width(z));
    }
  }

  /** `w` differs from `ram` only in the `n` limbs below `q`. */
  predicate SameOutside(z: Size, ram: seq<Octet>, w: seq<Octet>, q: nat, n: nat) {
    |w| == |ram| && Scale(z, n) <= q <= |ram| && w[..q - Scale(z, n)] == ram[..q - Scale(z, n)] && w[q..] == ram[q..]
  }

  /** The destination does not run into source limbs still to be read. */
  predicate ReadInTime(z: Size, p: nat, q: nat, all: nat) {
    p <= q || q + Scale(z, all) <= p
  }

  /** The next limbs of both numbers are still those of the beginning. */
  lemma {:induction false} LimbsToCome(z: Size, ram: seq<Octet>, w: seq<Octet>, p: nat, q: nat, n: nat, all: nat)
    requires 0 < n <= all && SameOutside(z, ram, w, q, n - 1) && ReadInTime(z, p, q, all)
    requires Scale(z, all) <= p <= |ram| && Scale(z, all) <= q <= |ram|
    ensures Scale(z, n) <= p && Scale(z, n) <= q
    ensures Get(z, w, p - Scale(z, n)) == LimbsAt(z, ram, p, all)[n - 1]
    ensures Get(z, w, q - Scale(z, n)) == LimbsAt(z, ram, q, all)[n - 1]
  {
    LimbPlaces(z, p, q, n, all);
    LimbsKept(z, ram, w, p - Scale(z, n), q, n);
    LimbIndex(z, ram, p, n, all);
    LimbIndex(z, ram, q, n, all);
  }

  lemma {:induction false} LimbsKept(z: Size, ram: seq<Octet>, w: seq<Octet>, a: nat, q: nat, n: nat)
    requires n > 0 && SameOutside(z, ram, w, q, n - 1) && Scale(z, n) <= q && a + Width(z) <= |ram|
    requires a + Width(z) <= q - Scale(z, n - 1) || q <= a
    ensures Get(z, w, a) == Get(z, ram, a) && Get(z, w, q - Scale(z, n)) == Get(z, ram, q - Scale(z, n))
  {
    LimbKept(z, ram, w, q, n - 1, a);
    LimbKept(z, ram, w, q, n - 1, q - Scale(z, n));
  }

  lemma {:induction false} LimbPlaces(z: Size, p: nat, q: nat, n: nat, all: nat)
    requires 0 < n <= all && ReadInTime(z, p, q, all) && Scale(z, all) <= p && Scale(z, all) <= q
    ensures Scale(z, n) <= p && Scale(z, n) <= q && Scale(z, n - 1) <= q
    ensures q - Scale(z, n) + Width(z) == q - Scale(z, n - 1)
    ensures p - Scale(z, n) + Width(z) <= q - Scale(z, n - 1) || q <= p - Scale(z, n)
  {
    ScaleFacts(z, n - 1, all);
    assert Scale(z, n) == Scale(z, n - 1) + Width(z);
  }

  /** An operand outside the `n` limbs below `q`. */
  lemma {:induction false} LimbKept(z: Size, ram: seq<Octet>, w: seq<Octet>, q: nat, n: nat, a: nat)
    requires SameOutside(z, ram, w, q, n) && a + Width(z) <= |ram|
    requires a + Width(z) <= q - Scale(z, n) || q <= a
    ensures Get(z, w, a) == Get(z, ram, a)
  {
    var below := if q <= a then q else q - Scale(z, n);
    SliceOf(w, below, a, Width(z));
    SliceOf(ram, below, a, Width(z));
  }

  /** Storing the next limb extends the result by it. */
  lemma {:induction false} LimbStored(z: Size, ram: seq<Octet>, w: seq<Octet>, q: nat, n: nat, v: nat)
    requires 0 < n && Scale(z, n) <= q <= |ram| && SameOutside(z, ram, w, q, n - 1) && v < Modulus(z)
    ensures var w' := Put(z, w, q - Scale(z, n), v);
      SameOutside(z, ram, w', q, n) && LimbsAt(z, w', q, n) == LimbsAt(z, w, q, n - 1) + [v]
  {
    var a, k, w1 := q - Scale(z, n), Width(z), Put(z, w, q - Scale(z, n), v);
    assert a + k == q - Scale(z, n - 1);
    Parts(w[..a], Bytes(z, v), w[a + k..]);
    assert w[..a] == w[..a + k][..a] && ram[..a] == ram[..a + k][..a];
    assert w1[q..] == w1[a + k..][q - (a + k)..] && w[q..] == w[a + k..][q - (a + k)..];
    LimbsSame(z, w, w1, a + k, q, n - 1);
    PutGet(z, w, a, v, a);
  }

  /** An instruction with its operands at `p` and `q`. */
  predicate Executed(alu: Alu, z: Size, p: nat, q: nat, ram: seq<Octet>, f: Flags, ram': seq<Octet>, f': Flags) {
    && p + Width(z) <= |ram| && q + Width(z) <= |ram|
    && var o := alu(Get(z, ram, q), Get(z, ram, p), f);
       o.r < Modulus(z) && ram' == Put(z, ram, q, o.r) && f' == o.f
  }

  /** The `n`th instruction on the numbers below `p` and `q`. */
  predicate LimbStep(alu: Alu, z: Size, p: nat, q: nat, n: nat, ram: seq<Octet>, f: Flags, ram': seq<Octet>,
      f': Flags) {
    && n > 0 && Scale(z, n) <= p <= |ram| && Scale(z, n) <= q <= |ram|
    && Executed(alu, z, p - Scale(z, n), q - Scale(z, n), ram, f, ram', f')
  }

  /** The instruction computes what it would from the limbs of the beginning. */
  lemma {:induction false} SameOut(alu: Alu, z: Size, p: nat, q: nat, ram: seq<Octet>, w: seq<Octet>, g: Flags,
      n: nat, all: nat)
    requires 0 < n <= all && ReadInTime(z, p, q, all) && SameOutside(z, ram, w, q, n - 1)
    requires Scale(z, all) <= p <= |ram| && Scale(z, all) <= q <= |ram|
    ensures Scale(z, n) <= p && Scale(z, n) <= q
    ensures alu(Get(z, w, q - Scale(z, n)), Get(z, w, p - Scale(z, n)), g)
         == alu(LimbsAt(z, ram, q, all)[n - 1], LimbsAt(z, ram, p, all)[n - 1], g)
  {
    LimbsToCome(z, ram, w, p, q, n, all);
  }

  /** `n` limbs below `q` have become those of the chain. */
  predicate Progress(alu: Alu, z: Size, q: nat, ds: seq<nat>, ss: seq<nat>, f: Flags, w: seq<Octet>, g: Flags, n: nat) {
    && n <= |ds| && n <= |ss| && Scale(z, n) <= q <= |w|
    && var c := Chain(alu, ds, ss, f, n); LimbsAt(z, w, q, n) == c.rs && g == c.f
  }

  lemma {:induction false} ChainGrows(alu: Alu, z: Size, q: nat, ds: seq<nat>, ss: seq<nat>, f: Flags, w: seq<Octet>,
      g: Flags, w': seq<Octet>, o: Out, n: nat)
    requires n < |ds| && n < |ss| && Progress(alu, z, q, ds, ss, f, w, g, n) && o == alu(ds[n], ss[n], g)
    requires Scale(z, n + 1) <= q <= |w'| && LimbsAt(z, w', q, n + 1) == LimbsAt(z, w, q, n) + [o.r]
    ensures Progress(alu, z, q, ds, ss, f, w', o.f, n + 1)
  {
  }

  /**
    Memories and flags of a run: the instructions work through the two numbers like a chain
    over their limbs, provided the destination does not run into source limbs still to be
    read; nothing else changes.
  */
  lemma {:induction false} RunIsChain(alu: Alu, z: Size, p: nat, q: nat, rams: seq<seq<Octet>>, fs: seq<Flags>,
      n: nat, all: nat)
    requires n <= all && |rams| > n && |fs| > n && ReadInTime(z, p, q, all)
    requires Scale(z, all) <= p <= |rams[0]| && Scale(z, all) <= q <= |rams[0]|
    requires forall i :: 0 <= i < n ==> LimbStep(alu, z, p, q, i + 1, rams[i], fs[i], rams[i + 1], fs[i + 1])
    ensures SameOutside(z, rams[0], rams[n], q, n)
    ensures Progress(alu, z, q, LimbsAt(z, rams[0], q, all), LimbsAt(z, rams[0], p, all), fs[0], rams[n], fs[n], n)
  {
    if n > 0 {
      RunIsChain(alu, z, p, q, rams, fs, n - 1, all);
      assert LimbStep(alu, z, p, q, n - 1 + 1, rams[n - 1], fs[n - 1], rams[n - 1 + 1], fs[n - 1 + 1]);
      OneMore(alu, z, p, q, rams[0], fs[0], rams[n - 1], fs[n - 1], rams[n], fs[n], n, all);
    }
  }

  lemma {:induction false} OneMore(alu: Alu, z: Size, p: nat, q: nat, ram: seq<Octet>, f: Flags, w: seq<Octet>,
      g: Flags, w': seq<Octet>, g': Flags, n: nat, all: nat)
    requires 0 < n <= all && ReadInTime(z, p, q, all) && LimbStep(alu, z, p, q, n, w, g, w', g')
    requires Scale(z, all) <= p <= |ram| && Scale(z, all) <= q <= |ram| && SameOutside(z, ram, w, q, n - 1)
    requires Progress(alu, z, q, LimbsAt(z, ram, q, all), LimbsAt(z, ram, p, all), f, w, g, n - 1)
    ensures SameOutside(z, ram, w', q, n)
    ensures Progress(alu, z, q, LimbsAt(z, ram, q, all), LimbsAt(z, ram, p, all), f, w', g', n)
  {
    SameOut(alu, z, p, q, ram, w, g, n, all);
    var o := alu(LimbsAt(z, ram, q, all)[n - 1], LimbsAt(z, ram, p, all)[n - 1], g);
    assert w' == Put(z, w, q - Scale(z, n), o.r) && g' == o.f && o.r < Modulus(z);
    LimbStored(z, ram, w, q, n, o.r);
    assert LimbsAt(z, w', q, n) == LimbsAt(z, w, q, n - 1) + [o.r];
    ChainGrows(alu, z, q, LimbsAt(z, ram, q, all), LimbsAt(z, ram, p, all), f, w, g, w', o, n - 1);
  }

  /** `m'` is `m` after the instruction -(Ay),-(Ax), if that finds its operands in RAM. */
  predicate Follows(op: Op, z: Size, y: nat, x: nat, m: Machine, m': Machine) {
    && y < 8 && x < 8 && y != x && (IsBcd(op) ==> z.Byte?) && Regs(m) && Regs(m')
    && (InRam(z, m, y, x) ==> m' == MemoryForm(op, z, y, x, m))
  }

  /** The `n`th instruction of a run, in machine `w`, that began in machine `m`: its addresses are `p` and `q`. */
  lemma {:induction false} StepAddresses(z: Size, y: nat, x: nat, m: Machine, w: Machine, n: nat, p: nat, q: nat)
    requires Regs(m) && Regs(w) && y < 8 && x < 8 && y != x && n > 0
    requires Area(z, m, y, n) && Area(z, m, x, n) && Stepped(z, y, x, m, w, n - 1)
    requires p + Scale(z, n) == m.a[y] && q + Scale(z, n) == m.a[x]
    ensures Down(z, y, w.a[y]) == Bus(p) == p && Down(z, x, w.a[x]) == Bus(q) == q
    ensures Operand(z, w.ram, p) && Operand(z, w.ram, q)
  {
    OneDown(z, y, m, w, n);
    OneDown(z, x, m, w, n);
  }

  lemma {:induction false} MemoryStep(op: Op, z: Size, y: nat, x: nat, m: Machine, w: Machine, w': Machine, n: nat,
      p: nat, q: nat)
    requires Follows(op, z, y, x, w, w') && Regs(m) && n > 0
    requires Area(z, m, y, n) && Area(z, m, x, n) && Stepped(z, y, x, m, w, n - 1)
    requires p + Scale(z, n) == m.a[y] && q + Scale(z, n) == m.a[x]
    ensures Stepped(z, y, x, m, w', n)
    ensures LimbStep(Executes(op, z), z, m.a[y], m.a[x], n, w.ram, w.f, w'.ram, w'.f)
  {
    StepAddresses(z, y, x, m, w, n, p, q);
    MemoryFormIs(op, z, y, x, w, p, q);
    SteppedOn(Executes(op, z), z, y, x, m, w, w', n);
  }

  lemma {:induction false} SteppedOn(alu: Alu, z: Size, y: nat, x: nat, m: Machine, w: Machine, w': Machine, n: nat)
    requires Regs(m) && Regs(w) && Regs(w') && y < 8 && x < 8 && y != x && n > 0 && Stepped(z, y, x, m, w, n - 1)
    requires Scale(z, n) <= m.a[y] <= |m.ram| && Scale(z, n) <= m.a[x] <= |m.ram|
    requires var p, q := m.a[y] - Scale(z, n), m.a[x] - Scale(z, n);
      && Executed(alu, z, p, q, w.ram, w.f, w'.ram, w'.f) && |w'.ram| == |w.ram|
      && w'.d == w.d && w'.a == w.a[y := p][x := q]
    ensures Stepped(z, y, x, m, w', n) && LimbStep(alu, z, m.a[y], m.a[x], n, w.ram, w.f, w'.ram, w'.f)
  {
  }

  /** The instruction with its addresses `p` and `q` known. */
  lemma {:induction false} MemoryFormIs(op: Op, z: Size, y: nat, x: nat, w: Machine, p: nat, q: nat)
    requires Regs(w) && y < 8 && x < 8 && y != x && (IsBcd(op) ==> z.Byte?)
    requires Down(z, y, w.a[y]) == Bus(p) == p && Down(z, x, w.a[x]) == Bus(q) == q
    requires Operand(z, w.ram, p) && Operand(z, w.ram, q)
    ensures InRam(z, w, y, x)
    ensures var w' := MemoryForm(op, z, y, x, w);
      && Executed(Executes(op, z), z, p, q, w.ram, w.f, w'.ram, w'.f)
      && w'.d == w.d && w'.a == w.a[y := p][x := q]
  {
    assert Source(z, y, w) == p && Dest(z, y, x, w) == q;
    ExecRange(op, z, Get(z, w.ram, q), Get(z, w.ram, p), w.f);
  }

  lemma {:induction false} RunInRam(op: Op, z: Size, y: nat, x: nat, ms: seq<Machine>, n: nat, all: nat)
    requires n <= all && |ms| > n && y < 8 && x < 8 && Regs(ms[0]) && y != x
    requires forall i :: 0 <= i < all && i + 1 < |ms| ==> Follows(op, z, y, x, ms[i], ms[i + 1])
    requires Area(z, ms[0], y, all) && Area(z, ms[0], x, all)
    ensures Regs(ms[n]) && Stepped(z, y, x, ms[0], ms[n], n)
    ensures forall i :: 0 <= i < n ==>
      LimbStep(Executes(op, z), z, ms[0].a[y], ms[0].a[x], i + 1, ms[i].ram, ms[i].f, ms[i + 1].ram, ms[i + 1].f)
  {
    if n > 0 {
      RunInRam(op, z, y, x, ms, n - 1, all);
      assert Follows(op, z, y, x, ms[n - 1], ms[n - 1 + 1]);
      ScaleFacts(z, n, all);
      var m := ms[0];
      MemoryStep(op, z, y, x, m, ms[n - 1], ms[n], n, m.a[y] - Scale(z, n), m.a[x] - Scale(z, n));
    }
  }

  /**
    `n` instructions -(Ay),-(Ax) on numbers of `n` limbs in memory: the destination becomes
    their sum or difference, exactly, X the carry or borrow out of it, and Z says whether
    it is zero, if it was set before. All other memory stays as it was.
  */
  lemma {:induction false} MemoryArithmetic(op: Op, z: Size, y: nat, x: nat, ms: seq<Machine>, n: nat)
    requires |ms| == n + 1 && y < 8 && x < 8 && Regs(ms[0]) && y != x
    requires forall i :: 0 <= i < n ==> Follows(op, z, y, x, ms[i], ms[i + 1])
    requires Area(z, ms[0], y, n) && Area(z, ms[0], x, n) && ReadInTime(z, ms[0].a[y], ms[0].a[x], n)
    requires IsBcd(op) ==>
      && Number(op, z, LimbsAt(z, ms[0].ram, ms[0].a[y], n))
      && Number(op, z, LimbsAt(z, ms[0].ram, ms[0].a[x], n))
    ensures var m, m', p, q := ms[0], ms[n], ms[0].a[y], ms[0].a[x];
      && Regs(m') && Stepped(z, y, x, m, m', n) && SameOutside(z, m.ram, m'.ram, q, n)
      && var d, s, r := LimbsAt(z, m.ram, q, n), LimbsAt(z, m.ram, p, n), LimbsAt(z, m'.ram, q, n);
         && Number(op, z, r)
         && Exact(op, Pow(Base(op, z), n), Value(op, z, d, n), Value(op, z, s, n), m.f.x, Value(op, z, r, n), m'.f.x)
         && (m'.f.z <==> m.f.z && Value(op, z, r, n) == 0)
  {
    var p, q := ms[0].a[y], ms[0].a[x];
    var d, s := LimbsAt(z, ms[0].ram, q, n), LimbsAt(z, ms[0].ram, p, n);
    RunInRam(op, z, y, x, ms, n, n);
    var rams := seq(n + 1, i requires 0 <= i <= n => ms[i].ram);
    var fs := seq(n + 1, i requires 0 <= i <= n => ms[i].f);
    RunIsChain(Executes(op, z), z, p, q, rams, fs, n, n);
    LimbsBelow(op, z, ms[0].ram, p, n);
    LimbsBelow(op, z, ms[0].ram, q, n);
    ChainExact(op, z, d, s, ms[0].f, n);
  }

  lemma {:induction false} LimbsBelow(op: Op, z: Size, ram: seq<Octet>, top: nat, n: nat)
    requires Scale(z, n) <= top <= |ram|
    ensures forall i :: 0 <= i < n ==> LimbsAt(z, ram, top, n)[i] < Modulus(z)
  {
    if n > 0 {
      LimbsBelow(op, z, ram, top, n - 1);
      BigRange(z, ram[top - Scale(z, n)..top - Scale(z, n) + Width(z)]);
    }
  }

  lemma {:induction false} LowRange(z: Size, v: nat)
    ensures v % Modulus(z) < Modulus(z)
  {
  }

  lemma {:induction false} GetRange(z: Size, ram: seq<Octet>, a: nat)
    requires a + Width(z) <= |ram|
    ensures Get(z, ram, a) < Modulus(z)
  {
    BigRange(z, ram[a..a + Width(z)]);
  }

  lemma {:induction false} WrapAgain(z: Size, v: int, k: int)
    requires -(Modulus(z) as int) < v < 2 * Modulus(z) && -1 <= k <= 1
    ensures (v % Modulus(z) + k) % Modulus(z) == (v + k) % Modulus(z)
  {
    ModuloIs(z, v);
    ModuloIs(z, v + k);
    ModuloIs(z, v % Modulus(z) + k);
  }

  lemma {:induction false} ModuloIs(z: Size, v: int)
    requires -(Modulus(z) as int) <= v < 2 * Modulus(z) + 1
    ensures v % Modulus(z) == if v < 0 then v + Modulus(z) else if v < Modulus(z) then v
                              else if v < 2 * Modulus(z) then v - Modulus(z) else v - 2 * Modulus(z)
  {
  }

  /** Stores the low part of `v`, big-endian. */
  method WriteOperand(z: Size, ram: array<Octet>, addr: nat, v: nat)
    requires addr + Width(z) <= ram.Length
    modifies ram
    ensures ram[..] == Put(z, old(ram[..]), addr, v)
  {
    var bytes := Bytes(z, v);
    for i := 0 to Width(z)
      invariant forall a :: 0 <= a < ram.Length ==> ram[a] == if addr <= a < addr + i then bytes[a - addr]
        else old(ram[a])
    {
      ram[addr + i] := bytes[i];
    }
  }

  /** The registers, the flags and the memory the handlers work on. */
  class Cpu {
    const reg: array<nat>
    const areg: array<nat>
    const ram: array<Octet>
    var xflag: bool
    var carry: bool
    var zero: bool
    var negative: bool
    var overflow: bool

    constructor (size: nat)
      ensures Valid() && fresh(reg) && fresh(areg) && fresh(ram) && ram.Length == size
    {
      reg, areg, ram := new nat[8](_ => 0), new nat[8](_ => 0), new Octet[size](_ => 0);
      xflag, carry, zero, negative, overflow := false, false, false, false, false;
    }

    predicate Valid()
      reads reg, areg
    {
      && reg.Length == areg.Length == 8 && reg != areg
      && forall i :: 0 <= i < 8 ==> reg[i] < WORD32 && areg[i] < WORD32
    }

    function Now(): Machine
      reads this, reg, areg, ram
    {
      Machine(reg[..], areg[..], ram[..], Flags(xflag, carry, zero, negative, overflow))
    }

    /** Steps an address register down and reads the operand there. */
    method ReadDown(z: Size, r: nat) returns (addr: nat, v: nat)
      requires Valid() && r < 8 && Operand(z, ram[..], Bus(Down(z, r, areg[r])))
      modifies areg
      ensures Valid() && areg[..] == old(areg[..])[r := Down(z, r, old(areg[r]))]
      ensures addr == Bus(areg[r]) && v == Get(z, ram[..], addr)
    {
      areg[r] := Down(z, r, areg[r]);
      addr := Bus(areg[r]);
      v := 0;
      for i := 0 to Width(z)
        invariant v == Big(ram[addr..addr + i])
      {
        v := 256 * v + ram[addr + i] as int;
        assert ram[addr..addr + (i + 1)][..i] == ram[addr..addr + i];
      }
    }

    /** The source is read first. */
    method ReadBoth(z: Size, y: nat, x: nat) returns (addr: nat, d: nat, s: nat)
      requires Valid() && y < 8 && x < 8 && InRam(z, Now(), y, x)
      modifies areg
      ensures Valid() && areg[..] == BothDown(z, y, x, old(Now()))
      ensures addr == Dest(z, y, x, old(Now())) && d == Get(z, ram[..], addr)
        && s == Get(z, ram[..], Source(z, y, old(Now())))
      ensures d < Modulus(z) && s < Modulus(z)
    {
      var source;
      source, s := ReadDown(z, y);
      addr, d := ReadDown(z, x);
      GetRange(z, ram[..], source);
      GetRange(z, ram[..], addr);
    }

    method WriteLow(z: Size, r: nat, v: nat)
      requires Valid() && r < 8 && v < Modulus(z)
      modifies reg
      ensures Valid() && reg[..] == old(reg[..])[r := Low(z, old(reg[r]), v)]
    {
      reg[r] := reg[r] - reg[r] % Modulus(z) + v;
      assert reg[r] == Low(z, old(reg[r]), v);
    }

    /** The result and the flags of ADDX. */
    method AddLimb(z: Size, d: nat, s: nat) returns (r: nat)
      requires d < Modulus(z) && s < Modulus(z)
      modifies this
      ensures Out(r, Flags(xflag, carry, zero, negative, overflow))
           == Addx(z, d, s, old(Flags(xflag, carry, zero, negative, overflow)))
    {
      r := (d + s) % Modulus(z);
      WrapAgain(z, d + s, 1);
      if xflag {
        r := (r + 1) % Modulus(z);
      }
      assert r == (d + s + Int(old(xflag))) % Modulus(z);
      var dn, sn := d >= Half(z), s >= Half(z);
      negative := r >= Half(z);
      zero := zero && r == 0;
      carry := (!negative && (sn || dn)) || (sn && dn);
      xflag := carry;
      overflow := (sn && dn && !negative) || (negative && !dn && !sn);
    }

    /** The result and the flags of SUBX. */
    method SubtractLimb(z: Size, d: nat, s: nat) returns (r: nat)
      requires d < Modulus(z) && s < Modulus(z)
      modifies this
      ensures Out(r, Flags(xflag, carry, zero, negative, overflow))
           == Subx(z, d, s, old(Flags(xflag, carry, zero, negative, overflow)))
    {
      r := (d - s) % Modulus(z);
      WrapAgain(z, d - s, -1);
      if xflag {
        r := (r - 1) % Modulus(z);
      }
      assert r == (d - s - Int(old(xflag))) % Modulus(z);
      var dn, sn := d >= Half(z), s >= Half(z);
      negative := r >= Half(z);
      zero := zero && r == 0;
      carry := (!dn && (sn || negative)) || (sn && negative);
      xflag := carry;
      overflow := (!sn && dn && !negative) || (negative && !dn && sn);
    }

    method SetUpFlags(ss: nat, b7: bool, rr: nat)
      modifies this
      ensures Flags(xflag, carry, zero, negative, overflow)
           == UpFlags(ss, b7, rr, old(Flags(xflag, carry, zero, negative, overflow)))
    {
      xflag := b7 || (Bit7(ss) && !Bit7(rr));
      carry := xflag;
      overflow, zero, negative := !Bit7(ss) && Bit7(rr), zero && rr == 0, Bit7(rr);
    }

    method SetDownFlags(dd: nat, b7: bool, rr: nat)
      modifies this
      ensures Flags(xflag, carry, zero, negative, overflow)
           == DownFlags(dd, b7, rr, old(Flags(xflag, carry, zero, negative, overflow)))
    {
      xflag := b7 || (!Bit7(dd) && Bit7(rr));
      carry := xflag;
      overflow, zero, negative := Bit7(dd) && !Bit7(rr), zero && rr == 0, Bit7(rr);
    }

    /** The result and the flags of ABCD. */
    method AddDigits(d: nat, s: nat) returns (rr: nat)
      requires d < 256 && s < 256
      modifies this
      ensures rr < 256 && Out(rr, Flags(xflag, carry, zero, negative, overflow))
           == Abcd(d, s, old(Flags(xflag, carry, zero, negative, overflow)))
    {
      var ss := (d + s + Int(xflag)) % 256;
      var b3, b7 := CarryBit(Bit3(d), Bit3(s), Bit3(ss)), CarryBit(Bit7(d), Bit7(s), Bit7(ss));
      var d3, d7 := Bit4(ss + 0x66) != Bit4(ss), Bit8(ss + 0x66) != Bit8(ss);
      rr := (ss + Correction(b3 || d3, b7 || d7)) % 256;
      ghost var o := AdjustUp(ss, b3, b7, Flags(xflag, carry, zero, negative, overflow));
      assert o == Abcd(d, s, Flags(xflag, carry, zero, negative, overflow)) && o.r == rr;
      assert o.f == UpFlags(ss, b7, rr, Flags(xflag, carry, zero, negative, overflow));
      SetUpFlags(ss, b7, rr);
    }

    /** The result and the flags of SBCD. */
    method SubtractDigits(d: nat, s: nat) returns (rr: nat)
      requires d < 256 && s < 256
      modifies this
      ensures rr < 256 && Out(rr, Flags(xflag, carry, zero, negative, overflow))
           == Sbcd(d, s, old(Flags(xflag, carry, zero, negative, overflow)))
    {
      var dd: nat := (d - s - Int(xflag)) % 256;
      var b3 := BorrowBit(Bit3(d), Bit3(s), Bit3(dd));
      var b7 := BorrowBit(Bit7(d), Bit7(s), Bit7(dd));
      rr := (dd - Correction(b3, b7)) % 256;
      ghost var o := AdjustDown(dd, b3, b7, Flags(xflag, carry, zero, negative, overflow));
      assert o == Sbcd(d, s, Flags(xflag, carry, zero, negative, overflow)) && o.r == rr;
      assert o.f == DownFlags(dd, b7, rr, Flags(xflag, carry, zero, negative, overflow));
      SetDownFlags(dd, b7, rr);
    }

    /** ADDX Dy,Dx. */
    method AddxRegister(z: Size, y: nat, x: nat)
      requires Valid() && y < 8 && x < 8
      modifies this, reg
      ensures Valid() && Now() == RegisterForm(AddX, z, y, x, old(Now()))
    {
      LowRange(z, reg[x]);
      LowRange(z, reg[y]);
      var r := AddLimb(z, reg[x] % Modulus(z), reg[y] % Modulus(z));
      WriteLow(z, x, r);
    }

    /** ADDX -(Ay),-(Ax) */
    method AddxMemory(z: Size, y: nat, x: nat)
      requires Valid() && y < 8 && x < 8 && InRam(z, Now(), y, x)
      modifies this, areg, ram
      ensures Valid() && Now() == MemoryForm(AddX, z, y, x, old(Now()))
    {
      var addr, d, s := ReadBoth(z, y, x);
      var r := AddLimb(z, d, s);
      WriteOperand(z, ram, addr, r);
    }

    /** SUBX Dy,Dx. */
    method SubxRegister(z: Size, y: nat, x: nat)
      requires Valid() && y < 8 && x < 8
      modifies this, reg
      ensures Valid() && Now() == RegisterForm(SubX, z, y, x, old(Now()))
    {
      LowRange(z, reg[x]);
      LowRange(z, reg[y]);
      var r := SubtractLimb(z, reg[x] % Modulus(z), reg[y] % Modulus(z));
      WriteLow(z, x, r);
    }

    /** SUBX -(Ay),-(Ax). */
    method SubxMemory(z: Size, y: nat, x: nat)
      requires Valid() && y < 8 && x < 8 && InRam(z, Now(), y, x)
      modifies this, areg, ram
      ensures Valid() && Now() == MemoryForm(SubX, z, y, x, old(Now()))
    {
      var addr, d, s := ReadBoth(z, y, x);
      var r := SubtractLimb(z, d, s);
      WriteOperand(z, ram, addr, r);
    }

    /** ABCD, on memory or on registers. */
    method AddDecimal(memory: bool, y: nat, x: nat)
      requires Valid() && y < 8 && x < 8 && (memory ==> InRam(Byte, Now(), y, x))
      modifies this, reg, areg, ram
      ensures Valid() && Now() == (if memory then MemoryForm(AddBcd, Byte, y, x, old(Now()))
                                   else RegisterForm(AddBcd, Byte, y, x, old(Now())))
    {
      var s, d, addr := reg[y] % 256, reg[x] % 256, 0;
      if memory {
        addr, d, s := ReadBoth(Byte, y, x);
      }
      var rr := AddDigits(d, s);
      if memory {
        WriteOperand(Byte, ram, addr, rr);
      } else {
        WriteLow(Byte, x, rr);
      }
    }

    /** SBCD, on memory or on registers. */
    method SubtractDecimal(memory: bool, y: nat, x: nat)
      requires Valid() && y < 8 && x < 8 && (memory ==> InRam(Byte, Now(), y, x))
      modifies this, reg, areg, ram
      ensures Valid() && Now() == (if memory then MemoryForm(SubBcd, Byte, y, x, old(Now()))
                                   else RegisterForm(SubBcd, Byte, y, x, old(Now())))
    {
      var s, d, addr := reg[y] % 256, reg[x] % 256, 0;
      if memory {
        addr, d, s := ReadBoth(Byte, y, x);
      }
      var rr := SubtractDigits(d, s);
      if memory {
        WriteOperand(Byte, ram, addr, rr);
      } else {
        WriteLow(Byte, x, rr);
      }
    }

    /** The result and the flags of NEGX are those of a subtraction from 0. */
    method NegateLimb(z: Size, d: nat) returns (r: nat)
      requires d < Modulus(z)
      modifies this
      ensures r < Modulus(z)
      ensures Out(r, Flags(xflag, carry, zero, negative, overflow))
           == Subx(z, 0, d, old(Flags(xflag, carry, zero, negative, overflow)))
    {
      NegxIsSubxFromZero(z, d, Flags(xflag, carry, zero, negative, overflow));
      var minus: int := -(d as int);
      r := minus % Modulus(z);
      WrapAgain(z, minus, -1);
      if xflag {
        r := (r - 1) % Modulus(z);
      }
      assert r == (0 - d - Int(old(xflag))) % Modulus(z);
      negative := r >= Half(z);
      zero := zero && r == 0;
      carry := d >= Half(z) || r >= Half(z);
      xflag := carry;
      overflow := r >= Half(z) && d >= Half(z);
    }

    method NegxRegister(z: Size, x: nat)
      requires Valid() && x < 8
      modifies this, reg
      ensures Valid()
      ensures var o := Subx(z, 0, old(reg[x]) % Modulus(z), old(Now()).f);
        Now() == old(Now()).(d := old(reg[..])[x := Low(z, old(reg[x]), o.r)], f := o.f)
    {
      LowRange(z, reg[x]);
      var r := NegateLimb(z, reg[x] % Modulus(z));
      WriteLow(z, x, r);
    }

    /** NEGX of the operand at `addr`. */
    method NegxMemory(z: Size, addr: nat)
      requires Valid() && addr + Width(z) <= ram.Length
      modifies this, ram
      ensures Valid()
      ensures var o := Subx(z, 0, Get(z, old(ram[..]), addr), old(Now()).f);
        Now() == old(Now()).(ram := Put(z, old(ram[..]), addr, o.r), f := o.f)
    {
      GetRange(z, ram[..], addr);
      var r := NegateLimb(z, Get(z, ram[..], addr));
      WriteOperand(z, ram, addr, r);
    }

    /** The result and the flags of NBCD are those of a decimal subtraction from 0. */
    method NegateDigits(d: nat) returns (rr: nat)
      requires d < 256
      modifies this
      ensures rr < 256 && Out(rr, Flags(xflag, carry, zero, negative, overflow))
           == Sbcd(0, d, old(Flags(xflag, carry, zero, negative, overflow)))
    {
      ghost var f := Flags(xflag, carry, zero, negative, overflow);
      NbcdIsSbcdFromZero(d, f);
      var dd: nat := (0 - d - Int(xflag)) % 256;
      var b3, b7 := Bit3(d) || Bit3(dd), Bit7(d) || Bit7(dd);
      rr := (dd - Correction(b3, b7)) % 256;
      assert Nbcd(d, f) == AdjustDown(dd, b3, b7, f) && AdjustDown(dd, b3, b7, f).r == rr;
      SetDownFlags(dd, b7, rr);
    }

    method NbcdRegister(x: nat)
      requires Valid() && x < 8
      modifies this, reg
      ensures Valid()
      ensures var o := Sbcd(0, old(reg[x]) % 256, old(Now()).f);
        Now() == old(Now()).(d := old(reg[..])[x := Low(Byte, old(reg[x]), o.r)], f := o.f)
    {
      var rr := NegateDigits(reg[x] % 256);
      WriteLow(Byte, x, rr);
    }

    /** NBCD of the byte at `addr`. */
    method NbcdMemory(addr: nat)
      requires Valid() && addr < ram.Length
      modifies this, ram
      ensures Valid()
      ensures var o := Sbcd(0, Get(Byte, old(ram[..]), addr), old(Now()).f);
        Now() == old(Now()).(ram := Put(Byte, old(ram[..]), addr, o.r), f := o.f)
    {
      GetRange(Byte, ram[..], addr);
      var rr := NegateDigits(Get(Byte, ram[..], addr));
      WriteOperand(Byte, ram, addr, rr);
    }
  }
}
