/**
  The allocation map of a floppy disk: an entry of three bytes for every block of the disk,
  12 bits for the file and 12 for the block of the file. Two entries make six bytes, which
  the program packs and unpacks in two different ways.
*/
module Floppy {
  import opened Sectors
  import opened Powers

  const VACANT: nat := 0xfd
  const FILES: nat := 2048       // numbers above are those of the map and of unused blocks
  const BLOCKS: nat := 4096

  // ---- entries ----

  function File(f: seq<Byte>, e: nat): (n: nat)
    requires 3 * e + 2 < |f|
    ensures n < 4096
  {
    16 * f[3 * e] as int + f[3 * e + 1] as int / 16
  }

  function Block(f: seq<Byte>, e: nat): (n: nat)
    requires 3 * e + 2 < |f|
    ensures n < BLOCKS
  {
    256 * (f[3 * e + 1] as int % 16) + f[3 * e + 2] as int
  }

  predicate Vacant(f: seq<Byte>, e: nat)
    requires 3 * e + 2 < |f|
  {
    f[3 * e] as int == VACANT
  }

  predicate Holds(f: seq<Byte>, e: nat, file: nat, block: nat)
    requires 3 * e + 2 < |f|
  {
    File(f, e) == file && Block(f, e) == block
  }

  /** The first entry below `n` for the block, or -1. */
  function Lookup(f: seq<Byte>, n: nat, file: nat, block: nat): (e: int)
    requires 3 * n <= |f|
    ensures -1 <= e < n && (e >= 0 ==> Holds(f, e, file, block))
    ensures forall i :: 0 <= i < n && (e < 0 || i < e) ==> !Holds(f, i, file, block)
  {
    if n == 0 then -1
    else
      var e := Lookup(f, n - 1, file, block);
      if e >= 0 then e else if Holds(f, n - 1, file, block) then n - 1 else -1
  }

  function FirstVacant(f: seq<Byte>, n: nat): (e: int)
    requires 3 * n <= |f|
    ensures -1 <= e < n && (e >= 0 ==> Vacant(f, e))
    ensures forall i :: 0 <= i < n && (e < 0 || i < e) ==> !Vacant(f, i)
  {
    if n == 0 then -1
    else
      var e := FirstVacant(f, n - 1);
      if e >= 0 then e else if Vacant(f, n - 1) then n - 1 else -1
  }

  function Vacancies(f: seq<Byte>, n: nat): (k: nat)
    requires 3 * n <= |f|
    ensures k <= n
  {
    if n == 0 then 0 else Vacancies(f, n - 1) + if Vacant(f, n - 1) then 1 else 0
  }

  /** Entry `e` given to the block. */
  function Assign(f: seq<Byte>, e: nat, file: nat, block: nat): (g: seq<Byte>)
    requires 3 * e + 2 < |f| && file < FILES && block < BLOCKS
    ensures |g| == |f|
  {
    f[3 * e := file / 16][3 * e + 1 := file % 16 * 16 + block / 256][3 * e + 2 := block % 256]
  }

  /** An entry of the file's tail, which begins with block `from`. */
  predicate InTail(f: seq<Byte>, e: nat, file: nat, from: nat)
    requires 3 * e + 2 < |f|
  {
    File(f, e) == file && Block(f, e) >= from
  }

  /** The first `n` entries without the tail of the file. */
  function Release(f: seq<Byte>, n: nat, file: nat, from: nat): (g: seq<Byte>)
    requires 3 * n <= |f|
    ensures |g| == |f| && forall i :: 3 * n <= i < |f| ==> g[i] == f[i]
  {
    if n == 0 then f
    else
      var g := Release(f, n - 1, file, from);
      if InTail(f, n - 1, file, from) then g[3 * (n - 1) := VACANT] else g
  }

  function Matches(f: seq<Byte>, n: nat, file: nat, from: nat): (k: nat)
    requires 3 * n <= |f|
  {
    if n == 0 then 0 else Matches(f, n - 1, file, from) + if InTail(f, n - 1, file, from) then 1 else 0
  }

  lemma {:induction false} AssignHolds(f: seq<Byte>, e: nat, file: nat, block: nat)
    requires 3 * e + 2 < |f| && file < FILES && block < BLOCKS
    ensures var g := Assign(f, e, file, block); Holds(g, e, file, block) && !Vacant(g, e)
  {
    var m := file % 16 * 16 + block / 256;
    assert m / 16 == file % 16 && m % 16 == block / 256;
  }

  /** Entries share no bytes. */
  lemma {:induction false} AssignKeeps(f: seq<Byte>, e: nat, file: nat, block: nat, i: nat)
    requires 3 * e + 2 < |f| && file < FILES && block < BLOCKS && i != e && 3 * i + 2 < |f|
    ensures var g := Assign(f, e, file, block);
      File(g, i) == File(f, i) && Block(g, i) == Block(f, i) && (Vacant(g, i) <==> Vacant(f, i))
  {
  }

  lemma {:induction false} VacantIsNoFile(f: seq<Byte>, e: nat, file: nat)
    requires 3 * e + 2 < |f| && Vacant(f, e) && file < FILES
    ensures File(f, e) != file
  {
  }

  /** After `Assign` the block is found there, and every other block where it was. */
  lemma {:induction false} LookupAssign(f: seq<Byte>, n: nat, e: nat, file: nat, block: nat, x: nat, y: nat)
    requires 3 * n <= |f| && 3 * e + 2 < |f| && file < FILES && block < BLOCKS && x < FILES
    requires Vacant(f, e) && Lookup(f, n, file, block) == -1
    ensures Lookup(Assign(f, e, file, block), n, x, y)
         == if x == file && y == block then (if e < n then e else -1) else Lookup(f, n, x, y)
  {
    if n > 0 {
      LookupAssign(f, n - 1, e, file, block, x, y);
      AssignHolds(f, e, file, block);
      VacantIsNoFile(f, e, x);
      if n - 1 != e {
        AssignKeeps(f, e, file, block, n - 1);
      }
    }
  }

  lemma {:induction false} ReleaseAt(f: seq<Byte>, n: nat, file: nat, from: nat, i: nat)
    requires 3 * n <= |f| && 3 * i + 2 < |f|
    ensures var g := Release(f, n, file, from);
      && g[3 * i] == (if i < n && InTail(f, i, file, from) then VACANT else f[3 * i])
      && g[3 * i + 1] == f[3 * i + 1] && g[3 * i + 2] == f[3 * i + 2]
  {
    if n > 0 {
      ReleaseAt(f, n - 1, file, from, i);
    }
  }

  lemma {:induction false} ReleasedHolds(f: seq<Byte>, all: nat, file: nat, from: nat, i: nat, x: nat, y: nat)
    requires i < all && 3 * all <= |f| && file < FILES && x < FILES
    ensures Holds(Release(f, all, file, from), i, x, y) <==> Holds(f, i, x, y) && !(x == file && y >= from)
  {
    ReleaseAt(f, all, file, from, i);
  }

  /** After `Release` no block of the tail is found, and every other block where it was. */
  lemma {:induction false} LookupRelease(f: seq<Byte>, n: nat, all: nat, file: nat, from: nat, x: nat, y: nat)
    requires n <= all && 3 * all <= |f| && file < FILES && x < FILES
    ensures Lookup(Release(f, all, file, from), n, x, y)
         == if x == file && y >= from then -1 else Lookup(f, n, x, y)
  {
    if n > 0 {
      LookupRelease(f, n - 1, all, file, from, x, y);
      ReleasedHolds(f, all, file, from, n - 1, x, y);
    }
  }

  lemma {:induction false} VacanciesAssign(f: seq<Byte>, n: nat, e: nat, file: nat, block: nat)
    requires 3 * n <= |f| && 3 * e + 2 < |f| && file < FILES && block < BLOCKS && Vacant(f, e)
    ensures Vacancies(Assign(f, e, file, block), n) + (if e < n then 1 else 0) == Vacancies(f, n)
  {
    if n > 0 {
      VacanciesAssign(f, n - 1, e, file, block);
      AssignHolds(f, e, file, block);
      if n - 1 != e {
        AssignKeeps(f, e, file, block, n - 1);
      }
    }
  }

  lemma {:induction false} VacanciesRelease(f: seq<Byte>, n: nat, all: nat, file: nat, from: nat)
    requires n <= all && 3 * all <= |f| && file < FILES
    ensures Vacancies(Release(f, all, file, from), n) == Vacancies(f, n) + Matches(f, n, file, from)
  {
    if n > 0 {
      VacanciesRelease(f, n - 1, all, file, from);
      ReleaseAt(f, all, file, from, n - 1);
    }
  }

  // ---- the count of free sectors ----

  /** Sectors in `k` blocks. */
  function Span(spb: nat, k: nat): (n: nat) {
    if k == 0 then 0 else Span(spb, k - 1) + spb
  }

  lemma {:induction false} SpanAdd(spb: nat, j: nat, k: nat)
    ensures Span(spb, j + k) == Span(spb, j) + Span(spb, k)
  {
    if k > 0 {
      SpanAdd(spb, j, k - 1);
    }
  }

  lemma {:induction false} SpanIs(spb: nat, k: nat)
    ensures Span(spb, k) == spb * k
  {
    if k > 0 {
      SpanIs(spb, k - 1);
    }
  }

  /** The map with its 16-bit count of free sectors. */
  datatype Disk = Disk(f: seq<Byte>, free: nat)

  /** Entries in use: the map is scanned in pairs. */
  predicate Fits(d: Disk, n: nat) {
    3 * n <= |d.f| && d.free < 0x1_0000
  }

  datatype Op = Allocate(file: nat, block: nat) | Drop(file: nat, from: nat)

  predicate Legal(op: Op) {
    op.file < FILES && (op.Allocate? ==> op.block < BLOCKS)
  }

  /** An allocation on a full disk changes nothing. */
  function Apply(d: Disk, n: nat, spb: nat, op: Op): (d': Disk)
    requires Fits(d, n) && Legal(op)
    ensures Fits(d', n) && |d'.f| == |d.f|
  {
    match op
    case Allocate(file, block) =>
      var e := FirstVacant(d.f, n);
      if d.free < 1 || e < 0 then d else Disk(Assign(d.f, e, file, block), (d.free - spb) % 0x1_0000)
    case Drop(file, from) => Disk(Release(d.f, n, file, from),
      (d.free + Span(spb, Matches(d.f, n, file, from))) % 0x1_0000)
  }

  /** Map `g` has the block in entry `e`, and every other block where `f` has it. */
  ghost predicate Entered(f: seq<Byte>, g: seq<Byte>, n: nat, file: nat, block: nat, e: int)
    requires 3 * n <= |f| == |g|
  {
    forall x: nat, y: nat {:trigger Lookup(g, n, x, y)} :: x < FILES ==>
      Lookup(g, n, x, y) == if x == file && y == block then e else Lookup(f, n, x, y)
  }

  /** Map `g` has no block of the file from `from` on, and every other block where `f` has it. */
  ghost predicate Dropped(f: seq<Byte>, g: seq<Byte>, n: nat, file: nat, from: nat)
    requires 3 * n <= |f| == |g|
  {
    forall x: nat, y: nat {:trigger Lookup(g, n, x, y)} :: x < FILES ==>
      Lookup(g, n, x, y) == if x == file && y >= from then -1 else Lookup(f, n, x, y)
  }

  /** What an allocation is for. */
  lemma {:induction false} AllocateEnters(d: Disk, n: nat, spb: nat, file: nat, block: nat)
    requires Fits(d, n) && file < FILES && block < BLOCKS && Lookup(d.f, n, file, block) == -1
    requires d.free >= 1 && FirstVacant(d.f, n) >= 0
    ensures Entered(d.f, Apply(d, n, spb, Allocate(file, block)).f, n, file, block, FirstVacant(d.f, n))
  {
    var e := FirstVacant(d.f, n);
    var g := Apply(d, n, spb, Allocate(file, block)).f;
    forall x: nat, y: nat {:trigger Lookup(g, n, x, y)} | x < FILES
      ensures Lookup(g, n, x, y) == if x == file && y == block then e else Lookup(d.f, n, x, y) {
      LookupAssign(d.f, n, e, file, block, x, y);
    }
  }

  lemma {:induction false} DropDrops(d: Disk, n: nat, spb: nat, file: nat, from: nat)
    requires Fits(d, n) && file < FILES
    ensures Dropped(d.f, Apply(d, n, spb, Drop(file, from)).f, n, file, from)
  {
    var g := Apply(d, n, spb, Drop(file, from)).f;
    forall x: nat, y: nat {:trigger Lookup(g, n, x, y)} | x < FILES
      ensures Lookup(g, n, x, y) == if x == file && y >= from then -1 else Lookup(d.f, n, x, y) {
      LookupRelease(d.f, n, n, file, from, x, y);
    }
  }

  /** Free sectors counted, less those of the vacant entries, modulo 65536. */
  function Balance(d: Disk, n: nat, spb: nat): (b: nat)
    requires Fits(d, n)
  {
    (d.free - Span(spb, Vacancies(d.f, n))) % 0x1_0000
  }

  lemma {:induction false} Carried(free: nat, change: int, k: int)
    ensures ((free + change) % 0x1_0000 - (k + change)) % 0x1_0000 == (free - k) % 0x1_0000
  {
  }

  lemma {:induction false} ApplyKeepsBalance(d: Disk, n: nat, spb: nat, op: Op)
    requires Fits(d, n) && Legal(op)
    ensures Balance(Apply(d, n, spb, op), n, spb) == Balance(d, n, spb)
  {
    var k := Vacancies(d.f, n);
    match op {
      case Allocate(file, block) =>
        var e := FirstVacant(d.f, n);
        if d.free >= 1 && e >= 0 {
          VacanciesAssign(d.f, n, e, file, block);
          var taken: int := spb;
          Carried(d.free, -taken, Span(spb, k));
        }
      case Drop(file, from) =>
        var m := Matches(d.f, n, file, from);
        VacanciesRelease(d.f, n, n, file, from);
        SpanAdd(spb, k, m);
        Carried(d.free, Span(spb, m), Span(spb, k));
    }
  }

  predicate Run(ds: seq<Disk>, ops: seq<Op>, n: nat, spb: nat) {
    && |ds| == |ops| + 1 && Fits(ds[0], n)
    && forall i :: 0 <= i < |ops| ==> Legal(ops[i]) && Fits(ds[i], n) && ds[i + 1] == Apply(ds[i], n, spb, ops[i])
  }

  /** Over any sequence of operations the count of free sectors follows the vacant entries. */
  lemma {:induction false} RunKeepsBalance(ds: seq<Disk>, ops: seq<Op>, n: nat, spb: nat, i: nat)
    requires Run(ds, ops, n, spb) && i < |ds|
    ensures Fits(ds[i], n) && Balance(ds[i], n, spb) == Balance(ds[0], n, spb)
  {
    if i > 0 {
      RunKeepsBalance(ds, ops, n, spb, i - 1);
      ApplyKeepsBalance(ds[i - 1], n, spb, ops[i - 1]);
    }
  }

  /** The count is exact: so many sectors per vacant entry. */
  predicate Exact(d: Disk, n: nat, spb: nat)
    requires Fits(d, n)
  {
    d.free == spb * Vacancies(d.f, n)
  }

  lemma {:induction false} ExactIfBalanced(d: Disk, n: nat, spb: nat)
    requires Fits(d, n) && spb * n < 0x1_0000
    ensures Exact(d, n, spb) <==> Balance(d, n, spb) == 0
  {
    var k := Vacancies(d.f, n);
    SpanIs(spb, k);
    Scaled(k, n, spb);
    assert k * spb == spb * k && n * spb == spb * n;
    SameResidue(d.free, Span(spb, k));
  }

  lemma {:induction false} SameResidue(a: nat, b: nat)
    requires a < 0x1_0000 && b < 0x1_0000
    ensures (a - b) % 0x1_0000 == 0 <==> a == b
  {
  }

  /** On a disk of less than 65536 sectors the count stays exact, and says when the disk is full. */
  lemma {:induction false} RunKeepsCount(ds: seq<Disk>, ops: seq<Op>, n: nat, spb: nat, i: nat)
    requires Run(ds, ops, n, spb) && i < |ds| && spb * n < 0x1_0000 && Exact(ds[0], n, spb)
    ensures Fits(ds[i], n) && Exact(ds[i], n, spb)
    ensures spb > 0 ==> (ds[i].free < 1 <==> FirstVacant(ds[i].f, n) < 0)
  {
    RunKeepsBalance(ds, ops, n, spb, i);
    ExactIfBalanced(ds[0], n, spb);
    ExactIfBalanced(ds[i], n, spb);
    NoneVacant(ds[i].f, n);
    if spb > 0 && Vacancies(ds[i].f, n) > 0 {
      Scaled(1, Vacancies(ds[i].f, n), spb);
    }
  }

  lemma {:induction false} NoneVacant(f: seq<Byte>, n: nat)
    requires 3 * n <= |f|
    ensures Vacancies(f, n) == 0 <==> FirstVacant(f, n) < 0
  {
    if n > 0 {
      NoneVacant(f, n - 1);
    }
  }

  // ---- the driver ----

  /** A 16-bit word as the program reads it: signed. */
  function Signed(hi: Byte, lo: Byte): (w: int) {
    (if hi >= 128 then hi - 256 else hi) * 256 + lo
  }

  /** The two forms of a pair of entries agree with the packed one, for files below 2048. */
  lemma {:induction false} EvenForm(f: seq<Byte>, p: nat, e: nat, file: nat)
    requires p == 3 * e && p + 2 < |f| && file < FILES
    ensures (Signed(f[p], f[p + 1]) / 16 == file) <==> File(f, e) == file
  {
  }

  lemma {:induction false} OddForm(f: seq<Byte>, p: nat, e: nat)
    requires p + 3 == 3 * e && p + 5 < |f|
    ensures f[p + 3] as int * 16 + f[p + 4] as int / 16 == File(f, e)
    ensures (f[p + 4] as int * 256 + f[p + 5] as int) % 0x1000 == Block(f, e)
  {
  }

  class FloppyMap {
    const fat: array<Byte>
    const spb: nat             // sectors per block
    const pairs: nat
    var free: nat              // free sectors

    constructor (area: array<Byte>, sectorsPerBlock: nat, total: nat, freeSectors: nat)
      requires sectorsPerBlock > 0 && 6 * (total / sectorsPerBlock / 2) <= area.Length && freeSectors < 0x1_0000
      ensures fat == area && spb == sectorsPerBlock && free == freeSectors && Valid()
        && pairs == total / sectorsPerBlock / 2
    {
      fat, spb, pairs, free := area, sectorsPerBlock, total / sectorsPerBlock / 2, freeSectors;
    }

    predicate Valid()
      reads this
    {
      spb > 0 && 6 * pairs <= fat.Length && free < 0x1_0000
    }

    function Now(): Disk
      reads this, fat
    {
      Disk(fat[..], free)
    }

    /** Whether the even entry of pair `i` has the number `value`, and whether the odd one has. */
    method TestPair(i: nat, value: nat, ghost file: nat, ghost block: nat) returns (even: bool, odd: bool)
      requires Valid() && i < pairs && file < FILES && block < BLOCKS && value == file * 0x1000 + block
      ensures even == Holds(fat[..], 2 * i, file, block) && odd == Holds(fat[..], 2 * i + 1, file, block)
    {
      var p := 6 * i;
      EntryValue(fat[..], 2 * i, file, block);
      EntryValue(fat[..], 2 * i + 1, file, block);
      even := Signed(fat[p], fat[p + 1]) * 256 + fat[p + 2] as int == value;
      odd := fat[p + 3] as int * 0x1_0000 + fat[p + 4] as int * 256 + fat[p + 5] as int == value;
    }

    /** The first entry with the number `value`, or -1. */
    method FindEntry(value: nat, ghost file: nat, ghost block: nat) returns (w: int)
      requires Valid() && file < FILES && block < BLOCKS && value == file * 0x1000 + block
      ensures w == Lookup(fat[..], 2 * pairs, file, block)
    {
      for i := 0 to pairs
        invariant Lookup(fat[..], 2 * i, file, block) == -1
      {
        var even, odd := TestPair(i, value, file, block);
        ghost var f, n := fat[..], 2 * i;
        assert Lookup(f, n + 1, file, block) == if even then n else -1;
        if even {
          LookupFound(f, n + 1, 2 * pairs, file, block);
          return 2 * i;
        }
        assert Lookup(f, n + 2, file, block) == if odd then n + 1 else -1;
        if odd {
          LookupFound(f, n + 2, 2 * pairs, file, block);
          return 2 * i + 1;
        }
      }
      return -1;
    }

    /** The sector of the disk that holds sector `sector` of the file. */
    method FileBlockSector(file: nat, sector: nat) returns (r: int)
      requires Valid() && file < FILES
      ensures var e := Lookup(fat[..], 2 * pairs, file, sector / spb % BLOCKS);
        r == if e < 0 then -1 else e * spb + sector % spb
    {
      var w := FindEntry(file * 0x1000 + sector / spb % 0x1000, file, sector / spb % BLOCKS);
      r := if w >= 0 then w * spb + sector % spb else -1;
    }

    method TakeFree()
      requires Valid()
      modifies this`free
      ensures Valid() && free == (old(free) - spb) % 0x1_0000
    {
      free := (free - spb) % 0x1_0000;
    }

    method PutEven(e: nat, file: nat, block: nat)
      requires 3 * e + 2 < fat.Length && file < FILES && block < BLOCKS
      modifies fat
      ensures fat[..] == Assign(old(fat[..]), e, file, block)
    {
      var p := 3 * e;
      var w := file * 16 + block / 256;
      fat[p] := w / 256;
      fat[p + 1] := w % 256;
      fat[p + 2] := block % 256;
    }

    method PutOdd(e: nat, file: nat, block: nat)
      requires 3 * e + 2 < fat.Length && file < FILES && block < BLOCKS
      modifies fat
      ensures fat[..] == Assign(old(fat[..]), e, file, block)
    {
      var p := 3 * e;
      var w := (file * 0x1000 + block % 0x1000) % 0x1_0000;
      OddWord(file, block);
      fat[p] := file / 16;
      fat[p + 1] := w / 256;
      fat[p + 2] := w % 256;
    }

    method Give(e: nat, even: bool, file: nat, block: nat)
      requires Valid() && file < FILES && block < BLOCKS && free >= 1 && FirstVacant(fat[..], 2 * pairs) == e
      modifies this`free, fat
      ensures Valid() && Now() == Apply(old(Now()), 2 * pairs, spb, Allocate(file, block))
    {
      if even {
        PutEven(e, file, block);
      } else {
        PutOdd(e, file, block);
      }
      TakeFree();
    }

    /**
      Gives the first vacant entry to the block, which is found there afterwards, with all
      other blocks where they were; -1 when the disk is full.
    */
    method GetFreeBlock(file: nat, block: nat) returns (r: int)
      requires Valid() && file < FILES && block < BLOCKS
      modifies this`free, fat
      ensures Valid() && Now() == Apply(old(Now()), 2 * pairs, spb, Allocate(file, block))
      ensures r == -1 || (r >= 0 && r % spb == 0 && r / spb == FirstVacant(old(fat[..]), 2 * pairs))
      ensures r == -1 <==> old(free) < 1 || FirstVacant(old(fat[..]), 2 * pairs) < 0
      ensures if r < 0 then fat[..] == old(fat[..]) && free == old(free) else free == (old(free) - spb) % 0x1_0000
      ensures r >= 0 && Lookup(old(fat[..]), 2 * pairs, file, block) == -1 ==>
        Entered(old(fat[..]), fat[..], 2 * pairs, file, block, r / spb)
    {
      ghost var was, n := Now(), 2 * pairs;
      r := GiveFirst(file, block);
      if r >= 0 {
        Multiple(FirstVacant(was.f, n), spb);
        if Lookup(was.f, n, file, block) == -1 {
          AllocateEnters(was, n, spb, file, block);
        }
      }
    }

    /** The scan for a vacant entry. */
    method GiveFirst(file: nat, block: nat) returns (r: int)
      requires Valid() && file < FILES && block < BLOCKS
      modifies this`free, fat
      ensures Valid() && Now() == Apply(old(Now()), 2 * pairs, spb, Allocate(file, block))
      ensures var e := FirstVacant(old(fat[..]), 2 * pairs); r == if old(free) < 1 || e < 0 then -1 else e * spb
    {
      if free >= 1 {
        for i := 0 to pairs
          invariant FirstVacant(fat[..], 2 * i) == -1 && free == old(free) && fat[..] == old(fat[..])
        {
          var p := 6 * i;
          if fat[p] as int == VACANT {
            var k := 2 * i;
            FirstVacantFound(fat[..], k + 1, 2 * pairs);
            Give(k, true, file, block);
            return k * spb;
          }
          if fat[p + 3] as int == VACANT {
            var k := 2 * i + 1;
            FirstVacantFound(fat[..], k + 1, 2 * pairs);
            Give(k, false, file, block);
            return k * spb;
          }
        }
      }
      return -1;
    }

    /** Makes an entry vacant. */
    method Vacate(e: nat)
      requires Valid() && 3 * e + 2 < fat.Length
      modifies this`free, fat
      ensures Valid() && fat[..] == old(fat[..])[3 * e := VACANT] && free == (old(free) + spb) % 0x1_0000
    {
      fat[3 * e] := VACANT;
      free := (free + spb) % 0x1_0000;
    }

    /** The first `n` entries are done. */
    ghost predicate Released(was: Disk, n: nat, file: nat, from: nat)
      reads this, fat
      requires 3 * n <= |was.f|
    {
      && fat[..] == Release(was.f, n, file, from)
      && free == (was.free + Span(spb, Matches(was.f, n, file, from))) % 0x1_0000
    }

    /** One entry: `mine` is what the program found out about it. */
    method ReleaseEntry(ghost was: Disk, e: nat, file: nat, from: nat, mine: bool)
      requires Valid() && |was.f| == fat.Length && 3 * e + 2 < fat.Length && Released(was, e, file, from)
      requires mine == InTail(was.f, e, file, from)
      modifies this`free, fat
      ensures Valid() && Released(was, e + 1, file, from)
    {
      ghost var f := fat[..];
      if mine {
        SpanAdd(spb, Matches(was.f, e, file, from), 1);
        CarriedAgain(was.free, Span(spb, Matches(was.f, e, file, from)), spb);
        Vacate(e);
      }
    }

    /** The even entry of pair `i`; `whole` when the file is deleted rather than cut. */
    method ReleaseEven(ghost was: Disk, i: nat, file: nat, from: nat, whole: bool)
      requires Valid() && |was.f| == fat.Length && file < FILES && i < pairs && Released(was, 2 * i, file, from)
        && (whole ==> from == 0)
      modifies this`free, fat
      ensures Valid() && Released(was, 2 * i + 1, file, from)
    {
      var p := 6 * i;
      EvenForm(fat[..], p, 2 * i, file);
      var mine := Signed(fat[p], fat[p + 1]) / 16 == file
        && (whole || fat[p + 2] as int + fat[p + 1] as int % 16 * 256 >= from);
      assert File(fat[..], 2 * i) == File(was.f, 2 * i) && Block(fat[..], 2 * i) == Block(was.f, 2 * i);
      ReleaseEntry(was, 2 * i, file, from, mine);
    }

    method ReleaseOdd(ghost was: Disk, i: nat, file: nat, from: nat, whole: bool)
      requires Valid() && |was.f| == fat.Length && file < FILES && i < pairs && Released(was, 2 * i + 1, file, from)
        && (whole ==> from == 0)
      modifies this`free, fat
      ensures Valid() && Released(was, 2 * i + 2, file, from)
    {
      var p := 6 * i;
      OddForm(fat[..], p, 2 * i + 1);
      var mine := fat[p + 3] as int * 16 + fat[p + 4] as int / 16 == file
        && (whole || (fat[p + 4] as int * 256 + fat[p + 5] as int) % 0x1000 >= from);
      assert File(fat[..], 2 * i + 1) == File(was.f, 2 * i + 1) && Block(fat[..], 2 * i + 1) == Block(was.f, 2 * i + 1);
      ReleaseEntry(was, 2 * i + 1, file, from, mine);
    }

    /** The loop over all pairs. */
    method ReleaseAll(file: nat, from: nat, whole: bool)
      requires Valid() && file < FILES && (whole ==> from == 0)
      modifies this`free, fat
      ensures Valid() && Now() == Apply(old(Now()), 2 * pairs, spb, Drop(file, from))
    {
      ghost var was := Now();
      for i := 0 to pairs
        invariant Valid() && Released(was, 2 * i, file, from)
      {
        ReleaseEven(was, i, file, from, whole);
        ReleaseOdd(was, i, file, from, whole);
      }
    }

    /** Deletes a file: none of its blocks is found any more, and all others are. */
    method KillFile(file: nat)
      requires Valid() && file < FILES
      modifies this`free, fat
      ensures Valid() && Now() == Apply(old(Now()), 2 * pairs, spb, Drop(file, 0))
      ensures Dropped(old(fat[..]), fat[..], 2 * pairs, file, 0)
    {
      DropDrops(Now(), 2 * pairs, spb, file, 0);
      ReleaseAll(file, 0, true);
    }

    /** Deletes the blocks of a file that do not hold any of its first `nBlock` sectors. */
    method KillFileTail(file: nat, nBlock: nat)
      requires Valid() && file < FILES
      modifies this`free, fat
      ensures Valid() && Now() == Apply(old(Now()), 2 * pairs, spb, Drop(file, (nBlock + spb - 1) / spb))
      ensures Dropped(old(fat[..]), fat[..], 2 * pairs, file, (nBlock + spb - 1) / spb)
    {
      var from := (nBlock + spb - 1) / spb;
      DropDrops(Now(), 2 * pairs, spb, file, from);
      ReleaseAll(file, from, false);
    }
  }

  lemma {:induction false} Multiple(e: nat, spb: nat)
    requires spb > 0
    ensures e * spb / spb == e && e * spb % spb == 0
  {
    Divided(e * spb, e, 0, spb);
  }

  lemma {:induction false} CarriedAgain(free: nat, k: nat, change: nat)
    ensures ((free + k) % 0x1_0000 + change) % 0x1_0000 == (free + (k + change)) % 0x1_0000
  {
  }

  lemma {:induction false} OddWord(file: nat, block: nat)
    requires file < FILES && block < BLOCKS
    ensures var w := (file * 0x1000 + block % 0x1000) % 0x1_0000;
      w / 256 == file % 16 * 16 + block / 256 && w % 256 == block % 256
  {
    assert (file * 0x1000 + block) % 0x1_0000 == file % 16 * 0x1000 + block;
  }

  lemma {:induction false} FirstVacantFound(f: seq<Byte>, n: nat, all: nat)
    requires n <= all && 3 * all <= |f| && FirstVacant(f, n) >= 0
    ensures FirstVacant(f, all) == FirstVacant(f, n)
  {
    if n < all {
      FirstVacantFound(f, n, all - 1);
    }
  }

  /** An entry as one number of 24 bits. */
  lemma {:induction false} EntryValue(f: seq<Byte>, e: nat, file: nat, block: nat)
    requires 3 * e + 2 < |f| && file < FILES && block < BLOCKS
    ensures (f[3 * e] as int * 0x1_0000 + f[3 * e + 1] as int * 256 + f[3 * e + 2] as int == file * 0x1000 + block)
      <==> Holds(f, e, file, block)
    ensures (Signed(f[3 * e], f[3 * e + 1]) * 256 + f[3 * e + 2] as int == file * 0x1000 + block)
      <==> Holds(f, e, file, block)
  {
  }

  /** Later entries do not matter once one is found. */
  lemma {:induction false} LookupFound(f: seq<Byte>, n: nat, all: nat, file: nat, block: nat)
    requires n <= all && 3 * all <= |f| && Lookup(f, n, file, block) >= 0
    ensures Lookup(f, all, file, block) == Lookup(f, n, file, block)
  {
    if n < all {
      LookupFound(f, n, all - 1, file, block);
    }
  }
}
