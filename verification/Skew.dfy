/**
  Where a floppy disk keeps its sectors: a table from the logical sectors of a cylinder to
  sides and sectors, checked when the disk is opened, and a skew from track to track.
*/
module Skew {
  import opened Sectors
  import opened Chains
  import opened Powers

  const TABLE_DD: seq<Byte> := [
    0, 3, 6, 0x80, 0x83, 0x86, 1, 4, 7, 0x81, 0x84, 0x87, 2, 5, 8, 0x82, 0x85, 0x88,
    0, 6, 12, 1, 7, 13, 2, 8, 14, 3, 9, 15, 4, 10, 16, 5, 11, 17]
  const TABLE_HD: seq<Byte> := [
    0, 2, 4, 6, 8, 10, 12, 14, 16, 0x80, 0x82, 0x84, 0x86, 0x88, 0x8a, 0x8c, 0x8e, 0x90,
    1, 3, 5, 7, 9, 11, 13, 15, 17, 0x81, 0x83, 0x85, 0x87, 0x89, 0x8b, 0x8d, 0x8f, 0x91]

  function Spt(dd: bool): (s: nat) {
    if dd then 9 else 18
  }

  function Table(dd: bool): (t: seq<Byte>)
    ensures |t| == 36
  {
    if dd then TABLE_DD else TABLE_HD
  }

  /** Place in the cylinder that a table entry stands for; the top bit is the side. */
  function Place(b: Byte, s: nat): (p: nat) {
    b as int % 128 + if b >= 128 then s else 0
  }

  predicate Good(b: Byte, s: nat) {
    b as int % 128 < s
  }

  /** The first `n` entries are in range and different. */
  predicate Injective(t: seq<Byte>, s: nat, n: nat) {
    && n <= |t|
    && (forall i :: 0 <= i < n ==> Good(t[i], s))
    && forall i, j :: 0 <= i < j < n ==> Place(t[i], s) != Place(t[j], s)
  }

  predicate Permutation(t: seq<Byte>, s: nat) {
    Injective(t, s, 2 * s)
  }

  /** The formats in digits: double density interleaves by three, high density by two. */
  lemma {:induction false} DigitsDD(i: nat) returns (g: nat, h: nat, r: nat)
    requires i < 18
    ensures g < 3 && h < 2 && r < 3 && i == 6 * g + 3 * h + r && TABLE_DD[i] as int == 128 * h + 3 * r + g
  {
    g, h, r := i / 6, i % 6 / 3, i % 3;
    if g == 0 {
    } else if g == 1 {
    } else {
    }
  }

  lemma {:induction false} DigitsHD(i: nat) returns (g: nat, h: nat, r: nat)
    requires i < 36
    ensures g < 2 && h < 2 && r < 9 && i == 18 * g + 9 * h + r && TABLE_HD[i] as int == 128 * h + 2 * r + g
  {
    g, h := if i < 18 then 0 else 1, if i < 9 || 18 <= i < 27 then 0 else 1;
    r := i - 18 * g - 9 * h;
    if g == 0 && h == 0 {
    } else if g == 0 {
    } else if h == 0 {
    } else {
    }
  }

  lemma {:induction false} PlaceIs(b: Byte, h: nat, v: nat, s: nat)
    requires h < 2 && v < 128 && b as int == 128 * h + v
    ensures b as int % 128 == v && Place(b, s) == v + if h == 1 then s else 0
  {
  }

  lemma {:induction false} PlaceDD(i: nat) returns (g: nat, h: nat, r: nat)
    requires i < 18
    ensures g < 3 && h < 2 && r < 3 && i == 6 * g + 3 * h + r
    ensures Good(TABLE_DD[i], 9) && Place(TABLE_DD[i], 9) == 9 * h + 3 * r + g
  {
    g, h, r := DigitsDD(i);
    PlaceIs(TABLE_DD[i], h, 3 * r + g, 9);
  }

  lemma {:induction false} TableDDIsFine()
    ensures Permutation(TABLE_DD, 9)
  {
    forall i | 0 <= i < 18 ensures Good(TABLE_DD[i], 9) {
      var g, h, r := PlaceDD(i);
    }
    forall i, j | 0 <= i < j < 18 ensures Place(TABLE_DD[i], 9) != Place(TABLE_DD[j], 9) {
      PlacesDifferDD(i, j);
    }
  }

  lemma {:induction false} PlacesDifferDD(i: nat, j: nat)
    requires i < j < 18
    ensures Place(TABLE_DD[i], 9) != Place(TABLE_DD[j], 9)
  {
    var g, h, r := PlaceDD(i);
    var g', h', r' := PlaceDD(j);
    DigitsDiffer(g, h, r, g', h', r', 3, 3);
  }

  /** Three digits in another order are another number, and the same for both numbers or neither. */
  lemma {:induction false} DigitsDiffer(g: nat, h: nat, r: nat, g': nat, h': nat, r': nat, gs: nat, rs: nat)
    requires g < gs && g' < gs && h < 2 && h' < 2 && r < rs && r' < rs
    ensures gs * rs * h + gs * r + g == gs * rs * h' + gs * r' + g' ==> (g, h, r) == (g', h', r')
  {
    var n, n' := gs * rs * h + gs * r + g, gs * rs * h' + gs * r' + g';
    Regroup(g, h, r, gs, rs);
    Regroup(g', h', r', gs, rs);
    if n == n' {
      SameDigits(n, h * rs + r, g, h' * rs + r', g', gs);
      SameDigits(h * rs + r, h, r, h', r', rs);
    }
  }

  lemma {:induction false} SameDigits(n: nat, q: nat, r: nat, q': nat, r': nat, m: nat)
    requires n == q * m + r == q' * m + r' && r < m && r' < m
    ensures q == q' && r == r'
  {
    Unique(n, q, r, q', r', m);
  }

  lemma {:induction false} Regroup(g: nat, h: nat, r: nat, gs: nat, rs: nat)
    ensures gs * rs * h + gs * r + g == (h * rs + r) * gs + g
  {
    assert gs * rs * h == h * rs * gs;
    assert (h * rs + r) * gs == h * rs * gs + r * gs;
  }

  lemma {:induction false} PlaceHD(i: nat) returns (g: nat, h: nat, r: nat)
    requires i < 36
    ensures g < 2 && h < 2 && r < 9 && i == 18 * g + 9 * h + r
    ensures Good(TABLE_HD[i], 18) && Place(TABLE_HD[i], 18) == 18 * h + 2 * r + g
  {
    g, h, r := DigitsHD(i);
    PlaceIs(TABLE_HD[i], h, 2 * r + g, 18);
  }

  lemma {:induction false} TableHDIsFine()
    ensures Permutation(TABLE_HD, 18)
  {
    forall i | 0 <= i < 36 ensures Good(TABLE_HD[i], 18) {
      var g, h, r := PlaceHD(i);
    }
    forall i, j | 0 <= i < j < 36 ensures Place(TABLE_HD[i], 18) != Place(TABLE_HD[j], 18) {
      PlacesDifferHD(i, j);
    }
  }

  lemma {:induction false} PlacesDifferHD(i: nat, j: nat)
    requires i < j < 36
    ensures Place(TABLE_HD[i], 18) != Place(TABLE_HD[j], 18)
  {
    var g, h, r := PlaceHD(i);
    var g', h', r' := PlaceHD(j);
    DigitsDiffer(g, h, r, g', h', r', 2, 9);
  }

  lemma {:induction false} TablesAreFine(dd: bool)
    ensures Permutation(Table(dd), Spt(dd))
  {
    TableDDIsFine();
    TableHDIsFine();
  }

  /** The places of the first `n` entries, from 1. */
  function Places(t: seq<Byte>, s: nat, n: nat): (c: seq<nat>)
    requires n <= |t|
    ensures |c| == n && forall i :: 0 <= i < n ==> c[i] == Place(t[i], s) + 1
  {
    seq(n, i requires 0 <= i < n => Place(t[i], s) + 1)
  }

  /** Every sector of the cylinder is in the table. */
  lemma {:induction false} Onto(t: seq<Byte>, s: nat, p: nat) returns (k: nat)
    requires Permutation(t, s) && p < 2 * s
    ensures k < 2 * s && Place(t[k], s) == p
  {
    if k: nat :| k < 2 * s && Place(t[k], s) == p {
      return k;
    }
    var c := Places(t, s, 2 * s) + [p + 1];
    assert forall i :: 0 <= i < 2 * s ==> c[i] != p + 1;
    Pigeonhole(c, 2 * s);
    assert false;
  }

  /**
    Checks the table a disk came with; one that does not name every sector once is replaced
    by that of the format.
  */
  method FixLogical(ltp: array<Byte>, dd: bool)
    requires ltp.Length == 36
    modifies ltp
    ensures ltp[..] == if Permutation(old(ltp[..]), Spt(dd)) then old(ltp[..]) else Table(dd)
    ensures Permutation(ltp[..], Spt(dd))
  {
    var s := Spt(dd);
    var t := seq(36, _ => false);
    var error := false;
    var i := 0;
    while i < 2 * s && !error
      decreases 2 * s - i, if error then 0 else 1
      invariant i <= 2 * s && |t| == 36 && ltp[..] == old(ltp[..])
      invariant !error ==> Injective(ltp[..], s, i)
      invariant forall x :: 0 <= x < 36 ==> (t[x] ==> exists k :: 0 <= k < i && Place(ltp[k], s) == x)
      invariant forall k :: 0 <= k < i && !error ==> t[Place(ltp[k], s)]
      invariant error ==> !Permutation(ltp[..], s)
    {
      var x := ltp[i] as int % 128;
      if x >= s {
        error := true;
        assert !Good(ltp[..][i], s);
      } else {
        if ltp[i] >= 128 {
          x := x + s;
        }
        assert x == Place(ltp[i], s);
        if t[x] {
          error := true;
          ghost var k :| 0 <= k < i && Place(ltp[k], s) == x;
          assert Place(ltp[..][k], s) == Place(ltp[..][i], s);
        } else {
          t := t[x := true];
          i := i + 1;
        }
      }
    }
    if error {
      CopyTable(ltp, dd);
      TablesAreFine(dd);
    }
  }

  method CopyTable(ltp: array<Byte>, dd: bool)
    requires ltp.Length == 36
    modifies ltp
    ensures ltp[..] == Table(dd)
  {
    var t := Table(dd);
    for i := 0 to 36
      invariant forall k :: 0 <= k < i ==> ltp[k] == t[k]
    {
      ltp[i] := t[i];
    }
  }

  // ---- sectors of the disk ----

  /** A disk's table, its density and the sectors by which a track is turned against the one before. */
  datatype Format = Format(t: seq<Byte>, dd: bool, offset: nat) {
    predicate Valid() {
      Permutation(t, Spt(dd))
    }

    function Spc(): (n: nat)
      ensures n > 0
    {
      2 * Spt(dd)
    }
  }

  /** `sector` of a track that is turned by `turn`. */
  function Turned(turn: nat, sector: nat, dd: bool): (r: nat) {
    (turn + sector) % Spt(dd)
  }

  function Physical(f: Format, l: nat): (p: nat)
    requires f.Valid()
  {
    var track := l / f.Spc();
    track * f.Spc() + Spot(track * f.offset, f.t[l % f.Spc()], f.dd)
  }

  lemma {:induction false} TurnedInjective(turn: nat, a: nat, b: nat, dd: bool)
    requires a < Spt(dd) && b < Spt(dd) && Turned(turn, a, dd) == Turned(turn, b, dd)
    ensures a == b
  {
    TurnedIs(turn, a, dd);
    TurnedIs(turn, b, dd);
  }

  lemma {:induction false} TurnedIs(turn: nat, a: nat, dd: bool)
    requires a < Spt(dd)
    ensures var t := turn % Spt(dd) + a; Turned(turn, a, dd) == if t < Spt(dd) then t else t - Spt(dd)
  {
    var m := Spt(dd);
    var q, t := turn / m, turn % m + a;
    DivMod(turn, m);
    if t < m {
      Divided(turn + a, q, t, m);
    } else {
      assert (q + 1) * m == q * m + m;
      Divided(turn + a, q + 1, t - m, m);
    }
  }

  lemma {:induction false} TurnedOnto(turn: nat, r: nat, dd: bool) returns (a: nat)
    requires r < Spt(dd)
    ensures a < Spt(dd) && Turned(turn, a, dd) == r
  {
    var s, m := Spt(dd), turn % Spt(dd);
    a := if r >= m then r - m else r + s - m;
    TurnedIs(turn, a, dd);
  }

  /** Where a track turned by `turn` has the sector that `b` names. */
  function Spot(turn: nat, b: Byte, dd: bool): (q: nat)
    ensures q < 2 * Spt(dd) && (q >= Spt(dd) <==> b >= 128)
  {
    Turned(turn, b as int % 128, dd) + if b >= 128 then Spt(dd) else 0
  }

  lemma {:induction false} SpotInjective(turn: nat, b: Byte, b': Byte, dd: bool)
    requires Good(b, Spt(dd)) && Good(b', Spt(dd)) && Spot(turn, b, dd) == Spot(turn, b', dd)
    ensures Place(b, Spt(dd)) == Place(b', Spt(dd))
  {
    TurnedInjective(turn, b as int % 128, b' as int % 128, dd);
  }

  lemma {:induction false} EntriesDiffer(t: seq<Byte>, s: nat, i: nat, j: nat)
    requires Permutation(t, s) && i < 2 * s && j < 2 * s
    ensures Good(t[i], s) && (Place(t[i], s) == Place(t[j], s) ==> i == j)
  {
    if j < i {
      assert Place(t[j], s) != Place(t[i], s);
    }
  }

  /** Sectors stay on their cylinder, where no two share a place. */
  lemma {:induction false} PhysicalInjective(f: Format, l: nat, l': nat)
    requires f.Valid()
    ensures Physical(f, l) / f.Spc() == l / f.Spc()
    ensures Physical(f, l) == Physical(f, l') ==> l == l'
  {
    PhysicalIs(f, l);
    if Physical(f, l) == Physical(f, l') {
      PhysicalIs(f, l');
      SameSector(f, l / f.Spc(), l, l');
    }
  }

  lemma {:induction false} SameSector(f: Format, track: nat, l: nat, l': nat)
    requires f.Valid() && l / f.Spc() == track == l' / f.Spc()
    requires Spot(track * f.offset, f.t[l % f.Spc()], f.dd) == Spot(track * f.offset, f.t[l' % f.Spc()], f.dd)
    ensures l == l'
  {
    SameEntry(f, track * f.offset, l % f.Spc(), l' % f.Spc());
    SameParts(l, l', f.Spc());
  }

  lemma {:induction false} SameEntry(f: Format, turn: nat, i: nat, j: nat)
    requires f.Valid() && i < f.Spc() && j < f.Spc() && Spot(turn, f.t[i], f.dd) == Spot(turn, f.t[j], f.dd)
    ensures i == j
  {
    EntriesDiffer(f.t, Spt(f.dd), i, j);
    EntriesDiffer(f.t, Spt(f.dd), j, i);
    SpotInjective(turn, f.t[i], f.t[j], f.dd);
  }

  lemma {:induction false} PhysicalIs(f: Format, l: nat)
    requires f.Valid()
    ensures var n := f.Spc();
      Physical(f, l) / n == l / n && Physical(f, l) % n == Spot(l / n * f.offset, f.t[l % n], f.dd)
  {
    var n := f.Spc();
    Divided(Physical(f, l), l / n, Spot(l / n * f.offset, f.t[l % n], f.dd), n);
  }

  /** The first track is as the table says. */
  lemma {:induction false} FirstTrack(f: Format, l: nat)
    requires f.Valid() && l < f.Spc()
    ensures Physical(f, l) == Place(f.t[l], Spt(f.dd))
  {
    var b := f.t[l];
    EntriesDiffer(f.t, Spt(f.dd), l, l);
    Divided(l, 0, l, f.Spc());
    Divided(b as int % 128, 0, b as int % 128, Spt(f.dd));
  }

  /** `q'` is place `q` of a cylinder on the next one: on the same side, turned by `offset` sectors. */
  predicate TurnedOn(q: nat, q': nat, offset: nat, s: nat)
    requires s > 0
  {
    (q >= s <==> q' >= s) && q' % s == (q % s + offset) % s
  }

  /** The next track is the same, turned by `offset` sectors. */
  lemma {:induction false} NextTrack(f: Format, l: nat, p: nat, p': nat)
    requires f.Valid() && p == Physical(f, l) && p' == Physical(f, l + f.Spc())
    ensures p' / f.Spc() == p / f.Spc() + 1 && TurnedOn(p % f.Spc(), p' % f.Spc(), f.offset, Spt(f.dd))
  {
    var n, track := f.Spc(), l / f.Spc();
    var turn, i := track * f.offset, l % n;
    NextCylinder(l, n);
    NextTurn(track, f.offset);
    PhysicalOf(f, l, track, i, turn, p);
    PhysicalOf(f, l + n, track + 1, i, turn + f.offset, p');
    NextSpot(turn, f.offset, f.t[i], f.dd);
  }

  lemma {:induction false} PhysicalOf(f: Format, l: nat, track: nat, i: nat, turn: nat, p: nat)
    requires f.Valid() && l / f.Spc() == track && l % f.Spc() == i && turn == track * f.offset && p == Physical(f, l)
    ensures i < f.Spc() && p / f.Spc() == track && p % f.Spc() == Spot(turn, f.t[i], f.dd)
  {
    PhysicalIs(f, l);
  }

  lemma {:induction false} NextTurn(track: nat, offset: nat)
    ensures (track + 1) * offset == track * offset + offset
  {
  }

  lemma {:induction false} NextSpot(turn: nat, offset: nat, b: Byte, dd: bool)
    ensures TurnedOn(Spot(turn, b, dd), Spot(turn + offset, b, dd), offset, Spt(dd))
  {
    SpotWithin(turn, b, dd);
    SpotWithin(turn + offset, b, dd);
    TurnedFurther(turn, offset, b as int % 128, dd);
  }

  lemma {:induction false} NextCylinder(l: nat, n: nat)
    requires n > 0
    ensures (l + n) / n == l / n + 1 && (l + n) % n == l % n
  {
    DivMod(l, n);
    Divided(l + n, l / n + 1, l % n, n);
  }

  lemma {:induction false} SpotWithin(turn: nat, b: Byte, dd: bool)
    ensures Spot(turn, b, dd) % Spt(dd) == Turned(turn, b as int % 128, dd)
  {
    var r := Turned(turn, b as int % 128, dd);
    Divided(Spot(turn, b, dd), if b >= 128 then 1 else 0, r, Spt(dd));
  }

  lemma {:induction false} TurnedFurther(turn: nat, offset: nat, sector: nat, dd: bool)
    ensures Turned(turn + offset, sector, dd) == (Turned(turn, sector, dd) + offset) % Spt(dd)
  {
    var m, a := Spt(dd), turn + sector;
    DivMod(a, m);
    DivMod(a % m + offset, m);
    var q := (a % m + offset) / m;
    assert (a / m + q) * m == a / m * m + q * m;
    Divided(a + offset, a / m + q, (a % m + offset) % m, m);
  }

  /** Every sector of a cylinder is named by an entry. */
  lemma {:induction false} SpotOnto(f: Format, turn: nat, q: nat) returns (k: nat)
    requires f.Valid() && q < f.Spc()
    ensures k < f.Spc() && Spot(turn, f.t[k], f.dd) == q
  {
    var s := Spt(f.dd);
    var a := TurnedOnto(turn, if q >= s then q - s else q, f.dd);
    k := Onto(f.t, s, if q >= s then a + s else a);
    EntriesDiffer(f.t, s, k, k);
    PlaceSplits(f.t[k], s, a, q >= s);
  }

  lemma {:induction false} PlaceSplits(b: Byte, s: nat, a: nat, side: bool)
    requires Good(b, s) && a < s && Place(b, s) == a + if side then s else 0
    ensures b as int % 128 == a && (b >= 128 <==> side)
  {
  }

  /** Every sector of the disk is the place of a logical one. */
  lemma {:induction false} PhysicalOnto(f: Format, p: nat) returns (l: nat)
    requires f.Valid()
    ensures Physical(f, l) == p
  {
    var n := f.Spc();
    var track := p / n;
    var k := SpotOnto(f, track * f.offset, p % n);
    l := track * n + k;
    Divided(l, track, k, n);
    DivMod(p, n);
  }

  class Drive {
    const disk: array<Sector>
    const f: Format
    var updates: nat           // count of the writes, which marks a change of disk

    constructor (sectors: array<Sector>, format: Format)
      ensures disk == sectors && f == format && updates == 0
    {
      disk, f, updates := sectors, format, 0;
    }

    method LoadLogSector(sector: nat) returns (data: Sector)
      requires f.Valid() && Physical(f, sector) < disk.Length
      ensures data == disk[Physical(f, sector)]
    {
      var b := f.t[sector % f.Spc()];
      var track, side := sector / f.Spc(), if b >= 128 then 1 else 0;
      var place := (track * f.offset + b as int % 128) % Spt(f.dd);
      data := disk[track * f.Spc() + place + side * Spt(f.dd)];
    }

    /** What is written is read back, and every other sector stays. */
    method WriteLogSector(sector: nat, data: Sector)
      requires f.Valid() && Physical(f, sector) < disk.Length
      modifies this`updates, disk
      ensures disk[..] == old(disk[..])[Physical(f, sector) := data] && updates == (old(updates) + 1) % 0x1_0000_0000
      ensures forall l :: 0 <= l && Physical(f, l) < disk.Length ==>
        disk[Physical(f, l)] == if l == sector then data else old(disk[Physical(f, l)])
    {
      var b := f.t[sector % f.Spc()];
      var track, side := sector / f.Spc(), if b >= 128 then 1 else 0;
      var place := (track * f.offset + b as int % 128) % Spt(f.dd);
      updates := (updates + 1) % 0x1_0000_0000;
      disk[track * f.Spc() + place + side * Spt(f.dd)] := data;
      forall l | 0 <= l && Physical(f, l) < disk.Length
        ensures disk[Physical(f, l)] == if l == sector then data else old(disk[Physical(f, l)]) {
        PhysicalInjective(f, l, sector);
      }
    }
  }
}
