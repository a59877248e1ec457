/**
  Sectors of 512 bytes, the big-endian fields inside them, and the words of a QXL.WIN map
  that lie in its first sectors.
*/
module Sectors {
  import opened Powers

  type Byte = x: int | 0 <= x < 256
  type Sector = s: seq<Byte> | |s| == 512 witness seq(512, _ => 0)

  function Word(s: Sector, o: nat): nat
    requires o + 1 < 512
  {
    s[o] as int * 256 + s[o + 1] as int
  }

  /** The low 16 bits of `v`, stored big-endian. */
  function SetWord(s: Sector, o: nat, v: nat): Sector
    requires o + 1 < 512
  {
    s[o := v / 256 % 256][o + 1 := v % 256]
  }

  function Long(s: Sector, o: nat): nat
    requires o + 3 < 512
  {
    Word(s, o) * 65536 + Word(s, o + 2)
  }

  /** The high byte of a field comes first. */
  lemma {:induction false} BigEndian()
    ensures var s: Sector := [0x12, 0x34, 0x56, 0x78] + seq(508, _ => 0);
      Word(s, 0) == 0x1234 && Long(s, 0) == 0x1234_5678 && SetWord(s, 2, 0xabcd)[2..4] == [0xab, 0xcd]
  {
  }

  /** The low 32 bits of `v`, as four big-endian bytes. */
  function LongBytes(v: nat): (b: seq<Byte>)
    ensures |b| == 4
  {
    seq(4, i requires 0 <= i < 4 => v / [16777216, 65536, 256, 1][i] % 256)
  }

  function Patch(s: Sector, o: nat, data: seq<Byte>): (r: Sector)
    requires o + |data| <= 512
  {
    s[..o] + data + s[o + |data|..]
  }

  /** A number stored in a sector is read back as long as it has 32 bits. */
  lemma {:induction false} LongStored(s: Sector, o: nat, v: nat)
    requires o + 3 < 512
    ensures Long(Patch(s, o, LongBytes(v)), o) == v % 0x1_0000_0000
  {
    var t, b := Patch(s, o, LongBytes(v)), LongBytes(v);
    assert t[o] == b[0] && t[o + 1] == b[1] && t[o + 2] == b[2] && t[o + 3] == b[3];
    FourBytes(v);
  }

  lemma {:induction false} FourBytes(v: nat)
    ensures (v / 16777216 % 256 * 256 + v / 65536 % 256) * 65536 + (v / 256 % 256 * 256 + v % 256) == v % 0x1_0000_0000
  {
    TwoParts(v, 65536, 65536);
    TwoParts(v, 256, 256);
    TwoParts(v / 65536, 256, 256);
  }

  lemma {:induction false} TwoParts(v: nat, a: nat, b: nat)
    requires a > 0 && b > 0
    ensures v / a / b == v / (a * b) && v % (a * b) == v / a % b * a + v % a
  {
    DivMod(v, a);
    DivMod(v / a, b);
    Joined(v, a, b, v / a, v % a, v / a / b, v / a % b);
  }

  lemma {:induction false} Joined(v: nat, a: nat, b: nat, q: nat, r: nat, q': nat, r': nat)
    requires a > 0 && b > 0 && v == q * a + r && q == q' * b + r' && r < a && r' < b
    ensures v / (a * b) == q' && v % (a * b) == r' * a + r
  {
    assert (q' * b + r') * a == q' * (a * b) + r' * a;
    Multiples(r', b, a);
    Divided(v, q', r' * a + r, a * b);
  }

  // ---- the map: fields of sector 0 and the words behind its first 64 bytes ----

  const SPC_AT := 0x22
  const FC_AT := 0x2c
  const FFC_AT := 0x32
  const SPM_AT := 0x2e
  const FAT_AT := 0x40

  /** Sector and byte offset of map word `w`: the map starts 64 bytes into sector 0. */
  function WordSector(w: nat): nat {
    (w + 32) / 256
  }

  function WordOffset(w: nat): (o: nat)
    ensures o + 1 < 512
  {
    (w + 32) % 256 * 2
  }

  /** Map word `w` lies 64 + 2w bytes into the map sectors. */
  lemma {:induction false} MapPlace(w: nat)
    ensures 512 * WordSector(w) + WordOffset(w) == FAT_AT + 2 * w == 64 + 2 * w
  {
  }

  function FatLength(sectors: nat): nat
    requires sectors > 0
  {
    256 * sectors - 32
  }

  function Words(img: seq<Sector>): (r: seq<nat>)
    requires |img| > 0
    ensures |r| == FatLength(|img|)
    ensures forall w :: 0 <= w < |r| ==> r[w] < 65536
  {
    seq(FatLength(|img|), w requires 0 <= w < FatLength(|img|) => Word(img[WordSector(w)], WordOffset(w)))
  }

  /** Storing one 16-bit map word changes that word of the map and nothing else. */
  lemma {:induction false} SetFatWord(img: seq<Sector>, w: nat, v: nat)
    requires |img| > 0 && w < FatLength(|img|) && v < 65536
    ensures var k, o := WordSector(w), WordOffset(w);
      var img' := img[k := SetWord(img[k], o, v)];
      && Words(img') == Words(img)[w := v]
      && forall f :: 0 <= f && f + 1 < FAT_AT ==> Word(img'[0], f) == Word(img[0], f)
  {
    var k, o := WordSector(w), WordOffset(w);
    var img' := img[k := SetWord(img[k], o, v)];
    assert v == v / 256 % 256 * 256 + v % 256;
    forall x | 0 <= x < FatLength(|img|) ensures Words(img')[x] == Words(img)[w := v][x] {
      if x != w && WordSector(x) == k {
        assert WordOffset(x) != o;
        assert WordOffset(x) % 2 == 0 && o % 2 == 0;
      }
    }
  }

  /** Storing a 16-bit header field leaves the map words and the other fields alone. */
  lemma {:induction false} SetHeaderWord(img: seq<Sector>, o: nat, v: nat)
    requires |img| > 0 && o % 2 == 0 && o < FAT_AT && v < 65536
    ensures var img' := img[0 := SetWord(img[0], o, v)];
      && Words(img') == Words(img)
      && Word(img'[0], o) == v
      && forall f :: 0 <= f && f + 1 < FAT_AT && f % 2 == 0 && f != o ==> Word(img'[0], f) == Word(img[0], f)
  {
    var img' := img[0 := SetWord(img[0], o, v)];
    assert v == v / 256 % 256 * 256 + v % 256;
    forall x | 0 <= x < FatLength(|img|) ensures Words(img')[x] == Words(img)[x] {
      assert WordSector(x) == 0 ==> WordOffset(x) >= FAT_AT;
    }
  }
}
