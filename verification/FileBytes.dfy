/**
  Files as byte sequences: the clusters of a list laid out as one run of sectors, and what
  storing a few bytes in one of them does to the bytes of the file.
*/
module FileBytes {
  import opened Sectors
  import opened Powers
  import opened Chains

  /** The first sector of cluster `x`. The recursion spares the prover a product of variables. */
  function FirstSector(spc: nat, x: nat): nat {
    if x == 0 then 0 else FirstSector(spc, x - 1) + spc
  }

  function SectorIn(spc: nat, x: nat, i: nat): nat {
    FirstSector(spc, x) + i
  }

  function ClusterSectors(spc: nat, x: nat): (r: seq<nat>)
    ensures |r| == spc
  {
    seq(spc, i requires 0 <= i < spc => SectorIn(spc, x, i))
  }

  /** The volume sectors of a file with clusters `c`, in file order. */
  function FileSectors(spc: nat, c: seq<nat>): seq<nat> {
    if c == [] then [] else FileSectors(spc, c[..|c| - 1]) + ClusterSectors(spc, c[|c| - 1])
  }

  /** Every cluster of `c` lies between the sectors `low` and `high`. */
  ghost predicate Within(spc: nat, c: seq<nat>, low: nat, high: nat) {
    forall i :: 0 <= i < |c| ==> low <= FirstSector(spc, c[i]) && FirstSector(spc, c[i]) + spc <= high
  }

  lemma {:induction false} FirstSectorIsProduct(spc: nat, x: nat)
    ensures FirstSector(spc, x) == x * spc
  {
    if x > 0 {
      FirstSectorIsProduct(spc, x - 1);
    }
  }

  lemma {:induction false} FileSectorsLength(spc: nat, c: seq<nat>)
    ensures |FileSectors(spc, c)| == |c| * spc
  {
    if c != [] {
      FileSectorsLength(spc, c[..|c| - 1]);
      assert (|c| - 1) * spc + spc == |c| * spc;
    }
  }

  /** Sector `r` of cluster `q` of the list is sector q * spc + r of the file. */
  lemma {:induction false} FileSectorAt(spc: nat, c: seq<nat>, q: nat, r: nat)
    requires q < |c| && r < spc
    ensures q * spc + r < |FileSectors(spc, c)|
    ensures FileSectors(spc, c)[q * spc + r] == FirstSector(spc, c[q]) + r
  {
    var d := c[..|c| - 1];
    FileSectorsLength(spc, d);
    if q < |d| {
      FileSectorAt(spc, d, q, r);
    }
  }

  /** Sector `j` of the file is sector j % spc of its cluster j / spc. */
  lemma {:induction false} FileSectorsAt(spc: nat, c: seq<nat>, j: nat)
    requires spc > 0
    ensures j < |FileSectors(spc, c)| <==> j / spc < |c|
    ensures j / spc < |c| ==> FileSectors(spc, c)[j] == FirstSector(spc, c[j / spc]) + j % spc
  {
    FileSectorsLength(spc, c);
    DivBelow(spc, |c|, j);
    DivMod(j, spc);
    if j / spc < |c| {
      FileSectorAt(spc, c, j / spc, j % spc);
    }
  }

  /** The same with the product that the program computes. */
  lemma {:induction false} FileSectorProduct(spc: nat, c: seq<nat>, j: nat)
    requires spc > 0
    ensures j < |FileSectors(spc, c)| <==> j / spc < |c|
    ensures j / spc < |c| ==> FileSectors(spc, c)[j] == c[j / spc] * spc + j % spc
  {
    FileSectorsAt(spc, c, j);
    if j / spc < |c| {
      FirstSectorIsProduct(spc, c[j / spc]);
    }
  }

  lemma {:induction false} FileSectorsWithin(spc: nat, c: seq<nat>, low: nat, high: nat)
    requires Within(spc, c, low, high)
    ensures forall j :: 0 <= j < |FileSectors(spc, c)| ==> low <= FileSectors(spc, c)[j] < high
  {
    if c != [] {
      FileSectorsWithin(spc, c[..|c| - 1], low, high);
    }
  }

  /** Clusters do not overlap. */
  lemma {:induction false} ClustersApart(spc: nat, a: nat, b: nat, i: nat, j: nat)
    requires a != b && i < spc && j < spc
    ensures FirstSector(spc, a) + i != FirstSector(spc, b) + j
  {
    if a < b {
      FirstSectorsApart(spc, a, b);
    } else {
      FirstSectorsApart(spc, b, a);
    }
  }

  lemma {:induction false} FirstSectorsApart(spc: nat, a: nat, b: nat)
    requires a < b
    ensures FirstSector(spc, a) + spc <= FirstSector(spc, b)
    decreases b
  {
    if a < b - 1 {
      FirstSectorsApart(spc, a, b - 1);
    }
  }

  /** A sector of a file lies in one of its clusters. */
  lemma {:induction false} InFile(spc: nat, c: seq<nat>, s: nat) returns (x: nat, i: nat)
    requires s in FileSectors(spc, c)
    ensures x in c && i < spc && s == FirstSector(spc, x) + i
  {
    var d, last := c[..|c| - 1], c[|c| - 1];
    if s in FileSectors(spc, d) {
      x, i := InFile(spc, d, s);
    } else {
      x := last;
      i :| 0 <= i < spc && ClusterSectors(spc, last)[i] == s;
    }
  }

  /** Lists without a common cluster have no common sector. */
  lemma {:induction false} FilesApart(spc: nat, a: seq<nat>, b: seq<nat>)
    requires Apart(a, b)
    ensures Apart(FileSectors(spc, a), FileSectors(spc, b))
  {
    forall s | s in FileSectors(spc, a) && s in FileSectors(spc, b) ensures false {
      var x, i := InFile(spc, a, s);
      var y, j := InFile(spc, b, s);
      ClustersApart(spc, x, y, i, j);
    }
  }

  /** A list without repetition uses every sector once. */
  lemma {:induction false} FileSectorsDistinct(spc: nat, c: seq<nat>)
    requires Distinct(c)
    ensures Distinct(FileSectors(spc, c))
  {
    if c != [] {
      var d, last := c[..|c| - 1], c[|c| - 1];
      FileSectorsDistinct(spc, d);
      FilesApart(spc, d, [last]);
      assert FileSectors(spc, [last]) == ClusterSectors(spc, last) by {
        assert [last][..0] == [];
      }
      DistinctConcat(FileSectors(spc, d), ClusterSectors(spc, last));
    }
  }

  lemma {:induction false} FileSectorsAppend(spc: nat, c: seq<nat>, x: nat)
    ensures FileSectors(spc, c + [x]) == FileSectors(spc, c) + ClusterSectors(spc, x)
  {
    assert (c + [x])[..|c|] == c;
  }

  lemma {:induction false} FileSectorsPrefix(spc: nat, c: seq<nat>, n: nat)
    requires n <= |c|
    ensures FileSectors(spc, c[..n]) <= FileSectors(spc, c)
    decreases |c|
  {
    if n < |c| {
      var d := c[..|c| - 1];
      FileSectorsPrefix(spc, d, n);
      assert d[..n] == c[..n];
    } else {
      assert c[..n] == c;
    }
  }

  /** The clusters a truncation to `sector` sectors keeps: ceil(sector / spc) + 1. */
  function ClustersKept(spc: nat, sector: nat): (n: nat)
    requires spc > 0
    ensures n > 0
    decreases sector
  {
    if sector == 0 then 1 else 1 + ClustersKept(spc, if sector < spc then 0 else sector - spc)
  }

  lemma {:induction false} ClustersKeptIs(spc: nat, sector: nat)
    requires spc > 0
    ensures ClustersKept(spc, sector) == (sector + spc - 1) / spc + 1
    decreases sector
  {
    if sector == 0 {
      DivBelow(spc, 1, spc - 1);
    } else if sector < spc {
      ClustersKeptIs(spc, 0);
      DivBelow(spc, 2, sector + spc - 1);
      DivBelow(spc, 1, sector + spc - 1);
    } else {
      ClustersKeptIs(spc, sector - spc);
      DivStep(spc, sector - 1);
    }
  }

  lemma {:induction false} DivStep(spc: nat, x: nat)
    requires spc > 0
    ensures (x + spc) / spc == x / spc + 1
  {
    var q := x / spc;
    DivBelow(spc, q + 1, x);
    DivBelow(spc, q, x);
    DivBelow(spc, q + 2, x + spc);
    DivBelow(spc, q + 1, x + spc);
    assert (q + 2) * spc == (q + 1) * spc + spc && (q + 1) * spc == q * spc + spc;
  }

  /** What a truncation keeps has more than `sector` sectors. */
  lemma {:induction false} KeptIsEnough(spc: nat, sector: nat)
    requires spc > 0
    ensures ClustersKept(spc, sector) * spc >= sector + spc
    decreases sector
  {
    if sector > 0 {
      var n := ClustersKept(spc, if sector < spc then 0 else sector - spc);
      KeptIsEnough(spc, if sector < spc then 0 else sector - spc);
      assert (n + 1) * spc == n * spc + spc;
    }
  }

  // ---- bytes ----

  /** The sectors `m` are distinct and inside the data part of the medium. */
  ghost predicate Layout(view: seq<Sector>, m: seq<nat>, low: nat) {
    && (forall j :: 0 <= j < |m| ==> low <= m[j] < |view|)
    && Distinct(m)
  }

  /** `bytes` with `data` written at `pos`, growing at the end where needed. */
  ghost function Splice(bytes: seq<Byte>, pos: nat, data: seq<Byte>): (r: seq<Byte>)
    requires pos <= |bytes|
    ensures |r| == Max(|bytes|, pos + |data|)
  {
    if pos + |data| <= |bytes| then bytes[..pos] + data + bytes[pos + |data|..] else bytes[..pos] + data
  }

  /** What has been written at `pos` is what is found there. */
  lemma {:induction false} SpliceReads(bytes: seq<Byte>, pos: nat, data: seq<Byte>)
    requires pos <= |bytes|
    ensures Splice(bytes, pos, data)[pos..pos + |data|] == data
    ensures Splice(bytes, pos, data)[..pos] == bytes[..pos]
    ensures pos + |data| <= |bytes| ==> Splice(bytes, pos, data)[pos + |data|..] == bytes[pos + |data|..]
  {
  }

  lemma {:induction false} PatchAt(s: Sector, o: nat, data: seq<Byte>, i: nat)
    requires o + |data| <= 512 && i < 512
    ensures Patch(s, o, data)[i] == if o <= i < o + |data| then data[i - o] else s[i]
  {
  }

  lemma {:induction false} SpliceAt(bytes: seq<Byte>, pos: nat, data: seq<Byte>, p: nat)
    requires pos <= |bytes| && (p < |bytes| || p < pos + |data|)
    ensures Splice(bytes, pos, data)[p] == if pos <= p < pos + |data| then data[p - pos] else bytes[p]
  {
  }

  /** One byte of a file after bytes have been stored in its sector `j`. */
  lemma {:induction false} PatchByte(view: seq<Sector>, m: seq<nat>, low: nat, j: nat, o: nat, data: seq<Byte>, p: nat)
    requires Layout(view, m, low) && p < 512 * |m| && j < |m| && o + |data| <= 512
    ensures var pos := 512 * j + o;
      var view' := view[m[j] := Patch(view[m[j]], o, data)];
      view'[m[p / 512]][p % 512] == if pos <= p < pos + |data| then data[p - pos] else view[m[p / 512]][p % 512]
  {
    PatchAt(view[m[j]], o, data, p % 512);
    if p / 512 == j {
      assert p == 512 * j + p % 512;
    } else {
      assert m[p / 512] != m[j];
      assert p < 512 * j || 512 * j + 512 <= p;
    }
  }

  lemma {:induction false} SlicesJoin(bytes: seq<Byte>, a: nat, b: nat, c: nat)
    requires a <= b <= c <= |bytes|
    ensures bytes[a..b] + bytes[b..c] == bytes[a..c]
  {
  }
}
