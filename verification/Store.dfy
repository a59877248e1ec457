/**
  The volume as files see it: sectors and cluster lists as plain values, and the relation
  between the states before and after bytes have been written to one file.
*/
module Store {
  import opened Errors
  import opened Sectors
  import opened Powers
  import opened Chains
  import opened FileBytes

  /** Every cluster of every list lies between the sectors `low` and `high`. */
  ghost predicate AllWithin(spc: nat, al: Alloc, low: nat, high: nat) {
    && Within(spc, al.free, low, high)
    && forall f :: f in al.files ==> Within(spc, al.files[f], low, high)
  }

  /** An operation moves clusters around, but none out of their place. */
  lemma {:induction false} StepWithin(spc: nat, al: Alloc, op: Op, low: nat, high: nat)
    requires AllWithin(spc, al, low, high)
    ensures AllWithin(spc, Step(al, op), low, high)
  {
  }

  /** Files occupy distinct sectors of the data part, and no sector twice. */
  ghost predicate LaidOut(spc: nat, view: seq<Sector>, al: Alloc, low: nat) {
    && (forall f :: f in al.files ==> Layout(view, FileSectors(spc, al.files[f]), low))
    && (forall f, g, s :: f in al.files && g in al.files && f != g && s in FileSectors(spc, al.files[f])
          ==> s !in FileSectors(spc, al.files[g]))
  }

  lemma {:induction false} SeparateLaidOut(spc: nat, view: seq<Sector>, al: Alloc, low: nat)
    requires Separate(al) && AllWithin(spc, al, low, |view|)
    ensures LaidOut(spc, view, al, low)
  {
    forall f | f in al.files ensures Layout(view, FileSectors(spc, al.files[f]), low) {
      FileSectorsWithin(spc, al.files[f], low, |view|);
      FileSectorsDistinct(spc, al.files[f]);
    }
    forall f, g | f in al.files && g in al.files && f != g
      ensures forall s :: s in FileSectors(spc, al.files[f]) ==> s !in FileSectors(spc, al.files[g]) {
      FilesApart(spc, al.files[f], al.files[g]);
    }
  }

  /** The sectors from `low` on; those in front of them are blanked out. */
  ghost function DataPart(view: seq<Sector>, low: nat): (r: seq<Sector>)
    requires low <= |view|
    ensures |r| == |view|
  {
    seq(low, _ => seq(512, _ => 0)) + view[low..]
  }

  /** Bytes stored in one sector. */
  ghost function PatchSector(view: seq<Sector>, x: nat, o: nat, data: seq<Byte>): seq<Sector>
    requires o + |data| <= 512
  {
    if x < |view| then view[x := Patch(view[x], o, data)] else view
  }

  lemma {:induction false} DataPartPatch(view: seq<Sector>, low: nat, x: nat, o: nat, data: seq<Byte>)
    requires low <= x < |view| && o + |data| <= 512
    ensures DataPart(PatchSector(view, x, o, data), low) == PatchSector(DataPart(view, low), x, o, data)
  {
  }

  /** What files see of a volume: sectors per cluster, contents of all sectors, cluster lists. */
  datatype Snapshot = Snapshot(spc: nat, view: seq<Sector>, alloc: Alloc) {
    /** The sectors of file `f`, in file order. */
    function Map(f: nat): seq<nat>
      requires f in alloc.files
    {
      FileSectors(spc, alloc.files[f])
    }

    ghost predicate Readable(f: nat, n: nat) {
      && f in alloc.files
      && n <= 512 * |Map(f)|
      && forall j :: 0 <= j < |Map(f)| ==> Map(f)[j] < |view|
    }

    ghost function ByteAt(f: nat, p: nat): Byte
      requires Readable(f, p + 1)
    {
      view[Map(f)[p / 512]][p % 512]
    }

    /** The first `n` bytes of file `f`. */
    ghost function Bytes(f: nat, n: nat): (r: seq<Byte>)
      requires Readable(f, n)
      ensures |r| == n
    {
      seq(n, p requires 0 <= p < n => ByteAt(f, p))
    }
  }

  /**
    `later` is `al` after clusters from the head of the free list have gone to the end of
    `f`: the file followed by the free list is still the same row of clusters.
  */
  ghost predicate Grown(al: Alloc, later: Alloc, f: nat) {
    && f in al.files && later.files.Keys == al.files.Keys
    && (forall g :: g in al.files && g != f ==> later.files[g] == al.files[g])
    && |al.files[f]| <= |later.files[f]|
    && later.files[f] + later.free == al.files[f] + al.free
  }

  /** No sector of file `g` differs. */
  ghost predicate Kept(s: Snapshot, t: Snapshot, g: nat)
    requires g in s.alloc.files && |s.view| == |t.view|
  {
    forall j :: 0 <= j < |s.Map(g)| && s.Map(g)[j] < |s.view| ==> t.view[s.Map(g)[j]] == s.view[s.Map(g)[j]]
  }

  /**
    State `t` comes from `s` by writing the first `n` bytes of `data` at `pos` of file `f`,
    of length `eof`: those bytes are replaced and no others, clusters come only from the
    head of the free list and go only to the end of `f`, and no sector of another file
    is touched.
  */
  ghost predicate Written(s: Snapshot, t: Snapshot, f: nat, eof: nat, pos: nat, data: seq<Byte>, n: nat) {
    && t.spc == s.spc && |t.view| == |s.view|
    && pos <= eof && n <= |data|
    && Grown(s.alloc, t.alloc, f)
    && (forall g :: g in s.alloc.files && g != f ==> Kept(s, t, g))
    && s.Readable(f, eof)
    && t.Readable(f, Max(eof, pos + n))
    && (forall p :: 0 <= p < Max(eof, pos + n) ==>
          t.ByteAt(f, p) == if pos <= p < pos + n then data[p - pos] else s.ByteAt(f, p))
  }

  /** The bytes of a file that has been written to. */
  lemma {:induction false} WrittenBytes(s: Snapshot, t: Snapshot, f: nat, eof: nat, pos: nat, data: seq<Byte>, n: nat)
    requires Written(s, t, f, eof, pos, data, n)
    ensures t.Bytes(f, Max(eof, pos + n)) == Splice(s.Bytes(f, eof), pos, data[..n])
  {
    var before, after := s.Bytes(f, eof), t.Bytes(f, Max(eof, pos + n));
    forall p | 0 <= p < |after| ensures after[p] == Splice(before, pos, data[..n])[p] {
      SpliceAt(before, pos, data[..n], p);
    }
  }

  lemma {:induction false} WrittenNothing(s: Snapshot, f: nat, eof: nat, pos: nat, data: seq<Byte>)
    requires pos <= eof && s.Readable(f, eof)
    ensures Written(s, s, f, eof, pos, data, 0)
  {
  }

  /** Writing the next `l` bytes behind the first `k`. */
  lemma {:induction false} WrittenNext(s: Snapshot, t: Snapshot, u: Snapshot, f: nat, eof: nat, pos: nat,
      data: seq<Byte>, k: nat, l: nat)
    requires k + l <= |data|
    requires Written(s, t, f, eof, pos, data, k)
    requires Written(t, u, f, Max(eof, pos + k), pos + k, data[k..k + l], l)
    ensures Written(s, u, f, eof, pos, data, k + l)
  {
    KeptTwice(s, t, u, f);
    forall p | 0 <= p < Max(eof, pos + k + l)
      ensures u.ByteAt(f, p) == if pos <= p < pos + k + l then data[p - pos] else s.ByteAt(f, p) {
      if pos + k <= p < pos + k + l {
        assert data[p - pos] == data[k..k + l][p - pos - k];
      }
    }
  }

  lemma {:induction false} KeptTwice(s: Snapshot, t: Snapshot, u: Snapshot, f: nat)
    requires |s.view| == |t.view| == |u.view| && s.spc == t.spc && Grown(s.alloc, t.alloc, f)
      && Grown(t.alloc, u.alloc, f)
    requires forall g :: g in s.alloc.files && g != f ==> Kept(s, t, g)
    requires forall g :: g in t.alloc.files && g != f ==> Kept(t, u, g)
    ensures forall g :: g in s.alloc.files && g != f ==> Kept(s, u, g)
  {
    forall g | g in s.alloc.files && g != f ensures Kept(s, u, g) {
      assert g in t.alloc.files && t.alloc.files[g] == s.alloc.files[g] && t.Map(g) == s.Map(g);
      assert Kept(s, t, g) && Kept(t, u, g);
    }
  }

  /** Storing bytes in the sector of position `pos`, which the file has. */
  lemma {:induction false} WrittenInPlace(s: Snapshot, low: nat, f: nat, eof: nat, pos: nat, data: seq<Byte>)
    requires LaidOut(s.spc, s.view, s.alloc, low) && s.Readable(f, eof) && pos <= eof
    requires pos / 512 < |s.Map(f)| && pos % 512 + |data| <= 512
    ensures Written(s, Put(s, f, pos, data), f, eof, pos, data, |data|)
  {
    var m, t := s.Map(f), Put(s, f, pos, data);
    WrittenNothing(s, f, eof, pos, data);
    forall p | 0 <= p < Max(eof, pos + |data|)
      ensures t.ByteAt(f, p) == if pos <= p < pos + |data| then data[p - pos] else s.ByteAt(f, p) {
      PatchByte(s.view, m, low, pos / 512, pos % 512, data, p);
    }
    forall g | g in s.alloc.files && g != f ensures Kept(s, t, g) {
      assert m[pos / 512] in m;
      assert forall j :: 0 <= j < |s.Map(g)| ==> s.Map(g)[j] in s.Map(g);
    }
  }

  lemma {:induction false} AppendedMap(s: Snapshot, f: nat)
    requires f in s.alloc.files && s.alloc.free != []
    ensures var t := s.(alloc := Step(s.alloc, Append(f)));
      && s.Map(f) <= t.Map(f) && |t.Map(f)| == |s.Map(f)| + s.spc
      && (s.spc > 0 ==> t.Map(f)[|s.Map(f)|] == FirstSector(s.spc, s.alloc.free[0]))
      && Grown(s.alloc, t.alloc, f)
  {
    assert s.alloc.free == [s.alloc.free[0]] + s.alloc.free[1..];
    FileSectorsAppend(s.spc, s.alloc.files[f], s.alloc.free[0]);
  }

  /** One more cluster at the end of the file changes none of its bytes. */
  lemma {:induction false} WrittenByAppending(s: Snapshot, low: nat, f: nat, eof: nat, pos: nat, data: seq<Byte>)
    requires LaidOut(s.spc, s.view, s.alloc, low)
    requires LaidOut(s.spc, s.view, Step(s.alloc, Append(f)), low)
    requires s.Readable(f, eof) && pos <= eof
    ensures Written(s, s.(alloc := Step(s.alloc, Append(f))), f, eof, pos, data, 0)
  {
    var t := s.(alloc := Step(s.alloc, Append(f)));
    WrittenNothing(s, f, eof, pos, data);
    if s.alloc.free != [] {
      AppendedMap(s, f);
      assert Layout(s.view, s.Map(f), low) && Layout(t.view, t.Map(f), low);
      forall p | 0 <= p < eof ensures t.ByteAt(f, p) == s.ByteAt(f, p) {
        assert t.Map(f)[p / 512] == s.Map(f)[p / 512];
      }
    }
  }

  // ---- writing as a function of the state ----

  datatype Outcome = Outcome(state: Snapshot, n: nat, e: int)

  /** One cluster is added when the file has no sector for `pos` and a cluster is free. */
  ghost function Provide(s: Snapshot, f: nat, pos: nat): (t: Snapshot)
    requires f in s.alloc.files
    ensures f in t.alloc.files
  {
    if pos / 512 < |s.Map(f)| then s else s.(alloc := Step(s.alloc, Append(f)))
  }

  /** Why the sector of `pos` cannot be had, or 0. */
  ghost function Refusal(t: Snapshot, bad: set<nat>, f: nat, pos: nat): int
    requires f in t.alloc.files
  {
    if pos / 512 >= |t.Map(f)| then QERR_DF else if t.Map(f)[pos / 512] in bad then ERR_READ else 0
  }

  ghost function Put(t: Snapshot, f: nat, pos: nat, data: seq<Byte>): (u: Snapshot)
    requires f in t.alloc.files && pos / 512 < |t.Map(f)| && pos % 512 + |data| <= 512
    ensures u.alloc == t.alloc
  {
    t.(view := PatchSector(t.view, t.Map(f)[pos / 512], pos % 512, data))
  }

  function ChunkLength(pos: nat, n: nat): (l: nat)
    requires n > 0
    ensures 0 < l <= n && pos % 512 + l <= 512
  {
    if n < 512 - pos % 512 then n else 512 - pos % 512
  }

  /** The state after the next bytes of `data`, those of one sector, behind the first `n`. */
  ghost function Pass(t: Snapshot, f: nat, pos: nat, data: seq<Byte>, n: nat): (u: Snapshot)
    requires f in t.alloc.files && n < |data| && (pos + n) / 512 < |t.Map(f)|
    ensures u.alloc == t.alloc
  {
    Put(t, f, pos + n, data[n..n + ChunkLength(pos + n, |data| - n)])
  }

  /** One pass of the write loop, behind the first `n` bytes. */
  ghost function OnePass(s: Snapshot, bad: set<nat>, f: nat, pos: nat, data: seq<Byte>, n: nat): (r: Outcome)
    requires f in s.alloc.files && n < |data|
    ensures f in r.state.alloc.files && n <= r.n <= |data| && (r.e == 0 <==> n < r.n)
  {
    var t := Provide(s, f, pos + n);
    if Refusal(t, bad, f, pos + n) != 0 then Outcome(t, n, Refusal(t, bad, f, pos + n))
    else Outcome(Pass(t, f, pos, data, n), n + ChunkLength(pos + n, |data| - n), 0)
  }

  /** Writing `data` at `pos` after its first `n` bytes, until all is written or a sector is refused. */
  ghost function Write(s: Snapshot, bad: set<nat>, f: nat, pos: nat, data: seq<Byte>, n: nat): (r: Outcome)
    requires f in s.alloc.files && n <= |data|
    ensures f in r.state.alloc.files && n <= r.n <= |data| && (r.e == 0 <==> r.n == |data|)
    decreases |data| - n
  {
    if n == |data| then Outcome(s, n, 0)
    else
      var r := OnePass(s, bad, f, pos, data, n);
      if r.e != 0 then r else Write(r.state, bad, f, pos, data, r.n)
  }

  /** Writing all of `data` at `pos`. */
  ghost function WriteAll(s: Snapshot, bad: set<nat>, f: nat, pos: nat, data: seq<Byte>): (r: Outcome)
    requires f in s.alloc.files
    ensures f in r.state.alloc.files && r.n <= |data| && (r.e == 0 <==> r.n == |data|)
  {
    Write(s, bad, f, pos, data, 0)
  }

  /** Only a name for a point of a write, so that facts are used there and nowhere else. */
  ghost predicate Point(t: Snapshot, k: nat) {
    true
  }

  ghost predicate KeptByProvide(inv: (Snapshot, nat) -> bool, f: nat, pos: nat, data: seq<Byte>) {
    forall t: Snapshot, k: nat {:trigger Point(t, k)} ::
      (Point(t, k) && inv(t, k) && f in t.alloc.files && k < |data|) ==> inv(Provide(t, f, pos + k), k)
  }

  ghost predicate KeptByPass(inv: (Snapshot, nat) -> bool, f: nat, pos: nat, data: seq<Byte>) {
    forall t: Snapshot, k: nat {:trigger Point(t, k)} ::
      (Point(t, k) && inv(t, k) && f in t.alloc.files && k < |data| && (pos + k) / 512 < |t.Map(f)|)
      ==> inv(Pass(t, f, pos, data, k), k + ChunkLength(pos + k, |data| - k))
  }

  /** A property of state and progress that both parts of a pass keep holds at the end of the write. */
  lemma {:induction false} WriteKeeps(inv: (Snapshot, nat) -> bool, s: Snapshot, bad: set<nat>, f: nat, pos: nat,
      data: seq<Byte>, n: nat)
    requires f in s.alloc.files && n <= |data| && inv(s, n)
    requires KeptByProvide(inv, f, pos, data) && KeptByPass(inv, f, pos, data)
    ensures inv(Write(s, bad, f, pos, data, n).state, Write(s, bad, f, pos, data, n).n)
    decreases |data| - n
  {
    if n < |data| {
      assert Point(s, n);
      var t := Provide(s, f, pos + n);
      assert Point(t, n);
      if Refusal(t, bad, f, pos + n) == 0 {
        WriteKeeps(inv, Pass(t, f, pos, data, n), bad, f, pos, data, n + ChunkLength(pos + n, |data| - n));
      }
    }
  }

  /** The lists are separate and lie in the data part: what the volume guarantees. */
  ghost predicate Good(s: Snapshot, low: nat) {
    s.spc > 0 && Separate(s.alloc) && AllWithin(s.spc, s.alloc, low, |s.view|)
  }

  /** Providing a sector changes no byte. */
  lemma {:induction false} ProvideWrites(s: Snapshot, low: nat, f: nat, eof: nat, pos: nat, data: seq<Byte>)
    requires Good(s, low) && s.Readable(f, eof) && pos <= eof
    ensures Good(Provide(s, f, pos), low)
    ensures Written(s, Provide(s, f, pos), f, eof, pos, data, 0)
  {
    SeparateLaidOut(s.spc, s.view, s.alloc, low);
    WrittenNothing(s, f, eof, pos, data);
    if pos / 512 >= |s.Map(f)| {
      StepKeepsSeparate(s.alloc, Append(f));
      StepWithin(s.spc, s.alloc, Append(f), low, |s.view|);
      SeparateLaidOut(s.spc, s.view, Step(s.alloc, Append(f)), low);
      WrittenByAppending(s, low, f, eof, pos, data);
    }
  }

  /** What holds throughout a write: after `n` bytes exactly those are in the file. */
  ghost predicate WritingAt(s: Snapshot, low: nat, f: nat, eof: nat, pos: nat, data: seq<Byte>, t: Snapshot, n: nat) {
    Good(t, low) && n <= |data| && Written(s, t, f, eof, pos, data, n)
  }

  ghost function Writing(s: Snapshot, low: nat, f: nat, eof: nat, pos: nat, data: seq<Byte>): (Snapshot, nat) -> bool {
    (t: Snapshot, n: nat) => WritingAt(s, low, f, eof, pos, data, t, n)
  }

  lemma {:induction false} ProvideAt(s: Snapshot, low: nat, f: nat, eof: nat, pos: nat, data: seq<Byte>, t: Snapshot,
      n: nat, u: Snapshot)
    requires WritingAt(s, low, f, eof, pos, data, t, n) && n < |data| && f in t.alloc.files
      && u == Provide(t, f, pos + n)
    ensures WritingAt(s, low, f, eof, pos, data, u, n)
  {
    ProvideWrites(t, low, f, Max(eof, pos + n), pos + n, data[n..n]);
    WrittenNext(s, t, u, f, eof, pos, data, n, 0);
  }

  lemma {:induction false} PassAt(s: Snapshot, low: nat, f: nat, eof: nat, pos: nat, data: seq<Byte>, t: Snapshot,
      n: nat, u: Snapshot, l: nat)
    requires WritingAt(s, low, f, eof, pos, data, t, n) && f in t.alloc.files && n < |data|
      && (pos + n) / 512 < |t.Map(f)|
    requires l == ChunkLength(pos + n, |data| - n) && u == Put(t, f, pos + n, data[n..n + l])
    ensures WritingAt(s, low, f, eof, pos, data, u, n + l)
  {
    SeparateLaidOut(t.spc, t.view, t.alloc, low);
    WrittenInPlace(t, low, f, Max(eof, pos + n), pos + n, data[n..n + l]);
    WrittenNext(s, t, u, f, eof, pos, data, n, l);
  }

  lemma {:induction false} WritingProvide(s: Snapshot, low: nat, f: nat, eof: nat, pos: nat, data: seq<Byte>)
    ensures KeptByProvide(Writing(s, low, f, eof, pos, data), f, pos, data)
  {
    var inv := Writing(s, low, f, eof, pos, data);
    forall t: Snapshot, n: nat {:trigger Point(t, n)} | inv(t, n) && f in t.alloc.files && n < |data|
      ensures inv(Provide(t, f, pos + n), n) {
      ProvideAt(s, low, f, eof, pos, data, t, n, Provide(t, f, pos + n));
    }
  }

  lemma {:induction false} WritingPass(s: Snapshot, low: nat, f: nat, eof: nat, pos: nat, data: seq<Byte>)
    ensures KeptByPass(Writing(s, low, f, eof, pos, data), f, pos, data)
  {
    var inv := Writing(s, low, f, eof, pos, data);
    forall t: Snapshot, n: nat {:trigger Point(t, n)} | inv(t, n) && f in t.alloc.files && n < |data|
      && (pos + n) / 512 < |t.Map(f)|
      ensures inv(Pass(t, f, pos, data, n), n + ChunkLength(pos + n, |data| - n)) {
      PassAt(s, low, f, eof, pos, data, t, n, Pass(t, f, pos, data, n), ChunkLength(pos + n, |data| - n));
    }
  }

  /** The write puts exactly the `n` bytes it reports into the file. */
  lemma {:induction false} WriteIsWritten(s: Snapshot, low: nat, bad: set<nat>, f: nat, eof: nat, pos: nat,
      data: seq<Byte>)
    requires Good(s, low) && s.Readable(f, eof) && pos <= eof
    ensures var r := WriteAll(s, bad, f, pos, data); Good(r.state, low) && Written(s, r.state, f, eof, pos, data, r.n)
  {
    var inv := Writing(s, low, f, eof, pos, data);
    WrittenNothing(s, f, eof, pos, data);
    assert inv(s, 0);
    WritingProvide(s, low, f, eof, pos, data);
    WritingPass(s, low, f, eof, pos, data);
    WriteKeeps(inv, s, bad, f, pos, data, 0);
  }

  /** Sectors the file has or could get: writing never changes their number. */
  ghost function Room(s: Snapshot, f: nat): nat
    requires f in s.alloc.files
  {
    |s.Map(f)| + |s.alloc.free| * s.spc
  }

  /** If clusters were added from `s` to `t`, the last of them starts before position `end`. */
  ghost predicate Tight(s: Snapshot, t: Snapshot, f: nat, end: nat)
    requires f in t.alloc.files
  {
    t.alloc.free == s.alloc.free || 512 * |t.Map(f)| < end + 512 * t.spc
  }

  lemma {:induction false} ProvideRoom(s: Snapshot, f: nat, pos: nat)
    requires f in s.alloc.files && s.spc > 0 && pos <= 512 * |s.Map(f)|
    ensures var t := Provide(s, f, pos);
      && t.spc == s.spc && Room(t, f) == Room(s, f) && pos <= 512 * |t.Map(f)|
      && Tight(s, t, f, pos + 1)
      && (pos / 512 >= |t.Map(f)| ==> t.alloc.free == [] && t == s && pos == 512 * |t.Map(f)|)
  {
    if pos / 512 >= |s.Map(f)| && s.alloc.free != [] {
      AppendedMap(s, f);
      assert (|s.alloc.free| - 1) * s.spc + s.spc == |s.alloc.free| * s.spc;
    }
  }

  /** How a write ends: at the end of the data, of the medium, or in front of an unreadable sector. */
  ghost predicate Ended(s: Snapshot, bad: set<nat>, f: nat, pos: nat, r: Outcome)
    requires f in s.alloc.files && f in r.state.alloc.files
  {
    var t, end := r.state, pos + r.n;
    && t.spc == s.spc && Room(t, f) == Room(s, f) && end <= 512 * |t.Map(f)|
    && (r.e == 0 || r.e == QERR_DF || r.e == ERR_READ)
    && (r.e == QERR_DF ==> t.alloc.free == [] && end == 512 * |t.Map(f)|)
    && (r.e == ERR_READ ==> end / 512 < |t.Map(f)| && t.Map(f)[end / 512] in bad)
    && Tight(s, t, f, end + if r.e == ERR_READ then 1 else 0)
  }

  lemma {:induction false} PassEnds(s: Snapshot, bad: set<nat>, f: nat, pos: nat, data: seq<Byte>, n: nat)
    requires f in s.alloc.files && s.spc > 0 && n < |data| && pos + n <= 512 * |s.Map(f)|
    ensures Ended(s, bad, f, pos, OnePass(s, bad, f, pos, data, n))
  {
    ProvideRoom(s, f, pos + n);
    var t := Provide(s, f, pos + n);
    if Refusal(t, bad, f, pos + n) == 0 {
      assert Pass(t, f, pos, data, n).Map(f) == t.Map(f);
    }
  }

  lemma {:induction false} WriteEnds(s: Snapshot, bad: set<nat>, f: nat, pos: nat, data: seq<Byte>, n: nat)
    requires f in s.alloc.files && s.spc > 0 && n <= |data| && pos + n <= 512 * |s.Map(f)|
    ensures Ended(s, bad, f, pos, Write(s, bad, f, pos, data, n))
    decreases |data| - n
  {
    if n < |data| {
      PassEnds(s, bad, f, pos, data, n);
      var r := OnePass(s, bad, f, pos, data, n);
      if r.e == 0 {
        WriteEnds(r.state, bad, f, pos, data, r.n);
      }
    }
  }

  /** The sectors of the bytes from `pos` to `end` of file `f` are there, and the host can read them. */
  ghost predicate Reachable(s: Snapshot, bad: set<nat>, f: nat, pos: nat, end: nat)
    requires f in s.alloc.files
  {
    pos < end ==> forall j :: pos / 512 <= j && 512 * j < end ==> 0 <= j < |s.Map(f)| && s.Map(f)[j] !in bad
  }

  /** A pass makes one more sector reachable, and leaves the others so. */
  lemma {:induction false} PassReaches(s: Snapshot, bad: set<nat>, f: nat, pos: nat, data: seq<Byte>, n: nat,
      r: Outcome)
    requires f in s.alloc.files && n < |data| && Reachable(s, bad, f, pos, pos + n)
      && r == OnePass(s, bad, f, pos, data, n)
    ensures Reachable(r.state, bad, f, pos, pos + r.n)
  {
    if s.alloc.free != [] {
      AppendedMap(s, f);
    }
    var t := Provide(s, f, pos + n);
    assert r.state.Map(f) == t.Map(f) && s.Map(f) <= t.Map(f);
    forall j | pos < pos + r.n && pos / 512 <= j && 512 * j < pos + r.n ensures 0 <= j < |t.Map(f)|
      && t.Map(f)[j] !in bad {
      if n > 0 && 512 * j < pos + n {
        assert s.Map(f)[j] == t.Map(f)[j];
      } else {
        assert j == (pos + n) / 512;
      }
    }
  }

  /** What has been written can be read: a write stops in front of a sector that cannot. */
  lemma {:induction false} WriteReaches(s: Snapshot, bad: set<nat>, f: nat, pos: nat, data: seq<Byte>, n: nat)
    requires f in s.alloc.files && n <= |data| && Reachable(s, bad, f, pos, pos + n)
    ensures var r := Write(s, bad, f, pos, data, n); Reachable(r.state, bad, f, pos, pos + r.n)
    decreases |data| - n
  {
    if n < |data| {
      var r := OnePass(s, bad, f, pos, data, n);
      PassReaches(s, bad, f, pos, data, n, r);
      if r.e == 0 {
        WriteReaches(r.state, bad, f, pos, data, r.n);
      }
    }
  }

  /** With a readable medium a write stores as many bytes as there is room for. */
  lemma {:induction false} WriteAmount(s: Snapshot, f: nat, pos: nat, data: seq<Byte>)
    requires f in s.alloc.files && s.spc > 0 && pos <= 512 * |s.Map(f)|
    ensures var r := WriteAll(s, {}, f, pos, data);
      r.n == if pos + |data| <= 512 * Room(s, f) then |data| else 512 * Room(s, f) - pos
  {
    WriteEnds(s, {}, f, pos, data, 0);
    RoomBounds(WriteAll(s, {}, f, pos, data).state, f);
  }

  lemma {:induction false} RoomBounds(t: Snapshot, f: nat)
    requires f in t.alloc.files
    ensures |t.Map(f)| <= Room(t, f) && (t.alloc.free == [] ==> Room(t, f) == |t.Map(f)|)
  {
    assert |t.alloc.free| * t.spc >= 0;
  }

  /** A write leaves the clusters of other files alone, and takes none from its own. */
  lemma {:induction false} WriteKeepsOthers(s: Snapshot, bad: set<nat>, f: nat, pos: nat, data: seq<Byte>, n: nat,
      g: nat)
    requires f in s.alloc.files && n <= |data| && g in s.alloc.files
    ensures var t := Write(s, bad, f, pos, data, n).state;
      t.spc == s.spc && g in t.alloc.files && (if g == f then |s.Map(f)| <= |t.Map(f)|
        else t.alloc.files[g] == s.alloc.files[g])
    decreases |data| - n
  {
    if n < |data| {
      if s.alloc.free != [] {
        AppendedMap(s, f);
      }
      var r := OnePass(s, bad, f, pos, data, n);
      if r.e == 0 {
        WriteKeepsOthers(r.state, bad, f, pos, data, r.n, g);
      }
    }
  }

  lemma {:induction false} AllKeepsOthers(s: Snapshot, bad: set<nat>, f: nat, pos: nat, data: seq<Byte>, g: nat)
    requires f in s.alloc.files && g in s.alloc.files
    ensures var t := WriteAll(s, bad, f, pos, data).state;
      t.spc == s.spc && g in t.alloc.files && (if g == f then |s.Map(f)| <= |t.Map(f)|
        else t.alloc.files[g] == s.alloc.files[g])
  {
    WriteKeepsOthers(s, bad, f, pos, data, 0, g);
  }

  // ---- the directory entry ----

  /** The length field of a directory entry, the first four of its 64 bytes, set to `eof`. */
  ghost function SetLength(s: Snapshot, bad: set<nat>, dir: nat, entry: nat, eof: nat): (t: Snapshot)
    requires dir in s.alloc.files && entry / 8 < |s.Map(dir)|
    ensures t.alloc == s.alloc && t.spc == s.spc
  {
    if s.Map(dir)[entry / 8] in bad then s else Put(s, dir, 64 * entry, LongBytes(eof))
  }

  /** Setting the length changes the four bytes in the directory and no byte of another file. */
  lemma {:induction false} SetLengthWrites(s: Snapshot, low: nat, bad: set<nat>, dir: nat, entry: nat, eof: nat,
      len: nat)
    requires Good(s, low) && s.Readable(dir, len) && 64 * entry <= len && entry / 8 < |s.Map(dir)|
    requires s.Map(dir)[entry / 8] !in bad
    ensures Good(SetLength(s, bad, dir, entry, eof), low)
    ensures Written(s, SetLength(s, bad, dir, entry, eof), dir, len, 64 * entry, LongBytes(eof), 4)
  {
    SeparateLaidOut(s.spc, s.view, s.alloc, low);
    WrittenInPlace(s, low, dir, len, 64 * entry, LongBytes(eof));
  }

  /** The new length goes to the directory if the file, of length `eof`, now ends at `end`. */
  ghost function WithLength(s: Snapshot, bad: set<nat>, dir: nat, entry: nat, eof: nat, end: nat): (t: Snapshot)
  {
    if eof < end && dir in s.alloc.files && entry / 8 < |s.Map(dir)| then SetLength(s, bad, dir, entry, end) else s
  }

  /**
    `t` is `s` after the first `n` bytes of `data` have been written at `pos` of file `f` and
    its length stored in `dir`: the bytes of the file are the old ones with the written ones
    spliced in, its new clusters come from the head of the free list, and no sector of a
    third file has changed.
  */
  ghost predicate FileWritten(s: Snapshot, t: Snapshot, f: nat, dir: nat, eof: nat, pos: nat, data: seq<Byte>, n: nat)
    requires s.Readable(f, eof) && pos <= eof
  {
    && n <= |data| && |s.view| == |t.view| && t.spc == s.spc && Grown(s.alloc, t.alloc, f)
    && t.Readable(f, Max(eof, pos + n))
    && t.Bytes(f, Max(eof, pos + n)) == Splice(s.Bytes(f, eof), pos, data[..n])
    && forall g :: g in s.alloc.files && g != f && g != dir ==> Kept(s, t, g)
  }

  lemma {:induction false} WriteFile(s: Snapshot, low: nat, bad: set<nat>, f: nat, dir: nat, eof: nat, pos: nat,
      data: seq<Byte>)
    requires Good(s, low) && s.Readable(f, eof) && pos <= eof
    ensures var r := WriteAll(s, bad, f, pos, data);
      Good(r.state, low) && FileWritten(s, r.state, f, dir, eof, pos, data, r.n)
  {
    var r := WriteAll(s, bad, f, pos, data);
    WriteIsWritten(s, low, bad, f, eof, pos, data);
    WrittenBytes(s, r.state, f, eof, pos, data, r.n);
  }

  lemma {:induction false} WriteTheorem(s: Snapshot, low: nat, bad: set<nat>, f: nat, dir: nat, entry: nat, eof: nat,
      pos: nat, data: seq<Byte>, r: Outcome, t: Snapshot)
    requires Good(s, low) && s.Readable(f, eof) && pos <= eof && r == WriteAll(s, bad, f, pos, data)
    requires dir in s.alloc.files && dir != f && entry / 8 < |s.Map(dir)|
    requires t == WithLength(r.state, bad, dir, entry, eof, pos + r.n)
    ensures Good(t, low) && FileWritten(s, t, f, dir, eof, pos, data, r.n)
  {
    WriteFile(s, low, bad, f, dir, eof, pos, data);
    AllKeepsOthers(s, bad, f, pos, data, dir);
    LengthStored(s, r.state, low, bad, f, dir, entry, eof, pos, data, r.n, t);
  }

  /** Then the length. */
  lemma {:induction false} LengthStored(s: Snapshot, r: Snapshot, low: nat, bad: set<nat>, f: nat, dir: nat,
      entry: nat, eof: nat, pos: nat, data: seq<Byte>, n: nat, t: Snapshot)
    requires s.Readable(f, eof) && pos <= eof && Good(r, low) && FileWritten(s, r, f, dir, eof, pos, data, n)
      && dir != f
    requires dir in r.alloc.files && entry / 8 < |r.Map(dir)|
    requires t == WithLength(r, bad, dir, entry, eof, pos + n)
    ensures Good(t, low) && FileWritten(s, t, f, dir, eof, pos, data, n)
  {
    if eof < pos + n {
      LengthKept(r, low, bad, dir, entry, pos + n);
      WrittenThenLength(s, r, t, f, dir, eof, pos, data, n);
    }
  }

  /** What was written is what a later read of the same place finds, and the rest is as before. */
  lemma {:induction false} ReadBack(s: Snapshot, t: Snapshot, f: nat, dir: nat, eof: nat, pos: nat, data: seq<Byte>,
      n: nat)
    requires s.Readable(f, eof) && pos <= eof && FileWritten(s, t, f, dir, eof, pos, data, n)
    ensures var after := t.Bytes(f, Max(eof, pos + n));
      && after[pos..pos + n] == data[..n] && after[..pos] == s.Bytes(f, eof)[..pos]
      && (pos + n <= eof ==> after[pos + n..] == s.Bytes(f, eof)[pos + n..])
  {
    SpliceReads(s.Bytes(f, eof), pos, data[..n]);
  }

  /** A change in the directory alone does not disturb what was written. */
  lemma {:induction false} WrittenThenLength(s: Snapshot, r: Snapshot, t: Snapshot, f: nat, dir: nat, eof: nat,
      pos: nat, data: seq<Byte>, n: nat)
    requires s.Readable(f, eof) && pos <= eof && FileWritten(s, r, f, dir, eof, pos, data, n) && dir != f
    requires t.alloc == r.alloc && t.spc == r.spc && |t.view| == |r.view|
    requires forall g :: g in r.alloc.files && g != dir ==> Kept(r, t, g)
    ensures FileWritten(s, t, f, dir, eof, pos, data, n)
  {
    assert Kept(r, t, f);
    KeptBytes(r, t, f, Max(eof, pos + n));
    forall g | g in s.alloc.files && g != f && g != dir ensures Kept(s, t, g) {
      assert g in r.alloc.files && r.alloc.files[g] == s.alloc.files[g];
      assert Kept(s, r, g) && Kept(r, t, g) && r.Map(g) == s.Map(g);
    }
  }

  lemma {:induction false} LengthKept(s: Snapshot, low: nat, bad: set<nat>, dir: nat, entry: nat, eof: nat)
    requires Good(s, low) && dir in s.alloc.files && entry / 8 < |s.Map(dir)|
    ensures var t := SetLength(s, bad, dir, entry, eof);
      Good(t, low) && |t.view| == |s.view| && forall g :: g in s.alloc.files && g != dir ==> Kept(s, t, g)
  {
    if s.Map(dir)[entry / 8] !in bad {
      SeparateLaidOut(s.spc, s.view, s.alloc, low);
      assert Layout(s.view, s.Map(dir), low);
      SetLengthWrites(s, low, bad, dir, entry, eof, 64 * entry);
    }
  }

  lemma {:induction false} PutBytes(s: Snapshot, low: nat, f: nat, n: nat, pos: nat, data: seq<Byte>)
    requires s.Readable(f, n) && Layout(s.view, s.Map(f), low)
    requires pos + |data| <= n && pos / 512 < |s.Map(f)| && pos % 512 + |data| <= 512
    ensures Put(s, f, pos, data).Readable(f, n) && Put(s, f, pos, data).Bytes(f, n) == Splice(s.Bytes(f, n), pos, data)
  {
    var before, after := s.Bytes(f, n), Put(s, f, pos, data).Bytes(f, n);
    forall p | 0 <= p < n ensures after[p] == Splice(before, pos, data)[p] {
      SpliceAt(before, pos, data, p);
      PatchByte(s.view, s.Map(f), low, pos / 512, pos % 512, data, p);
    }
  }

  /** What the directory holds after the length has been set. */
  lemma {:induction false} LengthBytesStored(s: Snapshot, low: nat, bad: set<nat>, dir: nat, entry: nat, eof: nat,
      len: nat)
    requires s.Readable(dir, len) && Layout(s.view, s.Map(dir), low) && entry / 8 < |s.Map(dir)|
      && 64 * entry + 4 <= len
    ensures var t := SetLength(s, bad, dir, entry, eof);
      && t.Readable(dir, len)
      && t.Bytes(dir, len) == if s.Map(dir)[entry / 8] in bad then s.Bytes(dir, len)
                              else Splice(s.Bytes(dir, len), 64 * entry, LongBytes(eof))
  {
    if s.Map(dir)[entry / 8] !in bad {
      PutBytes(s, low, dir, len, 64 * entry, LongBytes(eof));
    }
  }

  /** Writing to `f` alone changes no byte of another file. */
  lemma {:induction false} WriteKeepsBytes(s: Snapshot, low: nat, bad: set<nat>, f: nat, eof: nat, pos: nat,
      data: seq<Byte>, t: Snapshot, g: nat, len: nat)
    requires Good(s, low) && s.Readable(f, eof) && pos <= eof && t == WriteAll(s, bad, f, pos, data).state
    requires s.Readable(g, len) && g != f
    ensures t.Readable(g, len) && t.Map(g) == s.Map(g) && t.Bytes(g, len) == s.Bytes(g, len) && |t.view| == |s.view|
  {
    WriteIsWritten(s, low, bad, f, eof, pos, data);
    AllKeepsOthers(s, bad, f, pos, data, g);
    assert Kept(s, t, g);
    KeptBytes(s, t, g, len);
  }

  lemma {:induction false} LaidOutFile(s: Snapshot, low: nat, f: nat)
    requires Good(s, low) && f in s.alloc.files
    ensures Layout(s.view, s.Map(f), low)
  {
    SeparateLaidOut(s.spc, s.view, s.alloc, low);
  }

  /** What the directory holds after a write: as before, but for the new length of a grown file. */
  lemma {:induction false} WriteDirectory(s: Snapshot, low: nat, bad: set<nat>, f: nat, dir: nat, entry: nat,
      eof: nat, pos: nat, data: seq<Byte>, len: nat, r: Outcome, t: Snapshot)
    requires Good(s, low) && s.Readable(f, eof) && pos <= eof && r == WriteAll(s, bad, f, pos, data)
    requires s.Readable(dir, len) && dir != f && entry / 8 < |s.Map(dir)| && 64 * entry + 4 <= len
    requires t == WithLength(r.state, bad, dir, entry, eof, pos + r.n)
    ensures DirectoryIs(s, t, bad, dir, entry, eof, pos + r.n, len)
  {
    WriteKeepsBytes(s, low, bad, f, eof, pos, data, r.state, dir, len);
    DirectoryAfter(s, r.state, t, low, bad, dir, entry, eof, pos + r.n, len);
  }

  /** In `t` the directory is as in `s`, but for the length of a file that has grown from `eof` to `end`. */
  ghost predicate DirectoryIs(s: Snapshot, t: Snapshot, bad: set<nat>, dir: nat, entry: nat, eof: nat, end: nat,
      len: nat)
    requires s.Readable(dir, len) && entry / 8 < |s.Map(dir)| && 64 * entry + 4 <= len
  {
    && t.Readable(dir, len)
    && t.Bytes(dir, len) == if eof < end && s.Map(dir)[entry / 8] !in bad
                            then Splice(s.Bytes(dir, len), 64 * entry, LongBytes(end)) else s.Bytes(dir, len)
  }

  lemma {:induction false} DirectoryAfter(s: Snapshot, r: Snapshot, t: Snapshot, low: nat, bad: set<nat>, dir: nat,
      entry: nat, eof: nat, end: nat, len: nat)
    requires s.Readable(dir, len) && entry / 8 < |s.Map(dir)| && 64 * entry + 4 <= len
    requires r.Readable(dir, len) && r.Map(dir) == s.Map(dir) && r.Bytes(dir, len) == s.Bytes(dir, len)
    requires Good(s, low) && |r.view| == |s.view| && t == WithLength(r, bad, dir, entry, eof, end)
    ensures DirectoryIs(s, t, bad, dir, entry, eof, end, len)
  {
    if eof < end {
      LaidOutFile(s, low, dir);
      LengthBytesStored(r, low, bad, dir, entry, end, len);
    }
  }

  lemma {:induction false} KeptBytes(s: Snapshot, t: Snapshot, g: nat, n: nat)
    requires s.Readable(g, n) && t.spc == s.spc && |t.view| == |s.view| && Kept(s, t, g)
    requires g in t.alloc.files && t.alloc.files[g] == s.alloc.files[g]
    ensures t.Readable(g, n) && t.Bytes(g, n) == s.Bytes(g, n)
  {
  }

  /** A run of bytes inside one sector of a file. */
  lemma {:induction false} SectorSlice(s: Snapshot, f: nat, n: nat, pos: nat, l: nat)
    requires s.Readable(f, n) && pos + l <= n && pos % 512 + l <= 512 && l > 0
    ensures pos / 512 < |s.Map(f)|
    ensures s.view[s.Map(f)[pos / 512]][pos % 512..pos % 512 + l] == s.Bytes(f, n)[pos..pos + l]
  {
    var part, bytes := s.view[s.Map(f)[pos / 512]][pos % 512..pos % 512 + l], s.Bytes(f, n)[pos..pos + l];
    forall i | 0 <= i < l ensures part[i] == bytes[i] {
      assert bytes[i] == s.ByteAt(f, pos + i) && (pos + i) / 512 == pos / 512;
    }
  }

  // ---- truncation ----

  /** The state after `f` has been cut to the clusters that `eof` bytes need, and one at most. */
  ghost function Cut(s: Snapshot, f: nat, eof: nat): Snapshot
    requires s.spc > 0
  {
    s.(alloc := Step(s.alloc, Truncate(f, ClustersKept(s.spc, (eof + 511) / 512))))
  }

  /** A file cut at `eof` keeps its first `eof` bytes, and no other file loses any. */
  lemma {:induction false} CutTheorem(s: Snapshot, low: nat, f: nat, eof: nat)
    requires Good(s, low) && s.Readable(f, eof)
    ensures Good(Cut(s, f, eof), low)
    ensures Cut(s, f, eof).Readable(f, eof) && Cut(s, f, eof).Bytes(f, eof) == s.Bytes(f, eof)
    ensures forall g :: g in s.alloc.files && g != f ==> Cut(s, f, eof).alloc.files[g] == s.alloc.files[g]
  {
    var keep := ClustersKept(s.spc, (eof + 511) / 512);
    var t := Cut(s, f, eof);
    StepKeepsSeparate(s.alloc, Truncate(f, keep));
    StepWithin(s.spc, s.alloc, Truncate(f, keep), low, |s.view|);
    CutMap(s, f, eof);
    forall p | 0 <= p < eof ensures t.Map(f)[p / 512] == s.Map(f)[p / 512] {
    }
    assert t.Bytes(f, eof) == s.Bytes(f, eof);
  }

  /** What is left of the file is a first part of its sectors, and holds `eof` bytes. */
  lemma {:induction false} CutMap(s: Snapshot, f: nat, eof: nat)
    requires s.spc > 0 && f in s.alloc.files && eof <= 512 * |s.Map(f)|
    ensures Cut(s, f, eof).Map(f) <= s.Map(f) && eof <= 512 * |Cut(s, f, eof).Map(f)|
  {
    var sector := (eof + 511) / 512;
    var keep := ClustersKept(s.spc, sector);
    var c := s.alloc.files[f];
    if keep <= |c| {
      FileSectorsPrefix(s.spc, c, keep);
      FileSectorsLength(s.spc, c[..keep]);
      KeptIsEnough(s.spc, sector);
    }
  }

  /** Clusters that a cut at `eof` keeps: ceil(sectors / spc) + 1, or all there are. */
  function Keep(spc: nat, eof: nat, clusters: nat): (k: nat)
    requires spc > 0
    ensures k <= clusters
  {
    var n := ((eof + 511) / 512 + spc - 1) / spc + 1;
    if n < clusters then n else clusters
  }

  /** What a cut frees: the clusters behind those kept go, in order, to the head of the free list. */
  lemma {:induction false} CutReleases(s: Snapshot, f: nat, eof: nat)
    requires s.spc > 0 && f in s.alloc.files
    ensures var c, t := s.alloc.files[f], Cut(s, f, eof);
      var k := Keep(s.spc, eof, |c|);
      && t.spc == s.spc && t.view == s.view
      && t.alloc.files == s.alloc.files[f := c[..k]] && t.alloc.free == c[k..] + s.alloc.free
  {
    ClustersKeptIs(s.spc, (eof + 511) / 512);
    var c, al := s.alloc.files[f], s.alloc;
    assert c[..|c|] == c && c[|c|..] + al.free == al.free && al.files[f := c] == al.files;
  }

  /**
    A truncation as a whole, `t`: the file keeps its bytes up to the new end, the directory
    takes that as its length and keeps all else, and no third file changes.
  */
  lemma {:induction false} TruncateTheorem(s: Snapshot, low: nat, bad: set<nat>, f: nat, dir: nat, entry: nat, pos: nat,
      len: nat, r: Snapshot, t: Snapshot)
    requires Good(s, low) && s.Readable(f, pos) && s.Readable(dir, len) && dir != f
    requires entry / 8 < |s.Map(dir)| && 64 * entry + 4 <= len && s.Map(dir)[entry / 8] !in bad
    requires r == SetLength(s, bad, dir, entry, pos) && t == Cut(r, f, pos)
    ensures Good(t, low) && t.Readable(f, pos) && t.Bytes(f, pos) == s.Bytes(f, pos)
    ensures t.Readable(dir, len) && t.Bytes(dir, len) == Splice(s.Bytes(dir, len), 64 * entry, LongBytes(pos))
    ensures |t.view| == |s.view|
    ensures forall g :: g in s.alloc.files && g != f && g != dir ==> g in t.alloc.files && Kept(s, t, g)
  {
    LaidOutFile(s, low, dir);
    LengthKept(s, low, bad, dir, entry, pos);
    LengthBytesStored(s, low, bad, dir, entry, pos, len);
    assert Kept(s, r, f);
    KeptBytes(s, r, f, pos);
    CutTheorem(r, low, f, pos);
    CutReleases(r, f, pos);
    KeptBytes(r, t, dir, len);
  }
}
