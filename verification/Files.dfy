/** Reading, writing and truncating open files of a QXL.WIN volume. */
module Files {
  import opened Errors
  import opened Sectors
  import opened Powers
  import opened FileBytes
  import opened Store
  import opened Volumes

  const HEADER: nat := 64   // bytes of header in front of the data of a file

  /** An open file: its first cluster, its directory entry, and the two positions QDOS keeps. */
  class OpenFile {
    const file: nat    // first cluster of the file
    const dir: nat     // first cluster of its directory
    const entry: nat   // number of its 64-byte entry there
    const isDir: bool
    var pos: nat
    var eof: nat
  }

  /** `file` is a file of `v` with room for `n` bytes in its clusters. */
  ghost predicate Has(v: Volume, file: nat, n: nat)
    reads v, v.buffer, v.si, v.disk
  {
    v.Valid() && file in v.alloc.files && n <= 512 * |v.Now().Map(file)|
  }

  /** `f` is a file of `v`, its end is inside its clusters and its entry inside the directory. */
  ghost predicate Opened(v: Volume, f: OpenFile)
    reads v, v.buffer, v.si, v.disk, f`eof
  {
    && Has(v, f.file, f.eof)
    && f.dir in v.alloc.files && f.dir != f.file
    && f.entry / 8 < |v.Now().Map(f.dir)|
  }

  lemma {:induction false} ProvidedAt(s: Snapshot, f: nat, pos: nat)
    requires f in s.alloc.files && s.spc > 0 && pos == 512 * |s.Map(f)| && s.alloc.free != []
    ensures var m := Provide(s, f, pos).Map(f);
      pos / 512 < |m| && pos <= 512 * |m| && m[pos / 512] == FirstSector(s.spc, s.alloc.free[0])
  {
    AppendedMap(s, f);
  }

  /** One more cluster for a file whose sectors are all in use, and the slot of its first sector. */
  method Extend(v: Volume, file: nat, ghost pos: nat) returns (k: int)
    requires Has(v, file, pos) && pos == 512 * |v.Now().Map(file)|
    modifies v`view, v`alloc, v`counter, v`gError, v`home, v.buffer, v.si, v.disk
    ensures Has(v, file, pos) && v.Now() == Provide(old(v.Now()), file, pos)
    ensures if old(v.alloc.free) == [] then k == -1 && v.gError == QERR_DF
            else pos / 512 < |v.Now().Map(file)| && v.Loaded(k, v.Now().Map(file)[pos / 512])
  {
    ghost var s := v.Now();
    k := v.GetFreeBlock(file);
    if s.alloc.free != [] {
      ProvidedAt(s, file, pos);
    }
  }

  /**
    The slot for position `pos` of `file`, which has no byte behind `pos` missing; a cluster
    is added when the file has no such sector yet. -1 when it is refused.
  */
  method SectorForWrite(v: Volume, file: nat, pos: nat) returns (k: int)
    requires Has(v, file, pos)
    modifies v`view, v`alloc, v`counter, v`gError, v`home, v.buffer, v.si, v.disk
    ensures Has(v, file, pos)
    ensures v.Now() == Provide(old(v.Now()), file, pos)
    ensures k >= 0 ==> Refusal(v.Now(), v.bad, file, pos) == 0 && v.Loaded(k, v.Now().Map(file)[pos / 512])
    ensures k < 0 ==> v.gError != 0 && v.gError == Refusal(v.Now(), v.bad, file, pos)
  {
    k := v.GetFileSector(file, pos / 512);
    if k < 0 && v.gError == ERR_NO_FILE_BLOCK {
      k := Extend(v, file, pos);
    }
  }

  /** Copies bytes into slot `k`, which holds the sector of position `pos` of `file`. */
  method StoreAt(v: Volume, k: nat, file: nat, pos: nat, data: seq<Byte>)
    requires v.Valid() && file in v.alloc.files && pos % 512 + |data| <= 512
    requires pos / 512 < |v.Now().Map(file)| && v.Loaded(k, v.Now().Map(file)[pos / 512])
    modifies v`view, v`counter, v.buffer, v.si
    ensures v.Valid() && v.Now() == Put(old(v.Now()), file, pos, data)
  {
    FileSectorsWithin(v.Spc(), v.alloc.files[file], v.fatSectors, |v.view|);
    v.StoreData(k, v.Now().Map(file)[pos / 512], pos % 512, data);
  }

  /** Copies the bytes of one pass into the slot for the position behind the first `n` bytes. */
  method StorePass(v: Volume, k: nat, file: nat, pos: nat, data: seq<Byte>, n: nat) returns (l: nat)
    requires Has(v, file, pos + n) && n < |data|
    requires (pos + n) / 512 < |v.Now().Map(file)| && v.Loaded(k, v.Now().Map(file)[(pos + n) / 512])
    modifies v`view, v`counter, v.buffer, v.si
    ensures l == ChunkLength(pos + n, |data| - n)
    ensures Has(v, file, pos + n + l) && v.Now() == Pass(old(v.Now()), file, pos, data, n)
  {
    l := 512 - (pos + n) % 512;
    if |data| - n < l {
      l := |data| - n;
    }
    StoreAt(v, k, file, pos + n, data[n..n + l]);
  }

  /** One pass of the write loop. */
  method WritePass(v: Volume, file: nat, pos: nat, data: seq<Byte>, done: nat) returns (n: nat, e: int)
    requires Has(v, file, pos + done) && done < |data|
    modifies v`view, v`alloc, v`counter, v`gError, v`home, v.buffer, v.si, v.disk
    ensures Has(v, file, pos + n)
    ensures Outcome(v.Now(), n, e) == OnePass(old(v.Now()), v.bad, file, pos, data, done)
  {
    ghost var s := v.Now();
    var k := SectorForWrite(v, file, pos + done);
    ghost var t := v.Now();
    assert t == Provide(s, file, pos + done);
    n, e := done, 0;
    if k >= 0 {
      var l := StorePass(v, k, file, pos, data, done);
      n := n + l;
    } else {
      e := v.gError;
    }
  }

  /** The write loop: writes `data` from `pos` on until it is all written or a sector is refused. */
  method WriteLoop(v: Volume, file: nat, pos: nat, data: seq<Byte>) returns (n: nat, e: int)
    requires Has(v, file, pos)
    modifies v`view, v`alloc, v`counter, v`gError, v`home, v.buffer, v.si, v.disk
    ensures n <= |data| && Has(v, file, pos + n)
    ensures Outcome(v.Now(), n, e) == WriteAll(old(v.Now()), v.bad, file, pos, data)
  {
    n, e := 0, 0;
    ghost var all := WriteAll(v.Now(), v.bad, file, pos, data);
    while n < |data| && e == 0
      invariant n <= |data| && Has(v, file, pos + n)
      invariant if e == 0 then Write(v.Now(), v.bad, file, pos, data, n) == all else Outcome(v.Now(), n, e) == all
      decreases |data| - n, if e == 0 then 1 else 0
    {
      n, e := WritePass(v, file, pos, data, n);
    }
  }

  /** An entry does not straddle sectors. */
  lemma {:induction false} EntryPlace(entry: nat)
    ensures 64 * entry / 512 == entry / 8 && 64 * entry % 512 + 64 <= 512
  {
  }

  /** Stores the file's length in its directory entry; false when the host cannot read the entry. */
  method RewriteLength(v: Volume, f: OpenFile) returns (ok: bool)
    requires Opened(v, f)
    modifies v`view, v`counter, v`gError, v`home, v.buffer, v.si, v.disk
    ensures Opened(v, f)
    ensures v.Now() == SetLength(old(v.Now()), v.bad, f.dir, f.entry, f.eof)
    ensures ok <==> old(v.Now()).Map(f.dir)[f.entry / 8] !in v.bad
    ensures !ok ==> v.gError == ERR_READ
  {
    EntryPlace(f.entry);
    var k := v.GetFileSector(f.dir, f.entry / 8);
    ok := k >= 0;
    if ok {
      StoreAt(v, k, f.dir, 64 * f.entry, LongBytes(f.eof));
    }
  }

  /** If the position is behind the end of the file, it becomes the end; false when the host cannot read the entry. */
  method MoveEnd(v: Volume, f: OpenFile) returns (ok: bool)
    requires Opened(v, f) && f.pos <= 512 * |v.Now().Map(f.file)|
    modifies v`view, v`counter, v`gError, v`home, v.buffer, v.si, v.disk, f`eof
    ensures Opened(v, f) && f.eof == Max(old(f.eof), f.pos)
    ensures v.Now() == WithLength(old(v.Now()), v.bad, f.dir, f.entry, old(f.eof), f.pos)
    ensures !ok <==> old(f.eof) < f.pos && old(v.Now()).Map(f.dir)[f.entry / 8] in v.bad
    ensures !ok ==> v.gError == ERR_READ
  {
    ok := true;
    if f.eof < f.pos {
      f.eof := f.pos;
      ok := RewriteLength(v, f);
    }
  }

  /**
    Writes `data` at the position of an open file, which may lie behind its end but not
    behind its clusters. The count is what was written; an error is reported only when that
    is nothing. The position becomes the end of the file if it was behind it, even then.
    Writing to a directory does nothing and reports full success: the callers store that over
    the code that has been set.
  */
  method QWrite(v: Volume, f: OpenFile, data: seq<Byte>) returns (n: nat, e: int)
    requires Opened(v, f) && f.pos <= 512 * |v.Now().Map(f.file)|
    modifies v`view, v`alloc, v`counter, v`gError, v`home, v.buffer, v.si, v.disk, f
    ensures Opened(v, f) && (f.isDir || f.pos <= f.eof)
    ensures f.isDir ==> n == |data| && e == 0 && v.Now() == old(v.Now()) && f.pos == old(f.pos) && f.eof == old(f.eof)
    ensures !f.isDir ==>
      var r := WriteAll(old(v.Now()), v.bad, f.file, old(f.pos), data);
      && n == r.n && f.pos == old(f.pos) + n && f.eof == Max(old(f.eof), f.pos)
      && v.Now() == WithLength(r.state, v.bad, f.dir, f.entry, old(f.eof), f.pos)
      && e == if n > 0 then 0
              else if old(f.eof) < f.pos && old(v.Now()).Map(f.dir)[f.entry / 8] in v.bad then ERR_READ else r.e
  {
    if f.isDir {
      return |data|, 0;
    }
    n, e := WriteLoop(v, f.file, f.pos, data);
    AllKeepsOthers(old(v.Now()), v.bad, f.file, f.pos, data, f.dir);
    AllKeepsOthers(old(v.Now()), v.bad, f.file, f.pos, data, f.file);
    f.pos := f.pos + n;
    var ok := MoveEnd(v, f);
    if !ok {
      e := v.gError;
    }
    if n > 0 {
      e := 0;
    }
  }

  /** The bytes of one pass, from slot `k`: those of one sector, cut at the end of the file. */
  method ReadPart(v: Volume, k: nat, file: nat, pos: nat, eof: nat, want: nat) returns (part: seq<Byte>, e: int)
    requires Has(v, file, eof) && pos < eof && want > 0
    requires v.Loaded(k, v.Now().Map(file)[pos / 512])
    ensures 0 < |part| <= want && pos + |part| <= eof
    ensures v.Now().Readable(file, eof) && part == v.Now().Bytes(file, eof)[pos..pos + |part|]
    ensures e == 0 || (e == QERR_EOF && pos + |part| == eof)
  {
    Facts(v, file, eof);
    e := 0;
    var o := pos % 512;
    var l := 512 - o;
    if want < l {
      l := want;
    }
    if pos + l > eof {
      l := eof - pos;
      e := QERR_EOF;
    }
    part := v.buffer[k][o..o + l];
    SectorSlice(v.Now(), file, eof, pos, l);
  }

  /** What a read of `part` at `pos` says: bytes of the file, or an unreadable sector. */
  ghost predicate ReadAt(s: Snapshot, bad: set<nat>, file: nat, eof: nat, pos: nat, want: nat, part: seq<Byte>, e: int)
    requires s.Readable(file, eof) && pos < eof
  {
    && |part| <= want && pos + |part| <= eof && part == s.Bytes(file, eof)[pos..pos + |part|]
    && if part == [] then e == ERR_READ && s.Map(file)[pos / 512] in bad
       else e == 0 || (e == QERR_EOF && pos + |part| == eof)
  }

  /** One pass of the read loop. */
  method ReadPass(v: Volume, file: nat, pos: nat, eof: nat, want: nat) returns (part: seq<Byte>, e: int)
    requires Has(v, file, eof) && pos < eof && want > 0
    modifies v`counter, v`gError, v`home, v.buffer, v.si, v.disk
    ensures Has(v, file, eof) && v.Now() == old(v.Now())
    ensures v.Now().Readable(file, eof) && ReadAt(v.Now(), v.bad, file, eof, pos, want, part, e)
  {
    Facts(v, file, eof);
    part := [];
    var k := v.GetFileSector(file, pos / 512);
    if k >= 0 {
      part, e := ReadPart(v, k, file, pos, eof, want);
    } else {
      e := v.gError;
    }
  }

  /** The read loop: `want` bytes from `pos` on, or what there is of them. */
  method ReadLoop(v: Volume, file: nat, pos: nat, eof: nat, want: nat) returns (data: seq<Byte>, e: int)
    requires Has(v, file, eof) && pos <= eof
    modifies v`counter, v`gError, v`home, v.buffer, v.si, v.disk
    ensures Has(v, file, eof) && v.Now() == old(v.Now())
    ensures v.Now().Readable(file, eof) && ReadSoFar(v.Now(), v.bad, file, eof, pos, want, data, e)
    ensures |data| < want ==> e != 0
  {
    Facts(v, file, eof);
    ghost var s := v.Now();
    data, e := [], 0;
    while |data| < want && e == 0
      invariant Has(v, file, eof) && v.Now() == s
      invariant ReadSoFar(s, v.bad, file, eof, pos, want, data, e)
      decreases want - |data|, if e == 0 then 1 else 0
    {
      if pos + |data| < eof {
        var part;
        part, e := ReadPass(v, file, pos + |data|, eof, want - |data|);
        ReadJoins(s, v.bad, file, eof, pos, want, data, part, e);
        data := data + part;
      } else {
        e := QERR_EOF;
      }
    }
  }

  lemma {:induction false} ReadJoins(s: Snapshot, bad: set<nat>, file: nat, eof: nat, pos: nat, want: nat,
      data: seq<Byte>, part: seq<Byte>, e: int)
    requires s.Readable(file, eof) && ReadSoFar(s, bad, file, eof, pos, want, data, 0)
    requires |data| < want && pos + |data| < eof && ReadAt(s, bad, file, eof, pos + |data|, want - |data|, part, e)
    ensures ReadSoFar(s, bad, file, eof, pos, want, data + part, e) && (e == 0 ==> part != [])
  {
    SlicesJoin(s.Bytes(file, eof), pos, pos + |data|, pos + |data| + |part|);
  }

  /** `data` is what the file holds from `pos` on, and `e` why the loop stopped there, or 0. */
  ghost predicate ReadSoFar(s: Snapshot, bad: set<nat>, file: nat, eof: nat, pos: nat, want: nat, data: seq<Byte>,
      e: int)
    requires s.Readable(file, eof)
  {
    var end := pos + |data|;
    && |data| <= want && end <= eof && data == s.Bytes(file, eof)[pos..end]
    && (e == 0 || (want > 0 && e == QERR_EOF && end == eof)
        || (want > 0 && e == ERR_READ && end < eof && s.Map(file)[end / 512] in bad))
  }

  /**
    `data` is what a read of `want` bytes at `pos` gives: it stops only at the end or in front
    of an unreadable sector.
  */
  ghost predicate Found(t: Snapshot, bad: set<nat>, file: nat, eof: nat, pos: nat, want: nat, data: seq<Byte>) {
    && t.Readable(file, eof) && |data| <= want && pos + |data| <= eof && data == t.Bytes(file, eof)[pos..pos + |data|]
    && (|data| < want && pos + |data| < eof ==> t.Map(file)[(pos + |data|) / 512] in bad)
  }

  /**
    Reads up to `want` bytes from the position of an open file. It stops early at the end of
    the file or in front of a sector the host cannot read; an error is reported only if
    nothing has been read. A position behind the end is moved back to it.
  */
  method QRead(v: Volume, f: OpenFile, want: nat) returns (data: seq<Byte>, e: int)
    requires Opened(v, f)
    modifies v`counter, v`gError, v`home, v.buffer, v.si, v.disk, f`pos
    ensures Opened(v, f) && v.Now() == old(v.Now())
    ensures old(f.pos) > f.eof ==> data == [] && f.pos == (if want > 0 then f.eof else old(f.pos))
    ensures old(f.pos) <= f.eof ==>
      Found(v.Now(), v.bad, f.file, f.eof, old(f.pos), want, data) && f.pos == old(f.pos) + |data|
    ensures e == if data != [] || want == 0 then 0 else if f.pos == f.eof then QERR_EOF else ERR_READ
  {
    if f.pos > f.eof {
      Facts(v, f.file, f.eof);
      data, e := [], 0;
      if want > 0 {
        f.pos, e := f.eof, QERR_EOF;
      }
      return;
    }
    data, e := ReadLoop(v, f.file, f.pos, f.eof, want);
    f.pos := f.pos + |data|;
    if data != [] {
      e := 0;
    }
  }

  /** Moves the position to `to` bytes behind the header of 64 bytes, but not behind the end of the file. */
  method Seek(f: OpenFile, to: int) returns (at: nat, e: int)
    requires f.eof >= HEADER
    modifies f`pos
    ensures HEADER <= f.pos <= f.eof && at == f.pos - HEADER
    ensures 0 <= to <= f.eof - HEADER ==> at == to && e == 0
    ensures to < 0 ==> at == 0 && e == 0
    ensures to > f.eof - HEADER ==> f.pos == f.eof && e == QERR_EOF
  {
    e, at := 0, 0;
    if to > f.eof - HEADER {
      at, e := f.eof - HEADER, QERR_EOF;
    } else if to > 0 {
      at := to;
    }
    f.pos := at + HEADER;
  }

  /** The bytes of a write are those of a read of as many bytes from the same place. */
  lemma {:induction false} ReadsWritten(s: Snapshot, t: Snapshot, f: nat, dir: nat, eof: nat, pos: nat,
      data: seq<Byte>, n: nat, back: seq<Byte>)
    requires s.Readable(f, eof) && pos <= eof && FileWritten(s, t, f, dir, eof, pos, data, n)
    requires |back| <= n && back == t.Bytes(f, Max(eof, pos + n))[pos..pos + |back|]
    ensures back == data[..|back|]
  {
    ReadBack(s, t, f, dir, eof, pos, data, n);
    var after := t.Bytes(f, Max(eof, pos + n));
    assert after[pos..pos + |back|] == after[pos..pos + n][..|back|];
  }

  lemma {:induction false} NothingMissing(t: Snapshot, bad: set<nat>, f: nat, pos: nat, n: nat, k: nat)
    requires f in t.alloc.files && Reachable(t, bad, f, pos, pos + n)
    ensures k < n ==> (pos + k) / 512 < |t.Map(f)| && t.Map(f)[(pos + k) / 512] !in bad
  {
    var j := (pos + k) / 512;
    assert pos / 512 <= j && 512 * j <= pos + k;
  }

  /** What a read behind a write of `data` finds, if it stops only in front of an unreadable sector. */
  lemma {:induction false} WrittenThenRead(s: Snapshot, low: nat, bad: set<nat>, f: OpenFile, eof: nat, pos: nat,
      data: seq<Byte>, r: Outcome, t: Snapshot, back: seq<Byte>)
    requires Good(s, low) && s.Readable(f.file, eof) && pos <= eof && r == WriteAll(s, bad, f.file, pos, data)
    requires f.dir in s.alloc.files && f.dir != f.file && f.entry / 8 < |s.Map(f.dir)|
    requires t == WithLength(r.state, bad, f.dir, f.entry, eof, pos + r.n)
    requires Found(t, bad, f.file, Max(eof, pos + r.n), pos, r.n, back)
    ensures back == data[..r.n]
  {
    WriteTheorem(s, low, bad, f.file, f.dir, f.entry, eof, pos, data, r, t);
    ReadsWritten(s, t, f.file, f.dir, eof, pos, data, r.n, back);
    WriteReaches(s, bad, f.file, pos, data, 0);
    FoundAll(r.state, t, bad, f.file, Max(eof, pos + r.n), pos, r.n, back);
  }

  lemma {:induction false} FoundAll(r: Snapshot, t: Snapshot, bad: set<nat>, f: nat, eof: nat, pos: nat, n: nat,
      back: seq<Byte>)
    requires f in r.alloc.files && Reachable(r, bad, f, pos, pos + n) && t.alloc == r.alloc && t.spc == r.spc
    requires Found(t, bad, f, eof, pos, n, back) && pos + n <= eof
    ensures |back| == n
  {
    assert t.Map(f) == r.Map(f);
    NothingMissing(r, bad, f, pos, n, |back|);
  }

  /**
    Writing, moving back and reading as much as was written gives what was written, all of
    it, whatever the cache did in between and whatever sectors the host cannot read.
  */
  method WriteAndReadBack(v: Volume, f: OpenFile, data: seq<Byte>) returns (n: nat, back: seq<Byte>, e: int)
    requires Opened(v, f) && HEADER <= f.pos <= f.eof && !f.isDir
    modifies v`view, v`alloc, v`counter, v`gError, v`home, v.buffer, v.si, v.disk, f
    ensures Opened(v, f) && n <= |data| && back == data[..n] && e == 0
    ensures f.pos == old(f.pos) + n && f.eof == Max(old(f.eof), f.pos)
  {
    ghost var s, eof, pos := v.Now(), f.eof, f.pos;
    Facts(v, f.file, f.eof);
    ghost var r, t;
    n, r, t := WriteAndSeekBack(v, f, data, s, eof, pos);
    back, e := ReadAgain(v, f, n, t, f.eof, pos);
    WrittenThenRead(s, v.fatSectors, v.bad, f, eof, pos, data, r, t, back);
  }

  /** Reads the `want` bytes from `pos` on of a file with at least as many. */
  method ReadAgain(v: Volume, f: OpenFile, want: nat, ghost t: Snapshot, ghost eof: nat, ghost pos: nat)
      returns (back: seq<Byte>, e: int)
    requires Opened(v, f) && f.pos == pos && f.eof == eof >= pos + want && t == v.Now()
    modifies v`counter, v`gError, v`home, v.buffer, v.si, v.disk, f`pos
    ensures Opened(v, f) && Found(t, v.bad, f.file, eof, pos, want, back)
    ensures f.pos == pos + |back| && (|back| == want ==> e == 0)
  {
    back, e := QRead(v, f, want);
  }

  /** Writes and moves back to where the write began; `r` is what the write function says. */
  method WriteAndSeekBack(v: Volume, f: OpenFile, data: seq<Byte>, ghost s: Snapshot, ghost eof: nat, ghost pos: nat)
    returns (n: nat, ghost r: Outcome, ghost t: Snapshot)
    requires Opened(v, f) && HEADER <= pos <= eof && !f.isDir && s == v.Now() && pos == f.pos && eof == f.eof
    modifies v`view, v`alloc, v`counter, v`gError, v`home, v.buffer, v.si, v.disk, f
    ensures Opened(v, f) && n == r.n && r == WriteAll(s, v.bad, f.file, pos, data)
    ensures f.pos == pos && f.eof == Max(eof, pos + r.n)
    ensures t == v.Now() == WithLength(r.state, v.bad, f.dir, f.entry, eof, pos + r.n)
  {
    var e;
    r := WriteAll(s, v.bad, f.file, pos, data);
    n, e := QWrite(v, f, data);
    t := v.Now();
    var _, _ := Seek(f, f.pos - n - HEADER);
  }

  /** Frees the clusters behind the first `eof` bytes. */
  method CutFile(v: Volume, file: nat, eof: nat)
    requires Has(v, file, eof)
    modifies v`view, v`alloc, v.buffer, v.si
    ensures Has(v, file, eof) && v.Now() == Cut(old(v.Now()), file, eof)
  {
    CutMap(v.Now(), file, eof);
    v.KillFileTail(file, (eof + 511) / 512);
  }

  lemma {:induction false} CutKeepsOthers(s: Snapshot, f: nat, eof: nat, g: nat)
    requires s.spc > 0 && g in s.alloc.files && g != f
    ensures g in Cut(s, f, eof).alloc.files && Cut(s, f, eof).Map(g) == s.Map(g)
  {
  }

  /**
    Ends an open file at its position: the new length goes to the directory, then the
    clusters behind it are freed. If the directory entry cannot be read they are not.
  */
  method TruncateHere(v: Volume, f: OpenFile) returns (e: int)
    requires Opened(v, f) && f.pos <= f.eof
    modifies v`view, v`alloc, v`counter, v`gError, v`home, v.buffer, v.si, v.disk, f`eof
    ensures Opened(v, f) && f.eof == f.pos
    ensures var s := SetLength(old(v.Now()), v.bad, f.dir, f.entry, f.pos);
      if old(v.Now()).Map(f.dir)[f.entry / 8] in v.bad then e == ERR_READ && v.Now() == s
      else e == 0 && v.Now() == Cut(s, f.file, f.pos)
    ensures old(v.Now()).Map(f.dir)[f.entry / 8] !in v.bad ==>
      var c := old(v.alloc.files[f.file]);
      var k := Keep(v.Spc(), f.pos, |c|);
      && v.alloc.files == old(v.alloc.files)[f.file := c[..k]] && v.alloc.free == c[k..] + old(v.alloc.free)
  {
    f.eof := f.pos;
    var ok := RewriteLength(v, f);
    if ok {
      CutKeepsOthers(v.Now(), f.file, f.eof, f.dir);
      CutReleases(v.Now(), f.file, f.eof);
      CutFile(v, f.file, f.eof);
      e := 0;
    } else {
      e := v.gError;
    }
  }

  /** What a well-formed volume guarantees about a file on it. */
  lemma {:induction false} Facts(v: Volume, file: nat, n: nat)
    requires Has(v, file, n)
    ensures Good(v.Now(), v.fatSectors) && v.Now().Readable(file, n) && Layout(v.view, v.Now().Map(file), v.fatSectors)
    ensures forall x :: v.fatSectors <= x < |v.view| ==> v.Now().view[x] == v.view[x]
  {
    SeparateLaidOut(v.Spc(), v.view, v.alloc, v.fatSectors);
    assert Layout(v.view, v.Now().Map(file), v.fatSectors);
  }
}
