/**
  An open QXL.WIN volume: the write-back sector cache, the map operations on the cached
  map sectors, and the lookup of a file's sectors above both.
*/
module Volumes {
  import opened Errors
  import opened Sectors
  import opened Chains
  import opened FileBytes
  import opened Store

  /** What is known about one cache slot; the first slots hold the map and are locked. */
  datatype SectorInfo = SectorInfo(time: nat, logSector: nat, free: bool, changed: bool, locked: bool)

  /** A map of 16-bit words whose lists are what `al` says and lie where files may lie. */
  ghost predicate Sound(spc: nat, fat: seq<nat>, ffc: nat, fc: nat, al: Alloc, low: nat, high: nat) {
    && Represents(fat, ffc, fc, al)
    && (forall w :: 0 <= w < |fat| ==> fat[w] < 65536)
    && ffc < 65536
    && (forall f :: f in al.files ==> f < 65536)
    && AllWithin(spc, al, low, high)
  }

  lemma {:induction false} TruncateSound(spc: nat, fat: seq<nat>, ffc: nat, fc: nat, al: Alloc, f: nat, keep: nat,
      low: nat, high: nat)
    requires Sound(spc, fat, ffc, fc, al, low, high) && f in al.files && 0 < keep <= |al.files[f]|
    ensures var c := al.files[f];
      var p, p1 := c[keep - 1], c[|c| - 1];
      && p < |fat| && p1 < |fat| && fc + |c| - keep < 65536
      && var fat1 := fat[p1 := ffc];
      Sound(spc, fat1[p := 0], fat1[p], fc + |c| - keep, Step(al, Truncate(f, keep)), low, high)
  {
    TruncateRepresents(fat, ffc, fc, al, f, keep);
    StepWithin(spc, al, Truncate(f, keep), low, high);
    var c, next := al.files[f], Step(al, Truncate(f, keep));
    var fat1 := fat[c[|c| - 1] := ffc];
    assert Represents(fat1[c[keep - 1] := 0], fat1[c[keep - 1]], fc + |c| - keep, next);
    SixteenBits(fat1[c[keep - 1] := 0], next.free);
  }

  lemma {:induction false} CreateSound(spc: nat, fat: seq<nat>, ffc: nat, fc: nat, al: Alloc, low: nat, high: nat)
    requires Sound(spc, fat, ffc, fc, al, low, high) && al.free != []
    ensures 0 < ffc < |fat| && fc > 0 && ffc == al.free[0]
    ensures Sound(spc, fat[ffc := 0], fat[ffc], fc - 1, Step(al, Create), low, high)
    ensures low <= FirstSector(spc, ffc) && FirstSector(spc, ffc) + spc <= high
  {
    CreateRepresents(fat, ffc, fc, al);
    StepWithin(spc, al, Create, low, high);
  }

  lemma {:induction false} AppendSound(spc: nat, fat: seq<nat>, ffc: nat, fc: nat, al: Alloc, f: nat, later: Alloc,
      low: nat, high: nat)
    requires Sound(spc, fat, ffc, fc, al, low, high) && al.free != [] && f in al.files && later == Step(al, Append(f))
    ensures 0 < ffc < |fat| && fc > 0 && ffc == al.free[0]
    ensures Chain(fat[ffc := 0], f, al.files[f]) && al.files[f] != []
    ensures var last := al.files[f][|al.files[f]| - 1];
      && last < |fat|
      && Sound(spc, fat[ffc := 0][last := ffc], fat[ffc], fc - 1, later, low, high)
    ensures low <= FirstSector(spc, ffc) && FirstSector(spc, ffc) + spc <= high
  {
    AppendRepresents(fat, ffc, fc, al, f);
    FilesFrame(fat, al, ffc, 0);
    StepWithin(spc, al, Append(f), low, high);
  }

  lemma {:induction false} DeleteSound(spc: nat, fat: seq<nat>, ffc: nat, fc: nat, al: Alloc, f: nat, later: Alloc,
      low: nat, high: nat)
    requires Sound(spc, fat, ffc, fc, al, low, high) && f in al.files && later == Step(al, Delete(f))
    ensures var c := al.files[f];
      var last := c[|c| - 1];
      && last < |fat| && fc + |c| < 65536
      && Sound(spc, fat[last := ffc], f, fc + |c|, later, low, high)
  {
    DeleteRepresents(fat, ffc, fc, al, f);
    StepWithin(spc, al, Delete(f), low, high);
    var c := al.files[f];
    var last := c[|c| - 1];
    assert Represents(fat[last := ffc], f, fc + |c|, later);
    SixteenBits(fat[last := ffc], later.free);
  }

  class Volume {
    const fatSectors: nat
    const buffer: array<Sector>
    const si: array<SectorInfo>
    const disk: array<Sector>
    const bad: set<nat>           // sectors the host fails to read
    var counter: nat
    var gError: int

    ghost var view: seq<Sector>   // every sector as the machine sees it
    ghost var home: seq<int>      // the slot that holds a sector, or -1
    ghost var alloc: Alloc        // what the map means

    /**
      Opens a disk image: sector 0 says how many sectors the map has, and they are loaded
      into the first slots. `al` is what the map means; the image has to be well-formed.
    */
    constructor (image: array<Sector>, unreadable: set<nat>, ghost al: Alloc)
      requires WellFormed(image[..], unreadable, al)
      ensures Valid() && fresh(buffer) && fresh(si) && disk == image && bad == unreadable
      ensures view == image[..] && alloc == al && fatSectors == Word(image[0], SPM_AT)
    {
      var n := Word(image[0], SPM_AT);
      var slots, infos := LoadMap(image, n);
      fatSectors, disk, bad, buffer, si := n, image, unreadable, slots, infos;
      counter, gError, view, alloc := 0, 0, image[..], al;
      home := seq(image.Length, s => if s < n then s else -1);
      new;
      assert Image() == image[..n] && buffer[0] == Image()[0];
      assert SlotsValid() && DiskValid();
      assert CacheValid();
    }

    /** The slots: the map sectors locked in the first ones, and nine free ones. */
    static method LoadMap(image: array<Sector>, n: nat) returns (slots: array<Sector>, infos: array<SectorInfo>)
      requires 0 < n <= image.Length
      ensures fresh(slots) && fresh(infos) && slots.Length == infos.Length == n + 9
      ensures slots[..n] == image[..n]
      ensures forall k :: 0 <= k < n ==> infos[k] == SectorInfo(0, k, false, false, true)
      ensures forall k :: n <= k < n + 9 ==> infos[k] == SectorInfo(0, 0, true, false, false)
    {
      slots := new Sector[n + 9](_ => seq(512, _ => 0));
      infos := new SectorInfo[n + 9](_ => SectorInfo(0, 0, true, false, false));
      for i := 0 to n
        invariant forall k :: 0 <= k < i ==> slots[k] == image[k] && infos[k] == SectorInfo(0, k, false, false, true)
        invariant forall k :: i <= k < infos.Length ==> infos[k] == SectorInfo(0, 0, true, false, false)
      {
        slots[i] := image[i];
        infos[i] := SectorInfo(0, i, false, false, true);
      }
    }

    // ---- the cache ----

    predicate Live(k: nat)
      reads si
      requires k < si.Length
    {
      !si[k].free
    }

    /** Every live slot is the home of its sector and holds what the machine sees there. */
    ghost predicate SlotsValid()
      reads this, buffer, si, disk
    {
      && |home| == |view| && buffer.Length == si.Length
      && (forall s :: 0 <= s < |view| ==> -1 <= home[s] < si.Length)
      && (forall s :: 0 <= s < |view| && home[s] >= 0 ==> !si[home[s]].free && si[home[s]].logSector == s)
      && (forall k :: 0 <= k < si.Length && !si[k].free ==> si[k].logSector < |view| && home[si[k].logSector] == k)
      && (forall k :: 0 <= k < si.Length && !si[k].free ==> buffer[k] == view[si[k].logSector])
    }

    /** A sector without a home, or with a home that is neither changed nor locked, is on the disk. */
    ghost predicate DiskValid()
      reads this, buffer, si, disk
      requires SlotsValid() && |view| == disk.Length
    {
      forall s :: 0 <= s < |view| ==>
        (home[s] >= 0 && (si[home[s]].changed || si[home[s]].locked)) || disk[s] == view[s]
    }

    ghost predicate CacheValid()
      reads this, buffer, si, disk
    {
      && buffer != disk
      && 0 < fatSectors <= disk.Length
      && buffer.Length == si.Length == fatSectors + 9
      && |home| == |view| == disk.Length
      && Word(view[0], SPM_AT) == fatSectors
      && (forall k :: 0 <= k < si.Length ==> (si[k].locked <==> k < fatSectors))
      && (forall k :: 0 <= k < fatSectors ==> !si[k].free && si[k].logSector == k && k !in bad)
      && (forall k :: fatSectors <= k < si.Length && !si[k].free ==> si[k].logSector !in bad)
      && SlotsValid()
      && DiskValid()
    }

    /** The cached copy of a sector if there is one, else the disk's. */
    ghost function Seen(s: nat): Sector
      reads this, buffer, si, disk
      requires CacheValid() && s < disk.Length
    {
      if exists k :: 0 <= k < si.Length && Live(k) && si[k].logSector == s then
        var k :| 0 <= k < si.Length && Live(k) && si[k].logSector == s; buffer[k]
      else
        disk[s]
    }

    /** `view` is nothing but "cached copy if present, else disk". */
    lemma {:induction false} ViewIsSeen(s: nat)
      requires CacheValid() && s < disk.Length
      ensures view[s] == Seen(s)
    {
    }

    /** The map sectors, which stay in the first slots. */
    ghost function Image(): (img: seq<Sector>)
      reads buffer
      requires fatSectors <= buffer.Length
    {
      buffer[..fatSectors]
    }

    /** Slot `k` holds nothing the disk does not have. */
    ghost predicate Spare(k: nat)
      reads this, buffer, si, disk
      requires CacheValid() && k < si.Length
    {
      !si[k].free ==> disk[si[k].logSector] == view[si[k].logSector]
    }

    /** Writes a changed victim to the disk. */
    method WriteBack(k: nat)
      requires CacheValid() && fatSectors <= k < si.Length
      modifies disk
      ensures CacheValid() && Spare(k)
    {
      if !si[k].free && si[k].changed {
        disk[si[k].logSector] := buffer[k];
      }
    }

    /** Gives up what a spare slot holds. */
    method Drop(k: nat)
      requires CacheValid() && fatSectors <= k < si.Length && Spare(k)
      modifies this`home, si
      ensures CacheValid() && !Live(k)
      ensures forall j :: 0 <= j < si.Length && j != k ==> si[j] == old(si[j])
      ensures forall s :: 0 <= s < |home| && old(home[s]) < 0 ==> home[s] < 0
    {
      if !si[k].free {
        home := home[si[k].logSector := -1];
        si[k] := si[k].(free := true);
      }
    }

    /** Fills the free slot `k` with `sector`; if the host cannot read it stays free. */
    method Load(k: nat, sector: nat) returns (ok: bool)
      requires CacheValid() && fatSectors <= k < si.Length && !Live(k) && sector < disk.Length
      requires home[sector] < 0
      modifies this`counter, this`gError, this`home, buffer, si
      ensures CacheValid()
      ensures Image() == old(Image())
      ensures forall j :: 0 <= j < si.Length && j != k ==> si[j] == old(si[j])
      ensures ok == (sector !in bad)
      ensures ok ==> gError == 0 && Live(k) && si[k].logSector == sector
      ensures !ok ==> gError == ERR_READ
    {
      ok := sector !in bad;
      if ok {
        gError := 0;
        home := home[sector := k];
        buffer[k] := disk[sector];
        counter := counter + 1;
        si[k] := si[k].(logSector := sector, time := counter, free := false, changed := false);
      } else {
        gError := ERR_READ;
      }
    }

    /**
      Scans the slots for `sector`; on a miss the victim is the last slot that is free or
      not locked. The slots behind the map are never locked, so that is the last slot.
    */
    method Find(sector: nat) returns (hit: bool, k: nat)
      requires CacheValid() && sector < disk.Length
      ensures k < si.Length
      ensures hit ==> Live(k) && si[k].logSector == sector
      ensures !hit ==> home[sector] < 0 && k == si.Length - 1
    {
      hit, k := false, 0;
      for i := 0 to si.Length
        invariant forall j :: 0 <= j < i && Live(j) ==> si[j].logSector != sector
        invariant k < si.Length && (i == si.Length ==> k == i - 1)
      {
        if si[i].free {
          k := i;
        } else if si[i].logSector == sector {
          return true, i;
        } else if !si[i].locked {
          k := i;
        }
      }
    }

    /** A cached sector, or the sector loaded over the victim; -1 stands for a null pointer. */
    method GetSector(sector: nat) returns (k: int)
      requires CacheValid() && sector < disk.Length
      modifies this`counter, this`gError, this`home, buffer, si, disk
      ensures CacheValid()
      ensures Image() == old(Image())
      ensures -1 <= k < si.Length
      ensures k >= 0 <==> sector !in bad
      ensures k >= 0 ==> gError == 0 && Live(k) && si[k].logSector == sector && buffer[k] == view[sector]
      ensures k < 0 ==> gError == ERR_READ
      ensures forall j :: fatSectors <= j < si.Length - 1 && old(si[j].free) ==> si[j].free
    {
      var hit, i := Find(sector);
      if hit {
        counter := counter + 1;
        Touch(i);
        gError := 0;
        return i;
      }
      WriteBack(i);
      Drop(i);
      var ok := Load(i, sector);
      k := if ok then i else -1;
    }

    /** Notes the time of use of a slot. */
    method Touch(k: nat)
      requires CacheValid() && k < si.Length
      modifies si
      ensures CacheValid()
      ensures si[k] == old(si[k]).(time := counter)
      ensures forall j :: 0 <= j < si.Length && j != k ==> si[j] == old(si[j])
    {
      si[k] := si[k].(time := counter);
    }

    /** Copies bytes into a cached data sector and marks the slot as changed. */
    method Store(k: nat, o: nat, data: seq<Byte>)
      requires CacheValid() && fatSectors <= k < si.Length && Live(k) && o + |data| <= 512
      modifies this`counter, this`view, buffer, si
      ensures CacheValid()
      ensures Image() == old(Image())
      ensures var s := si[k].logSector;
        s == old(si[k].logSector) && view == old(view)[s := Patch(old(view[s]), o, data)]
    {
      buffer[k] := Patch(buffer[k], o, data);
      view := view[si[k].logSector := buffer[k]];
      PutSector(k);
    }

    /** Marks a slot as changed. */
    method PutSector(k: nat)
      requires k < si.Length
      modifies this`counter, si
      ensures si[k] == old(si[k]).(changed := true, time := counter)
      ensures forall j :: 0 <= j < si.Length && j != k ==> si[j] == old(si[j])
    {
      counter := counter + 1;
      si[k] := si[k].(changed := true, time := counter);
    }

    /** Writes a live slot to the disk. */
    method WriteOut(k: nat)
      requires CacheValid() && k < si.Length && Live(k)
      modifies si, disk
      ensures CacheValid()
      ensures si[k] == old(si[k]).(changed := false)
      ensures forall j :: 0 <= j < si.Length && j != k ==> si[j] == old(si[j])
      ensures forall s :: 0 <= s < disk.Length ==> disk[s] == if s == si[k].logSector then view[s] else old(disk[s])
    {
      disk[si[k].logSector] := buffer[k];
      si[k] := si[k].(changed := false);
    }

    /** Writes out the map, sector 0 last; whether it is marked as changed does not matter. */
    method WriteBlock0()
      requires CacheValid()
      modifies si, disk
      ensures CacheValid()
      ensures forall k :: 0 <= k < fatSectors ==> disk[k] == view[k]
    {
      for i := 1 to fatSectors
        invariant CacheValid()
        invariant forall k :: 1 <= k < i ==> disk[k] == view[k]
      {
        WriteOut(i);
      }
      WriteOut(0);
    }

    /** After a flush the disk is what the machine sees, and no slot is waiting. */
    method FlushSectors()
      requires CacheValid()
      modifies si, disk
      ensures CacheValid()
      ensures disk[..] == view
      ensures forall k :: 0 <= k < si.Length && Live(k) ==> !si[k].changed
    {
      WriteBlock0();
      for k := 0 to si.Length
        invariant CacheValid()
        invariant forall j :: 0 <= j < fatSectors ==> disk[j] == view[j]
        invariant forall j :: 0 <= j < k && !si[j].free ==> !si[j].changed
      {
        if !si[k].free && si[k].changed {
          WriteOut(k);
        }
      }
      forall s | 0 <= s < disk.Length ensures disk[s] == view[s] {
        assert home[s] >= 0 && si[home[s]].locked ==> home[s] == s;
      }
    }

    // ---- the map ----

    function Spc(): nat
      reads buffer
      requires 0 < fatSectors <= buffer.Length
    {
      Word(buffer[0], SPC_AT)
    }

    function Fc(): nat
      reads buffer
      requires 0 < fatSectors <= buffer.Length
    {
      Word(buffer[0], FC_AT)
    }

    function Ffc(): nat
      reads buffer
      requires 0 < fatSectors <= buffer.Length
    {
      Word(buffer[0], FFC_AT)
    }

    ghost function Fat(): seq<nat>
      reads buffer
      requires 0 < fatSectors <= buffer.Length
    {
      Words(Image())
    }

    /** Map word `w`, read from the slot it lies in. */
    function FatWord(w: nat): (v: nat)
      reads buffer
      requires 0 < fatSectors <= buffer.Length && w < FatLength(fatSectors)
      ensures v == Fat()[w]
    {
      Word(buffer[WordSector(w)], WordOffset(w))
    }

    /** Stores map word `w` in its slot. */
    method SetFat(w: nat, v: nat)
      requires CacheValid() && w < FatLength(fatSectors) && v < 65536
      modifies this`view, buffer
      ensures CacheValid()
      ensures Fat() == old(Fat())[w := v]
      ensures Spc() == old(Spc()) && Fc() == old(Fc()) && Ffc() == old(Ffc())
      ensures |view| == old(|view|) && view[fatSectors..] == old(view[fatSectors..])
    {
      var k := WordSector(w);
      SetFatWord(Image(), w, v);
      buffer[k] := SetWord(buffer[k], WordOffset(w), v);
      assert Image() == old(Image())[k := buffer[k]];
      view := view[k := buffer[k]];
    }

    /** Stores a 16-bit field of sector 0. */
    method SetHeader(o: nat, v: nat)
      requires CacheValid() && (o == FC_AT || o == FFC_AT) && v < 65536
      modifies this`view, buffer
      ensures CacheValid()
      ensures Fat() == old(Fat())
      ensures Spc() == old(Spc())
      ensures Fc() == if o == FC_AT then v else old(Fc())
      ensures Ffc() == if o == FFC_AT then v else old(Ffc())
      ensures |view| == old(|view|) && view[fatSectors..] == old(view[fatSectors..])
    {
      SetHeaderWord(Image(), o, v);
      buffer[0] := SetWord(buffer[0], o, v);
      assert Image() == old(Image())[0 := buffer[0]];
      view := view[0 := buffer[0]];
    }

    /** Marks the slot of map word `w` as changed. */
    method MarkFat(w: nat)
      requires CacheValid() && w < FatLength(fatSectors)
      modifies si
      ensures CacheValid()
    {
      var k := WordSector(w);
      si[k] := si[k].(changed := true);
    }

    /** A well-formed volume: a sound cache over a map whose lists are what `alloc` says. */
    ghost predicate Valid()
      reads this, buffer, si, disk
    {
      && CacheValid()
      && Spc() > 0
      && Sound(Spc(), Fat(), Ffc(), Fc(), alloc, fatSectors, disk.Length)
    }

    /** Walks the list `c` of a file from its first cluster, `n` steps at most. */
    method Walk(f: nat, n: nat, ghost c: seq<nat>) returns (p: nat, g: nat)
      requires 0 < fatSectors <= buffer.Length
      requires Chain(Fat(), f, c) && c != []
      ensures g == (if n < |c| then n else |c| - 1) && p == c[g] && p < FatLength(fatSectors)
    {
      p, g := f, 0;
      while g != n && FatWord(p) != 0
        invariant 0 <= g < |c| && g <= n && p == c[g]
        decreases |c| - g
      {
        assert Fat()[c[g]] == FatWord(p);
        p := FatWord(p);
        g := g + 1;
      }
      assert Fat()[c[g]] == FatWord(p);
    }

    /** Walks the list `c` to its last cluster, counting the steps. */
    method WalkToEnd(head: nat, ghost c: seq<nat>) returns (p: nat, steps: nat)
      requires 0 < fatSectors <= buffer.Length
      requires Chain(Fat(), head, c) && c != []
      ensures steps == |c| - 1 && p == c[steps] && p < FatLength(fatSectors)
    {
      p, steps := head, 0;
      while FatWord(p) != 0
        invariant 0 <= steps < |c| && p == c[steps]
        decreases |c| - steps
      {
        assert Fat()[c[steps]] == FatWord(p);
        p := FatWord(p);
        steps := steps + 1;
      }
      assert Fat()[c[steps]] == FatWord(p);
    }

    /** The volume sector of sector `sector` of the file with clusters `c`; -1 if there is none. */
    method GetFileSectNum(f: nat, sector: nat, ghost c: seq<nat>) returns (s: int)
      requires 0 < fatSectors <= buffer.Length && Spc() > 0
      requires Chain(Fat(), f, c) && c != []
      modifies this`gError
      ensures var m := FileSectors(Spc(), c);
        if sector < |m| then s == m[sector] else s == -1 && gError == ERR_NO_FILE_BLOCK
    {
      var group := sector / Spc();
      var p, g := Walk(f, group, c);
      FileSectorProduct(Spc(), c, sector);
      if g == group {
        s := p * Spc() + sector % Spc();
      } else {
        gError := ERR_NO_FILE_BLOCK;
        s := -1;
      }
    }

    /** What files see of the volume: the map sectors are none of their business. */
    ghost function Now(): Snapshot
      reads this`view, this`alloc, buffer
      requires 0 < fatSectors <= buffer.Length && fatSectors <= |view|
    {
      Snapshot(Spc(), DataPart(view, fatSectors), alloc)
    }

    /** The slot of sector `sector` of file `f`; -1 if there is none or the host cannot read it. */
    method GetFileSector(f: nat, sector: nat) returns (k: int)
      requires Valid() && f in alloc.files
      modifies this`counter, this`gError, this`home, buffer, si, disk
      ensures Valid() && Now() == old(Now())
      ensures var m := Now().Map(f);
        if sector < |m| then fatSectors <= m[sector] < disk.Length && Loaded(k, m[sector])
        else k == -1 && gError == ERR_NO_FILE_BLOCK
    {
      var s := GetFileSectNum(f, sector, alloc.files[f]);
      k := -1;
      if s >= 0 {
        FileSectorsWithin(Spc(), alloc.files[f], fatSectors, disk.Length);
        k := Fetch(s);
      }
    }

    /** Links the clusters behind `p`, up to `p1`, in front of the free list and counts them. */
    method ReleaseTail(p: nat, p1: nat, rels: nat)
      requires CacheValid() && p < FatLength(fatSectors) && p1 < FatLength(fatSectors) && Fc() + rels < 65536
      modifies this`view, buffer, si
      ensures CacheValid()
      ensures Fat() == old(Fat())[p1 := old(Ffc())][p := 0]
      ensures Ffc() == old(Fat())[p1 := old(Ffc())][p] && Fc() == old(Fc()) + rels && Spc() == old(Spc())
      ensures |view| == old(|view|) && view[fatSectors..] == old(view[fatSectors..])
    {
      SetFat(p1, Ffc());
      SetHeader(FFC_AT, FatWord(p));
      SetFat(p, 0);
      MarkFat(p);
      MarkFat(p1);
      SetHeader(FC_AT, Fc() + rels);
    }

    /** Finds cluster number `group` (counted from 1) of a list, and the end of the list. */
    method FindTail(f: nat, group: nat, ghost c: seq<nat>) returns (found: bool, p: nat, p1: nat, rels: nat)
      requires 0 < fatSectors <= buffer.Length && group > 0
      requires Chain(Fat(), f, c) && c != []
      ensures found == (group <= |c|)
      ensures found ==> p == c[group - 1] && p1 == c[|c| - 1] && rels == |c| - group
    {
      var g;
      p, g := Walk(f, group - 1, c);
      found, p1, rels := g == group - 1, p, 0;
      if found {
        LinksSuffix(Fat(), c, g);
        p1, rels := WalkToEnd(p, c[g..]);
      }
    }

    /** Frees all but the first `group` clusters of a file. */
    method KeepClusters(f: nat, group: nat)
      requires Valid() && f in alloc.files && group > 0
      modifies this`view, this`alloc, buffer, si
      ensures Valid() && alloc == Step(old(alloc), Truncate(f, group))
      ensures Spc() == old(Spc()) && view[fatSectors..] == old(view[fatSectors..])
    {
      var found, p, p1, rels := FindTail(f, group, alloc.files[f]);
      if found {
        TruncateSound(Spc(), Fat(), Ffc(), Fc(), alloc, f, group, fatSectors, disk.Length);
        alloc := Step(alloc, Truncate(f, group));
        ReleaseTail(p, p1, rels);
      }
    }

    /** The number of clusters a truncation to `sector` sectors keeps. */
    method GroupCount(sector: nat) returns (group: nat)
      requires 0 < fatSectors <= buffer.Length && Spc() > 0
      ensures group == ClustersKept(Spc(), sector)
    {
      group := (sector + Spc() - 1) / Spc() + 1;
      ClustersKeptIs(Spc(), sector);
    }

    /** Frees all but the first ceil(sector / spc) + 1 clusters of a file. */
    method KillFileTail(f: nat, sector: nat)
      requires Valid() && f in alloc.files
      modifies this`view, this`alloc, buffer, si
      ensures Valid() && Now() == old(Now()).(alloc := Step(old(alloc), Truncate(f, ClustersKept(old(Spc()), sector))))
      ensures var c, n := old(alloc.files[f]), (sector + old(Spc()) - 1) / old(Spc()) + 1;
        if n > |c| then alloc == old(alloc)
        else alloc == Alloc(c[n..] + old(alloc.free), old(alloc.files)[f := c[..n]])
    {
      var group := GroupCount(sector);
      ClustersKeptIs(Spc(), sector);
      KeepClusters(f, group);
    }

    /** Puts the list from `f` to `last`, of `rels` clusters, in front of the free list. */
    method ReleaseFile(f: nat, last: nat, rels: nat)
      requires CacheValid() && f < 65536 && last < FatLength(fatSectors) && Fc() + rels < 65536
      modifies this`view, buffer, si
      ensures CacheValid()
      ensures Fat() == old(Fat())[last := old(Ffc())]
      ensures Ffc() == f && Fc() == old(Fc()) + rels && Spc() == old(Spc())
      ensures |view| == old(|view|) && view[fatSectors..] == old(view[fatSectors..])
    {
      SetFat(last, Ffc());
      MarkFat(0);
      MarkFat(last);
      SetHeader(FFC_AT, f);
      SetHeader(FC_AT, Fc() + rels);
    }

    /** Frees a whole file and writes the map out. */
    method KillFile(f: nat)
      requires Valid() && f in alloc.files
      modifies this`view, this`alloc, buffer, si, disk
      ensures Valid() && Now() == old(Now()).(alloc := Step(old(alloc), Delete(f)))
      ensures alloc == Alloc(old(alloc.files[f]) + old(alloc.free), old(alloc.files) - {f})
      ensures disk[..fatSectors] == view[..fatSectors]
    {
      var last, steps := WalkToEnd(f, alloc.files[f]);
      ghost var later := Step(alloc, Delete(f));
      DeleteSound(Spc(), Fat(), Ffc(), Fc(), alloc, f, later, fatSectors, disk.Length);
      alloc := later;
      ReleaseFile(f, last, steps + 1);
      WriteBlock0();
    }

    /** Takes cluster `nb`, the head of the free list, out of it. */
    method TakeFree(nb: nat)
      requires CacheValid() && nb == Ffc() && nb < FatLength(fatSectors)
      modifies this`view, buffer, si
      ensures CacheValid()
      ensures Fat() == old(Fat())[nb := 0] && Ffc() == old(Fat())[nb]
      ensures Fc() == old(Fc()) && Spc() == old(Spc())
      ensures |view| == old(|view|) && view[fatSectors..] == old(view[fatSectors..])
    {
      SetHeader(FFC_AT, FatWord(nb));
      SetFat(nb, 0);
      MarkFat(0);
      MarkFat(nb);
    }

    /** Links cluster `nb` behind `last`. */
    method LinkLast(last: nat, nb: nat)
      requires CacheValid() && last < FatLength(fatSectors) && nb < 65536 && Fc() > 0
      modifies this`view, buffer, si
      ensures CacheValid()
      ensures Fat() == old(Fat())[last := nb] && Ffc() == old(Ffc())
      ensures Fc() == old(Fc()) - 1 && Spc() == old(Spc())
      ensures |view| == old(|view|) && view[fatSectors..] == old(view[fatSectors..])
    {
      SetFat(last, nb);
      MarkFat(0);
      MarkFat(last);
      SetHeader(FC_AT, Fc() - 1);
    }

    /** What a request for `sector` gives: its slot, or -1 when the host cannot read it. */
    ghost predicate Loaded(k: int, sector: nat)
      reads this, buffer, si
    {
      if k < 0 then k == -1 && gError == ERR_READ && sector in bad
      else
        && k < si.Length == buffer.Length && sector < |view|
        && gError == 0 && !si[k].free && si[k].logSector == sector && sector !in bad
    }

    /** Fetches a sector of a well-formed volume, which changes neither map nor view. */
    method Fetch(sector: nat) returns (k: int)
      requires Valid() && sector < disk.Length
      modifies this`counter, this`gError, this`home, buffer, si, disk
      ensures Valid() && Loaded(k, sector)
      ensures Image() == old(Image())
    {
      k := GetSector(sector);
      assert buffer[0] == Image()[0];
    }

    /** Fetches the first sector of cluster `nb`. */
    method FetchCluster(nb: nat) returns (k: int)
      requires Valid() && FirstSector(Spc(), nb) < disk.Length
      modifies this`counter, this`gError, this`home, buffer, si, disk
      ensures Valid() && Loaded(k, FirstSector(old(Spc()), nb))
      ensures Image() == old(Image())
    {
      FirstSectorIsProduct(Spc(), nb);
      k := Fetch(nb * Spc());
    }

    /** Makes the head of the free list the only cluster of a new file. */
    method AllocateFirst() returns (nb: nat)
      requires Valid() && alloc.free != []
      modifies this`view, this`alloc, buffer, si
      ensures Valid() && alloc == Step(old(alloc), Create)
      ensures nb == old(alloc.free[0]) && FirstSector(Spc(), nb) < disk.Length
      ensures Spc() == old(Spc()) && view[fatSectors..] == old(view[fatSectors..])
    {
      nb := Ffc();
      CreateSound(Spc(), Fat(), Ffc(), Fc(), alloc, fatSectors, disk.Length);
      alloc := Step(alloc, Create);
      TakeFree(nb);
      SetHeader(FC_AT, Fc() - 1);
    }

    /** Links the head of the free list behind the last cluster of `f`. */
    method AllocateNext(f: nat) returns (nb: nat)
      requires Valid() && alloc.free != [] && f in alloc.files
      modifies this`view, this`alloc, buffer, si
      ensures Valid() && alloc == Step(old(alloc), Append(f))
      ensures nb == old(alloc.free[0]) && FirstSector(Spc(), nb) < disk.Length
      ensures Spc() == old(Spc()) && view[fatSectors..] == old(view[fatSectors..])
    {
      nb := Ffc();
      ghost var c, later := alloc.files[f], Step(alloc, Append(f));
      AppendSound(Spc(), Fat(), Ffc(), Fc(), alloc, f, later, fatSectors, disk.Length);
      alloc := later;
      MoveFree(f, nb, c);
    }

    /** Takes `nb` out of the free list and links it behind the list `c` of `f`. */
    method MoveFree(f: nat, nb: nat, ghost c: seq<nat>)
      requires CacheValid() && nb == Ffc() && nb < FatLength(fatSectors) && nb < 65536 && Fc() > 0
      requires Chain(Fat()[nb := 0], f, c) && c != [] && c[|c| - 1] < |Fat()|
      modifies this`view, buffer, si
      ensures CacheValid()
      ensures Fat() == old(Fat())[nb := 0][c[|c| - 1] := nb] && Ffc() == old(Fat())[nb]
      ensures Fc() == old(Fc()) - 1 && Spc() == old(Spc())
      ensures |view| == old(|view|) && view[fatSectors..] == old(view[fatSectors..])
    {
      TakeFree(nb);
      var last, _ := WalkToEnd(f, c);
      LinkLast(last, nb);
    }

    /** First cluster of a new file: its number, and the slot of its first sector. */
    method GetFreeBlock0() returns (nb: nat, k: int)
      requires Valid()
      modifies this`view, this`alloc, this`counter, this`gError, this`home, buffer, si, disk
      ensures Valid() && Now() == old(Now()).(alloc := Step(old(alloc), Create))
      ensures old(alloc.free) == [] ==> k == -1 && gError == QERR_DF && alloc == old(alloc)
      ensures old(alloc.free) != [] ==> alloc == Alloc(old(alloc.free[1..]), old(alloc.files)[nb := [nb]])
      ensures old(alloc.free) != [] ==> nb == old(alloc.free[0]) && Loaded(k, FirstSector(Spc(), nb))
    {
      nb := 0;
      if Fc() > 0 && Ffc() != 0 {
        nb := AllocateFirst();
        k := FetchCluster(nb);
      } else {
        gError := QERR_DF;
        k := -1;
      }
    }

    /** One more cluster at the end of file `f`, and the slot of its first sector. */
    method GetFreeBlock(f: nat) returns (k: int)
      requires Valid() && f in alloc.files
      modifies this`view, this`alloc, this`counter, this`gError, this`home, buffer, si, disk
      ensures Valid() && Now() == old(Now()).(alloc := Step(old(alloc), Append(f)))
      ensures old(alloc.free) == [] ==> k == -1 && gError == QERR_DF && alloc == old(alloc)
      ensures old(alloc.free) != [] ==>
        alloc == Alloc(old(alloc.free[1..]), old(alloc.files)[f := old(alloc.files[f]) + [old(alloc.free[0])]])
      ensures old(alloc.free) != [] ==> Loaded(k, FirstSector(Spc(), old(alloc.free[0])))
    {
      if Fc() > 0 && Ffc() != 0 {
        var nb := AllocateNext(f);
        k := FetchCluster(nb);
      } else {
        gError := QERR_DF;
        k := -1;
      }
    }

    /** Copies bytes into the slot of a data sector; the map stays as it is. */
    method StoreData(k: nat, ghost sector: nat, o: nat, data: seq<Byte>)
      requires Valid() && Loaded(k, sector) && fatSectors <= sector && o + |data| <= 512
      modifies this`counter, this`view, buffer, si
      ensures Valid() && Now() == old(Now()).(view := PatchSector(old(Now()).view, sector, o, data))
    {
      DataPartPatch(view, fatSectors, sector, o, data);
      Store(k, o, data);
      assert buffer[0] == Image()[0];
    }
  }

  /** Sector 0 of a well-formed image says where the map ends, and the map is what `al` says. */
  ghost predicate WellFormed(image: seq<Sector>, unreadable: set<nat>, al: Alloc) {
    && |image| > 0
    && var n := Word(image[0], SPM_AT);
    && 0 < n <= |image| && (forall k :: 0 <= k < n ==> k !in unreadable)
    && Word(image[0], SPC_AT) > 0
    && Sound(Word(image[0], SPC_AT), Words(image[..n]), Word(image[0], FFC_AT), Word(image[0], FC_AT), al, n, |image|)
  }

  /** What the machine sees of a volume is a well-formed image. */
  lemma {:induction false} ViewWellFormed(v: Volume)
    requires v.Valid()
    ensures WellFormed(v.view, v.bad, v.alloc)
  {
    assert v.Image() == v.view[..v.fatSectors];
    assert v.buffer[0] == v.Image()[0];
  }

  /** Flushed and opened again, the volume is the same: nothing that matters is in the cache alone. */
  method Reopen(v: Volume) returns (w: Volume)
    requires v.Valid()
    modifies v.si, v.disk
    ensures fresh(w) && w.Valid() && w.disk == v.disk && w.bad == v.bad
    ensures w.view == v.view && w.Now() == v.Now() == old(v.Now())
  {
    ViewWellFormed(v);
    v.FlushSectors();
    w := new Volume(v.disk, v.bad, v.alloc);
    assert w.buffer[0] == w.Image()[0] == w.view[0] && v.buffer[0] == v.Image()[0] == v.view[0];
  }
}
