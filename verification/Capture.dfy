/**
  Screen capture, line by line, while the CPU runs: a line is copied when the beam reaches
  it, and until the next line is copied writes to words the beam has not fetched yet are
  put into the copy. The completed frame is what the beam would have fetched word by word.
*/
module Capture {
  import opened Sectors
  import opened Powers
  import Beam

  const LINES: nat := 256
  const LINE_BYTES: nat := 128
  const SIZE: nat := 32768
  const NEVER: nat := 0xffff_ffff_ffff_ffff

  /** Pixel clocks: lines in front of the first visible one, and lengths of a line and a frame. */
  datatype Video = Video(first: nat, linePx: nat, framePx: nat) {
    predicate Valid() {
      framePx > 0 && linePx >= 8 * (LINE_BYTES / 2)
    }
  }

  /** A frame: the cycle of its vertical sync and its length in cycles (0 at unlimited speed). */
  datatype Frame = Frame(start: nat, len: nat)

  function PxCycles(v: Video, f: Frame, px: nat): nat
    requires v.Valid()
  {
    f.len * px / v.framePx
  }

  /** Cycle at which line `line` is copied. */
  function LineTime(v: Video, f: Frame, line: nat): nat
    requires v.Valid()
  {
    f.start + PxCycles(v, f, (v.first + line) * v.linePx) + 1
  }

  /** Cycle at which the beam fetches the word of byte `x` of the screen: 8 pixel clocks a word. */
  function FetchTime(v: Video, f: Frame, x: nat): nat
    requires v.Valid()
  {
    LineTime(v, f, x / LINE_BYTES) + PxCycles(v, f, 8 * (x % LINE_BYTES / 2))
  }

  /** Rounding down keeps the order: all words of a line are fetched before the next line starts. */
  lemma {:induction false} FetchBeforeNextLine(v: Video, f: Frame, x: nat)
    requires v.Valid()
    ensures FetchTime(v, f, x) <= LineTime(v, f, x / LINE_BYTES + 1)
  {
    var n := v.first + x / LINE_BYTES;
    NextMultiple(n, v.linePx);
    PxSum(v, f, n * v.linePx, 8 * (x % LINE_BYTES / 2));
  }

  lemma {:induction false} NextMultiple(n: nat, m: nat)
    ensures (n + 1) * m == n * m + m
  {
  }

  /** `w` pixel clocks into a line and the next line, each rounded down. */
  lemma {:induction false} PxSum(v: Video, f: Frame, a: nat, w: nat)
    requires v.Valid() && w <= v.linePx
    ensures PxCycles(v, f, a) + PxCycles(v, f, w) <= PxCycles(v, f, a + v.linePx)
  {
    FloorSum(f.len * a, f.len * w, v.framePx);
    assert f.len * a + f.len * w == f.len * (a + w);
    FloorMonotone(f.len, a + w, a + v.linePx, v.framePx);
  }

  lemma {:induction false} LineTimeMonotone(v: Video, f: Frame, i: nat, j: nat)
    requires v.Valid() && i <= j
    ensures LineTime(v, f, i) <= LineTime(v, f, j)
  {
    Scaled(v.first + i, v.first + j, v.linePx);
    FloorMonotone(f.len, (v.first + i) * v.linePx, (v.first + j) * v.linePx, v.framePx);
  }

  lemma {:induction false} FloorSum(a: nat, b: nat, d: nat)
    requires d > 0
    ensures a / d + b / d <= (a + b) / d
  {
    DivMod(a, d);
    DivMod(b, d);
    Distribute(a / d, b / d, d, 1);
    DivBelow(d, a / d + b / d, a + b);
  }

  lemma {:induction false} FloorMonotone(k: nat, a: nat, b: nat, d: nat)
    requires d > 0 && a <= b
    ensures k * a / d <= k * b / d
  {
    Product(k, a, b);
    FloorAbove(k * a, k * b, d);
  }

  lemma {:induction false} Product(k: nat, a: nat, b: nat)
    requires a <= b
    ensures k * a <= k * b && k * a >= 0
  {
  }

  lemma {:induction false} FloorAbove(m: nat, n: nat, d: nat)
    requires d > 0 && m <= n
    ensures m / d <= n / d
  {
    DivMod(m, d);
    DivBelow(d, m / d, n);
  }

  // ---- the same beam as the contention's ----

  /** The frame of the picture and that of the contention: as many lines in front, a frame of whole lines. */
  predicate SameBeam(v: Video, f: Frame, g: Beam.Geometry) {
    && v.first == g.first && v.linePx == (if g.ntsc then 664 else 672) && v.framePx == g.lines * v.linePx
    && f.len == g.lines * g.lineCyc
  }

  lemma {:induction false} Cancelled(a: nat, b: nat, m: nat)
    requires m > 0 && b > 0
    ensures m * b > 0 && m * a / (m * b) == a / b
  {
    DivMod(a, b);
    assert m * a == a / b * (m * b) + m * (a % b);
    Multiples(a % b, b, m);
    assert a % b * m == m * (a % b) && b * m == m * b;
    Divided(m * a, a / b, m * (a % b), m * b);
  }

  /** A line takes its cycles. */
  lemma {:induction false} PxOfLine(v: Video, f: Frame, g: Beam.Geometry, n: nat, w: nat)
    requires v.Valid() && SameBeam(v, f, g)
    ensures PxCycles(v, f, n * v.linePx) == n * g.lineCyc
    ensures PxCycles(v, f, w) == g.lineCyc * w / v.linePx
  {
    Cancelled(g.lineCyc * w, v.linePx, g.lines);
    assert f.len * w == g.lines * (g.lineCyc * w);
    Cancelled(g.lineCyc * (n * v.linePx), v.linePx, g.lines);
    assert f.len * (n * v.linePx) == g.lines * (g.lineCyc * (n * v.linePx));
    assert g.lineCyc * (n * v.linePx) == n * g.lineCyc * v.linePx;
    Divided(n * g.lineCyc * v.linePx, n * g.lineCyc, 0, v.linePx);
  }

  /** Line `l` of the picture is line `g.first + l` of the frame, and copied when the first cycle of it is over. */
  lemma {:induction false} LineTimeIsBeam(v: Video, f: Frame, g: Beam.Geometry, l: nat)
    requires v.Valid() && SameBeam(v, f, g)
    ensures LineTime(v, f, l) == f.start + (g.first + l) * g.lineCyc + 1
  {
    PxOfLine(v, f, g, g.first + l, 0);
  }

  /** The fetch of each word falls into its line, and there into the chunks that the ZX8301 has for itself. */
  lemma {:induction false} FetchIsBusy(v: Video, f: Frame, g: Beam.Geometry, x: nat)
    requires v.Valid() && SameBeam(v, f, g) && x < SIZE
    ensures var n := FetchTime(v, f, x) - f.start;
      && n >= 0 && g.Line(n) == g.first + x / LINE_BYTES
      && g.Pos(n) == 1 + g.lineCyc * (8 * (x % LINE_BYTES / 2)) / v.linePx
      && g.Pos(n) < Beam.Busy(g, g.Line(n)) * Beam.CHUNK
  {
    var l, w := x / LINE_BYTES, 8 * (x % LINE_BYTES / 2);
    LineTimeIsBeam(v, f, g, l);
    PxOfLine(v, f, g, 0, w);
    var pos := 1 + g.lineCyc * w / v.linePx;
    assert pos <= 361 by {
      assert w <= 504;
      if g.ntsc {
        assert 474 * w / 664 <= 474 * 504 / 664;
      } else {
        assert 480 * w / 672 <= 480 * 504 / 672;
      }
    }
    Beam.SameLine(g, g.first + l, pos);
  }

  // ---- what the beam sees ----

  ghost predicate Ordered(cycles: seq<nat>) {
    forall i, j :: 0 <= i < j < |cycles| ==> cycles[i] <= cycles[j]
  }

  /** How many of the writes at `cycles` a fetch sees, if the first `copied` of them are seen anyway. */
  ghost function Seen(cycles: seq<nat>, copied: nat, fetch: nat): (k: nat)
    requires copied <= |cycles|
    ensures copied <= k <= |cycles|
    decreases |cycles| - copied
  {
    if copied < |cycles| && cycles[copied] < fetch then Seen(cycles, copied + 1, fetch) else copied
  }

  /** A write is seen if it precedes the copy of the line or the fetch of the word. */
  lemma {:induction false} SeenIff(cycles: seq<nat>, copied: nat, fetch: nat, i: nat)
    requires Ordered(cycles) && copied <= |cycles| && i < |cycles|
    ensures i < Seen(cycles, copied, fetch) <==> i < copied || cycles[i] < fetch
    decreases |cycles| - copied
  {
    if copied < |cycles| && cycles[copied] < fetch {
      SeenIff(cycles, copied + 1, fetch, i);
    } else if i > copied {
      assert cycles[copied] <= cycles[i];
    }
  }

  /** One more write, not earlier than the others. */
  lemma {:induction false} SeenMore(cycles: seq<nat>, copied: nat, fetch: nat, now: nat)
    requires Ordered(cycles) && copied <= |cycles| && forall i :: 0 <= i < |cycles| ==> cycles[i] <= now
    ensures Seen(cycles + [now], copied, fetch) == if now < fetch then |cycles| + 1 else Seen(cycles, copied, fetch)
    decreases |cycles| - copied
  {
    if copied < |cycles| {
      assert (cycles + [now])[copied] == cycles[copied] <= now;
      if cycles[copied] < fetch {
        SeenMore(cycles, copied + 1, fetch, now);
      }
    }
  }

  /**
    The history of a frame: the cycles of the CPU's writes, the memory before the first
    write and after each, and for every copied line how many writes preceded the copy.
  */
  datatype History = History(cycles: seq<nat>, mems: seq<seq<Byte>>, copies: seq<nat>)

  ghost predicate Sound(h: History, now: nat) {
    && |h.mems| == |h.cycles| + 1
    && Ordered(h.cycles) && (forall i :: 0 <= i < |h.cycles| ==> h.cycles[i] <= now)
    && (forall l :: 0 <= l < |h.copies| ==> h.copies[l] <= |h.cycles|)
  }

  /** A time at which the program looks whether a line is due, and how many writes precede it. */
  datatype Look = Look(cycle: nat, writes: nat)

  ghost predicate Splits(cycles: seq<nat>, x: Look) {
    && x.writes <= |cycles|
    && forall i :: 0 <= i < |cycles| ==> if i < x.writes then cycles[i] <= x.cycle else x.cycle <= cycles[i]
  }

  /** The looks so far stand between the writes before and behind them. */
  ghost predicate Watched(cycles: seq<nat>, looks: seq<Look>, now: nat) {
    && (forall j :: 0 <= j < |looks| ==> looks[j].cycle <= now && Splits(cycles, looks[j]))
    && forall i, j :: 0 <= i <= j < |looks| ==> looks[i].writes <= looks[j].writes
  }

  /** Look `j` is the first from cycle `t` on. */
  ghost predicate FirstFrom(looks: seq<Look>, t: nat, j: nat) {
    j < |looks| && t <= looks[j].cycle && forall i :: 0 <= i < j ==> looks[i].cycle < t
  }

  /** Line `l` was copied at the first look from its time on. */
  ghost predicate CopiedOnTime(v: Video, f: Frame, copies: seq<nat>, looks: seq<Look>, l: nat)
    requires v.Valid() && l < |copies|
  {
    exists j: nat :: FirstFrom(looks, LineTime(v, f, l), j) && copies[l] == looks[j].writes
  }

  ghost predicate OnTime(v: Video, f: Frame, copies: seq<nat>, looks: seq<Look>)
    requires v.Valid()
  {
    forall l :: 0 <= l < |copies| ==> CopiedOnTime(v, f, copies, looks, l)
  }

  /** The time of `line` has not come at any of the looks. */
  ghost predicate NotDue(v: Video, f: Frame, looks: seq<Look>, line: nat)
    requires v.Valid()
  {
    forall j :: 0 <= j < |looks| ==> looks[j].cycle < LineTime(v, f, line)
  }

  lemma {:induction false} FirstStays(looks: seq<Look>, x: Look, t: nat, j: nat)
    requires FirstFrom(looks, t, j)
    ensures FirstFrom(looks + [x], t, j) && (looks + [x])[j] == looks[j]
  {
  }

  lemma {:induction false} OnTimeStays(v: Video, f: Frame, copies: seq<nat>, looks: seq<Look>, x: Look)
    requires v.Valid() && OnTime(v, f, copies, looks)
    ensures OnTime(v, f, copies, looks + [x])
  {
    forall l | 0 <= l < |copies| ensures CopiedOnTime(v, f, copies, looks + [x], l) {
      assert CopiedOnTime(v, f, copies, looks, l);
      var j: nat :| FirstFrom(looks, LineTime(v, f, l), j) && copies[l] == looks[j].writes;
      FirstStays(looks, x, LineTime(v, f, l), j);
    }
  }

  /** The next line copied at the look `x`, behind `was`, at which no line from `first` on was due. */
  lemma {:induction false} OneMoreOnTime(v: Video, f: Frame, copies: seq<nat>, was: seq<Look>, x: Look, first: nat)
    requires v.Valid() && OnTime(v, f, copies, was + [x]) && NotDue(v, f, was, first) && first <= |copies|
    requires LineTime(v, f, |copies|) <= x.cycle
    ensures OnTime(v, f, copies + [x.writes], was + [x])
  {
    var looks, more := was + [x], copies + [x.writes];
    LineTimeMonotone(v, f, first, |copies|);
    forall l | 0 <= l < |more| ensures CopiedOnTime(v, f, more, looks, l) {
      if l < |copies| {
        assert CopiedOnTime(v, f, copies, looks, l);
      } else {
        assert FirstFrom(looks, LineTime(v, f, l), |was|);
      }
    }
  }

  lemma {:induction false} NotDueAnyMore(v: Video, f: Frame, was: seq<Look>, x: Look, first: nat, line: nat)
    requires v.Valid() && NotDue(v, f, was, first) && first <= line && x.cycle < LineTime(v, f, line)
    ensures NotDue(v, f, was + [x], line)
  {
    LineTimeMonotone(v, f, first, line);
  }

  /** What a per-word fetch by the beam sees in byte `x` of the screen at `base`. */
  ghost function Fetched(v: Video, f: Frame, h: History, base: nat, x: nat): Byte
    requires v.Valid() && x / LINE_BYTES < |h.copies|
    requires h.copies[x / LINE_BYTES] <= |h.cycles| && |h.mems| == |h.cycles| + 1
    requires forall i :: 0 <= i < |h.mems| ==> base + x < |h.mems[i]|
  {
    h.mems[Seen(h.cycles, h.copies[x / LINE_BYTES], FetchTime(v, f, x))][base + x]
  }

  /** The first `n` bytes of `img` are what the beam fetches. */
  ghost predicate Shows(v: Video, f: Frame, h: History, now: nat, base: nat, img: seq<Byte>, n: nat) {
    && v.Valid() && Sound(h, now) && n <= |img| && n <= LINE_BYTES * |h.copies|
    && (forall i :: 0 <= i < |h.mems| ==> |h.mems[i]| == |h.mems[0]| >= base + SIZE)
    && n <= SIZE
    && forall x :: 0 <= x < n ==> img[x] == Fetched(v, f, h, base, x)
  }

  ghost function AfterWrite(h: History, now: nat, mem: seq<Byte>): History {
    History(h.cycles + [now], h.mems + [mem], h.copies)
  }

  ghost function AfterCopy(h: History): History {
    History(h.cycles, h.mems, h.copies + [|h.cycles|])
  }

  lemma {:induction false} SoundAfterWrite(h: History, was: nat, now: nat, mem: seq<Byte>)
    requires Sound(h, was) && was <= now
    ensures Sound(AfterWrite(h, now, mem), now)
  {
  }

  lemma {:induction false} WatchedAfterWrite(cycles: seq<nat>, looks: seq<Look>, was: nat, now: nat)
    requires Watched(cycles, looks, was) && was <= now
    ensures Watched(cycles + [now], looks, now)
  {
    forall j | 0 <= j < |looks| ensures looks[j].cycle <= now && Splits(cycles + [now], looks[j]) {
      assert Splits(cycles, looks[j]);
    }
  }

  lemma {:induction false} WatchedAfterLook(cycles: seq<nat>, looks: seq<Look>, was: nat, now: nat)
    requires Watched(cycles, looks, was) && was <= now && forall i :: 0 <= i < |cycles| ==> cycles[i] <= was
    ensures Watched(cycles, looks + [Look(now, |cycles|)], now)
  {
    forall j | 0 <= j <= |looks| ensures (looks + [Look(now, |cycles|)])[j].cycle <= now
      && Splits(cycles, (looks + [Look(now, |cycles|)])[j]) {
      assert j < |looks| ==> Splits(cycles, looks[j]);
    }
  }

  /** A write is in the picture of byte `x` exactly if it precedes the fetch. */
  lemma {:induction false} FetchedAfterWrite(v: Video, f: Frame, h: History, was: nat, now: nat, mem: seq<Byte>,
      base: nat, x: nat)
    requires v.Valid() && Sound(h, was) && was <= now && x / LINE_BYTES < |h.copies|
    requires forall i :: 0 <= i < |h.mems| ==> base + x < |h.mems[i]|
    requires base + x < |mem|
    ensures Fetched(v, f, AfterWrite(h, now, mem), base, x)
         == if now < FetchTime(v, f, x) then mem[base + x] else Fetched(v, f, h, base, x)
  {
    SeenMore(h.cycles, h.copies[x / LINE_BYTES], FetchTime(v, f, x), now);
  }

  /** At its copy a line is the memory of that moment. */
  lemma {:induction false} FetchedAfterCopy(v: Video, f: Frame, h: History, now: nat, base: nat, x: nat)
    requires v.Valid() && Sound(h, now) && x / LINE_BYTES <= |h.copies|
    requires forall i :: 0 <= i < |h.mems| ==> base + x < |h.mems[i]|
    ensures Fetched(v, f, AfterCopy(h), base, x)
         == if x / LINE_BYTES == |h.copies| then h.mems[|h.cycles|][base + x] else Fetched(v, f, h, base, x)
  {
  }

  /** Copying line `|h.copies|` from the memory extends what is shown by that line. */
  lemma {:induction false} ShowsAfterCopy(v: Video, f: Frame, h: History, now: nat, base: nat, img: seq<Byte>,
      img': seq<Byte>)
    requires Shows(v, f, h, now, base, img, LINE_BYTES * |h.copies|) && |h.copies| < LINES && |img| == |img'| == SIZE
    requires forall x :: 0 <= x < LINE_BYTES * |h.copies| ==> img'[x] == img[x]
    requires forall x :: LINE_BYTES * |h.copies| <= x < LINE_BYTES * |h.copies| + LINE_BYTES
               ==> img'[x] == h.mems[|h.cycles|][base + x]
    ensures Shows(v, f, AfterCopy(h), now, base, img', LINE_BYTES * (|h.copies| + 1))
  {
    forall x | 0 <= x < LINE_BYTES * (|h.copies| + 1) ensures img'[x] == Fetched(v, f, AfterCopy(h), base, x) {
      FetchedAfterCopy(v, f, h, now, base, x);
      assert x < LINE_BYTES * |h.copies| ==> img[x] == Fetched(v, f, h, base, x);
    }
  }

  /**
    A write at cycle `now`: it is seen by the fetches still to come, all of which are in the
    line being scanned, because the words of the lines before it have been fetched.
  */
  lemma {:induction false} ShowsAfterWrite(v: Video, f: Frame, h: History, was: nat, now: nat, mem: seq<Byte>,
      base: nat, img: seq<Byte>, img': seq<Byte>)
    requires Shows(v, f, h, was, base, img, LINE_BYTES * |h.copies|) && was <= now
    requires |mem| == |h.mems[0]| && |img| == |img'| && 0 < |h.copies| && LineTime(v, f, |h.copies| - 1) <= was
    requires forall x :: 0 <= x < LINE_BYTES * |h.copies| ==>
               img'[x] == if LINE_BYTES * (|h.copies| - 1) <= x && now < FetchTime(v, f, x) then mem[base + x]
                 else img[x]
    ensures Shows(v, f, AfterWrite(h, now, mem), now, base, img', LINE_BYTES * |h.copies|)
  {
    SoundAfterWrite(h, was, now, mem);
    forall x | 0 <= x < LINE_BYTES * |h.copies| ensures img'[x] == Fetched(v, f, AfterWrite(h, now, mem), base, x) {
      FetchedAfterWrite(v, f, h, was, now, mem, base, x);
      assert img[x] == Fetched(v, f, h, base, x);
      if x < LINE_BYTES * (|h.copies| - 1) {
        FetchBeforeNextLine(v, f, x);
        LineTimeMonotone(v, f, x / LINE_BYTES + 1, |h.copies| - 1);
      }
    }
  }

  /** A word still to be fetched shows what the memory holds now. */
  lemma {:induction false} UnfetchedIsCurrent(v: Video, f: Frame, h: History, was: nat, now: nat, base: nat, x: nat)
    requires v.Valid() && Sound(h, was) && was <= now < FetchTime(v, f, x) && x / LINE_BYTES < |h.copies|
    requires forall i :: 0 <= i < |h.mems| ==> base + x < |h.mems[i]|
    ensures Fetched(v, f, h, base, x) == h.mems[|h.cycles|][base + x]
  {
    var l := x / LINE_BYTES;
    if h.copies[l] < |h.cycles| {
      SeenIff(h.cycles, h.copies[l], FetchTime(v, f, x), |h.cycles| - 1);
    }
  }

  /** The same with the memory as it was before the write, of which only `addr` to `addr + n` changed. */
  lemma {:induction false} ShowsAfterCpuWrite(v: Video, f: Frame, h: History, was: nat, now: nat, mem: seq<Byte>,
      base: nat, img: seq<Byte>, img': seq<Byte>, addr: nat, n: nat)
    requires Shows(v, f, h, was, base, img, LINE_BYTES * |h.copies|) && was <= now
    requires |mem| == |h.mems[0]| && |img| == |img'| && 0 < |h.copies| && LineTime(v, f, |h.copies| - 1) <= was
    requires forall a :: 0 <= a < |mem| && !(addr <= a < addr + n) ==> mem[a] == h.mems[|h.cycles|][a]
    requires forall x :: 0 <= x < LINE_BYTES * |h.copies| ==>
               img'[x] == if LINE_BYTES * (|h.copies| - 1) <= x && addr <= base + x < addr + n
                 && now < FetchTime(v, f, x)
                          then mem[base + x] else img[x]
    ensures Shows(v, f, AfterWrite(h, now, mem), now, base, img', LINE_BYTES * |h.copies|)
  {
    forall x | LINE_BYTES * (|h.copies| - 1) <= x < LINE_BYTES * |h.copies| && now < FetchTime(v, f, x)
      ensures img'[x] == mem[base + x] {
      UnfetchedIsCurrent(v, f, h, was, now, base, x);
      assert img[x] == Fetched(v, f, h, base, x);
    }
    ShowsAfterWrite(v, f, h, was, now, mem, base, img, img');
  }

  /** The capture buffers and the state of the line being scanned. */
  class Screen {
    const v: Video
    const base: nat            // address of the screen
    const mem: array<Byte>     // memory of the machine
    var back: array<Byte>      // frame being captured
    var front: array<Byte>     // frame being drawn
    var line: nat              // next line to copy
    var active: bool
    var f: Frame
    var at: nat                // cycle at which to copy the next line
    var hotLine: int           // the line being scanned, or -1
    var hotT0: nat             // cycle at which that line starts
    var hotLo: nat             // its addresses
    var hotHi: nat
    var hotOff: nat            // its place in the buffer
    ghost var h: History
    ghost var looks: seq<Look> // the looks of this frame
    ghost var now: nat         // cycle of the last event

    constructor (v: Video, base: nat, mem: array<Byte>)
      requires v.Valid() && base + SIZE <= mem.Length
      ensures Valid() && !active && this.v == v && this.base == base && this.mem == mem
      ensures fresh(back) && fresh(front)
    {
      this.v, this.base, this.mem := v, base, mem;
      back, front := new Byte[SIZE](_ => 0), new Byte[SIZE](_ => 0);
      line, active, f, at := 0, false, Frame(0, 0), NEVER;
      hotLine, hotT0, hotLo, hotHi, hotOff := -1, 0, 0, 0, 0;
      h, looks, now := History([], [], []), [], 0;
    }

    ghost predicate Valid()
      reads this, mem, back, front
    {
      && Buffers()
      && line <= LINES && (active ==> line < LINES)
      && at == (if active then LineTime(v, f, line) else NEVER)
      && (active ==> Capturing() && Punctual() && NotDue(v, f, looks, line))
      && (!active ==> hotLine == -1)
      && (hotLine == -1 ==> hotLo == hotHi == 0)
    }

    /** The lines before `line` are copied, and show what has been fetched or is going to be. */
    ghost predicate Copied()
      reads this, mem, back, front
    {
      && |h.copies| == line && Shows(v, f, h, now, base, back[..], LINE_BYTES * line)
      && h.mems[|h.cycles|] == mem[..]
    }

    /** Every copied line was copied at the first look from its time on. */
    ghost predicate Punctual()
      reads this
      requires v.Valid()
    {
      Watched(h.cycles, looks, now) && OnTime(v, f, h.copies, looks)
    }

    /** The beam is in the line copied last. */
    ghost predicate Capturing()
      reads this, mem, back, front
    {
      && Copied()
      && (line == 0 ==> hotLine == -1)
      && (line > 0 ==>
            && hotT0 == LineTime(v, f, line - 1) <= now && hotLine == line - 1
            && hotOff == LINE_BYTES * (line - 1) && hotLo == base + hotOff && hotHi == hotLo + LINE_BYTES)
    }

    /** Copies the bytes of line `line`. */
    method CopyBytes(off: nat)
      requires back != front && mem != back && back.Length == SIZE && base + SIZE <= mem.Length
        && off + LINE_BYTES <= SIZE
      modifies back
      ensures forall x :: 0 <= x < SIZE ==> back[x] == if off <= x < off + LINE_BYTES then mem[base + x]
        else old(back[x])
    {
      for i := 0 to LINE_BYTES
        invariant forall x :: 0 <= x < SIZE ==> back[x] == if off <= x < off + i then mem[base + x] else old(back[x])
      {
        back[off + i] := mem[base + (off + i)];
      }
    }

    ghost predicate Buffers()
      reads this
    {
      && v.Valid() && back != front && mem != back && mem != front
      && back.Length == front.Length == SIZE && base + SIZE <= mem.Length
    }

    /** Copies the next line; from now on the beam scans it. */
    method CopyLine()
      requires Buffers() && line < LINES && Copied()
      modifies this`line, this`hotLine, this`hotT0, this`hotLo, this`hotHi, this`hotOff, this`h, back
      ensures line == old(line) + 1 && Copied() && h == AfterCopy(old(h))
      ensures LineTime(v, f, old(line)) <= now ==> Capturing()
    {
      var off := line * LINE_BYTES;
      ghost var img := back[..];
      CopyBytes(off);
      ShowsAfterCopy(v, f, h, now, base, img, back[..]);
      h := AfterCopy(h);
      hotLine, hotT0 := line, LineTime(v, f, line);
      hotLo, hotHi, hotOff := base + off, base + off + LINE_BYTES, off;
      line := line + 1;
    }
  
    predicate HotLine()
      reads this
      requires v.Valid()
    {
      && hotOff + LINE_BYTES <= SIZE && hotOff % LINE_BYTES == 0
      && hotLo == base + hotOff && hotHi == hotLo + LINE_BYTES && hotT0 == LineTime(v, f, hotOff / LINE_BYTES)
    }

    /** Puts the written bytes of the line being scanned that are not fetched yet into the copy. */
    method ScreenWrite(addr: nat, n: nat, cycle: nat)
      requires Buffers() && addr + n <= mem.Length
      requires hotLine >= 0 ==> HotLine()
      modifies back
      ensures forall x :: 0 <= x < SIZE ==>
        back[x] == if hotLine >= 0 && hotOff <= x < hotOff + LINE_BYTES && addr <= base + x < addr + n
          && cycle < FetchTime(v, f, x)
                   then mem[base + x] else old(back[x])
    {
      if hotLine < 0 {
        return;
      }
      for i := 0 to n
        invariant forall x :: 0 <= x < SIZE ==>
          back[x] == if hotOff <= x < hotOff + LINE_BYTES && addr <= base + x < addr + i && cycle < FetchTime(v, f, x)
                     then mem[base + x] else old(back[x])
      {
        var a := addr + i;
        if hotLo <= a < hotHi {
          var x := hotOff + (a - hotLo);
          var word := (a - hotLo) / 2;
          var fetch := hotT0 + PxCycles(v, f, 8 * word);
          assert x / LINE_BYTES == hotOff / LINE_BYTES && x % LINE_BYTES == a - hotLo && base + x == a;
          assert fetch == FetchTime(v, f, x);
          if cycle < fetch {
            back[x] := mem[a];
          }
        }
      }
    }
  
    /** The memory takes the bytes `data`. */
    method StoreBytes(addr: nat, data: seq<Byte>)
      requires addr + |data| <= mem.Length
      modifies mem
      ensures mem[..] == old(mem[..addr]) + data + old(mem[addr + |data|..])
    {
      ghost var was := mem[..];
      for i := 0 to |data|
        invariant mem[..] == was[..addr] + data[..i] + was[addr + i..]
      {
        mem[addr + i] := data[i];
      }
    }

    /** The memory takes the bytes, and the picture those of words not yet fetched. */
    method StoreAndPatch(addr: nat, data: seq<Byte>, cycle: nat)
      requires Buffers() && addr + |data| <= mem.Length
      requires if hotLine >= 0 then HotLine() else hotLo == hotHi == 0
      modifies mem, back
      ensures mem[..] == old(mem[..addr]) + data + old(mem[addr + |data|..])
      ensures forall x :: 0 <= x < SIZE ==>
        back[x] == if hotLine >= 0 && hotOff <= x < hotOff + LINE_BYTES && addr <= base + x < addr + |data|
                     && cycle < FetchTime(v, f, x)
                   then mem[base + x] else old(back[x])
    {
      StoreBytes(addr, data);
      if addr < hotHi && addr + |data| > hotLo {
        ScreenWrite(addr, |data|, cycle);
      }
    }

    /** The CPU stores `data` at `addr`. */
    method CpuWrite(addr: nat, data: seq<Byte>, cycle: nat)
      requires Valid() && addr + |data| <= mem.Length && now <= cycle
      modifies this`h, this`now, mem, back
      ensures Valid() && now == cycle
      ensures mem[..] == old(mem[..addr]) + data + old(mem[addr + |data|..])
      ensures h == if active then AfterWrite(old(h), cycle, mem[..]) else old(h)
    {
      ghost var img, was := back[..], mem[..];
      StoreAndPatch(addr, data, cycle);
      if active {
        Written(img, was, addr, |data|, cycle);
        NoteWrite(cycle);
      } else {
        now := cycle;
      }
    }

    /** Only notes that the memory has been written. */
    ghost method NoteWrite(cycle: nat)
      requires v.Valid() && now <= cycle && Punctual()
      modifies this`h, this`now
      ensures now == cycle && h == AfterWrite(old(h), cycle, mem[..]) && Punctual()
    {
      WatchedAfterWrite(h.cycles, looks, now, cycle);
      h, now := AfterWrite(h, cycle, mem[..]), cycle;
    }

    /** `img` and `was` are the picture and the memory before the write. */
    lemma {:induction false} Written(img: seq<Byte>, was: seq<Byte>, addr: nat, n: nat, cycle: nat)
      requires Buffers() && line <= LINES && |h.copies| == line && now <= cycle
      requires Shows(v, f, h, now, base, img, LINE_BYTES * line) && h.mems[|h.cycles|] == was && |was| == mem.Length
      requires |img| == SIZE && (line > 0 ==> LineTime(v, f, line - 1) <= now)
      requires forall a :: 0 <= a < mem.Length && !(addr <= a < addr + n) ==> mem[a] == was[a]
      requires line > 0 ==> forall x :: 0 <= x < LINE_BYTES * line ==>
        back[x] == if LINE_BYTES * (line - 1) <= x && addr <= base + x < addr + n && cycle < FetchTime(v, f, x)
                   then mem[base + x] else img[x]
      ensures Shows(v, f, AfterWrite(h, cycle, mem[..]), cycle, base, back[..], LINE_BYTES * line)
    {
      if line > 0 {
        ShowsAfterCpuWrite(v, f, h, now, cycle, mem[..], base, img, back[..], addr, n);
      } else {
        SoundAfterWrite(h, now, cycle, mem[..]);
      }
    }

    /** The completed frame becomes the one to draw. */
    method Present()
      requires Buffers()
      modifies this`back, this`front, this`active, this`hotLine, this`hotLo, this`hotHi
      ensures Buffers() && !active && hotLine == -1 && hotLo == hotHi == 0
      ensures front == old(back) && back == old(front)
    {
      hotLo, hotHi, hotLine := 0, 0, -1;
      front, back := back, front;
      active := false;
    }

    /** At the last of the looks, behind `was`, copies the lines whose time has come. */
    method CopyDue(cycle: nat, ghost was: seq<Look>)
      requires now == cycle && Buffers() && line <= LINES && Capturing() && (hotLine == -1 ==> hotLo == hotHi == 0)
      requires looks == was + [Look(cycle, |h.cycles|)] && Punctual() && NotDue(v, f, was, line)
      modifies this`line, this`hotLine, this`hotT0, this`hotLo, this`hotHi, this`hotOff, this`h, back
      ensures Buffers() && old(line) <= line <= LINES && Capturing() && (hotLine == -1 ==> hotLo == hotHi == 0)
      ensures line < LINES ==> now < LineTime(v, f, line)
      ensures h.cycles == old(h).cycles && h.mems == old(h).mems && Punctual()
      ensures old(h).copies <= h.copies && forall l :: old(line) <= l < line ==> h.copies[l] == |h.cycles|
    {
      while line < LINES && LineTime(v, f, line) <= cycle
        invariant Buffers() && old(line) <= line <= LINES && Capturing() && Punctual()
        invariant hotLine == -1 ==> hotLo == hotHi == 0
        invariant h.cycles == old(h).cycles && h.mems == old(h).mems
        invariant old(h).copies <= h.copies && forall l :: old(line) <= l < line ==> h.copies[l] == |h.cycles|
        decreases LINES - line
      {
        OneMoreOnTime(v, f, h.copies, was, Look(cycle, |h.cycles|), old(line));
        CopyLine();
      }
    }

    /**
      Copies every line whose time has come; after the last one, and not before its time, the
      frame is completed.
    */
    method SnapshotLine(cycle: nat)
      requires Valid() && now <= cycle
      modifies this, back
      ensures Valid() && now == cycle && f == old(f)
      ensures !old(active) ==> !active && front == old(front) && back == old(back)
      ensures old(active) ==>
        (active <==> cycle < LineTime(v, f, LINES - 1)) && (active ==> cycle < LineTime(v, f, line))
      ensures old(active) ==>
        && looks == old(looks) + [Look(cycle, |h.cycles|)] && h.cycles == old(h).cycles && h.mems == old(h).mems
        && old(h).copies <= h.copies && Punctual()
        && forall l :: |old(h).copies| <= l < |h.copies| ==> h.copies[l] == |h.cycles|
      ensures old(active) && !active ==>
        && |h.copies| == LINES && h.copies[LINES - 1] == |h.cycles|
        && front == old(back) && Shows(v, f, h, now, base, front[..], SIZE)
    {
      if active {
        ghost var was, first := looks, line;
        NoteLook(cycle);
        CopyDue(cycle, was);
        NextLine(cycle, was, first);
      } else {
        now := cycle;
        at := NEVER;
      }
    }

    /** Completes the frame behind its last line, or sets the time of the next one. */
    method NextLine(cycle: nat, ghost was: seq<Look>, ghost first: nat)
      requires active && now == cycle && Buffers() && first <= line <= LINES && Capturing() && Punctual()
      requires hotLine == -1 ==> hotLo == hotHi == 0
      requires looks == was + [Look(cycle, |h.cycles|)] && NotDue(v, f, was, first)
      requires line < LINES ==> cycle < LineTime(v, f, line)
      modifies this`back, this`front, this`active, this`hotLine, this`hotLo, this`hotHi, this`at
      ensures Valid() && (active <==> cycle < LineTime(v, f, LINES - 1))
      ensures if active then front == old(front) && back == old(back) else front == old(back) && line == LINES
    {
      if line >= LINES {
        Present();
        at := NEVER;
      } else {
        LineTimeMonotone(v, f, line, LINES - 1);
        NotDueAnyMore(v, f, was, Look(cycle, |h.cycles|), first, line);
        at := LineTime(v, f, line);
      }
    }

    /** Only notes that the program looks. */
    ghost method NoteLook(cycle: nat)
      requires v.Valid() && now <= cycle && Sound(h, now) && Punctual()
      modifies this`looks, this`now
      ensures now == cycle && looks == old(looks) + [Look(cycle, |h.cycles|)] && Punctual()
    {
      WatchedAfterLook(h.cycles, looks, now, cycle);
      OnTimeStays(v, f, h.copies, looks, Look(cycle, |h.cycles|));
      looks, now := looks + [Look(cycle, |h.cycles|)], cycle;
    }

    /** Behind every instruction: a look, which does nothing before the time of the next line. */
    method AfterInstruction(cycle: nat)
      requires Valid() && now <= cycle
      modifies this, back
      ensures Valid() && now == cycle && f == old(f)
      ensures !old(active) ==> !active && front == old(front) && back == old(back)
      ensures old(active) ==>
        looks == old(looks) + [Look(cycle, |h.cycles|)] && h.cycles == old(h).cycles && h.mems == old(h).mems
      ensures old(active) ==> (active <==> cycle < LineTime(v, f, LINES - 1)) && Punctual() && old(h).copies <= h.copies
      ensures old(active) && !active ==>
        && |h.copies| == LINES && h.copies[LINES - 1] == |h.cycles|
        && front == old(back) && Shows(v, f, h, now, base, front[..], SIZE)
    {
      if cycle >= at {
        SnapshotLine(cycle);
      } else if active {
        NotDueAnyMore(v, f, looks, Look(cycle, |h.cycles|), line, line);
        LineTimeMonotone(v, f, line, LINES - 1);
        NoteLook(cycle);
      } else {
        now := cycle;
      }
    }

    /**
      A frame of `len` cycles starts. If time stood still and the frame before it is not
      completed, its remaining lines are copied as they are now.
    */
    method FrameStart(cycle: nat, len: nat)
      requires Valid() && now <= cycle
      modifies this, back
      ensures Valid() && active && line == 0 && f == Frame(cycle, len) && now == cycle && h.copies == [] && looks == []
      ensures !old(active) ==> front == old(front) && back == old(back)
      ensures old(active) ==> front == old(back) && back == old(front)
      ensures old(active) ==> exists was: History ::
        |was.copies| == LINES && old(h).copies <= was.copies && was.cycles == old(h).cycles && was.mems == old(h).mems
        && (forall l :: |old(h).copies| <= l < LINES ==> was.copies[l] == |was.cycles|)
        && Shows(v, old(f), was, old(now), base, front[..], SIZE)
    {
      if active {
        ghost var was := FinishFrame();
      }
      Begin(cycle, len);
    }

    /** Copies the remaining lines as they are now. */
    method CopyRest()
      requires Buffers() && line <= LINES && Copied()
      modifies this`line, this`hotLine, this`hotT0, this`hotLo, this`hotHi, this`hotOff, this`h, back
      ensures Buffers() && line == LINES && Copied() && h.cycles == old(h).cycles && h.mems == old(h).mems
      ensures old(h).copies <= h.copies && forall l :: |old(h).copies| <= l < LINES ==> h.copies[l] == |h.cycles|
    {
      while line < LINES
        invariant Buffers() && line <= LINES && Copied() && h.cycles == old(h).cycles && h.mems == old(h).mems
        invariant old(h).copies <= h.copies
        invariant forall l :: |old(h).copies| <= l < |h.copies| ==> h.copies[l] == |h.cycles|
        decreases LINES - line
      {
        CopyLine();
      }
    }

    /** Completes the frame with the remaining lines as they are now. */
    method FinishFrame() returns (ghost was: History)
      requires Valid() && active
      modifies this`line, this`hotLine, this`hotT0, this`hotLo, this`hotHi, this`hotOff, this`h, this`active
      modifies this`back, this`front, back
      ensures Buffers() && !active && hotLine == -1 && hotLo == hotHi == 0 && front == old(back) && back == old(front)
      ensures |was.copies| == LINES && old(h).copies <= was.copies && was.cycles == old(h).cycles
        && was.mems == old(h).mems
      ensures forall l :: |old(h).copies| <= l < LINES ==> was.copies[l] == |was.cycles|
      ensures Shows(v, f, was, now, base, front[..], SIZE)
    {
      CopyRest();
      was := h;
      Present();
    }

    /** Begins a frame of `len` cycles. */
    method Begin(cycle: nat, len: nat)
      requires Buffers() && now <= cycle && hotLine == -1 && hotLo == hotHi == 0
      modifies this`line, this`active, this`f, this`h, this`looks, this`now, this`at
      ensures Valid() && active && line == 0 && f == Frame(cycle, len) && now == cycle && h.copies == [] && looks == []
    {
      line, active, f := 0, true, Frame(cycle, len);
      h, looks, now := History([], [mem[..]], []), [], cycle;
      at := LineTime(v, f, 0);
    }
  }

  /** Byte `x` of a frame shows the memory after `k` writes, those before the copy of its line or its own fetch. */
  lemma {:induction false} FrameSeen(v: Video, f: Frame, h: History, now: nat, base: nat, img: seq<Byte>, x: nat)
    returns (k: nat)
    requires Shows(v, f, h, now, base, img, SIZE) && x < SIZE
    ensures k <= |h.cycles| && img[x] == h.mems[k][base + x]
    ensures forall i :: 0 <= i < |h.cycles| ==>
      (i < k <==> i < h.copies[x / LINE_BYTES] || h.cycles[i] < FetchTime(v, f, x))
    ensures h.copies[x / LINE_BYTES] == |h.cycles| ==> k == |h.cycles|
  {
    var copied, fetch := h.copies[x / LINE_BYTES], FetchTime(v, f, x);
    k := Seen(h.cycles, copied, fetch);
    assert img[x] == Fetched(v, f, h, base, x);
    forall i | 0 <= i < |h.cycles| ensures i < k <==> i < copied || h.cycles[i] < fetch {
      SeenIff(h.cycles, copied, fetch, i);
    }
  }

  /** `all` is the history `h` of a frame with the writes from cycle `now` on behind it. */
  ghost predicate Continues(h: History, all: History, now: nat) {
    && |h.mems| == |h.cycles| + 1 && |all.mems| == |all.cycles| + 1
    && h.cycles <= all.cycles && h.mems <= all.mems && all.copies == h.copies
    && forall i :: |h.cycles| <= i < |all.cycles| ==> now <= all.cycles[i]
  }

  /** When the last line is copied, every word of the other lines has been fetched. */
  lemma {:induction false} FetchedInTime(v: Video, f: Frame, x: nat, now: nat)
    requires v.Valid() && x / LINE_BYTES < LINES - 1 && LineTime(v, f, LINES - 1) <= now
    ensures FetchTime(v, f, x) <= now
  {
    FetchBeforeNextLine(v, f, x);
    LineTimeMonotone(v, f, x / LINE_BYTES + 1, LINES - 1);
  }

  /**
    The completed frame is what the beam fetches, over all writes `all` of the machine, also
    those after the frame has been presented: byte `x` shows the memory after the last write
    that precedes its own fetch, or look `j`, the first from the time of its line on, at
    which the line was copied. The last line is frozen at that look.
  */
  lemma {:induction false} FrameIsBeam(v: Video, f: Frame, h: History, looks: seq<Look>, all: History, now: nat,
      base: nat, img: seq<Byte>, x: nat)
    returns (k: nat, j: nat)
    requires Shows(v, f, h, now, base, img, SIZE) && x < SIZE && OnTime(v, f, h.copies, looks)
    requires LineTime(v, f, LINES - 1) <= now && h.copies[LINES - 1] == |h.cycles| && Continues(h, all, now)
    ensures k < |all.mems| && base + x < |all.mems[k]| && img[x] == all.mems[k][base + x]
    ensures FirstFrom(looks, LineTime(v, f, x / LINE_BYTES), j)
    ensures x / LINE_BYTES < LINES - 1 ==> forall i :: 0 <= i < |all.cycles| ==>
      (i < k <==> i < looks[j].writes || all.cycles[i] < FetchTime(v, f, x))
    ensures x / LINE_BYTES == LINES - 1 ==> k == looks[j].writes == |h.cycles|
  {
    var l := x / LINE_BYTES;
    k := FrameSeen(v, f, h, now, base, img, x);
    assert CopiedOnTime(v, f, h.copies, looks, l);
    j :| FirstFrom(looks, LineTime(v, f, l), j) && h.copies[l] == looks[j].writes;
    if l < LINES - 1 {
      FetchedInTime(v, f, x, now);
      forall i | 0 <= i < |all.cycles| ensures i < k <==> i < looks[j].writes || all.cycles[i] < FetchTime(v, f, x) {
        assert i < |h.cycles| ==> all.cycles[i] == h.cycles[i];
      }
    }
  }

  /** A look at least every `d` cycles from the frame start on: `d` is the longest instruction. */
  ghost predicate Steady(start: nat, looks: seq<Look>, d: nat) {
    forall j :: 0 <= j < |looks| ==> looks[j].cycle <= Before(start, looks, j) + d
  }

  /** The time of the look in front of look `j`, or the frame start. */
  ghost function Before(start: nat, looks: seq<Look>, j: nat): nat
    requires j <= |looks|
  {
    if j == 0 then start else looks[j - 1].cycle
  }

  /** So a line is copied less than `d` cycles after its time. */
  lemma {:induction false} LookedInTime(v: Video, f: Frame, looks: seq<Look>, d: nat, l: nat, j: nat)
    requires v.Valid() && Steady(f.start, looks, d) && FirstFrom(looks, LineTime(v, f, l), j)
    ensures looks[j].cycle < LineTime(v, f, l) + d
  {
    assert f.start < LineTime(v, f, l);
    assert Before(f.start, looks, j) < LineTime(v, f, l);
  }

  /** No look from cycle `t` on stands before write `i`. */
  ghost predicate Unlooked(looks: seq<Look>, t: nat, i: nat) {
    forall m :: 0 <= m < |looks| && looks[m].writes <= i ==> looks[m].cycle < t
  }

  lemma {:induction false} NoLookBefore(cycles: seq<nat>, looks: seq<Look>, now: nat, t: nat, j: nat, i: nat)
    requires Watched(cycles, looks, now) && FirstFrom(looks, t, j) && i < looks[j].writes
    ensures Unlooked(looks, t, i)
  {
    forall m | 0 <= m < |looks| && looks[m].writes <= i ensures looks[m].cycle < t {
      assert m < j;
    }
  }

  /**
    What the capture can get wrong, with a look behind every instruction: the picture misses
    no write before the fetch of a word, and a write it shows too early comes less than one
    instruction after the time of the line, before the first look from then on. Words fetched
    later than that are exactly what the beam fetches.
  */
  lemma {:induction false} WrongByOneInstruction(v: Video, f: Frame, h: History, looks: seq<Look>, all: History,
      now: nat, base: nat, img: seq<Byte>, x: nat, d: nat)
    returns (k: nat)
    requires Shows(v, f, h, now, base, img, SIZE) && x < SIZE && x / LINE_BYTES < LINES - 1
    requires OnTime(v, f, h.copies, looks) && Watched(h.cycles, looks, now) && Steady(f.start, looks, d)
    requires LineTime(v, f, LINES - 1) <= now && h.copies[LINES - 1] == |h.cycles| && Continues(h, all, now)
    ensures k < |all.mems| && base + x < |all.mems[k]| && img[x] == all.mems[k][base + x]
    ensures forall i :: 0 <= i < |all.cycles| && all.cycles[i] < FetchTime(v, f, x) ==> i < k
    ensures forall i :: 0 <= i < |all.cycles| && i < k && FetchTime(v, f, x) <= all.cycles[i] ==>
      all.cycles[i] < LineTime(v, f, x / LINE_BYTES) + d && Unlooked(looks, LineTime(v, f, x / LINE_BYTES), i)
    ensures FetchTime(v, f, x) >= LineTime(v, f, x / LINE_BYTES) + d ==>
      forall i :: 0 <= i < |all.cycles| ==> (i < k <==> all.cycles[i] < FetchTime(v, f, x))
  {
    var t, j := LineTime(v, f, x / LINE_BYTES), 0;
    k, j := FrameIsBeam(v, f, h, looks, all, now, base, img, x);
    LookedInTime(v, f, looks, d, x / LINE_BYTES, j);
    assert Splits(h.cycles, looks[j]);
    forall i | 0 <= i < |all.cycles| && i < looks[j].writes
      ensures all.cycles[i] < t + d && Unlooked(looks, t, i) {
      assert all.cycles[i] == h.cycles[i];
      NoLookBefore(h.cycles, looks, now, t, j, i);
    }
  }

  /**
    It does happen: a write at the very cycle of the first fetch, by an instruction behind
    which the first line is copied, is in the picture.
  */
  lemma {:induction false} OneWriteTooEarly()
    ensures var v, f, zeros, ones := Video(0, 512, 1), Frame(0, 0), seq(SIZE, _ => 0), seq(SIZE, _ => 1);
      var h, looks := History([1], [zeros, ones], [1]), [Look(1, 1)];
      && v.Valid() && Sound(h, 1) && Watched(h.cycles, looks, 1) && OnTime(v, f, h.copies, looks)
      && h.cycles[0] >= FetchTime(v, f, 0) && Fetched(v, f, h, 0, 0) == 1
  {
    var v, f, looks := Video(0, 512, 1), Frame(0, 0), [Look(1, 1)];
    assert LineTime(v, f, 0) == FetchTime(v, f, 0) == 1;
    assert FirstFrom(looks, LineTime(v, f, 0), 0);
    assert CopiedOnTime(v, f, [1], looks, 0);
  }
}
