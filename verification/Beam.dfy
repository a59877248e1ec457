/**
  Contention of the CPU with the ZX8301 for the internal RAM: when an access may start, and
  how long the wait loop can last, at every speed of the CPU.
*/
module Beam {
  import opened Powers

  const U64: nat := 0x1_0000_0000_0000_0000
  const U32: nat := 0x1_0000_0000
  const CHUNK: nat := 12
  const NATIVE: nat := 20
  const VISIBLE: nat := 256

  /** First visible line of a frame, and whether lines are NTSC (474 cycles of a QL) or PAL (480). */
  datatype Geometry = Geometry(first: nat, ntsc: bool) {
    const lineCyc: nat := if ntsc then 474 else 480
    const lines: nat := if ntsc then 262 else 312

    function Line(n: nat): nat {
      if ntsc then n / 474 else n / 480
    }

    function Pos(n: nat): (p: nat)
      ensures p < lineCyc && n == Line(n) * lineCyc + p
    {
      if ntsc then n % 474 else n % 480
    }
  }

  /** Chunks of a line in which the ZX8301 uses the RAM. */
  function Busy(g: Geometry, line: nat): nat {
    if g.first <= line < g.first + VISIBLE then 32 else 8
  }

  /** An access may start on cycle `n` of a frame of a QL: outside the busy chunks, or at the start of one. */
  predicate Free(g: Geometry, n: nat)
  {
    g.Pos(n) >= Busy(g, g.Line(n)) * CHUNK || g.Pos(n) % CHUNK == 0
  }

  /** The 256 visible lines leave the CPU 96 cycles of a PAL line and 90 of an NTSC line, and other lines all but 96. */
  lemma {:induction false} FreeIs(g: Geometry, n: nat)
    ensures var visible := g.first <= g.Line(n) < g.first + 256;
      Free(g, n) <==> g.Pos(n) % 12 == 0 || g.Pos(n) >= if visible then 384 else 96
  {
  }

  /** Cycles of a QL in `d` cycles of a CPU of speed `speed`. */
  function Ql(d: nat, speed: nat): nat
    requires speed > 0
  {
    d * NATIVE / speed
  }

  /** The CPU cycle `d` of a frame covers a QL cycle on which an access may start. */
  ghost predicate Covers(g: Geometry, speed: nat, d: nat)
    requires speed > 0
  {
    exists n :: Ql(d, speed) <= n && (n == Ql(d, speed) || n < Ql(d + 1, speed)) && Free(g, n)
  }

  // ---- the test at any speed ----

  function ScaledTest(g: Geometry, speed: nat, d: nat): bool
    requires speed > 0
  {
    var n0 := Ql(d, speed);
    var pos := g.Pos(n0);
    var busy := Busy(g, g.Line(n0));
    if pos >= busy * CHUNK || pos % CHUNK == 0 then true
    else speed < NATIVE && Ql(d + 1, speed) - n0 > CHUNK - pos % CHUNK
  }

  /** The first QL cycle from `n` on that is free; it is less than a chunk away. */
  function NextFree(g: Geometry, n: nat): (m: nat)
    ensures n <= m < n + CHUNK
  {
    var r := g.Pos(n) % CHUNK;
    if Free(g, n) || r == 0 then n else n + CHUNK - r
  }

  /** Inside a busy chunk the next free cycle is the start of the next chunk. */
  lemma {:induction false} FreeAhead(g: Geometry, n: nat, k: nat)
    requires !Free(g, n) && k <= CHUNK - g.Pos(n) % CHUNK
    ensures Free(g, n + k) <==> k == CHUNK - g.Pos(n) % CHUNK
  {
    var line, pos := g.Line(n), g.Pos(n);
    var r := pos % CHUNK;
    assert pos + (CHUNK - r) <= Busy(g, line) * CHUNK <= 384;
    assert g.Line(n + k) == line && g.Pos(n + k) == pos + k;
    assert (pos + k) % CHUNK == if k == CHUNK - r then 0 else r + k;
  }

  lemma {:induction false} NextFreeIsFirst(g: Geometry, n: nat)
    ensures Free(g, NextFree(g, n))
    ensures forall m :: n <= m < NextFree(g, n) ==> !Free(g, m)
  {
    if !Free(g, n) {
      FreeAhead(g, n, NextFree(g, n) - n);
      forall m | n <= m < NextFree(g, n) ensures !Free(g, m) {
        FreeAhead(g, n, m - n);
      }
    }
  }

  lemma {:induction false} QlBounds(d: nat, speed: nat)
    requires speed > 0
    ensures Ql(d, speed) * speed <= d * NATIVE < Ql(d, speed) * speed + speed
    ensures Ql(d, speed) <= Ql(d + 1, speed)
    ensures speed >= NATIVE ==> Ql(d + 1, speed) <= Ql(d, speed) + 1
  {
    var q, p := Ql(d, speed), Ql(d + 1, speed);
    assert d * NATIVE == q * speed + d * NATIVE % speed;
    assert (d + 1) * NATIVE == p * speed + (d + 1) * NATIVE % speed;
    if p < q {
      Multiples(p, q, speed);
    }
    if speed >= NATIVE && p > q + 1 {
      Multiples(q + 1, p, speed);
      Multiples(q, q + 1, speed);
    }
  }

  /** The test with its correction for slow CPUs says exactly whether a free QL cycle is covered. */
  lemma {:induction false} ScaledIsCover(g: Geometry, speed: nat, d: nat)
    requires speed > 0
    ensures ScaledTest(g, speed, d) <==> Covers(g, speed, d)
  {
    var n0, n1 := Ql(d, speed), Ql(d + 1, speed);
    QlBounds(d, speed);
    NextFreeIsFirst(g, n0);
    var m := NextFree(g, n0);
    if ScaledTest(g, speed, d) {
      assert Free(g, m);
    }
    if Covers(g, speed, d) {
      var n :| n0 <= n && (n == n0 || n < n1) && Free(g, n);
      assert m <= n;
    }
  }

  /** How many CPU cycles from `d` on until a free QL cycle is covered. */
  function Delay(g: Geometry, speed: nat, d: nat): nat
    requires speed > 0
    decreases NextFree(g, Ql(d, speed)) * speed - d * NATIVE
  {
    if ScaledTest(g, speed, d) then 0
    else
      (DelayStep(g, speed, d); 1 + Delay(g, speed, d + 1))
  }

  /** A CPU cycle that covers no free QL cycle does not step over the next free one. */
  lemma {:induction false} DelayStep(g: Geometry, speed: nat, d: nat)
    requires speed > 0 && !ScaledTest(g, speed, d)
    ensures NextFree(g, Ql(d + 1, speed)) == NextFree(g, Ql(d, speed))
    ensures d * NATIVE < NextFree(g, Ql(d, speed)) * speed
  {
    var n0, n1 := Ql(d, speed), Ql(d + 1, speed);
    var m, m1 := NextFree(g, n0), NextFree(g, n1);
    QlBounds(d, speed);
    ScaledIsCover(g, speed, d);
    NextFreeIsFirst(g, n0);
    NextFreeIsFirst(g, n1);
    assert n0 < m && n1 <= m;
    assert m1 <= m && m <= m1;
    MulAhead(n0, 1, m, speed);
  }

  lemma {:induction false} MulAhead(a: nat, i: nat, b: nat, k: nat)
    ensures a + i <= b ==> a * k + i * k <= b * k
    ensures b <= a + i ==> b * k <= a * k + i * k
  {
    assert (a + i) * k == a * k + i * k;
    assert a + i <= b ==> (a + i) * k <= b * k;
    assert b <= a + i ==> b * k <= (a + i) * k;
  }

  /** The wait never lasts longer than 11 cycles of a QL take. */
  lemma {:induction false} DelayBound(g: Geometry, speed: nat, d: nat)
    requires speed > 0
    ensures Delay(g, speed, d) <= (11 * speed + 19) / NATIVE
  {
    DelayUpTo(g, speed, d);
    QlBounds(d, speed);
    var n0 := Ql(d, speed);
    MulAhead(n0, 11, NextFree(g, n0), speed);
    Distance(d, Delay(g, speed, d), n0 * speed, NextFree(g, n0) * speed, speed);
  }

  lemma {:induction false} Distance(d: nat, delay: nat, from: nat, to: nat, speed: nat)
    requires from <= d * NATIVE && to <= from + 11 * speed && (delay > 0 ==> (d + delay - 1) * NATIVE < to)
    ensures delay <= (11 * speed + 19) / NATIVE
  {
  }

  lemma {:induction false} DelayUpTo(g: Geometry, speed: nat, d: nat)
    requires speed > 0
    ensures Delay(g, speed, d) > 0 ==> (d + Delay(g, speed, d) - 1) * NATIVE < NextFree(g, Ql(d, speed)) * speed
    decreases NextFree(g, Ql(d, speed)) * speed - d * NATIVE
  {
    if !ScaledTest(g, speed, d) {
      DelayStep(g, speed, d);
      DelayUpTo(g, speed, d + 1);
    }
  }

  /**
    The wait ends on the first CPU cycle that covers a free QL cycle, and what it covers is
    the very first free one: no start of a chunk is stepped over at any speed.
  */
  lemma {:induction false} DelayCovers(g: Geometry, speed: nat, d: nat)
    requires speed > 0
    ensures var e, m := d + Delay(g, speed, d), NextFree(g, Ql(d, speed));
      Ql(e, speed) <= m && (m == Ql(e, speed) || m < Ql(e + 1, speed))
    ensures forall k :: d <= k < d + Delay(g, speed, d) ==> !Covers(g, speed, k)
    decreases Delay(g, speed, d)
  {
    var n0, n1 := Ql(d, speed), Ql(d + 1, speed);
    ScaledIsCover(g, speed, d);
    NextFreeIsFirst(g, n0);
    QlBounds(d, speed);
    if ScaledTest(g, speed, d) {
      var n :| n0 <= n && (n == n0 || n < n1) && Free(g, n);
      assert NextFree(g, n0) <= n;
    } else {
      DelayStep(g, speed, d);
      DelayCovers(g, speed, d + 1);
    }
  }

  // ---- the test at native speed, with its cached line ----

  /** First cycle of the cached line, first cycle behind it, and its busy chunks. */
  datatype LineCache = LineCache(t0: nat, t1: nat, busy: nat)

  const NO_LINE := LineCache(0, 0, 0)

  /** The line of cycle `c`; the differences are those of 64-bit unsigned numbers. */
  function Locate(g: Geometry, frame: nat, c: nat): LineCache {
    var line := g.Line((c - frame) % U64);
    var t0 := (frame + line * g.lineCyc) % U64;
    LineCache(t0, (t0 + g.lineCyc) % U64, Busy(g, line))
  }

  function Looked(g: Geometry, frame: nat, cache: LineCache, c: nat): LineCache {
    if c < cache.t0 || c >= cache.t1 || c < frame then Locate(g, frame, c) else cache
  }

  function NativeTest(g: Geometry, frame: nat, cache: LineCache, c: nat): bool {
    var line := Looked(g, frame, cache, c);
    var x := (c - line.t0) % U64 % U32;
    x >= line.busy * CHUNK || x % CHUNK == 0
  }

  /** The cache is empty or holds one of the lines of this frame. */
  ghost predicate CacheGood(g: Geometry, frame: nat, cache: LineCache) {
    cache.t0 == cache.t1 || (exists line: nat :: IsLine(g, frame, cache, line))
  }

  ghost predicate IsLine(g: Geometry, frame: nat, cache: LineCache, line: nat) {
    && cache.t0 == frame + line * g.lineCyc
    && cache.t1 == cache.t0 + g.lineCyc
    && cache.busy == Busy(g, line)
  }

  lemma {:induction false} SameLine(g: Geometry, line: nat, x: nat)
    requires x < g.lineCyc
    ensures g.Line(line * g.lineCyc + x) == line && g.Pos(line * g.lineCyc + x) == x
  {
  }

  lemma {:induction false} LocateIsLine(g: Geometry, frame: nat, c: nat)
    requires frame <= c && c + g.lineCyc < U64
    ensures IsLine(g, frame, Locate(g, frame, c), g.Line(c - frame))
    ensures Locate(g, frame, c).t0 <= c < Locate(g, frame, c).t1
  {
    var n := c - frame;
    assert n % U64 == n && n == g.Line(n) * g.lineCyc + g.Pos(n);
  }

  lemma {:induction false} LineTest(g: Geometry, frame: nat, cache: LineCache, line: nat, c: nat)
    requires IsLine(g, frame, cache, line) && cache.t0 <= c < cache.t1 && c < U64
    ensures frame <= c && (c - cache.t0) % U64 % U32 == g.Pos(c - frame) && cache.busy == Busy(g, g.Line(c - frame))
  {
    var x := c - cache.t0;
    SameLine(g, line, x);
    assert x % U64 == x && x % U32 == x;
    assert c - frame == line * g.lineCyc + x;
  }

  /** From the start of the frame on, in any order, the cached test is the direct one. */
  lemma {:induction false} NativeAgrees(g: Geometry, frame: nat, cache: LineCache, c: nat)
    requires CacheGood(g, frame, cache) && frame <= c && c + g.lineCyc < U64
    ensures NativeTest(g, frame, cache, c) == Free(g, c - frame) == ScaledTest(g, NATIVE, c - frame)
    ensures CacheGood(g, frame, Looked(g, frame, cache, c))
  {
    var now := Looked(g, frame, cache, c);
    LocateIsLine(g, frame, c);
    var line: nat :| IsLine(g, frame, now, line);
    LineTest(g, frame, now, line, c);
    assert Ql(c - frame, NATIVE) == c - frame;
  }

  /**
    An access in front of the frame start, where the difference wraps, leaves a line behind
    that is out of step with the frame, and a later access inside the frame is judged by it.
  */
  lemma {:induction false} StaleLine()
    ensures var g, frame, early, late := Geometry(32, false), 1000, 999, 1001;
      && ScaledTest(g, NATIVE, late - frame) == Free(g, late - frame) == false
      && NativeTest(g, frame, NO_LINE, late) == false
      && NativeTest(g, frame, Looked(g, frame, NO_LINE, early), late) == true
  {
    var g, frame := Geometry(32, false), 1000;
    assert (999 - frame) % U64 == 0xffff_ffff_ffff_ffff;
    assert g.Line(0xffff_ffff_ffff_ffff) * 480 == 0xffff_ffff_ffff_ffff - 255;
    assert Looked(g, frame, NO_LINE, 999) == LineCache(744, 1224, 8);
  }

  /** 2 to the 64 is not a whole number of lines; this is what is left over. */
  function Rest(g: Geometry): (r: nat)
    ensures 96 < r < g.lineCyc
  {
    U64 % g.lineCyc
  }

  /** The line that an access in front of the frame start leaves in the cache. */
  lemma {:induction false} EarlyLine(g: Geometry, frame: nat, c: nat)
    requires c < frame && frame + 2 * g.lineCyc < U64 && g.first + VISIBLE <= g.lines
    ensures var line := Locate(g, frame, c);
      if c + Rest(g) < frame || frame < Rest(g) then line.t1 <= frame || U64 < line.t0 + g.lineCyc
      else line == LineCache(frame - Rest(g), frame - Rest(g) + g.lineCyc, 8)
  {
    var f, n := frame - c, U64 - (frame - c);
    assert (c - frame) % U64 == n;
    var pos, line := g.Pos(n), g.Line(n);
    var first := U64 + c - pos;
    assert frame + line * g.lineCyc == first;
    if f <= Rest(g) {
      SameLine(g, g.Line(U64), Rest(g) - f);
      assert g.Pos(U64) == Rest(g) && n == g.Line(U64) * g.lineCyc + (Rest(g) - f);
      assert first == U64 + (frame - Rest(g));
      Wrapped(first, g.lineCyc);
    } else {
      Wrapped(first, g.lineCyc);
      LineBefore(g, n, pos, f - Rest(g));
    }
  }

  lemma {:induction false} Wrapped(t: nat, cyc: nat)
    requires U64 - cyc < t < 2 * U64 - 2 * cyc && cyc <= 480
    ensures t % U64 == if t < U64 then t else t - U64
    ensures t >= U64 ==> (t % U64 + cyc) % U64 == t - U64 + cyc
  {
  }

  /** A place in front of the last whole line that 64 bits hold ends its line there at the latest. */
  lemma {:induction false} LineBefore(g: Geometry, n: nat, pos: nat, k: nat)
    requires n + k == U64 - Rest(g) && k > 0 && pos == g.Pos(n)
    ensures g.lineCyc <= pos + k
  {
    var q, r := g.Line(n), g.Line(U64);
    assert U64 == r * g.lineCyc + Rest(g) && n == q * g.lineCyc + pos;
    Above(q, r, g.lineCyc);
    Multiples(q, r, g.lineCyc);
  }

  /**
    Accesses in front of the frame start are harmless to those behind it exactly if they
    are more than the rest of a line away, or the frame starts within the first such rest of
    all time; else the access leaves a line that is out of step.
  */
  lemma {:induction false} EarlyAccess(g: Geometry, frame: nat, c: nat)
    requires c < frame && frame + 2 * g.lineCyc < U64 && g.first + VISIBLE <= g.lines
    ensures (forall late :: frame <= late && late + g.lineCyc < U64 ==>
               NativeTest(g, frame, Looked(g, frame, NO_LINE, c), late) == Free(g, late - frame))
      <==> c + Rest(g) < frame || frame < Rest(g)
  {
    EarlyLine(g, frame, c);
    var cache := Looked(g, frame, NO_LINE, c);
    if c + Rest(g) < frame || frame < Rest(g) {
      forall late | frame <= late && late + g.lineCyc < U64
        ensures NativeTest(g, frame, cache, late) == Free(g, late - frame) {
        LocateIsLine(g, frame, late);
        LineTest(g, frame, Locate(g, frame, late), g.Line(late - frame), late);
      }
    } else {
      var late := frame + 1;
      assert !Free(g, 1);
      assert NativeTest(g, frame, cache, late);
    }
  }

  /** Cycles of a frame that would have begun 2^64 cycles ago. */
  function Ahead(frame: nat, c: nat): (n: nat)
    requires c < frame <= U64
  {
    U64 - (frame - c)
  }

  /** In front of the frame start the line is looked up anew, in that frame. */
  lemma {:induction false} EarlyTest(g: Geometry, frame: nat, cache: LineCache, c: nat)
    requires c < frame < U64
    ensures Looked(g, frame, cache, c) == Locate(g, frame, c)
    ensures NativeTest(g, frame, cache, c) == Free(g, Ahead(frame, c))
  {
    var n := Ahead(frame, c);
    var line := g.Line(n);
    assert (c - frame) % U64 == n && n == line * g.lineCyc + g.Pos(n);
    var first := frame + line * g.lineCyc;
    assert c + U64 == first + g.Pos(n);
    Residue(c, first, g.Pos(n));
  }

  lemma {:induction false} Residue(c: nat, first: nat, pos: nat)
    requires c < U64 && pos < U32 && c + U64 == first + pos
    ensures (c - first % U64) % U64 % U32 == pos
  {
    assert first % U64 == if first < U64 then first else first - U64;
    assert c - first % U64 == pos || c - first % U64 == pos - U64;
  }

  /** The wait ends in front of the frame start: next to it every cycle is free. */
  lemma {:induction false} EarlyWaitEnds(g: Geometry, frame: nat, c: nat)
    requires c < frame < U64 && g.first + VISIBLE <= g.lines
    ensures NextFree(g, Ahead(frame, c)) < U64
  {
    var n := Ahead(frame, c);
    NextFreeIsFirst(g, n);
    if frame - c < CHUNK {
      var f := frame - c;
      SameLine(g, g.Line(U64), Rest(g) - f);
      assert g.Pos(U64) == Rest(g) && n == g.Line(U64) * g.lineCyc + (Rest(g) - f);
      RestIsFree(g, f);
    }
  }

  lemma {:induction false} RestIsFree(g: Geometry, f: nat)
    requires f < CHUNK && g.first + VISIBLE <= g.lines
    ensures Rest(g) - f >= Busy(g, g.Line(U64)) * CHUNK
  {
  }

  /** The test as the program makes it, at any speed and for any cycle. */
  function Test(g: Geometry, frame: nat, speed: nat, cache: LineCache, c: nat): bool
    requires speed > 0
  {
    if speed == NATIVE then NativeTest(g, frame, cache, c) else c < frame || ScaledTest(g, speed, c - frame)
  }

  class Contention {
    const g: Geometry
    const configured: bool
    var active: bool      // not at unlimited speed, which is 0
    var frame: nat        // cycle of the last vertical sync
    var speed: nat        // 20 is the speed of a QL
    var cache: LineCache

    constructor (g: Geometry, configured: bool)
      requires g.first + VISIBLE <= g.lines
      ensures this.g == g && this.configured == configured && Valid()
      ensures active == configured && speed == NATIVE && frame == 0
    {
      this.g, this.configured := g, configured;
      active, frame, speed, cache := configured, 0, NATIVE, NO_LINE;
    }

    ghost predicate Valid()
      reads this
    {
      g.first + VISIBLE <= g.lines && (active ==> speed > 0 && CacheGood(g, frame, cache))
    }

    /** Vertical sync at cycle `now`. */
    method Frame(now: nat, speed: nat)
      requires g.first + VISIBLE <= g.lines
      modifies this
      ensures Valid() && frame == now && this.speed == speed && active == (configured && speed > 0)
    {
      frame := now;
      cache := NO_LINE;
      this.speed := speed;
      active := configured && speed > 0;
    }

    /**
      Can an access start on cycle `c`? From the frame start on the answer is that of the
      scaled test; in front of it only another speed than that of a QL keeps the cache good.
    */
    method CouldStart(c: nat) returns (r: bool)
      requires active && speed > 0 && c + g.lineCyc < U64
      modifies this`cache
      ensures r == Test(g, frame, speed, old(cache), c)
      ensures cache == if speed == NATIVE then Looked(g, frame, old(cache), c) else old(cache)
      ensures old(Valid()) && (frame <= c || speed != NATIVE) ==>
        Valid() && r == (c < frame || ScaledTest(g, speed, c - frame))
    {
      if speed != NATIVE {
        r := c < frame || ScaledTest(g, speed, c - frame);
      } else {
        if frame <= c && CacheGood(g, frame, cache) {
          NativeAgrees(g, frame, cache, c);
        }
        if c < cache.t0 || c >= cache.t1 || c < frame {
          cache := Locate(g, frame, c);
        }
        var x := (c - cache.t0) % U64 % U32;
        r := x >= cache.busy * CHUNK || x % CHUNK == 0;
      }
    }

    /**
      Wait states of an access that starts at cycle `t`: the ZX8301 decides later on a
      write. An access decided in front of the frame start does not wait at another speed
      than that of a QL; at that speed it waits as if the frame had begun 2^64 cycles
      earlier, 11 cycles at most, and leaves the line where it ended in the cache.
    */
    method Wait(t: nat, isWrite: bool) returns (wait: nat)
      requires active && Valid() && t + 3 + speed + g.lineCyc < U64 && frame < U64
      modifies this`cache
      ensures var (decide, late) := if isWrite then (3, 1) else (2, 0);
        var c := t + decide;
        if frame <= c then
          Valid() && wait == late + Delay(g, speed, c - frame) <= late + (11 * speed + 19) / NATIVE
        else if speed != NATIVE then Valid() && wait == late
        else
          var n := Ahead(frame, c);
          && wait == late + (NextFree(g, n) - n) < late + CHUNK && c + (wait - late) < frame
          && cache == Locate(g, frame, c + (wait - late))
    {
      var c, late := t + if isWrite then 3 else 2, if isWrite then 1 else 0;
      if frame <= c {
        wait := WaitFrom(c, late);
      } else if speed == NATIVE {
        wait := WaitEarly(c, late);
      } else {
        var r := CouldStart(c);
        wait := late;
        assert r;
      }
    }

    /** The wait loop at the speed of a QL, from a cycle in front of the frame start on. */
    method WaitEarly(first: nat, late: nat) returns (wait: nat)
      requires active && speed == NATIVE && first < frame && first + CHUNK + g.lineCyc < U64 && frame < U64
      requires g.first + VISIBLE <= g.lines
      modifies this`cache
      ensures var n := Ahead(frame, first);
        && wait == late + (NextFree(g, n) - n) && first + (wait - late) < frame
        && cache == Locate(g, frame, first + (wait - late))
    {
      ghost var n := Ahead(frame, first);
      NextFreeIsFirst(g, n);
      EarlyWaitEnds(g, frame, first);
      var c := first;
      wait := late;
      var r := LookEarly(c);
      while !r
        invariant wait >= late && c == first + (wait - late) < frame && n + (wait - late) <= NextFree(g, n)
        invariant r == Free(g, n + (wait - late)) && cache == Locate(g, frame, c)
        decreases frame - c
      {
        c := c + 1;
        wait := wait + 1;
        r := LookEarly(c);
      }
    }

    method LookEarly(c: nat) returns (r: bool)
      requires active && speed == NATIVE && c < frame < U64 && c + g.lineCyc < U64
      modifies this`cache
      ensures r == Free(g, Ahead(frame, c)) && cache == Locate(g, frame, c)
    {
      EarlyTest(g, frame, cache, c);
      r := CouldStart(c);
    }

    /** The wait loop, from cycle `first` on. */
    method WaitFrom(first: nat, late: nat) returns (wait: nat)
      requires active && Valid() && frame <= first && first + speed + g.lineCyc < U64
      modifies this`cache
      ensures Valid()
      ensures wait == late + Delay(g, speed, first - frame) <= late + (11 * speed + 19) / NATIVE
    {
      ghost var all := Delay(g, speed, first - frame);
      DelayBound(g, speed, first - frame);
      var c := first;
      wait := late;
      var r := CouldStart(c);
      while !r
        invariant Valid() && wait >= late && c == first + (wait - late) && r == ScaledTest(g, speed, c - frame)
        invariant wait - late + Delay(g, speed, c - frame) == all
        decreases Delay(g, speed, c - frame)
      {
        c := c + 1;
        wait := wait + 1;
        r := CouldStart(c);
      }
    }
  }
}
