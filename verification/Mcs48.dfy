/**
  The 8049 of the IPC: its stack of eight return addresses with the upper half of the
  program status word, interrupts, which do not nest, jumps between the two memory banks,
  and the timer.
*/
module Mcs48 {
  import opened Sectors

  const STACK: nat := 8          // address of the stack in data memory
  const DEPTH: nat := 8
  const BANK: nat := 0x800

  /** The program status word: CY, AC, F0 and BS, and the stack pointer. */
  datatype Psw = Psw(flags: nat, sp: nat)

  datatype Core = Core(pc: nat, psw: Psw, ram: seq<Byte>, inIrq: bool)

  predicate Valid(c: Core) {
    c.pc < 0x1000 && c.psw.flags < 16 && c.psw.sp < DEPTH && |c.ram| == 128
  }

  function Push(c: Core): (c': Core)
    requires Valid(c)
    ensures Valid(c')
  {
    var a := STACK + 2 * c.psw.sp;
    c.(ram := c.ram[a := c.pc % 256][a + 1 := 16 * c.psw.flags + c.pc / 256],
      psw := c.psw.(sp := (c.psw.sp + 1) % DEPTH))
  }

  /** RET, and with `restore` RETR. */
  function Pull(c: Core, restore: bool): (c': Core)
    requires Valid(c)
    ensures Valid(c')
  {
    var sp := if c.psw.sp == 0 then DEPTH - 1 else c.psw.sp - 1;
    var lo, hi := c.ram[STACK + 2 * sp] as int, c.ram[STACK + 2 * sp + 1] as int;
    Core(hi % 16 * 256 + lo, Psw(if restore then hi / 16 else c.psw.flags, sp), c.ram, c.inIrq && !restore)
  }

  /** What can happen in one step of the processor, as far as the stack is concerned. */
  datatype Event =
    | Call(target: nat)
    | Interrupt(vector: nat)
    | Ret
    | Retr
    | Other(to: Core)            // any other instruction; `to` is the state it leaves

  /** An instruction that leaves the stack, its pointer and the interrupt state alone. */
  predicate Plain(c: Core, to: Core) {
    && Valid(to) && to.psw.sp == c.psw.sp && to.inIrq == c.inIrq && |to.ram| == |c.ram|
    && forall a :: STACK <= a < STACK + 2 * DEPTH ==> to.ram[a] == c.ram[a]
  }

  predicate Legal(c: Core, e: Event) {
    match e
    case Call(target) => target < 0x1000
    case Interrupt(v) => !c.inIrq && (v == 3 || v == 7)
    case Other(to) => Plain(c, to)
    case _ => true
  }

  function Next(c: Core, e: Event): (c': Core)
    requires Valid(c) && Legal(c, e)
    ensures Valid(c')
  {
    match e
    case Call(target) => Push(c).(pc := target)
    case Interrupt(v) => Push(c).(pc := v, inIrq := true)
    case Ret => Pull(c, false)
    case Retr => Pull(c, true)
    case Other(to) => to
  }

  predicate StepAt(cs: seq<Core>, es: seq<Event>, i: nat) {
    i < |es| && i + 1 < |cs| && Valid(cs[i]) && Legal(cs[i], es[i]) && cs[i + 1] == Next(cs[i], es[i])
  }

  predicate Run(cs: seq<Core>, es: seq<Event>) {
    && |cs| == |es| + 1
    && forall i :: 0 <= i < |es| ==> StepAt(cs, es, i)
  }

  function Change(e: Event): (d: int) {
    match e
    case Call(_) => 1
    case Interrupt(_) => 1
    case Other(_) => 0
    case _ => -1
  }

  /** Return addresses pushed and not pulled between events `i` and `j`. */
  function Nested(es: seq<Event>, i: nat, j: nat): (d: int)
    requires i <= j <= |es|
  {
    if i == j then 0 else Nested(es, i, j - 1) + Change(es[j - 1])
  }

  function Slot(sp: nat, d: int): (s: nat)
    requires sp < DEPTH && 0 <= d <= DEPTH
    ensures s < DEPTH
  {
    if sp + d < DEPTH then sp + d else sp + d - DEPTH
  }

  /** The frame pushed by event `i` is still on the stack. */
  predicate FrameKept(pushed: Core, c: Core, d: int) {
    && Valid(pushed) && Valid(c) && 1 <= d <= DEPTH
    && c.psw.sp == Slot(pushed.psw.sp, d)
    && c.ram[STACK + 2 * pushed.psw.sp] as int == pushed.pc % 256
    && c.ram[STACK + 2 * pushed.psw.sp + 1] as int == 16 * pushed.psw.flags + pushed.pc / 256
  }

  lemma {:induction false} PushKeepsFrame(pushed: Core, c: Core, d: int)
    requires FrameKept(pushed, c, d) && d < DEPTH
    ensures FrameKept(pushed, Push(c), d + 1)
  {
  }

  lemma {:induction false} FrameStays(cs: seq<Core>, es: seq<Event>, i: nat, j: nat)
    requires Run(cs, es) && i < j <= |es| && Change(es[i]) == 1
    requires forall k :: i < k <= j ==> 1 <= Nested(es, i, k) <= DEPTH
    ensures FrameKept(cs[i], cs[j], Nested(es, i, j))
    decreases j
  {
    assert StepAt(cs, es, j - 1);
    if i + 1 < j {
      FrameStays(cs, es, i, j - 1);
      var c := cs[j - 1];
      assert Nested(es, i, j) == Nested(es, i, j - 1) + Change(es[j - 1]);
      if Change(es[j - 1]) == 1 {
        PushKeepsFrame(cs[i], c, Nested(es, i, j - 1));
      }
    } else {
      assert Nested(es, i, j) == Change(es[i]);
    }
  }

  /**
    Whatever lies between, as long as it nests no deeper than eight: the matching return
    resumes at the pushed address with the stack pointer back, and RETR with the flags too.
  */
  lemma {:induction false} ReturnsHome(cs: seq<Core>, es: seq<Event>, i: nat, j: nat)
    requires Run(cs, es) && i < j < |es| && Change(es[i]) == 1 && Change(es[j]) == -1
    requires forall k :: i < k <= j ==> 1 <= Nested(es, i, k) <= DEPTH
    requires Nested(es, i, j + 1) == 0
    ensures cs[j + 1].pc == cs[i].pc && cs[j + 1].psw.sp == cs[i].psw.sp
    ensures es[j].Retr? ==> cs[j + 1].psw == cs[i].psw && !cs[j + 1].inIrq
  {
    FrameStays(cs, es, i, j);
    assert StepAt(cs, es, j);
    assert Nested(es, i, j) == 1;
  }

  /** After an interrupt no other is entered before RETR. */
  lemma {:induction false} InterruptsDoNotNest(cs: seq<Core>, es: seq<Event>, i: nat, j: nat)
    requires Run(cs, es) && i < j <= |es| && es[i].Interrupt? && forall k :: i < k < j ==> !es[k].Retr?
    ensures cs[j].inIrq && (j < |es| ==> !es[j].Interrupt?)
    decreases j
  {
    assert StepAt(cs, es, j - 1);
    if i + 1 < j {
      InterruptsDoNotNest(cs, es, i, j - 1);
    }
    assert j < |es| ==> StepAt(cs, es, j);
  }

  // ---- the timer ----

  /** `wraps` counts how often the timer has passed 255; `lastT1` is the last level of T1. */
  datatype Timer = Timer(count: nat, prescaler: nat, on: bool, counting: bool, tf: bool, pending: bool, irqOn: bool,
    lastT1: bool, wraps: nat)

  predicate TimerValid(t: Timer) {
    t.count < 256 && t.prescaler < 32 && !(t.on && t.counting)
  }

  function Increment(t: Timer): (t': Timer) {
    if t.count == 255 then t.(count := 0, wraps := t.wraps + 1, tf := true, pending := t.pending || t.irqOn)
    else t.(count := t.count + 1)
  }

  /** One machine cycle, with the level of T1. */
  function Tick(t: Timer, t1: bool): (t': Timer)
    requires TimerValid(t)
    ensures TimerValid(t')
  {
    if t.on then
      if t.prescaler == 31 then Increment(t.(prescaler := 0)) else t.(prescaler := t.prescaler + 1)
    else if t.counting then
      var u := t.(lastT1 := t1);
      if t.lastT1 && !t1 then Increment(u) else u
    else t
  }

  function Ticks(t: Timer, t1s: seq<bool>, n: nat): (t': Timer)
    requires TimerValid(t) && n <= |t1s|
    ensures TimerValid(t')
  {
    if n == 0 then t else Tick(Ticks(t, t1s, n - 1), t1s[n - 1])
  }

  /**
    Instructions that do not load, start or stop the timer, and the entry of an interrupt,
    of the timer's own if `own`; each takes the cycles of `t1s`.
  */
  datatype Clocked =
    | Plainly(t1s: seq<bool>)
    | JumpOnFlag(t1s: seq<bool>)
    | AllowIrq(on: bool, t1s: seq<bool>)
    | Entry(own: bool, t1s: seq<bool>)

  /** The timer when the cycles of `e` begin. */
  function Before(t: Timer, e: Clocked): (t': Timer)
    requires TimerValid(t)
    ensures TimerValid(t') && t'.on == t.on && t'.counting == t.counting && Total(t') == Total(t)
  {
    match e
    case Plainly(_) => t
    case JumpOnFlag(_) => t.(tf := false)
    case AllowIrq(on, _) => if on then t.(irqOn := true) else t.(irqOn := false, pending := false)
    case Entry(own, _) => if own then t.(pending := false) else t
  }

  function Clock(t: Timer, e: Clocked): (t': Timer)
    requires TimerValid(t)
    ensures TimerValid(t')
  {
    Ticks(Before(t, e), e.t1s, |e.t1s|)
  }

  predicate ClockAt(ts: seq<Timer>, es: seq<Clocked>, i: nat) {
    i < |es| && i + 1 < |ts| && TimerValid(ts[i]) && ts[i + 1] == Clock(ts[i], es[i])
  }

  function Cycles(es: seq<Clocked>, n: nat): (c: nat)
    requires n <= |es|
  {
    if n == 0 then 0 else Cycles(es, n - 1) + |es[n - 1].t1s|
  }

  /** The timer with its overflows and its prescaler, as one number. */
  function Total(t: Timer): (n: nat) {
    32 * (256 * t.wraps + t.count) + t.prescaler
  }

  lemma {:induction false} TickCounts(t: Timer, t1: bool)
    requires TimerValid(t) && t.on
    ensures var u := Tick(t, t1); u.on && Total(u) == Total(t) + 1
  {
  }

  lemma {:induction false} TicksCount(t: Timer, t1s: seq<bool>, n: nat)
    requires TimerValid(t) && n <= |t1s| && t.on
    ensures var u := Ticks(t, t1s, n); u.on && Total(u) == Total(t) + n
  {
    if n > 0 {
      TicksCount(t, t1s, n - 1);
      TickCounts(Ticks(t, t1s, n - 1), t1s[n - 1]);
    }
  }

  lemma {:induction false} TickFlags(t: Timer, t1: bool)
    requires TimerValid(t)
    ensures var u := Tick(t, t1);
      && u.irqOn == t.irqOn && t.wraps <= u.wraps <= t.wraps + 1 && (u.tf <==> t.tf || u.wraps > t.wraps)
      && (u.pending <==> t.pending || (t.irqOn && u.wraps > t.wraps))
  {
  }

  /** The flag, and the request if interrupts are enabled, say that the timer has wrapped. */
  lemma {:induction false} FlagsTellWraps(t: Timer, t1s: seq<bool>, n: nat)
    requires TimerValid(t) && n <= |t1s|
    ensures var u := Ticks(t, t1s, n);
      && u.irqOn == t.irqOn && u.wraps >= t.wraps && (u.tf <==> t.tf || u.wraps > t.wraps)
      && (u.pending <==> t.pending || (t.irqOn && u.wraps > t.wraps))
  {
    if n > 0 {
      FlagsTellWraps(t, t1s, n - 1);
      TickFlags(Ticks(t, t1s, n - 1), t1s[n - 1]);
    }
  }

  /** While it runs the timer counts every cycle of every instruction and of every interrupt, its own included. */
  lemma {:induction false} TimerCountsCycles(ts: seq<Timer>, es: seq<Clocked>, n: nat)
    requires |ts| == |es| + 1 && n <= |es| && forall i :: 0 <= i < |es| ==> ClockAt(ts, es, i)
    requires ts[0].on
    ensures ts[n].on && Total(ts[n]) == Total(ts[0]) + Cycles(es, n)
  {
    if n > 0 {
      TimerCountsCycles(ts, es, n - 1);
      assert ClockAt(ts, es, n - 1);
      var e := es[n - 1];
      TicksCount(Before(ts[n - 1], e), e.t1s, |e.t1s|);
    }
  }

  /** A run in which the timer's own interrupt is entered only on its request. */
  predicate TimerRun(ts: seq<Timer>, es: seq<Clocked>) {
    |ts| == |es| + 1 && forall i :: 0 <= i < |es| ==> TimerAt(ts, es, i)
  }

  predicate TimerAt(ts: seq<Timer>, es: seq<Clocked>, i: nat) {
    ClockAt(ts, es, i) && (es[i].Entry? && es[i].own ==> ts[i].pending)
  }

  /** No jump on the flag among events `i` to `j`. */
  predicate NoJump(es: seq<Clocked>, i: nat, j: nat) {
    forall k :: i <= k < j && k < |es| ==> !es[k].JumpOnFlag?
  }

  lemma {:induction false} EventFlags(t: Timer, e: Clocked)
    requires TimerValid(t)
    ensures var u := Clock(t, e);
      && u.wraps >= t.wraps && (u.pending ==> (t.pending && !(e.Entry? && e.own)) || u.wraps > t.wraps)
      && (u.tf <==> (t.tf && !e.JumpOnFlag?) || u.wraps > t.wraps)
  {
    FlagsTellWraps(Before(t, e), e.t1s, |e.t1s|);
  }

  /** A request behind the entry of the timer's interrupt comes from a wrap behind it. */
  lemma {:induction false} RequestIsNew(ts: seq<Timer>, es: seq<Clocked>, i: nat, j: nat)
    requires TimerRun(ts, es) && i < j <= |es| && es[i].Entry? && es[i].own
    ensures ts[j].wraps >= ts[i].wraps && (ts[j].pending ==> ts[j].wraps > ts[i].wraps)
    decreases j
  {
    assert TimerAt(ts, es, j - 1);
    EventFlags(ts[j - 1], es[j - 1]);
    if i + 1 < j {
      RequestIsNew(ts, es, i, j - 1);
    }
  }

  /** Between two of its interrupts the timer has wrapped. */
  lemma {:induction false} OneEntryAWrap(ts: seq<Timer>, es: seq<Clocked>, i: nat, j: nat)
    requires TimerRun(ts, es) && i < j < |es| && es[i].Entry? && es[i].own && es[j].Entry? && es[j].own
    ensures ts[j].wraps > ts[i].wraps
  {
    RequestIsNew(ts, es, i, j);
    assert TimerAt(ts, es, j);
  }

  /** The flag says whether the timer has wrapped since the last jump on it. */
  lemma {:induction false} FlagSinceJump(ts: seq<Timer>, es: seq<Clocked>, i: nat, j: nat)
    requires TimerRun(ts, es) && i < j <= |es| && es[i].JumpOnFlag? && NoJump(es, i + 1, j)
    ensures ts[j].wraps >= ts[i].wraps && (ts[j].tf <==> ts[j].wraps > ts[i].wraps)
    decreases j
  {
    FlagStep(ts, es, j - 1);
    if i + 1 < j {
      FlagSinceJump(ts, es, i, j - 1);
    }
  }

  lemma {:induction false} FlagStep(ts: seq<Timer>, es: seq<Clocked>, k: nat)
    requires TimerRun(ts, es) && k < |es|
    ensures ts[k + 1].wraps >= ts[k].wraps
    ensures ts[k + 1].tf <==> (ts[k].tf && !es[k].JumpOnFlag?) || ts[k + 1].wraps > ts[k].wraps
  {
    assert TimerAt(ts, es, k);
    EventFlags(ts[k], es[k]);
  }

  /** Falling edges of T1, after a level `last`. */
  function Falls(last: bool, t1s: seq<bool>, n: nat): (k: nat)
    requires n <= |t1s|
  {
    if n == 0 then 0 else Falls(last, t1s, n - 1) + if (if n == 1 then last else t1s[n - 2]) && !t1s[n - 1] then 1
      else 0
  }

  lemma {:induction false} TickFalls(t: Timer, t1: bool)
    requires TimerValid(t) && t.counting
    ensures var u := Tick(t, t1);
      && u.counting && !u.on && u.lastT1 == t1
      && 256 * u.wraps + u.count == 256 * t.wraps + t.count + if t.lastT1 && !t1 then 1 else 0
  {
  }

  /** As a counter it counts the falling edges of T1. */
  lemma {:induction false} CounterCountsFalls(t: Timer, t1s: seq<bool>, n: nat)
    requires TimerValid(t) && n <= |t1s| && t.counting
    ensures var u := Ticks(t, t1s, n);
      && u.counting && !u.on && u.lastT1 == (if n == 0 then t.lastT1 else t1s[n - 1])
      && 256 * u.wraps + u.count == 256 * t.wraps + t.count + Falls(t.lastT1, t1s, n)
  {
    if n > 0 {
      CounterCountsFalls(t, t1s, n - 1);
      TickFalls(Ticks(t, t1s, n - 1), t1s[n - 1]);
    }
  }

  // ---- the processor ----

  class Processor {
    const rom: seq<Byte>
    const ram: array<Byte>
    var pc: nat
    var psw: Psw
    var inIrq: bool
    var a11: bool
    var irqEnabled: bool       // of the external interrupt
    var timer: Timer
    var cycles: nat

    constructor (program: seq<Byte>)
      requires |program| == 0x800
      ensures Ok() && rom == program && fresh(ram) && pc == 0 && !inIrq && cycles == 0
    {
      rom := program;
      ram := new Byte[128](_ => 0);
      pc, psw, inIrq, a11, irqEnabled, cycles := 0, Psw(0, 0), false, false, false, 0;
      timer := Timer(0, 0, false, false, false, false, false, false, 0);
    }

    predicate Ok()
      reads this, ram
    {
      |rom| == 0x800 && Valid(Now()) && TimerValid(timer)
    }

    function Now(): Core
      reads this, ram
    {
      Core(pc, psw, ram[..], inIrq)
    }

    /** The program counter stays within its bank. */
    method Fetch() returns (v: Byte)
      requires Ok()
      modifies this`pc
      ensures Ok() && v == rom[old(pc) % BANK] && pc / BANK == old(pc) / BANK && pc % BANK == (old(pc) + 1) % BANK
    {
      v := rom[pc % BANK];
      pc := pc / BANK * BANK + (pc + 1) % BANK;
    }

    method PushPc()
      requires Ok()
      modifies this`psw, ram
      ensures Ok() && Now() == Push(old(Now()))
    {
      var sp := psw.sp;
      ram[STACK + 2 * sp] := pc % 256;
      ram[STACK + 2 * sp + 1] := 16 * psw.flags + pc / 256;
      psw := psw.(sp := (sp + 1) % DEPTH);
    }

    method PullPc(restore: bool)
      requires Ok()
      modifies this`pc, this`psw
      ensures Ok() && Now() == Pull(old(Now()), restore).(inIrq := inIrq)
    {
      var sp := (psw.sp + DEPTH - 1) % DEPTH;
      var hi := ram[STACK + 2 * sp + 1] as int;
      pc := hi % 16 * 256 + ram[STACK + 2 * sp] as int;
      psw := Psw(if restore then hi / 16 else psw.flags, sp);
    }

    method Ret()
      requires Ok()
      modifies this`pc, this`psw
      ensures Ok() && Now() == Next(old(Now()), Event.Ret)
    {
      PullPc(false);
    }

    method Retr()
      requires Ok()
      modifies this`pc, this`psw, this`inIrq
      ensures Ok() && Now() == Next(old(Now()), Event.Retr)
    {
      PullPc(true);
      inIrq := false;
    }

    /** JMP and CALL: eight of the address bits are in the next byte, three in `op`, the bank is a flip-flop. */
    method JumpOrCall(op: Byte, call: bool)
      requires Ok()
      modifies this`pc, this`psw, ram
      ensures Ok()
      ensures var c := old(Now()).(pc := old(pc) / BANK * BANK + (old(pc) + 1) % BANK);
        var target := op as int / 32 * 256 + rom[old(pc) % BANK] as int + if a11 && !inIrq then BANK else 0;
        && Now() == (if call then Next(c, Call(target)) else c.(pc := target))
        && pc == target && psw.sp == if call then (old(psw.sp) + 1) % DEPTH else old(psw.sp)
    {
      var lo := Fetch();
      var addr := op as int / 32 * 256 + lo as int;
      if call {
        PushPc();
      }
      pc := addr + if a11 && !inIrq then BANK else 0;
    }

    /** The timer goes on by as many cycles as there are levels of T1. */
    method TimerTick(t1s: seq<bool>)
      requires Ok()
      modifies this`timer
      ensures Ok() && timer == Ticks(old(timer), t1s, |t1s|)
    {
      for i := 0 to |t1s|
        invariant TimerValid(timer) && timer == Ticks(old(timer), t1s, i)
      {
        var inc := false;
        if timer.on {
          timer := timer.(prescaler := timer.prescaler + 1);
          if timer.prescaler == 32 {
            timer, inc := timer.(prescaler := 0), true;
          }
        } else if timer.counting {
          inc := timer.lastT1 && !t1s[i];
          timer := timer.(lastT1 := t1s[i]);
        }
        if inc {
          timer := Increment(timer);
        }
      }
    }

    /** Between instructions: the external interrupt, `low` when asserted, goes before that of the timer. */
    method EnterInterrupt(low: bool, t1s: seq<bool>) returns (taken: bool)
      requires Ok() && |t1s| == 2
      modifies this`pc, this`psw, this`inIrq, this`timer, this`cycles, ram
      ensures Ok()
      ensures var external := irqEnabled && low;
        && taken == (!old(inIrq) && (external || old(timer).pending))
        && Now() == (if taken then Next(old(Now()), Interrupt(if external then 3 else 7)) else old(Now()))
        && cycles == old(cycles) + (if taken then 2 else 0)
        && (taken ==> pc == (if external then 3 else 7) && inIrq && psw.sp == (old(psw.sp) + 1) % DEPTH)
        && timer == if taken then Clock(old(timer), Entry(!external, t1s)) else old(timer)
    {
      taken := false;
      if inIrq {
        return;
      }
      var vector := 0;
      if irqEnabled && low {
        vector := 3;
      } else if timer.pending {
        timer, vector := timer.(pending := false), 7;
      }
      if vector != 0 {
        PushPc();
        pc, inIrq, cycles, taken := vector, true, cycles + 2, true;
        TimerTick(t1s);
      }
    }
  }
}
