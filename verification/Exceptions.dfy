/**
  Interrupt lines, exception entry and RTE: the status register, the two stack pointers of
  which A7 is the one in use, the six-byte frame, and the request level as the IPC, the
  pending bits of $18021 and the edge-triggered level 7 make it.
*/
module Exceptions {
  import opened Limbs
  import opened Arithmetic

  // ---- status register ----

  /** `ccr` holds the condition codes X, N, Z, V and C as they lie in the register. */
  datatype Status = Status(trace: bool, supervisor: bool, mask: nat, ccr: nat)

  predicate StatusValid(s: Status) {
    s.mask < 8 && s.ccr < 32
  }

  /** GetSR. */
  function Pack(s: Status): (w: nat)
    ensures StatusValid(s) ==> w < 0x1_0000
  {
    256 * (s.mask + (if s.trace then 0x80 else 0) + if s.supervisor then 0x20 else 0) + s.ccr
  }

  /** What PutSR takes out of a word; the bits without meaning are dropped. */
  function Unpack(w: nat): (s: Status)
    ensures StatusValid(s)
  {
    Status(w % 0x1_0000 >= 0x8000, w % 0x4000 >= 0x2000, w / 256 % 8, w % 32)
  }

  /** Where the fields lie: T in bit 15, S in bit 13, the mask in bits 8 to 10, the condition codes in bits 0 to 4. */
  lemma {:induction false} StatusBits(s: Status)
    requires StatusValid(s)
    ensures Pack(s) / 0x8000 == (if s.trace then 1 else 0) && Pack(s) / 0x2000 % 4 == if s.supervisor then 1 else 0
    ensures Pack(s) / 0x100 % 0x20 == s.mask && Pack(s) % 0x100 == s.ccr
  {
  }

  lemma {:induction false} FieldsOf(w: nat)
    requires w < 0x1_0000
    ensures Unpack(w) == Status(w / 0x8000 == 1, w / 0x2000 % 2 == 1, w / 0x100 % 8, w % 32)
  {
  }

  /** The status register survives the stack. */
  lemma {:induction false} UnpackPack(s: Status)
    requires StatusValid(s)
    ensures Unpack(Pack(s)) == s
  {
    StatusBits(s);
    FieldsOf(Pack(s));
  }

  // ---- interrupt requests ----

  /**
    The two lines of the IPC, true when active, the pending bits of $18021, and the level
    requested from the CPU. Level 7 is taken once for each time it appears.
  */
  datatype Lines = Lines(p22: bool, p23: bool, theInt: set<nat>, taken: bool, pending: nat)

  const SOURCES: set<nat> := {0, 1, 2, 3, 4}

  /** The level on the lines: the IPC's first line asks for 5, its second or a pending bit for 2. */
  function Level(l: Lines): (n: nat) {
    (if l.p22 then 5 else 0) + (if l.p23 || l.theInt * SOURCES != {} then 2 else 0)
  }

  function UpdateIpl(l: Lines): (l': Lines) {
    if Level(l) != 7 then l.(taken := false, pending := Level(l))
    else if l.taken then l.(pending := 0)
    else l.(pending := 7)
  }

  function Accepted(l: Lines, level: nat): (l': Lines) {
    UpdateIpl(if level == 7 then l.(taken := true) else l)
  }

  predicate Deliverable(l: Lines, mask: nat) {
    l.pending == 7 || l.pending > mask
  }

  const POWER_ON: Lines := Lines(false, false, {}, false, 0)

  // ---- the processor ----

  datatype Core = Core(pc: nat, sr: Status, a7: nat, usp: nat, ssp: nat, ram: seq<Octet>)

  /** The stack pointers of the two modes: A7 is one of them. */
  function UserSp(s: Core): nat {
    if s.sr.supervisor then s.usp else s.a7
  }

  function SystemSp(s: Core): nat {
    if s.sr.supervisor then s.a7 else s.ssp
  }

  /** Room for a frame below the supervisor stack pointer. */
  predicate Room(ram: seq<Octet>, sp: nat) {
    RAM_BASE + 6 <= sp <= |ram| <= ADDRESS_SPACE && sp % 2 == 0
  }

  predicate Running(s: Core) {
    && StatusValid(s.sr) && s.pc < ADDRESS_SPACE && s.pc % 2 == 0
    && Room(s.ram, SystemSp(s))
  }

  /** The six bytes below `sp`: the status register, then the program counter. */
  function PushFrame(ram: seq<Octet>, sp: nat, sr: nat, pc: nat): (r: seq<Octet>)
    requires 6 <= sp <= |ram|
    ensures |r| == |ram|
  {
    Put(Word, Put(Long, ram, sp - 4, pc), sp - 6, sr)
  }

  function Vector(ram: seq<Octet>, n: nat): nat
    requires 4 * n + 4 <= |ram|
  {
    Bus(Get(Long, ram, 4 * n))
  }

  /** Entry through vector `n`, with `mask` as the new interrupt mask. */
  function Enter(s: Core, n: nat, mask: nat): (s': Core)
    requires StatusValid(s.sr) && 6 <= SystemSp(s) <= |s.ram| && 4 * n + 4 <= |s.ram|
  {
    var sp := SystemSp(s);
    var ram := PushFrame(s.ram, sp, Pack(s.sr), s.pc);
    Core(Vector(ram, n), s.sr.(trace := false, supervisor := true, mask := mask), sp - 6, UserSp(s), s.ssp, ram)
  }

  /** A new status register; if the mode changes, A7 becomes the other stack pointer. */
  function SetStatus(s: Core, sr: Status): (s': Core)
    ensures s'.sr == sr && UserSp(s') == UserSp(s) && SystemSp(s') == SystemSp(s)
  {
    if s.sr.supervisor == sr.supervisor then s.(sr := sr)
    else if sr.supervisor then s.(sr := sr, usp := s.a7, a7 := s.ssp)
    else s.(sr := sr, ssp := s.a7, a7 := s.usp)
  }

  predicate FrameOdd(s: Core)
    requires s.a7 + 6 <= |s.ram|
  {
    Get(Long, s.ram, s.a7 + 2) % 2 == 1
  }

  /** With the program counter off the stack; an odd one is not loaded. */
  function Popped(s: Core): (s': Core)
    requires s.a7 + 6 <= |s.ram|
  {
    s.(pc := if FrameOdd(s) then s.pc else Bus(Get(Long, s.ram, s.a7 + 2)), a7 := s.a7 + 6)
  }

  /** What RTE loads, before an interrupt that it lets through is taken. */
  function Loaded(s: Core): (s': Core)
    requires s.a7 + 6 <= |s.ram|
  {
    SetStatus(Popped(s), Unpack(Get(Word, s.ram, s.a7)))
  }

  lemma {:induction false} FrameIs(ram: seq<Octet>, sp: nat, sr: nat, pc: nat)
    requires 6 <= sp <= |ram| && sr < 0x1_0000 && pc < 0x1_0000_0000
    ensures var r := PushFrame(ram, sp, sr, pc);
      && Get(Word, r, sp - 6) == sr && Get(Long, r, sp - 4) == pc
      && r[..sp - 6] == ram[..sp - 6] && r[sp..] == ram[sp..]
  {
    var w, r := Put(Long, ram, sp - 4, pc), PushFrame(ram, sp, sr, pc);
    PutGet(Long, ram, sp - 4, pc, sp - 4);
    PutGet(Word, w, sp - 6, sr, sp - 6);
    PutOther(Word, w, sp - 6, sr, Long, sp - 4);
    FrameRest(ram, w, r, sp, sr, pc);
  }

  lemma {:induction false} FrameRest(ram: seq<Octet>, w: seq<Octet>, r: seq<Octet>, sp: nat, sr: nat, pc: nat)
    requires 6 <= sp <= |ram| && w == Put(Long, ram, sp - 4, pc) && r == Put(Word, w, sp - 6, sr)
    ensures r[..sp - 6] == ram[..sp - 6] && r[sp..] == ram[sp..]
  {
    Parts(ram[..sp - 4], Bytes(Long, pc), ram[sp..]);
    Parts(w[..sp - 6], Bytes(Word, sr), w[sp - 4..]);
    assert w[..sp - 6] == w[..sp - 4][..sp - 6] && ram[..sp - 6] == ram[..sp - 4][..sp - 6];
    assert r[sp..] == r[sp - 4..][4..] && w[sp..] == w[sp - 4..][4..];
  }

  /** A handler may do what it likes, if it leaves the stacks and the frame as it found them. */
  predicate Returns(entered: Core, s: Core) {
    && s.sr.supervisor && s.a7 == entered.a7 && s.usp == entered.usp && |s.ram| == |entered.ram|
    && s.a7 + 6 <= |s.ram| && s.ram[s.a7..s.a7 + 6] == entered.ram[s.a7..s.a7 + 6]
  }

  lemma {:induction false} FrameRead(ram: seq<Octet>, a: nat)
    requires a + 6 <= |ram|
    ensures Get(Word, ram, a) == Big(ram[a..a + 6][..2]) && Get(Long, ram, a + 2) == Big(ram[a..a + 6][2..])
  {
    assert ram[a..a + 6][..2] == ram[a..a + 2] && ram[a..a + 6][2..] == ram[a + 2..a + 6];
  }

  /** A memory that has the six bytes of a frame. */
  lemma {:induction false} FrameIn(ram: seq<Octet>, a: nat, sr: nat, pc: nat, h: seq<Octet>)
    requires a + 6 <= |ram| == |h| && sr < 0x1_0000 && pc < 0x1_0000_0000
    requires h[a..a + 6] == PushFrame(ram, a + 6, sr, pc)[a..a + 6]
    ensures Get(Word, h, a) == sr && Get(Long, h, a + 2) == pc
  {
    FrameIs(ram, a + 6, sr, pc);
    FrameRead(PushFrame(ram, a + 6, sr, pc), a);
    FrameRead(h, a);
  }

  lemma {:induction false} FrameFound(s: Core, n: nat, mask: nat, h: Core)
    requires Running(s) && 4 * n + 4 <= |s.ram| && Returns(Enter(s, n, mask), h)
    ensures Get(Word, h.ram, h.a7) == Pack(s.sr) && Get(Long, h.ram, h.a7 + 2) == s.pc
  {
    FrameIn(s.ram, h.a7, Pack(s.sr), s.pc, h.ram);
  }

  lemma {:induction false} LoadedIs(h: Core, sr: Status, pc: nat)
    requires h.a7 + 6 <= |h.ram| && StatusValid(sr) && pc < ADDRESS_SPACE && pc % 2 == 0
    requires Get(Word, h.ram, h.a7) == Pack(sr) && Get(Long, h.ram, h.a7 + 2) == pc
    ensures Loaded(h) == SetStatus(h.(pc := pc, a7 := h.a7 + 6), sr)
  {
    UnpackPack(sr);
  }

  /**
    Entry and RTE: the program counter, the status register with its interrupt mask and
    both stack pointers are back, from either mode, after any handler.
  */
  lemma {:induction false} RteUndoesEntry(s: Core, n: nat, mask: nat, h: Core)
    requires Running(s) && 4 * n + 4 <= |s.ram| && Returns(Enter(s, n, mask), h)
    ensures var r := Loaded(h);
      && r.pc == s.pc && r.sr == s.sr && r.a7 == s.a7
      && UserSp(r) == UserSp(s) && SystemSp(r) == SystemSp(s) && r.ram == h.ram
  {
    FrameFound(s, n, mask, h);
    LoadedIs(h, s.sr, s.pc);
  }

  /** RTE at `h` brings back what was running at `s`. */
  ghost predicate Undone(s: Core, h: Core) {
    && h.a7 + 6 <= |h.ram|
    && Loaded(h).pc == s.pc && Loaded(h).sr == s.sr && Loaded(h).a7 == s.a7
    && UserSp(Loaded(h)) == UserSp(s) && SystemSp(Loaded(h)) == SystemSp(s)
  }

  lemma {:induction false} VectorKept(ram: seq<Octet>, sp: nat, sr: nat, pc: nat, n: nat)
    requires 6 <= sp <= |ram| && 4 * n + 4 <= sp - 6
    ensures Vector(PushFrame(ram, sp, sr, pc), n) == Vector(ram, n)
  {
    PutOther(Long, ram, sp - 4, pc, Long, 4 * n);
    PutOther(Word, Put(Long, ram, sp - 4, pc), sp - 6, sr, Long, 4 * n);
  }

  /** Entry itself writes the six bytes below the supervisor stack pointer and no others. */
  lemma {:induction false} EntryWritesSix(s: Core, n: nat, mask: nat)
    requires Running(s) && 4 * n + 4 <= |s.ram|
    ensures var e := Enter(s, n, mask);
      && |e.ram| == |s.ram| && e.a7 == SystemSp(s) - 6 && UserSp(e) == UserSp(s)
      && (n < 256 ==> e.pc == Vector(s.ram, n) == Big(s.ram[4 * n..4 * n + 4]) % ADDRESS_SPACE)
      && e.sr == Status(false, true, mask, s.sr.ccr)
      && e.ram[..e.a7] == s.ram[..e.a7] && e.ram[e.a7 + 6..] == s.ram[e.a7 + 6..]
  {
    FrameIs(s.ram, SystemSp(s), Pack(s.sr), s.pc);
    if n < 256 {
      VectorKept(s.ram, SystemSp(s), Pack(s.sr), s.pc, n);
      BusIs(Get(Long, s.ram, 4 * n));
    }
  }

  lemma {:induction false} PushSame(ram: seq<Octet>, a: nat)
    requires a + 6 <= |ram|
    ensures PushFrame(ram, a + 6, Get(Word, ram, a), Get(Long, ram, a + 2)) == ram
  {
    PutSame(Long, ram, a + 2);
    PutSame(Word, ram, a);
  }

  /**
    An interrupt that RTE lets through is taken on the spot: the frame and the stack
    pointer stay as they are, and the interrupted program is not entered in between.
  */
  lemma {:induction false} RteTakesNext(s: Core, n: nat, mask: nat, h: Core, next: nat)
    requires Running(s) && 4 * n + 4 <= |s.ram| && Returns(Enter(s, n, mask), h) && next < 8
    ensures var e := Enter(Loaded(h), 24 + next, next);
      e.ram == h.ram && e.a7 == h.a7 && UserSp(e) == UserSp(s) && e.sr.mask == next
  {
    RteUndoesEntry(s, n, mask, h);
    FrameFound(s, n, mask, h);
    EntersAgain(Loaded(h), h.a7, 24 + next, next);
  }

  /** Entry where the frame to be stored is there already. */
  lemma {:induction false} EntersAgain(r: Core, a: nat, n: nat, mask: nat)
    requires StatusValid(r.sr) && SystemSp(r) == a + 6 <= |r.ram| && 4 * n + 4 <= |r.ram|
    requires Get(Word, r.ram, a) == Pack(r.sr) && Get(Long, r.ram, a + 2) == r.pc
    ensures Enter(r, n, mask).ram == r.ram && Enter(r, n, mask).a7 == a
  {
    PushSame(r.ram, a);
  }

  // ---- what happens between the instructions ----

  datatype System = System(l: Lines, mask: nat)

  /** Lines change, the mask is loaded, or a request the mask lets through is accepted. */
  datatype Event =
    | SetLines(p22: bool, p23: bool)
    | FrameSync
    | Gap
    | Acknowledge(bits: set<nat>)
    | LoadMask(mask: nat)
    | Poll

  function Raise(l: Lines, bit: nat): (l': Lines) {
    UpdateIpl(l.(theInt := l.theInt + {bit}))
  }

  function Next(s: System, e: Event): (s': System) {
    match e
    case SetLines(a, b) => s.(l := UpdateIpl(s.l.(p22 := a, p23 := b)))
    case FrameSync => if 3 in s.l.theInt then s else s.(l := Raise(s.l, 3))
    case Gap => s.(l := Raise(s.l, 0))
    case Acknowledge(bits) => s.(l := UpdateIpl(s.l.(theInt := s.l.theInt - bits * SOURCES)))
    case LoadMask(m) => s.(mask := m)
    case Poll => if Deliverable(s.l, s.mask) then System(Accepted(s.l, s.l.pending), s.l.pending) else s
  }

  predicate Accepts(s: System, e: Event) {
    e.Poll? && Deliverable(s.l, s.mask)
  }

  /** `run[i]` is the state before event `i`. */
  predicate Run(run: seq<System>, es: seq<Event>) {
    && |run| == |es| + 1 && run[0].l == POWER_ON
    && forall i :: 0 <= i < |es| ==> run[i + 1] == Next(run[i], es[i])
  }

  /** The second line of the IPC or a pending bit of $18021. */
  predicate SecondSource(l: Lines) {
    l.p23 || exists b :: b in l.theInt && b in {0, 1, 2, 3, 4}
  }

  /**
    The request: 7 for both sources until it is taken, 5 for the first line of the IPC
    alone, 2 for its second line or a pending bit alone.
  */
  predicate Coherent(l: Lines) {
    && (l.taken ==> l.p22 && SecondSource(l))
    && l.pending == if l.taken then 0
                    else if l.p22 && SecondSource(l) then 7
                    else if l.p22 then 5
                    else if SecondSource(l) then 2
                    else 0
  }

  lemma {:induction false} UpdateIsCoherent(l: Lines)
    ensures Coherent(UpdateIpl(l))
    ensures var u := UpdateIpl(l); u.p22 == l.p22 && u.p23 == l.p23 && u.theInt == l.theInt
  {
    assert l.theInt * SOURCES != {} <==> exists b :: b in l.theInt && b in {0, 1, 2, 3, 4} by {
      if l.theInt * SOURCES != {} {
        var b :| b in l.theInt * SOURCES;
        assert b in l.theInt && b in {0, 1, 2, 3, 4};
      }
      if b :| b in l.theInt && b in {0, 1, 2, 3, 4} {
        assert b in l.theInt * SOURCES;
      }
    }
  }

  lemma {:induction false} PendingRange(l: Lines)
    requires Coherent(l)
    ensures l.pending in {0, 2, 5, 7}
  {
  }

  lemma {:induction false} AlwaysCoherent(run: seq<System>, es: seq<Event>, i: nat)
    requires Run(run, es) && i < |run|
    ensures Coherent(run[i].l)
  {
    if i > 0 {
      AlwaysCoherent(run, es, i - 1);
      assert run[i - 1 + 1] == Next(run[i - 1], es[i - 1]);
      EventKeeps(run[i - 1], es[i - 1]);
    }
  }

  /** What each event does to the sources and the mask; the request follows by `Coherent`. */
  lemma {:induction false} EventKeeps(s: System, e: Event)
    requires Coherent(s.l)
    ensures var t := Next(s, e);
      && Coherent(t.l)
      && (if e.SetLines? then t.l.p22 == e.p22 && t.l.p23 == e.p23 else t.l.p22 == s.l.p22 && t.l.p23 == s.l.p23)
      && (forall b :: b in t.l.theInt <==>
            || (b in s.l.theInt && !(e.Acknowledge? && b in e.bits && b < 5))
            || (e.FrameSync? && b == 3) || (e.Gap? && b == 0))
      && t.mask == if e.LoadMask? then e.mask
                   else if e.Poll? && (s.l.pending == 7 || s.l.pending > s.mask) then s.l.pending else s.mask
  {
    match e
    case SetLines(a, b) => UpdateIsCoherent(s.l.(p22 := a, p23 := b));
    case FrameSync => UpdateIsCoherent(s.l.(theInt := s.l.theInt + {3}));
    case Gap => UpdateIsCoherent(s.l.(theInt := s.l.theInt + {0}));
    case Acknowledge(bits) => UpdateIsCoherent(s.l.(theInt := s.l.theInt - bits * SOURCES));
    case LoadMask(m) =>
    case Poll => UpdateIsCoherent(if s.l.pending == 7 then s.l.(taken := true) else s.l);
  }

  /** Acknowledging clears the named bits, and with the last of them the request they made. */
  lemma {:induction false} AcknowledgeClears(s: System, bits: set<nat>)
    requires Coherent(s.l)
    ensures var t := Next(s, Acknowledge(bits));
      && (forall b :: b in bits && b < 5 ==> b !in t.l.theInt)
      && (forall b :: b !in bits && b in s.l.theInt ==> b in t.l.theInt)
      && ((forall b :: b in s.l.theInt && b < 5 ==> b in bits) && !s.l.p23 ==> t.l.pending == if s.l.p22 then 5 else 0)
  {
    EventKeeps(s, Acknowledge(bits));
    var t := Next(s, Acknowledge(bits));
    assert SecondSource(t.l) && !s.l.p23 ==> exists b :: b in s.l.theInt && b < 5 && b !in bits;
  }

  /** Level 7 stays taken as long as its sources stay. */
  lemma {:induction false} TakenStays(s: System, e: Event)
    requires Coherent(s.l) && s.l.taken
    ensures var t := Next(s, e); t.l.p22 && SecondSource(t.l) ==> t.l.taken
  {
    EventKeeps(s, e);
    LevelIsSeven(s.l);
    LevelIsSeven(Next(s, e).l);
  }

  lemma {:induction false} LevelIsSeven(l: Lines)
    ensures Level(l) == 7 <==> l.p22 && SecondSource(l)
  {
    UpdateIsCoherent(l.(taken := false));
  }

  /** Between two times that level 7 is accepted, the lines left level 7. */
  lemma {:induction false} SevenOncePerEdge(run: seq<System>, es: seq<Event>, i: nat, j: nat) returns (k: nat)
    requires Run(run, es) && i < j < |es| && Accepts(run[i], es[i]) && Accepts(run[j], es[j])
    requires run[i].l.pending == 7 && run[j].l.pending == 7
    ensures i < k < j && !(run[k].l.p22 && SecondSource(run[k].l))
  {
    k := i + 1;
    AlwaysCoherent(run, es, i);
    AlwaysCoherent(run, es, j);
    assert run[i + 1] == Next(run[i], es[i]);
    EventKeeps(run[i], es[i]);
    while run[k].l.p22 && SecondSource(run[k].l)
      invariant i < k <= j && (run[k].l.p22 && SecondSource(run[k].l) ==> run[k].l.taken)
      decreases j - k
    {
      AlwaysCoherent(run, es, k);
      assert run[k + 1] == Next(run[k], es[k]);
      EventKeeps(run[k], es[k]);
      TakenStays(run[k], es[k]);
      k := k + 1;
    }
  }

  /**
    While no event loads the mask, every request accepted is above those accepted before
    it, save that level 7 may interrupt itself on its next edge.
  */
  lemma {:induction false} NestedLevelsRise(run: seq<System>, es: seq<Event>, i: nat, j: nat)
    requires Run(run, es) && i < j < |es| && Accepts(run[i], es[i]) && Accepts(run[j], es[j])
    requires forall k :: i < k < j ==> !es[k].LoadMask?
    ensures run[i].l.pending in {2, 5, 7} && run[j].l.pending in {2, 5, 7}
    ensures run[j].l.pending > run[i].l.pending || run[i].l.pending == run[j].l.pending == 7
    ensures run[j + 1].mask == run[j].l.pending
  {
    AlwaysCoherent(run, es, i);
    AlwaysCoherent(run, es, j);
    assert run[i + 1] == Next(run[i], es[i]) && run[j + 1] == Next(run[j], es[j]);
    for k := i + 1 to j
      invariant run[k].mask >= run[i].l.pending
    {
      AlwaysCoherent(run, es, k);
      assert run[k + 1] == Next(run[k], es[k]);
    }
  }

  /** An interrupt the mask lets through is taken, unless something else is `held` against it. */
  function Resumed(s: Core, l: Lines, held: bool): (s': Core)
    requires Running(s) && Coherent(l)
  {
    if !held && Deliverable(l, s.sr.mask) then Enter(s, 24 + l.pending, l.pending) else s
  }

  function Passed(l: Lines, mask: nat, held: bool): (l': Lines) {
    if !held && Deliverable(l, mask) then Accepted(l, l.pending) else l
  }

  /** The processor's state that exceptions and interrupts touch. */
  class Processor {
    const ram: array<Octet>
    var pc: nat
    var sr: Status
    var a7: nat
    var usp: nat
    var ssp: nat
    var exception: nat           // vector of the pending exception, 0 when there is none
    var savedSr: nat             // status register at an address error
    var badAddress: nat
    var doTrace: bool
    var stopped: bool
    var extraFlag: bool          // the fetch loop has to look for exceptions
    var ipc22: bool              // P2.2 and P2.3 as the IPC drives them, low when active
    var ipc23: bool
    var theInt: set<nat>
    var nmiTaken: bool
    var pendingInterrupt: nat

    constructor (memory: array<Octet>, user: nat)
      requires 8 <= memory.Length
      ensures ram == memory && fresh(this)
      ensures Asked() == POWER_ON && sr.mask == 7 && sr.supervisor
      ensures a7 == ssp == Get(Long, memory[..], 0) && usp == user
      ensures Noticed()
    {
      ram, usp := memory, user;
      savedSr, badAddress, ipc22, ipc23, theInt, nmiTaken := 0, 0, true, true, {}, false;
      pc := 0;
      a7 := Get(Long, memory[..], 0);
      ssp := Get(Long, memory[..], 0);
      sr := Status(false, true, 7, 0);
      doTrace, exception, extraFlag, pendingInterrupt, stopped := false, 0, false, 0, false;
      new;
      SetPC(Get(Long, memory[..], 4));
    }

    function Now(): Core
      reads this, ram
    {
      Core(pc, sr, a7, usp, ssp, ram[..])
    }

    /** An exception or a trace goes before any interrupt. */
    predicate Held()
      reads this
    {
      exception != 0 || doTrace
    }

    /** A request the mask lets through makes the fetch loop look: none is forgotten. */
    predicate Noticed()
      reads this
    {
      Deliverable(Asked(), sr.mask) && !Held() ==> extraFlag
    }

    function Asked(): Lines
      reads this
    {
      Lines(!ipc22, !ipc23, theInt, nmiTaken, pendingInterrupt)
    }

    method UpdateLines()
      modifies this`nmiTaken, this`pendingInterrupt, this`extraFlag
      ensures Asked() == UpdateIpl(old(Asked()))
      ensures extraFlag == (old(extraFlag) || Deliverable(Asked(), sr.mask))
      ensures Coherent(Asked())
      ensures !nmiTaken ==>
        pendingInterrupt == (if ipc22 then 0 else 5) + if ipc23 && (forall b :: b in theInt ==> b > 4) then 0 else 2
      ensures Noticed()
    {
      UpdateIsCoherent(Asked());
      var level := (if ipc22 then 0 else 5) + (if ipc23 && theInt * SOURCES == {} then 0 else 2);
      if level != 7 {
        nmiTaken := false;
      } else if nmiTaken {
        level := 0;
      }
      pendingInterrupt := level;
      if level == 7 || level > sr.mask {
        extraFlag := true;
      }
    }

    method SetIpcLines(high22: bool, high23: bool)
      modifies this`ipc22, this`ipc23, this`nmiTaken, this`pendingInterrupt, this`extraFlag
      ensures System(Asked(), sr.mask) == Next(old(System(Asked(), sr.mask)), SetLines(!high22, !high23))
      ensures Noticed()
    {
      ipc22, ipc23 := high22, high23;
      UpdateLines();
    }

    method FrameInterrupt()
      modifies this`theInt, this`nmiTaken, this`pendingInterrupt, this`extraFlag
      ensures System(Asked(), sr.mask) == Next(old(System(Asked(), sr.mask)), FrameSync)
      ensures old(Noticed()) ==> Noticed()
    {
      if 3 !in theInt {
        theInt := theInt + {3};
        UpdateLines();
      }
    }

    method GapInterrupt()
      modifies this`theInt, this`nmiTaken, this`pendingInterrupt, this`extraFlag
      ensures System(Asked(), sr.mask) == Next(old(System(Asked(), sr.mask)), Gap)
      ensures Noticed()
    {
      theInt := theInt + {0};
      UpdateLines();
    }

    /** The program acknowledges interrupts by writing their bits to $18021. */
    method WriteInt(bits: set<nat>)
      modifies this`theInt, this`nmiTaken, this`pendingInterrupt, this`extraFlag
      ensures System(Asked(), sr.mask) == Next(old(System(Asked(), sr.mask)), Acknowledge(bits))
      ensures Noticed()
    {
      var d := bits * SOURCES;
      theInt := theInt - d;
      UpdateLines();
    }

    method IrqAccepted(level: nat)
      modifies this`nmiTaken, this`pendingInterrupt, this`extraFlag
      ensures Asked() == Accepted(old(Asked()), level)
      ensures Noticed()
    {
      if level == 7 {
        nmiTaken := true;
      }
      UpdateLines();
    }

    method SetPC(addr: nat)
      modifies this`pc, this`exception, this`savedSr, this`badAddress, this`extraFlag
      ensures addr % 2 == 0 ==> pc == Bus(addr) && exception == old(exception) && extraFlag == old(extraFlag)
      ensures addr % 2 == 1 ==>
        pc == old(pc) && exception == 3 && savedSr == Pack(sr) && badAddress == addr && extraFlag
      ensures old(Noticed()) ==> Noticed()
    {
      if addr % 2 == 1 {
        savedSr, exception, extraFlag, badAddress := Pack(sr), 3, true, addr;
        return;
      }
      pc := Bus(addr);
    }

    /** Jumps through vector `n`. */
    method SetVector(n: nat)
      requires 4 * n + 4 <= ram.Length
      modifies this`pc, this`exception, this`savedSr, this`badAddress, this`extraFlag
      ensures pc == Vector(ram[..], n) && exception == (if pc % 2 == 1 then 3 else old(exception))
    {
      pc := Bus(Get(Long, ram[..], 4 * n));
      if pc % 2 == 1 {
        savedSr, exception, extraFlag, badAddress := Pack(sr), 3, true, pc;
      }
    }

    /** The stack pointer of the supervisor becomes A7, and the frame is stored below it. */
    method PushState(w: nat)
      requires 6 <= SystemSp(Now()) <= ram.Length
      modifies this`a7, this`usp, ram
      ensures a7 == SystemSp(old(Now())) - 6 && usp == UserSp(old(Now()))
      ensures ram[..] == PushFrame(old(ram[..]), SystemSp(old(Now())), w, pc)
    {
      if !sr.supervisor {
        usp := a7;
        a7 := ssp;
      }
      WriteOperand(Long, ram, a7 - 4, pc);
      a7 := a7 - 6;
      WriteOperand(Word, ram, a7, w);
    }

    /** Stores the frame and jumps through vector `n`, in supervisor mode with the mask `mask`. */
    method EnterVector(n: nat, mask: nat)
      requires StatusValid(sr) && 6 <= SystemSp(Now()) <= ram.Length && 4 * n + 4 <= ram.Length
      modifies this`a7, this`usp, this`pc, this`sr, ram
      modifies this`exception, this`savedSr, this`badAddress, this`extraFlag
      ensures Now() == Enter(old(Now()), n, mask)
      ensures exception == if pc % 2 == 1 then 3 else old(exception)
    {
      PushState(Pack(sr));
      SetVector(n);
      sr := sr.(trace := false, supervisor := true, mask := mask);
    }

    /** Accepts the request if the mask lets it through. */
    method ProcessInterrupts()
      requires Running(Now()) && Coherent(Asked())
      modifies this, ram
      ensures var held := old(Held());
        && Now() == Resumed(old(Now()), old(Asked()), held) && Asked() == Passed(old(Asked()), old(sr.mask), held)
        && exception == (if !held && Deliverable(old(Asked()), old(sr.mask)) && pc % 2 == 1 then 3 else old(exception))
      ensures doTrace == old(doTrace) && (old(Noticed()) ==> Noticed())
      ensures old(exception) == 0 && !old(doTrace) ==>
        && System(Asked(), sr.mask) == Next(old(System(Asked(), sr.mask)), Poll)
        && Now() == if old(pendingInterrupt) == 7 || old(pendingInterrupt) > old(sr.mask)
                    then Enter(old(Now()), 24 + old(pendingInterrupt), old(pendingInterrupt)) else old(Now())
    {
      if exception == 0 && (pendingInterrupt == 7 || pendingInterrupt > sr.mask) && !doTrace {
        AcceptInterrupt();
      }
    }

    /** Enters the handler of the pending request, whose level becomes the mask. */
    method AcceptInterrupt()
      requires Running(Now()) && Coherent(Asked()) && pendingInterrupt != 0
      modifies this, ram
      ensures Now() == Enter(old(Now()), 24 + old(pendingInterrupt), old(pendingInterrupt))
      ensures Asked() == Accepted(old(Asked()), old(pendingInterrupt))
      ensures exception == (if pc % 2 == 1 then 3 else old(exception)) && doTrace == old(doTrace) && !stopped
      ensures Noticed()
    {
      PendingRange(Asked());
      EnterVector(24 + pendingInterrupt, pendingInterrupt);
      NoteAccepted();
    }

    /** The mask is the level accepted: nothing is left that it lets through. */
    method NoteAccepted()
      requires Coherent(Asked()) && pendingInterrupt == sr.mask
      modifies this`nmiTaken, this`pendingInterrupt, this`extraFlag, this`stopped
      ensures Asked() == Accepted(old(Asked()), sr.mask) && !stopped && Noticed()
    {
      UpdateIsCoherent(if sr.mask == 7 then Asked().(taken := true) else Asked());
      IrqAccepted(sr.mask);
      stopped, extraFlag := false, false;
    }

    /** The status register without the interrupt it may let through. */
    method LoadSR(to: Status)
      modifies this`sr, this`extraFlag, this`usp, this`ssp, this`a7
      ensures Now() == SetStatus(old(Now()), to)
      ensures extraFlag == (doTrace || to.trace || exception != 0 || Deliverable(Asked(), to.mask))
      ensures Noticed()
    {
      var oldSuper := sr.supervisor;
      sr := to;
      extraFlag := doTrace || sr.trace || exception != 0 || pendingInterrupt == 7 || pendingInterrupt > sr.mask;
      if oldSuper != sr.supervisor {
        if sr.supervisor {
          usp := a7;
          a7 := ssp;
        } else {
          ssp := a7;
          a7 := usp;
        }
      }
    }

    /** Loads the status register; an interrupt that it lets through is taken at once. */
    method PutSR(to: Status)
      requires Coherent(Asked()) && Running(SetStatus(Now(), to))
      modifies this, ram
      ensures Now() == Resumed(SetStatus(old(Now()), to), old(Asked()), old(Held()))
      ensures Asked() == Passed(old(Asked()), to.mask, old(Held()))
      ensures Noticed()
    {
      LoadSR(to);
      ProcessInterrupts();
    }

    /** Takes the program counter and the status word off the stack. */
    method PopFrame() returns (w: nat)
      requires a7 + 6 <= ram.Length
      modifies this`pc, this`exception, this`savedSr, this`badAddress, this`extraFlag, this`a7
      ensures w == Get(Word, ram[..], old(a7))
      ensures Now() == Popped(old(Now())) && SetStatus(Now(), Unpack(w)) == Loaded(old(Now()))
      ensures exception == if FrameOdd(old(Now())) then 3 else old(exception)
    {
      w := Get(Word, ram[..], a7);
      SetPC(Get(Long, ram[..], a7 + 2));
      a7 := a7 + 6;
    }

    method Return()
      requires Coherent(Asked()) && a7 + 6 <= ram.Length && Running(Loaded(Now()))
      modifies this, ram
      ensures var held := old(Held()) || FrameOdd(old(Now()));
        && Now() == Resumed(Loaded(old(Now())), old(Asked()), held)
        && Asked() == Passed(old(Asked()), Loaded(old(Now())).sr.mask, held)
      ensures Noticed()
    {
      var w := PopFrame();
      PutSR(Unpack(w));
    }

    /** In user mode RTE is a privilege violation. */
    method Rte()
      requires Coherent(Asked()) && pc >= 2
      requires sr.supervisor ==> a7 + 6 <= ram.Length && Running(Loaded(Now()))
      modifies this, ram
      ensures !old(sr.supervisor) ==>
        Now() == old(Now()).(pc := old(pc) - 2) && exception == 8 && Asked() == old(Asked())
      ensures old(sr.supervisor) ==>
        var held := old(Held()) || FrameOdd(old(Now()));
        && Now() == Resumed(Loaded(old(Now())), old(Asked()), held)
        && Asked() == Passed(old(Asked()), Loaded(old(Now())).sr.mask, held)
      ensures Noticed()
    {
      if sr.supervisor {
        Return();
      } else {
        exception, extraFlag, pc := 8, true, pc - 2;
      }
    }

    method Trap(n: nat)
      modifies this`exception, this`extraFlag
      ensures exception == 32 + n && extraFlag
      ensures Noticed()
    {
      exception, extraFlag := 32 + n, true;
    }

    /** Enters the handler of a pending exception, which allows interrupts again. */
    method TakeException()
      requires exception < 256 && (exception != 0 ==> Running(Now()))
      modifies this, ram
      ensures Now() == if old(exception) != 0 then Enter(old(Now()), old(exception), old(sr.mask)) else old(Now())
      ensures exception == 0 && Asked() == old(Asked()) && doTrace == old(doTrace)
    {
      if exception != 0 {
        EnterVector(exception, sr.mask);
        exception, extraFlag := 0, false;
      }
    }

    /** With vectors to even addresses no address error comes in between. */
    method TakeInterrupt()
      requires Running(Now()) && Coherent(Asked()) && pendingInterrupt != 0 && exception != 3
      requires forall n :: 0 <= n < 256 ==> Vector(ram[..], n) % 2 == 0
      modifies this, ram
      ensures Now() == Resumed(old(Now()), old(Asked()), old(Held()))
        && Asked() == Passed(old(Asked()), old(sr.mask), old(Held()))
      ensures exception == old(exception) && doTrace == old(doTrace)
    {
      PendingRange(Asked());
      EntryWritesSix(Now(), 24 + pendingInterrupt, pendingInterrupt);
      ProcessInterrupts();
    }

    /**
      Between instructions, without tracing and with vectors to even addresses: a pending
      exception goes before an interrupt.
    */
    method ExceptionProcessing()
      requires Running(Now()) && Coherent(Asked()) && !doTrace
      requires exception < 256 && exception != 3 && forall n :: 0 <= n < 256 ==> Vector(ram[..], n) % 2 == 0
      modifies this, ram
      ensures Now() == if old(exception) != 0 then Enter(old(Now()), old(exception), old(sr.mask))
        else Resumed(old(Now()), old(Asked()), false)
      ensures Asked() == Passed(old(Asked()), old(sr.mask), old(exception) != 0)
      ensures exception == 0 && doTrace == sr.trace && (pendingInterrupt != 0 && !doTrace ==> extraFlag) && Noticed()
    {
      if pendingInterrupt != 0 && !doTrace {
        TakeInterrupt();
      }
      TakeException();
      doTrace := sr.trace;
      if pendingInterrupt != 0 && !doTrace {
        extraFlag := true;
      }
    }

    /**
      TRAP #n and the exception processing behind it: vector 32 + n is entered with the
      program counter behind the TRAP in the frame, before any interrupt, and a handler
      that ends in RTE gives everything back.
    */
    method TakeTrap(n: nat)
      requires n < 16 && Running(Now()) && Coherent(Asked()) && !Held()
      requires forall v :: 0 <= v < 256 ==> Vector(ram[..], v) % 2 == 0
      modifies this, ram
      ensures Now() == Enter(old(Now()), 32 + n, old(sr.mask)) && pc == Vector(old(ram[..]), 32 + n)
      ensures exception == 0 && Asked() == old(Asked()) && Noticed()
      ensures forall h :: Returns(Now(), h) ==> Undone(old(Now()), h)
    {
      ghost var was := Now();
      Trap(n);
      ExceptionProcessing();
      EntryWritesSix(was, 32 + n, was.sr.mask);
      forall h | Returns(Now(), h) ensures Undone(was, h) {
        RteUndoesEntry(was, 32 + n, was.sr.mask, h);
      }
    }
  }
}
