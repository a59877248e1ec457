/**
  The microdrive tape: an endless loop of sectors, each a header and a data block with gaps
  before them, which advances one word per 16 ticks of 37 CPU cycles, and the receiver that
  hands the bytes to the CPU.
*/
module Tape {

  type Word = w: int | 0 <= w < 0x1_0000

  const GAP: nat := 35
  const HEADER_WORDS: nat := 14
  const DATA_WORDS: nat := 329
  const SECTOR_WORDS: nat := 343
  const SECTOR_TIME: nat := 413      // both gaps, the header and the data block
  const TICK: nat := 37
  const WORD_TIME: nat := 592        // 16 ticks

  /** Where the tape is: next word, words since the block or the gap began, kind of block, in a gap or not. */
  datatype Head = Head(addr: nat, cnt: nat, data: bool, inGap: bool)

  const START: Head := Head(0, 0, true, true)

  /** Words that are handed to the CPU: not the preambles. */
  predicate Audible(h: Head) {
    !h.inGap && h.cnt > 5 && !(h.data && 7 < h.cnt < 12)
  }

  predicate GapStarts(h: Head) {
    !h.inGap && h.cnt == if h.data then DATA_WORDS - 1 else HEADER_WORDS - 1
  }

  /** One word of tape passes; `words` is the length of the loop. */
  function Advance(h: Head, words: nat): (h': Head) {
    if h.addr >= words then START
    else if h.inGap then
      if h.cnt == GAP - 1 then Head(h.addr, 0, !h.data, false) else h.(cnt := (h.cnt + 1) % 0x400)
    else if GapStarts(h) then Head(h.addr + 1, 0, h.data, true)
    else h.(addr := h.addr + 1, cnt := (h.cnt + 1) % 0x400)
  }

  /** Words in one revolution of a tape of `n` sectors: one more, to rewind. */
  function Revolution(n: nat): (p: nat)
    ensures p > 0
  {
    SECTOR_TIME * n + 1
  }

  /** Where the tape is `r` words into the sector that is stored from `base` on. */
  function InSector(base: nat, r: nat): (h: Head)
  {
    if r < GAP then Head(base, r, true, true)
    else if r < GAP + HEADER_WORDS then Head(base + (r - GAP), r - GAP, false, false)
    else if r < GAP + HEADER_WORDS + GAP then Head(base + HEADER_WORDS, r - GAP - HEADER_WORDS, false, true)
    else Head(base + HEADER_WORDS + (r - 84), r - 84, true, false)
  }

  /** Where the tape is `t` words after it reached the sector stored from `base` on. */
  function From(base: nat, t: nat): (h: Head)
    decreases t
  {
    if t < SECTOR_TIME then InSector(base, t) else From(base + SECTOR_WORDS, t - SECTOR_TIME)
  }

  /** Where the tape is `t` words into a revolution. */
  function Position(t: nat): (h: Head) {
    From(0, t)
  }

  lemma {:induction false} FromSector(base: nat, k: nat, r: nat)
    requires r < SECTOR_TIME
    ensures From(base, SECTOR_TIME * k + r) == InSector(base + SECTOR_WORDS * k, r)
    decreases k
  {
    if k > 0 {
      FromSector(base + SECTOR_WORDS, k - 1, r);
    }
  }

  lemma {:induction false} AdvanceInSector(base: nat, r: nat, words: nat)
    requires r < SECTOR_TIME && base + SECTOR_WORDS <= words
    ensures Advance(InSector(base, r), words)
         == if r == SECTOR_TIME - 1 then InSector(base + SECTOR_WORDS, 0) else InSector(base, r + 1)
    ensures GapStarts(InSector(base, r)) <==> r == 48 || r == SECTOR_TIME - 1
  {
  }

  /** The machine follows the layout, and begins anew exactly after one revolution. */
  lemma {:induction false} AdvanceFollows(n: nat, t: nat)
    requires t < Revolution(n)
    ensures Advance(Position(t), SECTOR_WORDS * n) == Position(if t + 1 == Revolution(n) then 0 else t + 1)
  {
    SectorFollows(n, t / SECTOR_TIME, t % SECTOR_TIME);
  }

  lemma {:induction false} SectorFollows(n: nat, k: nat, r: nat)
    requires (k < n && r < SECTOR_TIME) || (k == n && r == 0)
    ensures Advance(Position(SECTOR_TIME * k + r), SECTOR_WORDS * n) == if k == n then Position(0)
      else Position(SECTOR_TIME * k + r + 1)
  {
    FromSector(0, k, r);
    if k < n {
      AdvanceInSector(SECTOR_WORDS * k, r, SECTOR_WORDS * n);
      if r == SECTOR_TIME - 1 {
        FromSector(0, k + 1, 0);
      } else {
        FromSector(0, k, r + 1);
      }
    }
  }

  /**
    A drive: the word under the head with its two bytes still to be shifted out, the clock,
    and the receiver's byte. `ready` holds until the byte is taken or has become stale.
  */
  datatype Drive = Drive(head: Head, word: Word, valid: bool, bit: nat, clk: nat, ready: bool, byte: nat, last: nat,
    idle: nat)

  /** The byte of the word that is complete at `bit`: the upper one first. */
  function ByteAt(word: Word, bit: nat): (b: nat) {
    if bit >= 8 then word % 256 else word / 256
  }

  /** Bits 2 and 10 of a word: a byte is complete. */
  function Receive(d: Drive): (d': Drive) {
    if d.bit % 8 != 2 then d
    else if d.valid then d.(idle := 0, byte := ByteAt(d.word, d.bit), ready := true)
    else if !d.ready then d
    else if d.idle + 1 >= 2 then d.(ready := false, idle := 0)
    else d.(idle := d.idle + 1)
  }

  /** The last bit: the next word is loaded, and a rewound tape empties the receiver. */
  function LoadWord(d: Drive, tape: seq<Word>): (d': Drive) {
    if d.bit != 15 then d
    else
      var e := d.(head := Advance(d.head, |tape|), word := if d.head.addr < |tape| then tape[d.head.addr] else 0,
                  valid := Audible(d.head));
      if d.head.addr < |tape| then e else e.(ready := false, idle := 0)
  }

  /** One CPU cycle. */
  function StepCe(d: Drive, tape: seq<Word>): (d': Drive) {
    if d.clk != TICK - 1 then d.(clk := d.clk + 1)
    else LoadWord(Receive(d.(clk := 0, bit := (d.bit + 1) % 16)), tape)
  }

  /** The CPU polls the data register. */
  function Take(d: Drive): (d': Drive) {
    if d.ready then d.(ready := false, last := d.byte) else d
  }

  /** What a read gives: the byte that is ready, or the last one again. */
  function Given(d: Drive): (b: nat) {
    if d.ready then d.byte else d.last
  }

  /** A second read gives the byte of the first, until another byte has come. */
  lemma {:induction false} ReadAgain(d: Drive)
    ensures Given(Take(d)) == Given(d) && !Take(d).ready && Take(Take(d)) == Take(d)
  {
  }

  datatype Heard = Heard(d: Drive, got: seq<nat>)

  /** A cycle, after which the CPU may read: `got` collects the bytes read while `ready` was up. */
  function Cycle(h: Heard, tape: seq<Word>, poll: bool): (h': Heard) {
    var e := StepCe(h.d, tape);
    Heard(if poll then Take(e) else e, if poll && e.ready then h.got + [e.byte] else h.got)
  }

  function Pending(d: Drive): (b: seq<nat>) {
    if d.ready then [d.byte] else []
  }

  /**
    The next cycle overwrites the byte nobody has taken, drops it because two byte times
    have gone by without a byte behind it, or rewinds the tape.
  */
  predicate Late(d: Drive, tape: seq<Word>) {
    && d.ready && d.clk == TICK - 1
    && (((d.bit + 1) % 8 == 2 && (d.valid || d.idle + 1 >= 2)) || ((d.bit + 1) % 16 == 15 && d.head.addr >= |tape|))
  }

  /** Cycle `i` of a run; the reader takes every byte before it would be lost. */
  predicate CycleAt(hs: seq<Heard>, tape: seq<Word>, polls: seq<bool>, i: nat) {
    i < |polls| && i + 1 < |hs| && hs[i + 1] == Cycle(hs[i], tape, polls[i]) && !Late(hs[i].d, tape)
  }

  predicate Run(hs: seq<Heard>, tape: seq<Word>, polls: seq<bool>) {
    && |hs| == |polls| + 1
    && forall i :: 0 <= i < |polls| ==> CycleAt(hs, tape, polls, i)
  }

  /** The byte that the next cycle completes. */
  function Latched(d: Drive): (b: seq<nat>) {
    if d.clk == TICK - 1 && (d.bit + 1) % 8 == 2 && d.valid then [ByteAt(d.word, (d.bit + 1) % 16)] else []
  }

  /** A byte is lost exactly when the reader is late. */
  lemma {:induction false} LostIffLate(d: Drive, tape: seq<Word>)
    requires d.bit < 16
    ensures Pending(StepCe(d, tape)) == Pending(d) + Latched(d) <==> !Late(d, tape)
  {
    assert |Pending(d) + Latched(d)| == |Pending(d)| + |Latched(d)|;
  }

  /** No byte is lost or made up. */
  lemma {:induction false} CycleHears(h: Heard, tape: seq<Word>, poll: bool)
    requires h.d.bit < 16 && !Late(h.d, tape)
    ensures var h' := Cycle(h, tape, poll); Total(h') == Total(h) + Latched(h.d) && SameClock(h'.d, StepCe(h.d, tape))
  {
    LostIffLate(h.d, tape);
    assert h.got + Pending(StepCe(h.d, tape)) == h.got + Pending(h.d) + Latched(h.d);
  }

  /** Reading does not touch the tape. */
  predicate SameClock(d: Drive, e: Drive) {
    SameWord(d, e) && d.bit == e.bit && d.clk == e.clk
  }

  /** At a word boundary: the last bit has just passed. */
  predicate Boundary(d: Drive) {
    d.clk == 0 && d.bit == 15
  }

  /** Bytes of the word under the head that are complete after `k` ticks. */
  function Shifted(d: Drive, k: nat): (b: seq<nat>) {
    if !d.valid then []
    else (if k >= 3 then [d.word / 256] else []) + (if k >= 11 then [d.word % 256] else [])
  }

  predicate SameWord(d: Drive, e: Drive) {
    d.head == e.head && d.word == e.word && d.valid == e.valid
  }

  /** What has been heard, with the byte that can still be taken. */
  function Total(h: Heard): (b: seq<nat>) {
    h.got + Pending(h.d)
  }

  /** Between two ticks nothing happens. */
  lemma {:induction false} DuringTick(hs: seq<Heard>, tape: seq<Word>, polls: seq<bool>, m: nat, j: nat)
    requires Run(hs, tape, polls) && m + j < |hs| && j < TICK && hs[m].d.clk == 0 && hs[m].d.bit < 16
    ensures SameClock(hs[m + j].d, hs[m].d.(clk := j)) && Total(hs[m + j]) == Total(hs[m])
  {
    if j > 0 {
      DuringTick(hs, tape, polls, m, j - 1);
      assert CycleAt(hs, tape, polls, m + j - 1);
      CycleHears(hs[m + j - 1], tape, polls[m + j - 1]);
    }
  }

  /** A tick, 37 cycles after the one before. */
  function Ticked(d: Drive, tape: seq<Word>): (d': Drive) {
    StepCe(d.(clk := TICK - 1), tape)
  }

  predicate TickTo(h: Heard, h': Heard, tape: seq<Word>) {
    SameClock(h'.d, Ticked(h.d, tape)) && Total(h') == Total(h) + Latched(h.d.(clk := TICK - 1))
  }

  lemma {:induction false} WholeTick(hs: seq<Heard>, tape: seq<Word>, polls: seq<bool>, m: nat)
    requires Run(hs, tape, polls) && m + TICK < |hs| && hs[m].d.clk == 0 && hs[m].d.bit < 16
    ensures TickTo(hs[m], hs[m + TICK], tape)
  {
    DuringTick(hs, tape, polls, m, TICK - 1);
    var last := m + TICK - 1;
    assert CycleAt(hs, tape, polls, last);
    CycleHears(hs[last], tape, polls[last]);
    SameStep(hs[last].d, hs[m].d.(clk := TICK - 1), tape);
  }

  /** The tape moves whatever the receiver holds. */
  lemma {:induction false} SameStep(d: Drive, e: Drive, tape: seq<Word>)
    requires SameClock(d, e)
    ensures SameClock(StepCe(d, tape), StepCe(e, tape)) && Latched(d) == Latched(e)
  {
  }

  lemma {:induction false} TickPasses(d: Drive, tape: seq<Word>, k: nat)
    requires 0 < k < 16
    ensures var e := d.(clk := TICK - 1, bit := if k == 1 then 15 else k - 2);
      && SameClock(StepCe(e, tape), d.(clk := 0, bit := k - 1))
      && Shifted(d, k) == Shifted(d, k - 1) + Latched(e)
  {
  }

  /** `x` is `k` ticks after the beginning of a word at `h`. */
  predicate InWord(h: Heard, x: Heard, k: nat) {
    SameClock(x.d, h.d.(bit := if k == 0 then 15 else k - 1)) && Total(x) == Total(h) + Shifted(h.d, k)
  }

  lemma {:induction false} OneMoreTick(h: Heard, x: Heard, y: Heard, tape: seq<Word>, k: nat)
    requires 0 < k < 16 && Boundary(h.d) && InWord(h, x, k - 1) && TickTo(x, y, tape)
    ensures InWord(h, y, k)
  {
    TickPasses(h.d, tape, k);
    SameStep(x.d.(clk := TICK - 1), h.d.(clk := TICK - 1, bit := if k == 1 then 15 else k - 2), tape);
  }

  lemma {:induction false} DuringWord(hs: seq<Heard>, tape: seq<Word>, polls: seq<bool>, m: nat, k: nat)
    requires Run(hs, tape, polls) && m + TICK * k < |hs| && k < 16 && Boundary(hs[m].d)
    ensures InWord(hs[m], hs[m + TICK * k], k)
  {
    if k > 0 {
      var c := m + TICK * (k - 1);
      DuringWord(hs, tape, polls, m, k - 1);
      WholeTick(hs, tape, polls, c);
      OneMoreTick(hs[m], hs[c], hs[c + TICK], tape, k);
      assert c + TICK == m + TICK * k;
    }
  }

  /** The word is over: its bytes have been heard, and the next one is under the head. */
  predicate WordTo(h: Heard, h': Heard, tape: seq<Word>) {
    && Boundary(h'.d) && Total(h') == Total(h) + Shifted(h.d, 16)
    && h'.d.head == Advance(h.d.head, |tape|) && h'.d.valid == Audible(h.d.head)
    && h'.d.word == if h.d.head.addr < |tape| then tape[h.d.head.addr] else 0
  }

  lemma {:induction false} LastTick(h: Heard, x: Heard, y: Heard, tape: seq<Word>)
    requires Boundary(h.d) && InWord(h, x, 15) && TickTo(x, y, tape)
    ensures WordTo(h, y, tape)
  {
  }

  /** 592 cycles from boundary to boundary. */
  lemma {:induction false} WholeWord(hs: seq<Heard>, tape: seq<Word>, polls: seq<bool>, m: nat)
    requires Run(hs, tape, polls) && m + WORD_TIME < |hs| && Boundary(hs[m].d)
    ensures WordTo(hs[m], hs[m + WORD_TIME], tape)
  {
    DuringWord(hs, tape, polls, m, 15);
    WholeTick(hs, tape, polls, m + 555);
    LastTick(hs[m], hs[m + 555], hs[m + 592], tape);
  }

  // ---- a revolution ----

  function WordOf(tape: seq<Word>, t: nat): (w: Word) {
    if Position(t).addr < |tape| then tape[Position(t).addr] else 0
  }

  /** The bytes of the words `0` to `t - 1` of a revolution. */
  function Stream(bytes: nat -> seq<nat>, t: nat): (b: seq<nat>) {
    if t == 0 then [] else Stream(bytes, t - 1) + bytes(t - 1)
  }

  function Bytes(tape: seq<Word>): (f: nat -> seq<nat>) {
    t => WordBytes(tape, t)
  }

  function Halves(w: Word): (b: seq<nat>) {
    [w / 256, w % 256]
  }

  function WordBytes(tape: seq<Word>, t: nat): (b: seq<nat>) {
    if Audible(Position(t)) then Halves(WordOf(tape, t)) else []
  }

  /** `w` words into the revolution: the word before is being shifted out. */
  predicate Underway(d: Drive, tape: seq<Word>, n: nat, w: nat) {
    && Boundary(d) && d.head == Position(if w == Revolution(n) then 0 else w)
    && if w == 0 then !d.valid else d.valid == Audible(Position(w - 1)) && d.word == WordOf(tape, w - 1)
  }

  lemma {:induction false} WordStep(h: Heard, h': Heard, tape: seq<Word>, n: nat, w: nat)
    requires w < Revolution(n) && |tape| == SECTOR_WORDS * n && Underway(h.d, tape, n, w) && WordTo(h, h', tape)
    ensures Underway(h'.d, tape, n, w + 1)
    ensures Total(h') == Total(h) + if w == 0 then [] else Bytes(tape)(w - 1)
  {
    AdvanceFollows(n, w);
  }

  /** `w` words into the revolution, with the words heard that have gone by since `h`. */
  predicate HeardSince(h: Heard, x: Heard, tape: seq<Word>, n: nat, w: nat) {
    Underway(x.d, tape, n, w) && Total(x) == Total(h) + if w == 0 then [] else Stream(Bytes(tape), w - 1)
  }

  lemma {:induction false} HeardOn(h: Heard, x: Heard, y: Heard, tape: seq<Word>, n: nat, w: nat)
    requires w < Revolution(n) && |tape| == SECTOR_WORDS * n && HeardSince(h, x, tape, n, w) && WordTo(x, y, tape)
    ensures HeardSince(h, y, tape, n, w + 1)
  {
    WordStep(x, y, tape, n, w);
  }

  /** From the beginning of the tape, or from its first word. */
  lemma {:induction false} Words(hs: seq<Heard>, tape: seq<Word>, polls: seq<bool>, n: nat, m: nat, first: nat,
      w: nat, e: nat)
    requires Run(hs, tape, polls) && first <= w <= Revolution(n) && |tape| == SECTOR_WORDS * n
    requires e == m + WORD_TIME * (w - first) && e < |hs| && m < |hs|
    requires first <= 1 && Underway(hs[m].d, tape, n, first)
    ensures HeardSince(hs[m], hs[e], tape, n, w)
    decreases w
  {
    if w > first {
      var c := e - WORD_TIME;
      assert c == m + WORD_TIME * (w - 1 - first);
      Words(hs, tape, polls, n, m, first, w - 1, c);
      WholeWord(hs, tape, polls, c);
      HeardOn(hs[m], hs[c], hs[e], tape, n, w - 1);
    } else {
      HeardNothing(hs[m], tape, n, first);
    }
  }

  lemma {:induction false} HeardNothing(h: Heard, tape: seq<Word>, n: nat, first: nat)
    requires first <= 1 && |tape| == SECTOR_WORDS * n && first <= Revolution(n) && Underway(h.d, tape, n, first)
    ensures HeardSince(h, h, tape, n, first)
  {
  }

  /** A drive that has just been reset. */
  predicate Reset(d: Drive) {
    d.head == START && !d.valid && d.bit == d.clk == 0
  }

  lemma {:induction false} TicksAfterReset(hs: seq<Heard>, tape: seq<Word>, polls: seq<bool>, k: nat)
    requires Run(hs, tape, polls) && k <= 14 && TICK * k < |hs| && Reset(hs[0].d)
    ensures SameClock(hs[TICK * k].d, hs[0].d.(bit := k)) && Total(hs[TICK * k]) == Total(hs[0])
  {
    if k > 0 {
      var c := TICK * (k - 1);
      TicksAfterReset(hs, tape, polls, k - 1);
      WholeTick(hs, tape, polls, c);
      assert c + TICK == TICK * k;
      ResetTick(hs[0].d, hs[c].d, tape, k);
    }
  }

  lemma {:induction false} ResetTick(d: Drive, x: Drive, tape: seq<Word>, k: nat)
    requires Reset(d) && 0 < k <= 15 && SameClock(x, d.(bit := k - 1))
    ensures Latched(x.(clk := TICK - 1)) == []
    ensures k < 15 ==> SameClock(Ticked(x, tape), d.(bit := k))
    ensures k == 15 ==>
      && Boundary(Ticked(x, tape)) && Ticked(x, tape).head == Advance(START, |tape|) && !Ticked(x, tape).valid
      && Ticked(x, tape).word == if |tape| > 0 then tape[0] else 0
  {
  }

  /** The first word is loaded 15 ticks after the reset. */
  lemma {:induction false} AfterReset(hs: seq<Heard>, tape: seq<Word>, polls: seq<bool>, n: nat)
    requires Run(hs, tape, polls) && 555 < |hs| && Reset(hs[0].d) && |tape| == SECTOR_WORDS * n && n > 0
    ensures Underway(hs[555].d, tape, n, 1) && Total(hs[555]) == Total(hs[0])
  {
    TicksAfterReset(hs, tape, polls, 14);
    WholeTick(hs, tape, polls, 518);
    ResetTick(hs[0].d, hs[518].d, tape, 15);
    AdvanceFollows(n, 0);
  }

  /** Nothing is heard from word `t` to word `u`. */
  predicate Quiet(bytes: nat -> seq<nat>, t: nat, u: nat) {
    forall i :: t <= i < u ==> bytes(i) == []
  }

  /** From word `t` on the words `ws` go by. */
  predicate Plays(bytes: nat -> seq<nat>, t: nat, ws: seq<Word>) {
    forall i :: t <= i < t + |ws| ==> bytes(i) == Halves(ws[i - t])
  }

  lemma {:induction false} SilentStretch(bytes: nat -> seq<nat>, t: nat, u: nat)
    requires Quiet(bytes, t, u) && t <= u
    ensures Stream(bytes, u) == Stream(bytes, t)
    decreases u
  {
    if t < u {
      SilentStretch(bytes, t, u - 1);
    }
  }

  function BytesOf(ws: seq<Word>): (b: seq<nat>) {
    if |ws| == 0 then [] else BytesOf(ws[..|ws| - 1]) + Halves(ws[|ws| - 1])
  }

  lemma {:induction false} AudibleStretch(bytes: nat -> seq<nat>, t: nat, ws: seq<Word>, u: nat)
    requires Plays(bytes, t, ws) && u == t + |ws|
    ensures Stream(bytes, u) == Stream(bytes, t) + BytesOf(ws)
    decreases |ws|
  {
    if |ws| > 0 {
      AudibleStretch(bytes, t, ws[..|ws| - 1], u - 1);
    }
  }

  /** What the CPU gets of sector `k`: header words 6 to 13, data words 6 and 7, and 12 to 328. */
  function SectorBytes(tape: seq<Word>, k: nat): (b: seq<nat>)
    requires SECTOR_WORDS * (k + 1) <= |tape|
  {
    var header, data := SECTOR_WORDS * k, SECTOR_WORDS * k + HEADER_WORDS;
    BytesOf(tape[header + 6..header + 14]) + BytesOf(tape[data + 6..data + 8]) + BytesOf(tape[data + 12..data + 329])
  }

  function AllBytes(tape: seq<Word>, n: nat): (b: seq<nat>)
    requires SECTOR_WORDS * n <= |tape|
  {
    if n == 0 then [] else AllBytes(tape, n - 1) + SectorBytes(tape, n - 1)
  }

  lemma {:induction false} SectorWord(tape: seq<Word>, k: nat, r: nat)
    requires SECTOR_WORDS * (k + 1) <= |tape| && r < SECTOR_TIME
    ensures WordBytes(tape, SECTOR_TIME * k + r)
         == if 41 <= r < 49 then Halves(tape[SECTOR_WORDS * k + 6 + (r - 41)])
            else if 90 <= r < 92 then Halves(tape[SECTOR_WORDS * k + 20 + (r - 90)])
            else if 96 <= r then Halves(tape[SECTOR_WORDS * k + 26 + (r - 96)])
            else []
  {
    FromSector(0, k, r);
  }

  /** A gap or preamble, then words that are heard. */
  lemma {:induction false} Part(bytes: nat -> seq<nat>, t: nat, u: nat, ws: seq<Word>, e: nat)
    requires t <= u && Quiet(bytes, t, u) && Plays(bytes, u, ws) && e == u + |ws|
    ensures Stream(bytes, e) == Stream(bytes, t) + BytesOf(ws)
  {
    SilentStretch(bytes, t, u);
    AudibleStretch(bytes, u, ws, e);
  }

  predicate Played(bytes: nat -> seq<nat>, t: nat, u: nat, ws: seq<Word>, e: nat) {
    t <= u && Quiet(bytes, t, u) && Plays(bytes, u, ws) && e == u + |ws|
  }

  /** The layout of a sector: the header `h` and the two parts `d` and `e` of the data. */
  lemma {:induction false} SectorLayout(bytes: nat -> seq<nat>, t: nat, h: seq<Word>, a: nat, d: seq<Word>, b: nat,
      e: seq<Word>, c: nat)
    requires Played(bytes, t, t + 41, h, a) && Played(bytes, a, a + 41, d, b) && Played(bytes, b, b + 4, e, c)
    ensures Stream(bytes, c) == Stream(bytes, t) + (BytesOf(h) + BytesOf(d) + BytesOf(e))
  {
    Part(bytes, t, t + 41, h, a);
    Part(bytes, a, a + 41, d, b);
    Part(bytes, b, b + 4, e, c);
    Joined(Stream(bytes, t), BytesOf(h), BytesOf(d), BytesOf(e));
  }

  lemma {:induction false} Joined(s: seq<nat>, a: seq<nat>, b: seq<nat>, c: seq<nat>)
    ensures s + a + b + c == s + (a + b + c)
  {
  }

  lemma {:induction false} SectorQuiet(tape: seq<Word>, k: nat)
    requires SECTOR_WORDS * (k + 1) <= |tape|
    ensures var t := SECTOR_TIME * k;
      Quiet(Bytes(tape), t, t + 41) && Quiet(Bytes(tape), t + 49, t + 90) && Quiet(Bytes(tape), t + 92, t + 96)
  {
    var t := SECTOR_TIME * k;
    forall i | t <= i < t + 41 || t + 49 <= i < t + 90 || t + 92 <= i < t + 96 ensures Bytes(tape)(i) == [] {
      SectorWord(tape, k, i - t);
    }
  }

  lemma {:induction false} SectorPlays(tape: seq<Word>, k: nat, first: nat, a: nat, len: nat)
    requires SECTOR_WORDS * (k + 1) <= |tape|
    requires (first == 41 && a == 6 && len == 8) || (first == 90 && a == 20 && len == 2)
      || (first == 96 && a == 26 && len == 317)
    ensures var b := SECTOR_WORDS * k + a; Plays(Bytes(tape), SECTOR_TIME * k + first, tape[b..b + len])
  {
    var t, b := SECTOR_TIME * k, SECTOR_WORDS * k + a;
    forall i | t + first <= i < t + first + len ensures Bytes(tape)(i) == Halves(tape[b..b + len][i - (t + first)]) {
      SectorWord(tape, k, i - t);
      assert tape[b..b + len][i - (t + first)] == tape[b + (i - (t + first))];
    }
  }

  lemma {:induction false} SectorStream(tape: seq<Word>, k: nat)
    requires SECTOR_WORDS * (k + 1) <= |tape|
    ensures Stream(Bytes(tape), SECTOR_TIME * k + SECTOR_TIME) == Stream(Bytes(tape),
      SECTOR_TIME * k) + SectorBytes(tape, k)
  {
    SectorPlayed(tape, k, SECTOR_TIME * k, SECTOR_WORDS * k);
  }

  lemma {:induction false} SectorPlayed(tape: seq<Word>, k: nat, t: nat, a: nat)
    requires SECTOR_WORDS * (k + 1) <= |tape| && t == SECTOR_TIME * k && a == SECTOR_WORDS * k
    ensures Stream(Bytes(tape), t + SECTOR_TIME)
         == Stream(Bytes(tape),
           t) + (BytesOf(tape[a + 6..a + 14]) + BytesOf(tape[a + 20..a + 22]) + BytesOf(tape[a + 26..a + 343]))
  {
    SectorQuiet(tape, k);
    SectorPlays(tape, k, 41, 6, 8);
    SectorPlays(tape, k, 90, 20, 2);
    SectorPlays(tape, k, 96, 26, 317);
    SectorLayout(Bytes(tape), t, tape[a + 6..a + 14], t + 49, tape[a + 20..a + 22], t + 92, tape[a + 26..a + 343],
      t + SECTOR_TIME);
  }

  lemma {:induction false} StreamIsSectors(tape: seq<Word>, n: nat)
    requires SECTOR_WORDS * n <= |tape|
    ensures Stream(Bytes(tape), SECTOR_TIME * n) == AllBytes(tape, n)
  {
    if n > 0 {
      StreamIsSectors(tape, n - 1);
      SectorStream(tape, n - 1);
    }
  }

  lemma {:induction false} EndIsStart(d: Drive, tape: seq<Word>, n: nat)
    requires Underway(d, tape, n, Revolution(n))
    ensures Underway(d, tape, n, 0)
  {
    FromSector(0, n, 0);
  }

  lemma {:induction false} ToTheEnd(hs: seq<Heard>, tape: seq<Word>, polls: seq<bool>, n: nat, m: nat, first: nat,
      e: nat)
    requires Run(hs, tape, polls) && m <= e < |hs| && |tape| == SECTOR_WORDS * n && first <= 1
      && first <= SECTOR_TIME * n
    requires Underway(hs[m].d, tape, n, first) && e == m + WORD_TIME * (SECTOR_TIME * n + 1 - first)
    ensures Total(hs[e]) == Total(hs[m]) + AllBytes(tape, n)
    ensures Underway(hs[e].d, tape, n, 0)
  {
    Words(hs, tape, polls, n, m, first, Revolution(n), e);
    StreamIsSectors(tape, n);
    EndIsStart(hs[e].d, tape, n);
  }

  /**
    One revolution of a tape of `n` sectors lasts 413n + 1 words of 592 cycles, and a reader
    that keeps up gets every sector, in order, and ends where it began.
  */
  lemma {:induction false} OneRevolution(hs: seq<Heard>, tape: seq<Word>, polls: seq<bool>, n: nat)
    requires Run(hs, tape, polls) && |polls| == WORD_TIME * (SECTOR_TIME * n + 1) && |tape| == SECTOR_WORDS * n
    requires Underway(hs[0].d, tape, n, 0)
    ensures Total(hs[|polls|]) == Total(hs[0]) + AllBytes(tape, n)
    ensures Underway(hs[|polls|].d, tape, n, 0)
  {
    ToTheEnd(hs, tape, polls, n, 0, 0, |polls|);
  }

  /** The same from a reset on: only the first word comes a tick sooner. */
  lemma {:induction false} FirstRevolution(hs: seq<Heard>, tape: seq<Word>, polls: seq<bool>, n: nat)
    requires Run(hs, tape, polls) && |polls| == 555 + WORD_TIME * (SECTOR_TIME * n) && |tape| == SECTOR_WORDS * n
      && n > 0
    requires Reset(hs[0].d)
    ensures Total(hs[|polls|]) == Total(hs[0]) + AllBytes(tape, n)
    ensures Underway(hs[|polls|].d, tape, n, 0)
  {
    AfterReset(hs, tape, polls, n);
    ToTheEnd(hs, tape, polls, n, 555, 1, |polls|);
  }

  /** While nobody polls, nothing is taken. */
  lemma {:induction false} Unpolled(hs: seq<Heard>, tape: seq<Word>, polls: seq<bool>, a: nat, b: nat)
    requires Run(hs, tape, polls) && a <= b < |hs| && forall i :: a <= i < b ==> !polls[i]
    ensures hs[b].got == hs[a].got
    decreases b
  {
    if a < b {
      Unpolled(hs, tape, polls, a, b - 1);
      assert CycleAt(hs, tape, polls, b - 1);
    }
  }

  /**
    The end of the tape: the last word is under the head from cycle `m` on. Its second byte
    is complete 11 ticks later, and a reader that does not poll in the five ticks that follow,
    instead of the eight of any other byte, loses it to the rewind.
  */
  lemma {:induction false} LastByteLost(hs: seq<Heard>, tape: seq<Word>, polls: seq<bool>, n: nat, m: nat)
    requires Run(hs, tape, polls) && |tape| == SECTOR_WORDS * n && n > 0
    requires |polls| == m + 591 && Underway(hs[m].d, tape, n, SECTOR_TIME * n)
    requires forall i :: m + 406 <= i < m + 591 ==> !polls[i]
    ensures Late(hs[m + 591].d, tape)
    ensures Pending(hs[m + 591].d) == [tape[|tape| - 1] % 256] && Pending(StepCe(hs[m + 591].d, tape)) == []
  {
    EndOfTape(tape, n);
    DuringWord(hs, tape, polls, m, 10);
    DuringTick(hs, tape, polls, m + 370, 36);
    DuringWord(hs, tape, polls, m, 15);
    DuringTick(hs, tape, polls, m + 555, 36);
    Unpolled(hs, tape, polls, m + 406, m + 591);
    Leftover(hs[m], hs[m + 406], hs[m + 591]);
    LostIffLate(hs[m + 591].d, tape);
  }

  /** What has been heard of a word at `h` between its bytes, at `x`, and at its end, at `y`. */
  lemma {:induction false} Leftover(h: Heard, x: Heard, y: Heard)
    requires h.d.valid && x.got == y.got
    requires Total(x) == Total(h) + [h.d.word / 256] && Total(y) == Total(h) + [h.d.word / 256, h.d.word % 256]
    ensures Pending(y.d) == [h.d.word % 256]
  {
    assert |Total(x)| == |x.got| + |Pending(x.d)| && |Total(y)| == |y.got| + |Pending(y.d)|;
    assert Total(y)[|Total(y)| - 1] == h.d.word % 256;
  }

  lemma {:induction false} EndOfTape(tape: seq<Word>, n: nat)
    requires |tape| == SECTOR_WORDS * n && n > 0
    ensures var t := SECTOR_TIME * n;
      Position(t).addr == |tape| && Audible(Position(t - 1)) && WordOf(tape, t - 1) == tape[|tape| - 1]
  {
    FromSector(0, n, 0);
    FromSector(0, n - 1, SECTOR_TIME - 1);
  }

  /** One tape of one sector, a cycle before the rewind: the byte is gone, and no other one has come. */
  lemma {:induction false} LostAtRewind()
    ensures var tape: seq<Word> := seq(SECTOR_WORDS, _ => 0xabcd);
      var d := Drive(Head(SECTOR_WORDS, 0, true, true), 0xabcd, true, 14, TICK - 1, true, 0xcd, 0xab, 0);
      && d.head == Position(SECTOR_TIME) && Late(d, tape)
      && Pending(d) == [0xcd] && Latched(d) == [] && Pending(StepCe(d, tape)) == []
  {
    FromSector(0, 1, 0);
  }

  /** The first silent byte time behind a block loses nothing; the second one does. */
  lemma {:induction false} StaleAfterTwo(d: Drive, tape: seq<Word>)
    requires d.bit < 16 && d.ready && !d.valid && d.clk == TICK - 1 && (d.bit + 1) % 8 == 2
    ensures Pending(StepCe(d, tape)) == if d.idle == 0 then Pending(d) else []
  {
  }

  // ---- a reader that polls often enough ----

  predicate Follows(hs: seq<Heard>, tape: seq<Word>, polls: seq<bool>, i: nat) {
    i < |polls| && i + 1 < |hs| && hs[i + 1] == Cycle(hs[i], tape, polls[i])
  }

  /** Any reader: a run without the condition that it is in time. */
  predicate AnyRun(hs: seq<Heard>, tape: seq<Word>, polls: seq<bool>) {
    && |hs| == |polls| + 1 && hs[0].d.bit < 16 && hs[0].d.clk < TICK && !hs[0].d.ready
    && forall i :: 0 <= i < |polls| ==> Follows(hs, tape, polls, i)
  }

  /** Cycles since the last poll, in front of cycle `i`. */
  function Waited(polls: seq<bool>, i: nat): (n: nat)
    requires i <= |polls|
    ensures n <= i && forall k :: i - n <= k < i ==> !polls[k]
  {
    if i == 0 || polls[i - 1] then 0 else Waited(polls, i - 1) + 1
  }

  /** Cycles since the last tick that could complete a byte. */
  function Since(d: Drive): nat {
    (d.bit + 6) % 8 * TICK + d.clk
  }

  lemma {:induction false} SinceGrows(d: Drive, tape: seq<Word>)
    requires d.bit < 16 && d.clk < TICK
    ensures var e := StepCe(d, tape);
      && e.bit < 16 && e.clk < TICK && Since(e) <= Since(d) + 1 && (e.ready && !d.ready ==> Since(e) == 0)
  {
  }

  /** A byte that is ready has waited since it was complete, without a poll. */
  lemma {:induction false} ReadyHasWaited(hs: seq<Heard>, tape: seq<Word>, polls: seq<bool>, i: nat)
    requires AnyRun(hs, tape, polls) && i < |hs|
    ensures hs[i].d.bit < 16 && hs[i].d.clk < TICK && (hs[i].d.ready ==> Since(hs[i].d) < Waited(polls, i))
  {
    if i > 0 {
      ReadyHasWaited(hs, tape, polls, i - 1);
      assert Follows(hs, tape, polls, i - 1);
      SinceGrows(hs[i - 1].d, tape);
    }
  }

  /** A byte about to be lost has been there for five ticks at least. */
  lemma {:induction false} LateIsOld(d: Drive, tape: seq<Word>)
    requires d.bit < 16
    ensures Late(d, tape) ==> Since(d) >= 5 * TICK - 1
  {
  }

  predicate PolledIn(polls: seq<bool>, a: nat, w: nat) {
    exists k :: a <= k < a + w && k < |polls| && polls[k]
  }

  /** At least one poll in any `w` consecutive cycles. */
  predicate Attentive(polls: seq<bool>, w: nat) {
    forall i: nat :: i + w <= |polls| ==> PolledIn(polls, i, w)
  }

  lemma {:induction false} WaitsLess(polls: seq<bool>, w: nat, i: nat)
    requires Attentive(polls, w) && i <= |polls|
    ensures Waited(polls, i) < w
  {
    if Waited(polls, i) >= w {
      assert PolledIn(polls, i - w, w);
    }
  }

  /**
    A reader that polls in any 185 consecutive cycles, five ticks, is never late; by
    `LastByteLost` 185 cycles without a poll can be too many.
  */
  lemma {:induction false} AttentiveIsInTime(hs: seq<Heard>, tape: seq<Word>, polls: seq<bool>)
    requires AnyRun(hs, tape, polls) && Attentive(polls, 5 * TICK)
    ensures Run(hs, tape, polls)
  {
    forall i | 0 <= i < |polls| ensures CycleAt(hs, tape, polls, i) {
      assert Follows(hs, tape, polls, i);
      ReadyHasWaited(hs, tape, polls, i);
      WaitsLess(polls, 5 * TICK, i);
      LateIsOld(hs[i].d, tape);
    }
  }

  /** So it gets every sector of a tape, from the reset on. */
  lemma {:induction false} AttentiveGetsAll(hs: seq<Heard>, tape: seq<Word>, polls: seq<bool>, n: nat)
    requires AnyRun(hs, tape, polls) && Attentive(polls, 5 * TICK) && Reset(hs[0].d)
    requires |polls| == 555 + WORD_TIME * (SECTOR_TIME * n) && |tape| == SECTOR_WORDS * n && n > 0
    ensures Total(hs[|polls|]) == hs[0].got + AllBytes(tape, n)
  {
    AttentiveIsInTime(hs, tape, polls);
    FirstRevolution(hs, tape, polls, n);
  }

  /** It does not begin anew before. */
  lemma {:induction false} NotBefore(n: nat, w: nat)
    requires 0 < w < Revolution(n)
    ensures Position(w) != START
  {
    FromSector(0, w / SECTOR_TIME, w % SECTOR_TIME);
  }

  /** The registers of a drive; `gapIrq` and the mask bit are those of the ZX8302. */
  class Microdrive {
    const tape: array<Word>
    var memAddr: nat
    var gapCnt: nat
    var gapState: bool
    var gapActive: bool
    var gap: bool
    var word: Word
    var valid: bool
    var bitCnt: nat
    var clkCnt: nat
    var rxReady: bool
    var rxByte: nat
    var rxLast: nat
    var rxIdle: nat
    var irqEnabled: bool
    var gapIrq: bool

    constructor (t: array<Word>)
      ensures tape == t && fresh(this) && Valid() && Reset(Now()) && !Now().ready
    {
      tape := t;
      memAddr, gapCnt, gapState, gapActive, gap := 0, 0, true, true, true;
      word, valid, bitCnt, clkCnt := 0, false, 0, 0;
      rxReady, rxByte, rxLast, rxIdle := false, 0, 0, 0;
      irqEnabled, gapIrq := false, false;
    }

    /** The gap line shows a gap. */
    predicate Valid()
      reads this
    {
      gap == gapActive && bitCnt < 16 && clkCnt < TICK
    }

    function At(): Head
      reads this
    {
      Head(memAddr, gapCnt, gapState, gapActive)
    }

    function Now(): Drive
      reads this
    {
      Drive(At(), word, valid, bitCnt, clkCnt, rxReady, rxByte, rxLast, rxIdle)
    }

    method ResetTape()
      modifies this`memAddr, this`gapCnt, this`gapState, this`gapActive, this`gap, this`rxReady, this`rxIdle
      ensures At() == START && gap && !rxReady && rxIdle == 0
    {
      memAddr, gapCnt, gapState, gapActive, gap := 0, 0, true, true, true;
      rxReady, rxIdle := false, 0;
    }

    /** One word passes the head: the gaps begin and end. */
    method PassWord()
      requires Valid() && memAddr < tape.Length
      modifies this`memAddr, this`gapCnt, this`gapState, this`gapActive, this`gap, this`gapIrq
      ensures At() == Advance(old(At()), tape.Length) && gap == gapActive
      ensures gapIrq == (old(gapIrq) || (irqEnabled && GapStarts(old(At()))))
    {
      var oldCnt := gapCnt;
      gapCnt := (oldCnt + 1) % 0x400;
      if gapActive {
        if oldCnt == GAP - 1 {
          gapCnt, gapActive, gapState, gap := 0, false, !gapState, false;
        }
      } else {
        memAddr := memAddr + 1;
        if (!gapState && oldCnt == HEADER_WORDS - 1) || (gapState && oldCnt == DATA_WORDS - 1) {
          gapCnt, gapActive, gap := 0, true, true;
          if irqEnabled {
            gapIrq := true;
          }
        }
      }
    }

    method NextWord()
      requires Valid() && bitCnt == 15
      modifies this
      ensures Valid() && Now() == LoadWord(old(Now()), tape[..])
      ensures gapIrq == (old(gapIrq) || (old(irqEnabled) && old(memAddr) < tape.Length && GapStarts(old(At()))))
        && irqEnabled == old(irqEnabled)
    {
      var din := if memAddr < tape.Length then tape[memAddr] else 0;
      var next := !gapActive && gapCnt > 5 && !(gapState && gapCnt > 7 && gapCnt < 12);
      if memAddr >= tape.Length {
        ResetTape();
      } else {
        PassWord();
      }
      word, valid := din, next;
    }

    method ReceiveByte()
      requires Valid()
      modifies this`rxReady, this`rxByte, this`rxIdle
      ensures Now() == Receive(old(Now()))
    {
      if bitCnt % 8 == 2 {
        if valid {
          rxIdle, rxByte, rxReady := 0, if bitCnt >= 8 then word % 256 else word / 256, true;
        } else if rxReady {
          rxIdle := rxIdle + 1;
          if rxIdle >= 2 {
            rxReady, rxIdle := false, 0;
          }
        }
      }
    }

    /** One CPU cycle. */
    method Step()
      requires Valid()
      modifies this
      ensures Valid() && Now() == StepCe(old(Now()), tape[..])
    {
      if clkCnt == TICK - 1 {
        clkCnt := 0;
      } else {
        clkCnt := clkCnt + 1;
      }
      if clkCnt == 0 {
        bitCnt := (bitCnt + 1) % 16;
        ReceiveByte();
        if bitCnt == 15 {
          NextWord();
        }
      }
    }

    /** The data register: a byte nobody has read yet, or the last one again. */
    method ReadData() returns (b: nat)
      requires Valid()
      modifies this`rxReady, this`rxLast
      ensures Valid() && Now() == Take(old(Now())) && b == Given(old(Now())) == Given(Now()) && !rxReady
      ensures b == if old(rxReady) then old(rxByte) else old(rxLast)
    {
      if !rxReady {
        return rxLast;
      }
      rxReady, rxLast := false, rxByte;
      b := rxLast;
    }
  }
}
