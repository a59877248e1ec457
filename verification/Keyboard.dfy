/**
  The keyboard matrix of the IPC: key changes of the host wait in a ring and enter the
  matrix one by one, no faster than the firmware can see them.
*/
module Keyboard {
  import opened Powers

  const UNITS_PER_MS: nat := 165000
  const HOLD: nat := 40 * UNITS_PER_MS
  const SPACING: nat := 2 * UNITS_PER_MS
  const RING: nat := 128
  const MODIFIERS: set<nat> := {0, 1, 2}   // SHIFT, CTRL, ALT

  datatype Key = Key(code: nat, pressed: bool, hostMs: nat)

  /** Host time against IPC time, as of the last frame. */
  datatype Clock = Clock(valid: bool, hostMs: nat, units: nat, frame: nat)

  /** The difference of two 32-bit millisecond counters, signed. */
  function Elapsed(a: nat, b: nat): (d: int) {
    var d := (a - b) % 0x1_0000_0000;
    if d >= 0x8000_0000 then d - 0x1_0000_0000 else d
  }

  /** When the host asks for the change, one frame late; 0 when that is not known. */
  function Asked(c: Clock, k: Key): (t: nat) {
    if !c.valid then 0
    else
      var dt := Elapsed(k.hostMs, c.hostMs) * UNITS_PER_MS + c.frame;
      c.units + if dt < 0 then 0 else dt
  }

  /** Keys waiting, keys down (`code` of each), the earliest next change, and when keys were pressed. */
  datatype Board = Board(queue: seq<Key>, down: set<nat>, next: nat, downAt: map<nat, nat>, lastDown: nat)

  function PressedAt(b: Board, code: nat): (t: nat) {
    if code in b.downAt then b.downAt[code] else 0
  }

  /** When the first change of the queue is due. */
  function Due(b: Board, c: Clock): (t: nat)
    requires b.queue != []
  {
    var k := b.queue[0];
    var t := Max(Asked(c, k), b.next);
    var t' := if k.pressed then t else Max(t, PressedAt(b, k.code) + HOLD);
    if k.code in MODIFIERS then Max(t', b.lastDown + HOLD) else t'
  }

  predicate Ready(b: Board, c: Clock, now: nat) {
    b.queue != [] && Due(b, c) <= now
  }

  /** A modifier is about to change while other keys are down. */
  predicate Clears(b: Board)
    requires b.queue != []
  {
    b.queue[0].code in MODIFIERS && b.down - MODIFIERS != {}
  }

  /** One change: the held keys are released before a modifier changes. */
  function Change(b: Board, c: Clock, now: nat): (b': Board)
    requires Ready(b, c, now)
  {
    var k, t := b.queue[0], Due(b, c);
    if Clears(b) then b.(down := b.down * MODIFIERS, next := t + SPACING)
    else if k.pressed then
      Board(b.queue[1..], b.down + {k.code}, t + SPACING, b.downAt[k.code := now], now)
    else b.(queue := b.queue[1..], down := b.down - {k.code}, next := t + SPACING)
  }

  /** One change presses or releases its own key and no other; of a modifier, the other keys are released first. */
  lemma {:induction false} ChangeDoes(b: Board, c: Clock, now: nat)
    requires Ready(b, c, now)
    ensures var k, after := b.queue[0], Change(b, c, now);
      if k.code in MODIFIERS && b.down - MODIFIERS != {} then
        && after.queue == b.queue && after.down * MODIFIERS == b.down * MODIFIERS && after.down - MODIFIERS == {}
      else
        && after.queue == b.queue[1..] && (k.code in after.down <==> k.pressed)
        && forall code :: code != k.code ==> (code in after.down <==> code in b.down)
  {
  }

  /** No change is made before the host asked for it, a frame later: `ms` milliseconds after the last frame. */
  lemma {:induction false} NotEarly(b: Board, c: Clock, now: nat, ms: int)
    requires Ready(b, c, now) && c.valid && -0x8000_0000 <= ms < 0x8000_0000
    requires b.queue[0].hostMs == (c.hostMs + ms) % 0x1_0000_0000 && c.hostMs < 0x1_0000_0000
    ensures now >= c.units && now >= c.units + c.frame + ms * UNITS_PER_MS
  {
    ElapsedIs(c.hostMs, ms);
  }

  /** The difference of the counters is right across a wrap. */
  lemma {:induction false} ElapsedIs(b: nat, ms: int)
    requires b < 0x1_0000_0000 && -0x8000_0000 <= ms < 0x8000_0000
    ensures Elapsed((b + ms) % 0x1_0000_0000, b) == ms
  {
  }

  datatype Event =
    | Type(key: Key)                      // the host reports a change
    | Look(clock: Clock, now: nat)        // the firmware reads the matrix: one step of the loop

  function Next(b: Board, e: Event): (b': Board) {
    match e
    case Type(k) => if |b.queue| >= RING - 1 then b else b.(queue := b.queue + [k])
    case Look(c, now) => if Ready(b, c, now) then Change(b, c, now) else b
  }

  predicate StepAt(bs: seq<Board>, es: seq<Event>, i: nat) {
    i < |es| && i + 1 < |bs| && bs[i + 1] == Next(bs[i], es[i])
  }

  /** Time of event `i`: that of the last look. */
  function TimeAt(es: seq<Event>, i: nat): (t: nat)
    requires i <= |es|
  {
    if i == 0 then 0 else if es[i - 1].Look? then es[i - 1].now else TimeAt(es, i - 1)
  }

  predicate Run(bs: seq<Board>, es: seq<Event>) {
    && |bs| == |es| + 1 && bs[0] == Board([], {}, 0, map[], 0)
    && (forall i :: 0 <= i < |es| ==> StepAt(bs, es, i))
    && forall i :: 0 <= i < |es| && es[i].Look? ==> TimeAt(es, i) <= es[i].now
  }

  /** Every key that is down was pressed at a time that is known, and not later than the last press. */
  predicate Timed(b: Board, now: nat) {
    b.lastDown <= now && forall k :: k in b.down ==> k in b.downAt && b.downAt[k] <= b.lastDown
  }

  lemma {:induction false} AlwaysTimed(bs: seq<Board>, es: seq<Event>, i: nat)
    requires Run(bs, es) && i < |bs|
    ensures Timed(bs[i], TimeAt(es, i))
  {
    if i > 0 {
      AlwaysTimed(bs, es, i - 1);
      assert StepAt(bs, es, i - 1);
    }
  }

  /** A modifier changes only while no other key is down. */
  lemma {:induction false} ModifiersAlone(bs: seq<Board>, es: seq<Event>, i: nat)
    requires Run(bs, es) && i < |es| && bs[i].down * MODIFIERS != bs[i + 1].down * MODIFIERS
    ensures bs[i].down - MODIFIERS == bs[i + 1].down - MODIFIERS == {}
  {
    assert StepAt(bs, es, i);
  }

  /** As long as a key is down it is seen with the same modifiers. */
  lemma {:induction false} OneModifierState(bs: seq<Board>, es: seq<Event>, code: nat, i: nat, j: nat)
    requires Run(bs, es) && i <= j <= |es| && code !in MODIFIERS
    requires forall m :: i <= m <= j ==> code in bs[m].down
    ensures bs[j].down * MODIFIERS == bs[i].down * MODIFIERS
    decreases j
  {
    if i < j {
      OneModifierState(bs, es, code, i, j - 1);
      assert code in bs[j].down - MODIFIERS;
      if bs[j - 1].down * MODIFIERS != bs[j].down * MODIFIERS {
        ModifiersAlone(bs, es, j - 1);
      }
    }
  }

  lemma {:induction false} TimeGrows(bs: seq<Board>, es: seq<Event>, i: nat, j: nat)
    requires Run(bs, es) && i <= j <= |es|
    ensures TimeAt(es, i) <= TimeAt(es, j)
    decreases j
  {
    if i < j {
      TimeGrows(bs, es, i, j - 1);
    }
  }

  /** A key that is down since event `i` keeps its place until 40 ms have passed. */
  lemma {:induction false} PressedSince(bs: seq<Board>, es: seq<Event>, code: nat, i: nat, j: nat)
    requires Run(bs, es) && i < j <= |es| && code !in bs[i].down && code in bs[i + 1].down
    requires forall m :: i < m <= j ==> code in bs[m].down
    ensures TimeAt(es, i + 1) <= PressedAt(bs[j], code)
    decreases j
  {
    assert StepAt(bs, es, j - 1);
    if i + 1 < j {
      PressedSince(bs, es, code, i, j - 1);
      TimeGrows(bs, es, i + 1, j);
    }
  }

  lemma {:induction false} HeldLongEnough(bs: seq<Board>, es: seq<Event>, code: nat, i: nat, j: nat)
    requires Run(bs, es) && i < j < |es| && code !in bs[i].down && code !in bs[j + 1].down
    requires forall m :: i < m <= j ==> code in bs[m].down
    ensures es[i].Look? && es[j].Look? && es[j].now >= es[i].now + HOLD
  {
    assert StepAt(bs, es, i) && StepAt(bs, es, j);
    PressedSince(bs, es, code, i, j);
    AlwaysTimed(bs, es, j);
  }

  /** Changes put into the queue, and changes made, up to event `i`. */
  function Typed(bs: seq<Board>, es: seq<Event>, i: nat): (ks: seq<Key>)
    requires i <= |es| && |bs| == |es| + 1
  {
    if i == 0 then []
    else if es[i - 1].Type? && |bs[i - 1].queue| < RING - 1 then Typed(bs, es, i - 1) + [es[i - 1].key]
    else Typed(bs, es, i - 1)
  }

  predicate Makes(b: Board, e: Event) {
    e.Look? && Ready(b, e.clock, e.now) && !Clears(b)
  }

  function Made(bs: seq<Board>, es: seq<Event>, i: nat): (ks: seq<Key>)
    requires i <= |es| && |bs| == |es| + 1
  {
    if i == 0 then []
    else if Makes(bs[i - 1], es[i - 1]) then Made(bs, es, i - 1) + [bs[i - 1].queue[0]]
    else Made(bs, es, i - 1)
  }

  /** Changes are made in the order they were typed, each once. */
  lemma {:induction false} InOrder(bs: seq<Board>, es: seq<Event>, i: nat)
    requires Run(bs, es) && i <= |es|
    ensures Typed(bs, es, i) == Made(bs, es, i) + bs[i].queue
  {
    if i > 0 {
      InOrder(bs, es, i - 1);
      assert StepAt(bs, es, i - 1);
      var b, made := bs[i - 1], Made(bs, es, i - 1);
      if Makes(b, es[i - 1]) {
        assert made + b.queue == (made + [b.queue[0]]) + b.queue[1..];
      } else if es[i - 1].Type? {
        assert (made + b.queue) + [es[i - 1].key] == made + (b.queue + [es[i - 1].key]);
      }
    }
  }

  /** The times for which changes are scheduled are at least 2 ms apart, and never ahead of the clock. */
  lemma {:induction false} Spaced(bs: seq<Board>, es: seq<Event>, i: nat)
    requires Run(bs, es) && i < |es| && bs[i].down != bs[i + 1].down
    ensures es[i].Look? && bs[i].next + SPACING <= bs[i + 1].next <= es[i].now + SPACING
  {
    assert StepAt(bs, es, i);
  }

  /** Looks, up to event `i`, that have changed the matrix. */
  function Changes(bs: seq<Board>, es: seq<Event>, i: nat): (n: nat)
    requires i <= |es| && |bs| == |es| + 1
  {
    if i == 0 then 0 else Changes(bs, es, i - 1) + if bs[i - 1].down != bs[i].down then 1 else 0
  }

  lemma {:induction false} NextGrows(bs: seq<Board>, es: seq<Event>, i: nat, j: nat)
    requires Run(bs, es) && i <= j <= |es|
    ensures bs[i].next + SPACING * (Changes(bs, es, j) - Changes(bs, es, i)) <= bs[j].next
    decreases j
  {
    if i < j {
      NextGrows(bs, es, i, j - 1);
      assert StepAt(bs, es, j - 1);
      if bs[j - 1].down != bs[j].down {
        Spaced(bs, es, j - 1);
      }
    }
  }

  /**
    The rate: after a change that was due at some time, `n` further ones take at least 2 ms
    each from then on, however late the firmware looks.
  */
  lemma {:induction false} NoFasterThanSpacing(bs: seq<Board>, es: seq<Event>, i: nat, j: nat)
    requires Run(bs, es) && i < j < |es| && bs[i].down != bs[i + 1].down && bs[j].down != bs[j + 1].down
    ensures es[i].Look? && Ready(bs[i], es[i].clock, es[i].now) && es[j].Look?
    ensures Due(bs[i], es[i].clock) + SPACING * (Changes(bs, es, j + 1) - Changes(bs, es, i + 1)) <= es[j].now
  {
    assert StepAt(bs, es, i) && StepAt(bs, es, j);
    Spaced(bs, es, j);
    NextGrows(bs, es, i + 1, j + 1);
  }

  /** Whether the look that makes the first change can make a second one at once. */
  predicate Follows(b: Board, c: Clock, now: nat)
    requires Ready(b, c, now)
  {
    && now >= Due(b, c) + SPACING
    && (Clears(b) ||
        (|b.queue| > 1 &&
         var k, k' := b.queue[0], b.queue[1];
         && Asked(c, k') <= now
         && (!k'.pressed ==> PressedAt(b, k'.code) + HOLD <= now && !(k.pressed && k.code == k'.code))
         && (k'.code in MODIFIERS ==> b.lastDown + HOLD <= now && !k.pressed)))
  }

  /**
    Two changes in one look: exactly when the first is made at least 2 ms late and nothing
    but the spacing holds the second one back.
  */
  lemma {:induction false} SecondChange(b: Board, c: Clock, now: nat)
    requires Ready(b, c, now)
    ensures Ready(Change(b, c, now), c, now) <==> Follows(b, c, now)
  {
    if Clears(b) {
      assert b.down * MODIFIERS - MODIFIERS == {};
    }
  }

  /** Two keys typed long ago enter the matrix in the same look. */
  lemma {:induction false} TwoAtOnce()
    ensures var b := Board([Key(10, true, 0), Key(11, true, 0)], {}, 0, map[], 0);
      var c := Clock(false, 0, 0, 0);
      && Ready(b, c, SPACING) && Change(b, c, SPACING).down == {10}
      && Settled(b, c, SPACING).down == {10, 11}
  {
    var b := Board([Key(10, true, 0), Key(11, true, 0)], {}, 0, map[], 0);
    var c := Clock(false, 0, 0, 0);
    var b1 := Change(b, c, SPACING);
    assert b1.queue == [Key(11, true, 0)] && b1.down == {10};
    var b2 := Change(b1, c, SPACING);
    assert b2.queue == [] && b2.down == {10, 11};
    assert Settled(b1, c, SPACING) == Settled(b2, c, SPACING) == b2;
  }

  /** All the changes that are due at `now`. */
  function Settled(b: Board, c: Clock, now: nat): (b': Board)
    ensures !Ready(b', c, now)
    decreases |b.queue|, if b.down - MODIFIERS != {} then 1 else 0
  {
    if Ready(b, c, now) then Settled(Change(b, c, now), c, now) else b
  }

  /** The next place of the ring: the program adds one and masks. */
  function After(i: nat): (j: nat)
    requires i < RING
    ensures j < RING && j == (i + 1) % RING
  {
    if i + 1 == RING then 0 else i + 1
  }

  /** Changes in the ring from `rd` to `wr`. */
  function Contents(ring: seq<Key>, rd: nat, wr: nat): (q: seq<Key>)
    requires |ring| == RING && rd < RING && wr < RING
    decreases if rd <= wr then wr - rd else wr + RING - rd
  {
    if rd == wr then [] else [ring[rd]] + Contents(ring, After(rd), wr)
  }

  function Length(rd: nat, wr: nat): (n: int) {
    if rd <= wr then wr - rd else wr + RING - rd
  }

  lemma {:induction false} ContentsLength(ring: seq<Key>, rd: nat, wr: nat)
    requires |ring| == RING && rd < RING && wr < RING
    ensures |Contents(ring, rd, wr)| == Length(rd, wr)
    decreases Length(rd, wr)
  {
    if rd != wr {
      ContentsLength(ring, After(rd), wr);
    }
  }

  /** A change stored at `wr` joins the end, and one stored nowhere in the ring is not seen. */
  lemma {:induction false} ContentsPut(ring: seq<Key>, rd: nat, wr: nat, k: Key)
    requires |ring| == RING && rd < RING && wr < RING && After(wr) != rd
    ensures Contents(ring[wr := k], rd, After(wr)) == Contents(ring, rd, wr) + [k]
    decreases Length(rd, wr)
  {
    if rd != wr {
      ContentsPut(ring, After(rd), wr, k);
    } else {
      assert Contents(ring[wr := k], After(wr), After(wr)) == [];
    }
  }

  class Matrix {
    const ring: array<Key>
    var wr: nat
    var rd: nat
    var down: set<nat>           // keys in the matrix, by code
    var next: nat
    var downAt: map<nat, nat>
    var lastDown: nat

    constructor ()
      ensures Valid() && fresh(ring) && Now() == Board([], {}, 0, map[], 0)
    {
      ring := new Key[RING](_ => Key(0, false, 0));
      wr, rd, down, next, downAt, lastDown := 0, 0, {}, 0, map[], 0;
    }

    predicate Valid()
      reads this
    {
      ring.Length == RING && wr < RING && rd < RING
    }

    function Now(): Board
      reads this, ring
      requires Valid()
    {
      Board(Contents(ring[..], rd, wr), down, next, downAt, lastDown)
    }

    /** The host reports a change; it is dropped if the ring is full. */
    method ReportKey(code: nat, pressed: bool, hostMs: nat)
      requires Valid()
      modifies this`wr, ring
      ensures Valid() && Now() == Next(old(Now()), Type(Key(code % 64, pressed, hostMs)))
    {
      ContentsLength(ring[..], rd, wr);
      if (wr + 1) % RING == rd {
        return;
      }
      var k := Key(code % 64, pressed, hostMs);
      ContentsPut(ring[..], rd, wr, k);
      ring[wr] := k;
      wr := (wr + 1) % RING;
    }

    /** Makes the first change of the queue, for which `t` has come. */
    method Make(c: Clock, now: nat, t: nat)
      requires Valid() && Ready(Now(), c, now) && t == Due(Now(), c)
      modifies this`down, this`next, this`downAt, this`lastDown, this`rd
      ensures Valid() && Now() == Change(old(Now()), c, now)
    {
      var k := ring[rd];
      if k.code <= 2 && down - MODIFIERS != {} {
        down, next := down * MODIFIERS, t + SPACING;
        return;
      }
      if k.pressed {
        down, downAt, lastDown := down + {k.code}, downAt[k.code := now], now;
      } else {
        down := down - {k.code};
      }
      rd, next := (rd + 1) % RING, t + SPACING;
    }

    /** Makes all changes that are due. */
    method Apply(c: Clock, now: nat)
      requires Valid()
      modifies this`down, this`next, this`downAt, this`lastDown, this`rd
      ensures Valid() && Now() == Settled(old(Now()), c, now)
    {
      while rd != wr
        invariant Valid() && Settled(Now(), c, now) == Settled(old(Now()), c, now)
        decreases |Now().queue|, if down - MODIFIERS != {} then 1 else 0
      {
        var k := ring[rd];
        var t := Asked(c, k);
        if t < next {
          t := next;
        }
        if !k.pressed {
          t := Max(t, (if k.code in downAt then downAt[k.code] else 0) + HOLD);
        }
        if k.code <= 2 {
          t := Max(t, lastDown + HOLD);
        }
        if now < t {
          break;
        }
        Make(c, now, t);
      }
    }
  }
}
