/**
  The dispatch table: every handler is entered under a pattern of 16 characters, `0` and `1`
  for fixed bits and `x` for free ones. A pattern has at most two runs of free bits, which
  the program steps through with two strides.
*/
module OpcodeTable {
  import opened Powers

  const ENTRIES: nat := 0x1_0000

  // ---- patterns ----

  /** The fixed bits of a pattern. */
  function Val(s: string): (v: nat) {
    if |s| == 0 then 0 else 2 * Val(s[..|s| - 1]) + if s[|s| - 1] == '1' then 1 else 0
  }

  predicate Matches(s: string, op: nat) {
    if |s| == 0 then op == 0
    else
      var last := s[|s| - 1];
      (last == 'x' || (op % 2 == 1 <==> last == '1')) && Matches(s[..|s| - 1], op / 2)
  }

  predicate Fixed(s: string) {
    forall i :: 0 <= i < |s| ==> s[i] != 'x'
  }

  predicate Free(s: string) {
    forall i :: 0 <= i < |s| ==> s[i] == 'x'
  }

  /** A pattern in two parts matches part by part. */
  lemma {:induction false} MatchesJoined(a: string, b: string, u: nat, v: nat)
    requires v < Pow2(|b|)
    ensures Matches(a + b, u * Pow2(|b|) + v) <==> Matches(a, u) && Matches(b, v)
  {
    if |b| == 0 {
      assert a + b == a;
    } else {
      var b', p := b[..|b| - 1], Pow2(|b| - 1);
      assert (a + b)[..|a + b| - 1] == a + b';
      MatchesJoined(a, b', u, v / 2);
      Doubled(u, p);
      assert u * Pow2(|b|) + v == 2 * (u * p) + v;
    }
  }

  lemma {:induction false} ValJoined(a: string, b: string)
    ensures Val(a + b) == Val(a) * Pow2(|b|) + Val(b)
  {
    if |b| == 0 {
      assert a + b == a;
    } else {
      var c := b[..|b| - 1];
      assert (a + b)[..|a + b| - 1] == a + c;
      ValJoined(a, c);
      Doubled(Val(a), Pow2(|b| - 1));
    }
  }

  lemma {:induction false} FixedMatches(s: string, v: nat)
    requires Fixed(s)
    ensures Val(s) < Pow2(|s|) && (Matches(s, v) <==> v == Val(s))
  {
    if |s| > 0 {
      FixedMatches(s[..|s| - 1], v / 2);
    }
  }

  lemma {:induction false} FreeMatches(s: string, v: nat)
    requires Free(s)
    ensures Val(s) == 0 && (Matches(s, v) <==> v < Pow2(|s|))
  {
    if |s| > 0 {
      FreeMatches(s[..|s| - 1], v / 2);
    }
  }

  // ---- strides ----

  /** `k` steps of `m` from `c`. */
  function At(c: nat, m: nat, k: nat): (p: nat) {
    if k == 0 then c else At(c, m, k - 1) + m
  }

  lemma {:induction false} AtIs(c: nat, m: nat, k: nat)
    ensures At(c, m, k) == c + k * m
  {
    if k > 0 {
      AtIs(c, m, k - 1);
    }
  }

  predicate InRun(op: nat, c: nat, m: nat, n: nat) {
    n > 0 && (InRun(op, c, m, n - 1) || op == At(c, m, n - 1))
  }

  /** `n2` steps of `m2`, and from each `n` steps of `m`. */
  predicate InGrid(op: nat, c: nat, m2: nat, n2: nat, m: nat, n: nat) {
    n2 > 0 && (InGrid(op, c, m2, n2 - 1, m, n) || InRun(op, At(c, m2, n2 - 1), m, n))
  }

  lemma {:induction false} InRunAt(op: nat, c: nat, m: nat, n: nat, k: nat)
    requires k < n && op == At(c, m, k)
    ensures InRun(op, c, m, n)
  {
    if k < n - 1 {
      InRunAt(op, c, m, n - 1, k);
    }
  }

  lemma {:induction false} RunStep(op: nat, c: nat, m: nat, n: nat) returns (k: nat)
    requires InRun(op, c, m, n)
    ensures k < n && op == At(c, m, k)
  {
    if op == At(c, m, n - 1) {
      k := n - 1;
    } else {
      k := RunStep(op, c, m, n - 1);
    }
  }

  lemma {:induction false} InGridAt(op: nat, c: nat, m2: nat, n2: nat, m: nat, n: nat, j: nat)
    requires j < n2 && InRun(op, At(c, m2, j), m, n)
    ensures InGrid(op, c, m2, n2, m, n)
  {
    if j < n2 - 1 {
      InGridAt(op, c, m2, n2 - 1, m, n, j);
    }
  }

  lemma {:induction false} GridStep(op: nat, c: nat, m2: nat, n2: nat, m: nat, n: nat) returns (j: nat)
    requires InGrid(op, c, m2, n2, m, n)
    ensures j < n2 && InRun(op, At(c, m2, j), m, n)
  {
    if InRun(op, At(c, m2, n2 - 1), m, n) {
      j := n2 - 1;
    } else {
      j := GridStep(op, c, m2, n2 - 1, m, n);
    }
  }

  /** A number in three parts: `u`, a run of free bits, and fixed bits. */
  function Parts(u: nat, q: nat, k: nat, p: nat, v: nat): (op: nat) {
    (u * q + k) * p + v
  }

  lemma {:induction false} PartsOf(op: nat, q: nat, p: nat) returns (u: nat, k: nat, v: nat)
    requires p > 0 && q > 0
    ensures op == Parts(u, q, k, p, v) && k < q && v < p
  {
    var w := op / p;
    v := op % p;
    DivMod(op, p);
    u, k := w / q, w % q;
    DivMod(w, q);
  }

  /** A run of free bits between a pattern `t` and fixed bits `b`. */
  lemma {:induction false} PartsMatch(t: string, r: string, b: string, u: nat, k: nat, v: nat)
    requires Free(r) && Fixed(b) && k < Pow2(|r|) && v < Pow2(|b|)
    ensures Matches(t + r + b, Parts(u, Pow2(|r|), k, Pow2(|b|), v)) <==> Matches(t, u) && v == Val(b)
  {
    MatchesJoined(t + r, b, u * Pow2(|r|) + k, v);
    MatchesJoined(t, r, u, k);
    FixedMatches(b, v);
    FreeMatches(r, k);
  }

  lemma {:induction false} PartsStep(u: nat, q: nat, k: nat, p: nat, v: nat)
    ensures Parts(u, q, k, p, v) == At(Parts(u, q, 0, p, v), p, k)
  {
    AtIs(Parts(u, q, 0, p, v), p, k);
    assert (u * q + k) * p == (u * q) * p + k * p;
  }

  /** The program's `c`: the pattern with its free bits 0. */
  lemma {:induction false} ValIsParts(t: string, r: string, b: string)
    requires Free(r)
    ensures Val(t + r + b) == Parts(Val(t), Pow2(|r|), 0, Pow2(|b|), Val(b))
  {
    ValJoined(t + r, b);
    ValJoined(t, r);
    FreeMatches(r, 0);
  }

  /** Whatever `t` matches, and the run. */
  lemma {:induction false} RunMatches(t: string, r: string, b: string, op: nat) returns (u: nat)
    requires Free(r) && Fixed(b)
    ensures Matches(t + r + b, op) ==>
      Matches(t, u) && InRun(op, Parts(u, Pow2(|r|), 0, Pow2(|b|), Val(b)), Pow2(|b|), Pow2(|r|))
  {
    var k, v;
    u, k, v := PartsOf(op, Pow2(|r|), Pow2(|b|));
    PartsMatch(t, r, b, u, k, v);
    PartsStep(u, Pow2(|r|), k, Pow2(|b|), v);
    InRunAt(op, Parts(u, Pow2(|r|), 0, Pow2(|b|), v), Pow2(|b|), Pow2(|r|), k);
  }

  lemma {:induction false} MatchesRun(t: string, r: string, b: string, op: nat, u: nat)
    requires Free(r) && Fixed(b) && Matches(t, u) && InRun(op, Parts(u, Pow2(|r|), 0, Pow2(|b|), Val(b)), Pow2(|b|),
      Pow2(|r|))
    ensures Matches(t + r + b, op)
  {
    var k := RunStep(op, Parts(u, Pow2(|r|), 0, Pow2(|b|), Val(b)), Pow2(|b|), Pow2(|r|));
    PartsStep(u, Pow2(|r|), k, Pow2(|b|), Val(b));
    FixedMatches(b, 0);
    PartsMatch(t, r, b, u, k, Val(b));
  }

  /** One run of free bits. */
  lemma {:induction false} OneRun(a: string, r: string, b: string, op: nat)
    requires Fixed(a) && Free(r) && Fixed(b)
    ensures Matches(a + r + b, op) <==> InRun(op, Val(a + r + b), Pow2(|b|), Pow2(|r|))
  {
    ValIsParts(a, r, b);
    FixedMatches(a, Val(a));
    if Matches(a + r + b, op) {
      var u := RunMatches(a, r, b, op);
      FixedMatches(a, u);
    }
    if InRun(op, Val(a + r + b), Pow2(|b|), Pow2(|r|)) {
      MatchesRun(a, r, b, op, Val(a));
    }
  }

  /** The larger stride moves the part before the second run. */
  lemma {:induction false} Strides(u: nat, p1: nat, j: nat, q: nat, p: nat, v: nat)
    ensures Parts(At(u, p1, j), q, 0, p, v) == At(Parts(u, q, 0, p, v), p1 * (q * p), j)
  {
    AtIs(u, p1, j);
    AtIs(Parts(u, q, 0, p, v), p1 * (q * p), j);
    var w := j * p1;
    Distribute(u, w, q, p);
    assert w * (q * p) == j * (p1 * (q * p));
  }

  /** Two runs of free bits, `r` and `r2`. */
  lemma {:induction false} TwoRuns(a: string, r: string, b: string, r2: string, b2: string, op: nat)
    requires Fixed(a) && Free(r) && Fixed(b) && Free(r2) && Fixed(b2)
    ensures var s := a + r + b + r2 + b2;
      Matches(s, op) <==> InGrid(op, Val(s), Pow2(|b| + |r2| + |b2|), Pow2(|r|), Pow2(|b2|), Pow2(|r2|))
  {
    var t := a + r + b;
    var s := t + r2 + b2;
    var p1, q, p, v := Pow2(|b|), Pow2(|r2|), Pow2(|b2|), Val(b2);
    var m := Pow2(|b| + |r2| + |b2|);
    assert m == p1 * (q * p) by {
      Pow2Sum(|b|, |r2| + |b2|);
      Pow2Sum(|r2|, |b2|);
    }
    ValIsParts(t, r2, b2);
    if Matches(s, op) {
      var u := RunMatches(t, r2, b2, op);
      OneRun(a, r, b, u);
      var j := RunStep(u, Val(t), p1, Pow2(|r|));
      Strides(Val(t), p1, j, q, p, v);
      InGridAt(op, Val(s), m, Pow2(|r|), p, q, j);
    }
    if InGrid(op, Val(s), m, Pow2(|r|), p, q) {
      var j := GridStep(op, Val(s), m, Pow2(|r|), p, q);
      Strides(Val(t), p1, j, q, p, v);
      var u := At(Val(t), p1, j);
      InRunAt(u, Val(t), p1, Pow2(|r|), j);
      OneRun(a, r, b, u);
      MatchesRun(t, r2, b2, op, u);
    }
  }

  lemma {:induction false} MatchesBelow(s: string, op: nat)
    requires Matches(s, op)
    ensures op < Pow2(|s|)
  {
    if |s| > 0 {
      MatchesBelow(s[..|s| - 1], op / 2);
    }
  }

  // ---- the table ----

  /** The table with `f` under the pattern `s`. */
  function Entered<T>(t: seq<T>, s: string, f: T): (t': seq<T>)
    ensures |t'| == |t| && forall op :: 0 <= op < |t| ==> t'[op] == if Matches(s, op) then f else t[op]
  {
    seq(|t|, op requires 0 <= op < |t| => if Matches(s, op) then f else t[op])
  }

  datatype Entry<T> = Entry(pattern: string, handler: T)

  function EnteredAll<T>(t: seq<T>, es: seq<Entry<T>>): (t': seq<T>)
    ensures |t'| == |t|
  {
    if |es| == 0 then t else Entered(EnteredAll(t, es[..|es| - 1]), es[|es| - 1].pattern, es[|es| - 1].handler)
  }

  /** Of the patterns that match an opcode the last one entered decides. */
  lemma {:induction false} LastMatchDecides<T>(t: seq<T>, es: seq<Entry<T>>, op: nat, k: nat)
    requires op < |t| && k < |es| && Matches(es[k].pattern, op)
    requires forall i :: k < i < |es| ==> !Matches(es[i].pattern, op)
    ensures EnteredAll(t, es)[op] == es[k].handler
  {
    if k < |es| - 1 {
      LastMatchDecides(t, es[..|es| - 1], op, k);
    }
  }

  lemma {:induction false} NoMatchKeeps<T>(t: seq<T>, es: seq<Entry<T>>, op: nat)
    requires op < |t| && forall i :: 0 <= i < |es| ==> !Matches(es[i].pattern, op)
    ensures EnteredAll(t, es)[op] == t[op]
  {
    if |es| > 0 {
      NoMatchKeeps(t, es[..|es| - 1], op);
    }
  }

  /** Runs of free bits that begin before `k`. */
  function Runs(s: string, k: nat): (n: nat)
    requires k <= |s|
  {
    if k == 0 then 0 else Runs(s, k - 1) + if s[k - 1] == 'x' && (k == 1 || s[k - 2] != 'x') then 1 else 0
  }

  lemma {:induction false} RunsGrow(s: string, j: nat, k: nat)
    requires j <= k <= |s|
    ensures Runs(s, j) <= Runs(s, k)
    decreases k
  {
    if j < k {
      RunsGrow(s, j, k - 1);
    }
  }

  lemma {:induction false} NoRuns(s: string, k: nat)
    requires k <= |s| && Runs(s, k) == 0
    ensures forall i :: 0 <= i < k ==> s[i] != 'x'
  {
    if k > 0 {
      NoRuns(s, k - 1);
    }
  }

  /** A pattern of 16 bits, the first two fixed, and no more than two runs of free ones. */
  predicate Legal(s: string) {
    |s| == 16 && s[0] != 'x' && s[1] != 'x' && Runs(s, 16) <= 2
  }

  method FillRun<T>(table: array<T>, c: nat, m: nat, n: nat, f: T)
    requires forall op: nat :: InRun(op, c, m, n) ==> op < table.Length
    modifies table
    ensures forall op :: 0 <= op < table.Length ==> table[op] == if InRun(op, c, m, n) then f else old(table[op])
  {
    var p := c;
    for k := 0 to n
      invariant p == At(c, m, k)
      invariant forall op :: 0 <= op < table.Length ==> table[op] == if InRun(op, c, m, k) then f else old(table[op])
    {
      InRunAt(p, c, m, n, k);
      table[p] := f;
      p := p + m;
    }
  }

  method FillGrid<T>(table: array<T>, c: nat, m2: nat, n2: nat, m: nat, n: nat, f: T)
    requires forall op: nat :: InGrid(op, c, m2, n2, m, n) ==> op < table.Length
    modifies table
    ensures forall op :: 0 <= op < table.Length ==> table[op] == if InGrid(op, c, m2, n2, m, n) then f
      else old(table[op])
  {
    var p := c;
    for j := 0 to n2
      invariant p == At(c, m2, j)
      invariant forall op :: 0 <= op < table.Length ==> table[op] == if InGrid(op, c, m2, j, m, n) then f
        else old(table[op])
    {
      forall op: nat | InRun(op, p, m, n) ensures op < table.Length {
        InGridAt(op, c, m2, n2, m, n, j);
      }
      FillRun(table, p, m, n, f);
      p := p + m2;
    }
  }

  /** The number the fixed bits spell, and whether there are free ones. */
  method ScanBits(s: string) returns (c: nat, multiple: bool)
    requires |s| == 16
    ensures c == Val(s) && (multiple <==> !Fixed(s))
  {
    c, multiple := 0, false;
    var m := 0x8000;
    Pow16();
    for i := 0 to 16
      invariant c == Val(s[..i]) * Pow2(16 - i) && (i < 16 ==> m == Pow2(15 - i))
      invariant multiple <==> !Fixed(s[..i])
    {
      assert s[..i + 1][..i] == s[..i];
      Doubled(Val(s[..i]), Pow2(15 - i));
      if s[i] == '1' {
        c := c + m;
      }
      if s[i] == 'x' {
        multiple := true;
        assert s[..i + 1][i] == 'x';
      }
      m := m / 2;
    }
    assert s[..16] == s;
  }

  lemma {:induction false} Pow16()
    ensures Pow2(15) == 0x8000 && Pow2(16) == ENTRIES
  {
    assert Pow2(5) == 32 && Pow2(10) == 1024;
  }

  lemma {:induction false} AllBelow(s: string)
    requires |s| == 16
    ensures forall op: nat :: Matches(s, op) ==> op < ENTRIES
  {
    forall op: nat | Matches(s, op) ensures op < ENTRIES {
      MatchesBelow(s, op);
      Pow16();
    }
  }

  /** The run of free bits that ends at `e`: the place in front of it, and two to its length. */
  method FreeRun(s: string, e: nat) returns (i: nat, count: nat)
    requires 0 < e < |s| && s[e] == 'x' && s[0] != 'x'
    ensures i < e && s[i] != 'x' && Free(s[i + 1..e + 1]) && count == Pow2(e - i)
  {
    i, count := e - 1, 2;
    while s[i] == 'x'
      invariant i < e && count == Pow2(e - i) && forall k :: i < k <= e ==> s[k] == 'x'
      decreases i
    {
      count, i := 2 * count, i - 1;
    }
  }

  /** The last free bit of a pattern, and its weight. */
  method LastFree(s: string) returns (e: nat, m: nat)
    requires |s| == 16 && !Fixed(s) && s[0] != 'x'
    ensures 0 < e < 16 && s[e] == 'x' && Fixed(s[e + 1..]) && m == Pow2(15 - e)
  {
    ghost var k :| 0 <= k < 16 && s[k] == 'x';
    m, e := 1, 15;
    while s[e] != 'x'
      invariant k <= e < 16 && m == Pow2(15 - e) && forall j :: e < j < 16 ==> s[j] != 'x'
      decreases e
    {
      m, e := 2 * m, e - 1;
    }
  }

  /** Stores `f` for a pattern with the free bits of one run, from behind `n` to `e`. */
  method StoreRun<T>(table: array<T>, s: string, n: nat, e: nat, c: nat, m: nat, count: nat, f: T)
    requires table.Length == ENTRIES && |s| == 16 && n < e < 16 && s[0] != 'x'
    requires Fixed(s[1..n + 1]) && Free(s[n + 1..e + 1]) && Fixed(s[e + 1..])
    requires c == Val(s) && m == Pow2(15 - e) && count == Pow2(e - n)
    modifies table
    ensures table[..] == Entered(old(table[..]), s, f)
  {
    OneRunOf(s, n, e);
    AllBelow(s);
    forall op: nat | InRun(op, c, m, count) ensures op < ENTRIES {
      assert Matches(s, op);
    }
    FillRun(table, c, m, count, f);
  }

  /** The same for two runs, from behind `i` to `e2` and from behind `n` to `e`. */
  method StoreRuns<T>(table: array<T>, s: string, i: nat, e2: nat, n: nat, e: nat, c: nat, count2: nat, m: nat,
      count: nat, f: T)
    requires table.Length == ENTRIES && Legal(s) && i < e2 < n < e < 16 && s[i] != 'x' && s[n] != 'x'
    requires Free(s[i + 1..e2 + 1]) && Fixed(s[e2 + 1..n + 1]) && Free(s[n + 1..e + 1]) && Fixed(s[e + 1..])
    requires c == Val(s) && count2 == Pow2(e2 - i) && m == Pow2(15 - e) && count == Pow2(e - n)
    modifies table
    ensures table[..] == Entered(old(table[..]), s, f)
  {
    var m2 := Pow2(15 - e2);
    TwoRunsOf(s, i, e2, n, e);
    AllBelow(s);
    forall op: nat | InGrid(op, c, m2, count2, m, count) ensures op < ENTRIES {
      assert Matches(s, op);
    }
    FillGrid(table, c, m2, count2, m, count, f);
  }

  /** Stores `f` in the entry that a pattern without free bits spells. */
  method StoreOne<T>(table: array<T>, s: string, c: nat, f: T)
    requires table.Length == ENTRIES && |s| == 16 && Fixed(s) && c == Val(s)
    modifies table
    ensures table[..] == Entered(old(table[..]), s, f)
  {
    FixedMatches(s, c);
    AllBelow(s);
    forall op: nat ensures Matches(s, op) <==> op == c {
      FixedMatches(s, op);
    }
    table[c] := f;
  }

  /** Stores `f` in the entries that the pattern matches, and in no others. */
  method SetTable<T>(table: array<T>, s: string, f: T)
    requires table.Length == ENTRIES && Legal(s)
    modifies table
    ensures table[..] == Entered(old(table[..]), s, f)
  {
    var c, multiple := ScanBits(s);
    if !multiple {
      StoreOne(table, s, c, f);
      return;
    }
    var e, m := LastFree(s);
    var n, count := FreeRun(s, e);
    assert s[n + 1] == s[n + 1..e + 1][0];
    var i := n - 1;
    while i != 0 && s[i] != 'x'
      invariant 0 <= i < n && forall k :: i < k <= n ==> s[k] != 'x'
      decreases i
    {
      i := i - 1;
    }
    if i != 0 {
      var first, count2 := FreeRun(s, i);
      StoreRuns(table, s, first, i, n, e, c, count2, m, count, f);
    } else {
      StoreRun(table, s, n, e, c, m, count, f);
    }
  }

  lemma {:induction false} OneRunOf(s: string, n: nat, e: nat)
    requires |s| == 16 && n < e < 16 && Fixed(s[1..n + 1]) && s[0] != 'x' && Free(s[n + 1..e + 1]) && Fixed(s[e + 1..])
    ensures forall op: nat :: Matches(s, op) <==> InRun(op, Val(s), Pow2(15 - e), Pow2(e - n))
  {
    var a, r, b := s[..n + 1], s[n + 1..e + 1], s[e + 1..];
    assert s == a + r + b;
    assert Fixed(a) by {
      forall k | 0 <= k < |a| ensures a[k] != 'x' {
        assert k > 0 ==> a[k] == s[1..n + 1][k - 1];
      }
    }
    forall op: nat ensures Matches(s, op) <==> InRun(op, Val(s), Pow2(15 - e), Pow2(e - n)) {
      OneRun(a, r, b, op);
    }
  }

  /** In front of the two runs there is no third. */
  lemma {:induction false} NoMoreRuns(s: string, i: nat, n: nat)
    requires Legal(s) && i < n < 15 && s[i] != 'x' && s[n] != 'x' && s[i + 1] == s[n + 1] == 'x'
    ensures Fixed(s[..i + 1])
  {
    assert Runs(s, i + 2) == Runs(s, i + 1) + 1;
    RunsGrow(s, i + 2, n + 1);
    assert Runs(s, n + 2) == Runs(s, n + 1) + 1;
    RunsGrow(s, n + 2, 16);
    NoRuns(s, i + 1);
  }

  lemma {:induction false} TwoRunsOf(s: string, i: nat, e1: nat, n: nat, e: nat)
    requires Legal(s) && i < e1 < n < e < 16 && s[i] != 'x' && s[n] != 'x'
    requires Free(s[i + 1..e1 + 1]) && Fixed(s[e1 + 1..n + 1]) && Free(s[n + 1..e + 1]) && Fixed(s[e + 1..])
    ensures forall op: nat :: Matches(s, op) <==> InGrid(op, Val(s), Pow2(15 - e1), Pow2(e1 - i), Pow2(15 - e),
      Pow2(e - n))
  {
    var a, r, b, r2, b2 := s[..i + 1], s[i + 1..e1 + 1], s[e1 + 1..n + 1], s[n + 1..e + 1], s[e + 1..];
    assert r[0] == s[i + 1] && r2[0] == s[n + 1];
    NoMoreRuns(s, i, n);
    assert s == a + r + b + r2 + b2;
    forall op: nat
      ensures Matches(s, op) <==> InGrid(op, Val(s), Pow2(15 - e1), Pow2(e1 - i), Pow2(15 - e), Pow2(e - n)) {
      TwoRuns(a, r, b, r2, b2, op);
    }
  }

  method SetInvalEntries<T>(table: array<T>, code: T)
    requires table.Length == ENTRIES
    modifies table
    ensures forall op :: 0 <= op < ENTRIES ==> table[op] == if 8 <= op < 61440 then code else old(table[op])
  {
    for i := 8 to 61440
      invariant forall op :: 0 <= op < ENTRIES ==> table[op] == if 8 <= op < i then code else old(table[op])
    {
      table[i] := code;
    }
  }

  /** The table is entered pattern by pattern. */
  method SetTabEntries<T>(table: array<T>, es: seq<Entry<T>>)
    requires table.Length == ENTRIES && forall k :: 0 <= k < |es| ==> Legal(es[k].pattern)
    modifies table
    ensures table[..] == EnteredAll(old(table[..]), es)
  {
    for k := 0 to |es|
      invariant table[..] == EnteredAll(old(table[..]), es[..k])
    {
      SetTable(table, es[k].pattern, es[k].handler);
      assert es[..k + 1][..k] == es[..k];
    }
    assert es[..|es|] == es;
  }
}
