/**
  The cluster lists of a QXL.WIN map: the map is an array of 16-bit "next" words, and
  one of its lists is the free list while each other list is the body of a file.

  `Alloc` is the meaning of a map (which list is which, in order); `Represents` ties it
  to the words; `Step` is what each allocation operation does to the meaning.
*/
module Chains {

  /** The meaning of a map: the free list and, by first cluster, the clusters of each file. */
  datatype Alloc = Alloc(free: seq<nat>, files: map<nat, seq<nat>>)

  datatype Op =
    | Create                          // first cluster of a new file
    | Append(file: nat)               // one more cluster at the end of a file
    | Truncate(file: nat, keep: nat)  // keep the first `keep` clusters, if there are as many
    | Delete(file: nat)

  function Head(c: seq<nat>): nat {
    if c == [] then 0 else c[0]
  }

  /** The words of the clusters of `c` link them in order and end the list with 0. */
  ghost predicate Links(fat: seq<nat>, c: seq<nat>) {
    && (forall i :: 0 <= i < |c| ==> 0 < c[i] < |fat|)
    && (forall i {:trigger fat[c[i]]} :: 0 <= i < |c| ==> fat[c[i]] == if i + 1 < |c| then c[i + 1] else 0)
  }

  ghost predicate Chain(fat: seq<nat>, head: nat, c: seq<nat>) {
    Links(fat, c) && head == Head(c)
  }

  ghost predicate Distinct(c: seq<nat>) {
    forall i, j :: 0 <= i < j < |c| ==> c[i] != c[j]
  }

  ghost predicate Apart(a: seq<nat>, b: seq<nat>) {
    forall x :: x in a ==> x !in b
  }

  /** No cluster is in two places: free list and files are duplicate free and pairwise apart. */
  ghost predicate Separate(al: Alloc) {
    && Distinct(al.free)
    && (forall f :: f in al.files ==> |al.files[f]| > 0 && al.files[f][0] == f && Distinct(al.files[f]))
    && (forall f :: f in al.files ==> Apart(al.free, al.files[f]))
    && (forall f, g :: f in al.files && g in al.files && f != g ==> Apart(al.files[f], al.files[g]))
  }

  /** The map `fat`, with free-list head `ffc` and free count `fc`, has the meaning `al`. */
  ghost predicate Represents(fat: seq<nat>, ffc: nat, fc: nat, al: Alloc) {
    && Separate(al)
    && Chain(fat, ffc, al.free)
    && fc == |al.free|
    && forall f :: f in al.files ==> Chain(fat, f, al.files[f])
  }

  /** All clusters the lists own. */
  ghost predicate Owns(al: Alloc, x: nat) {
    x in al.free || exists f :: f in al.files && x in al.files[f]
  }

  ghost predicate SameClusters(a: Alloc, b: Alloc) {
    forall x :: Owns(a, x) <==> Owns(b, x)
  }

  /** What each operation does: a full map or a file that is too short leaves things as they are. */
  function Step(al: Alloc, op: Op): Alloc {
    match op
    case Create =>
      if al.free == [] then al
      else Alloc(al.free[1..], al.files[al.free[0] := [al.free[0]]])
    case Append(f) =>
      if al.free == [] || f !in al.files then al
      else Alloc(al.free[1..], al.files[f := al.files[f] + [al.free[0]]])
    case Truncate(f, keep) =>
      if f !in al.files || keep == 0 || |al.files[f]| < keep then al
      else Alloc(al.files[f][keep..] + al.free, al.files[f := al.files[f][..keep]])
    case Delete(f) =>
      if f !in al.files then al
      else Alloc(al.files[f] + al.free, al.files - {f})
  }

  function Run(al: Alloc, ops: seq<Op>): Alloc
    decreases |ops|
  {
    if ops == [] then al else Run(Step(al, ops[0]), ops[1..])
  }

  // ---- what the operations keep ----

  lemma {:induction false} InSplit(c: seq<nat>, k: nat, x: nat)
    requires k <= |c|
    ensures x in c <==> x in c[..k] || x in c[k..]
  {
    assert c == c[..k] + c[k..];
  }

  lemma {:induction false} DistinctSplit(c: seq<nat>, k: nat)
    requires k <= |c| && Distinct(c)
    ensures Distinct(c[..k]) && Distinct(c[k..]) && Apart(c[..k], c[k..])
  {
  }

  lemma {:induction false} DistinctConcat(a: seq<nat>, b: seq<nat>)
    requires Distinct(a) && Distinct(b) && Apart(a, b)
    ensures Distinct(a + b)
  {
    var c := a + b;
    forall i, j | 0 <= i < j < |c| ensures c[i] != c[j] {
      if i < |a| <= j {
        assert c[i] in a && c[j] == b[j - |a|];
      }
    }
  }

  /** One operation keeps the lists separate and the set of clusters they own. */
  lemma {:induction false} StepKeepsSeparate(al: Alloc, op: Op)
    requires Separate(al)
    ensures Separate(Step(al, op))
    ensures SameClusters(al, Step(al, op))
  {
    if Step(al, op) != al {
      match op {
        case Create => CreateSeparate(al);
        case Append(f) => AppendSeparate(al, f);
        case Truncate(f, keep) => TruncateSeparate(al, f, keep);
        case Delete(f) => DeleteSeparate(al, f);
      }
      StepOwns(al, op, if op.Create? then al.free[0] else op.file);
    }
  }

  lemma {:induction false} CreateSeparate(al: Alloc)
    requires Separate(al) && al.free != []
    ensures Separate(Step(al, Create))
  {
    assert al.free == [al.free[0]] + al.free[1..];
  }

  lemma {:induction false} AppendSeparate(al: Alloc, f: nat)
    requires Separate(al) && al.free != [] && f in al.files
    ensures Separate(Step(al, Append(f)))
  {
    assert al.free == [al.free[0]] + al.free[1..];
    DistinctConcat(al.files[f], [al.free[0]]);
  }

  lemma {:induction false} TruncateSeparate(al: Alloc, f: nat, keep: nat)
    requires Separate(al) && f in al.files && 0 < keep <= |al.files[f]|
    ensures Separate(Step(al, Truncate(f, keep)))
  {
    var c := al.files[f];
    DistinctSplit(c, keep);
    assert forall x :: x in c[..keep] || x in c[keep..] ==> x in c;
    DistinctConcat(c[keep..], al.free);
  }

  lemma {:induction false} DeleteSeparate(al: Alloc, f: nat)
    requires Separate(al) && f in al.files
    ensures Separate(Step(al, Delete(f)))
  {
    DistinctConcat(al.files[f], al.free);
  }

  /** An operation moves clusters between the free list and the one file `f`. */
  lemma {:induction false} StepOwns(al: Alloc, op: Op, f: nat)
    requires Separate(al) && Step(al, op) != al
    requires op.Create? ==> f == al.free[0]
    requires !op.Create? ==> f == op.file
    ensures SameClusters(al, Step(al, op))
  {
    var r := Step(al, op);
    if op.Truncate? {
      forall x ensures x in al.files[f] <==> x in al.files[f][..op.keep] || x in al.files[f][op.keep..] {
        InSplit(al.files[f], op.keep, x);
      }
    }
    if op.Create? || op.Append? {
      assert al.free == [al.free[0]] + al.free[1..];
    }
    assert forall g :: g != f ==> (g in al.files <==> g in r.files);
    assert forall g :: g != f && g in al.files ==> al.files[g] == r.files[g];
    forall x ensures Owns(al, x) <==> Owns(r, x) {
      if Owns(al, x) {
        if x in al.free {
          if op.Create? || op.Append? {
            assert x in al.free[1..] || x == al.free[0];
          }
          assert x in r.free || (f in r.files && x in r.files[f]);
        } else {
          var g :| g in al.files && x in al.files[g];
          if g != f {
            assert g in r.files && x in r.files[g];
          } else {
            assert al.files[f][0] in al.files[f];
            assert x in r.free || (f in r.files && x in r.files[f]);
          }
        }
      }
      if Owns(r, x) {
        if x !in r.free {
          var g :| g in r.files && x in r.files[g];
          assert x in al.free || (g in al.files && x in al.files[g]);
        }
      }
    }
  }

  /** Every run of operations keeps the lists separate and loses or gains no cluster. */
  lemma {:induction false} RunKeepsSeparate(al: Alloc, ops: seq<Op>)
    requires Separate(al)
    ensures Separate(Run(al, ops))
    ensures SameClusters(al, Run(al, ops))
    decreases |ops|
  {
    if ops != [] {
      StepKeepsSeparate(al, ops[0]);
      RunKeepsSeparate(Step(al, ops[0]), ops[1..]);
    }
  }

  // ---- the words behind the lists ----

  /** Following the links never comes back: a linked list that ends has no repeated cluster. */
  lemma {:induction false} LinksDistinct(fat: seq<nat>, c: seq<nat>)
    requires Links(fat, c)
    ensures Distinct(c)
  {
    forall i, j | 0 <= i < j < |c| ensures c[i] != c[j] {
      LinksApart(fat, c, i, j);
    }
  }

  lemma {:induction false} LinksApart(fat: seq<nat>, c: seq<nat>, i: nat, j: nat)
    requires Links(fat, c) && i < j < |c|
    ensures c[i] != c[j]
    decreases |c| - j
  {
    if c[i] == c[j] {
      assert fat[c[i]] == c[i + 1];
      if j + 1 < |c| {
        LinksApart(fat, c, i + 1, j + 1);
      }
    }
  }

  /** Two lists of the same map with the same head are the same list. */
  lemma {:induction false} ChainUnique(fat: seq<nat>, head: nat, a: seq<nat>, b: seq<nat>)
    requires Chain(fat, head, a) && Chain(fat, head, b)
    ensures a == b
    decreases |a|
  {
    if a != [] && b != [] {
      assert fat[a[0]] == Head(a[1..]) && fat[b[0]] == Head(b[1..]);
      ChainUnique(fat, fat[head], a[1..], b[1..]);
      assert a == [head] + a[1..] && b == [head] + b[1..];
    } 
  }

  /** A list without duplicates of numbers in 1..n has at most n of them. */
  lemma {:induction false} Pigeonhole(c: seq<nat>, n: nat)
    requires Distinct(c) && forall i :: 0 <= i < |c| ==> 0 < c[i] <= n
    ensures |c| <= n
  {
    if n > 0 {
      if n in c {
        var k :| 0 <= k < |c| && c[k] == n;
        var d := c[..k] + c[k + 1..];
        forall i | 0 <= i < |d| ensures 0 < d[i] <= n - 1 {
          var i' := if i < k then i else i + 1;
          assert d[i] == c[i'];
        }
        assert Distinct(d) by {
          forall i, j | 0 <= i < j < |d| ensures d[i] != d[j] {
            assert d[i] == c[if i < k then i else i + 1] && d[j] == c[if j < k then j else j + 1];
          }
        }
        Pigeonhole(d, n - 1);
      } else {
        Pigeonhole(c, n - 1);
      }
    }
  }

  /** A list of 16-bit words has at most 65535 clusters, each of them a 16-bit number. */
  lemma {:induction false} SixteenBits(fat: seq<nat>, c: seq<nat>)
    requires Links(fat, c) && Head(c) < 65536
    requires forall w :: 0 <= w < |fat| ==> fat[w] < 65536
    ensures |c| < 65536
    ensures forall i :: 0 <= i < |c| ==> 0 < c[i] < 65536
  {
    forall i | 0 <= i < |c| ensures 0 < c[i] < 65536 {
      if i > 0 {
        assert fat[c[i - 1]] == c[i];
      }
    }
    LinksDistinct(fat, c);
    Pigeonhole(c, 65535);
  }

  /** Words outside a list do not matter to it. */
  lemma {:induction false} LinksFrame(fat: seq<nat>, c: seq<nat>, x: nat, v: nat)
    requires Links(fat, c) && x < |fat| && x !in c
    ensures Links(fat[x := v], c)
  {
  }

  /** Writing `h` into the last word of a list joins the list with head `h` behind it. */
  lemma {:induction false} LinksJoin(fat: seq<nat>, a: seq<nat>, b: seq<nat>)
    requires Links(fat, a) && Links(fat, b) && Distinct(a) && Apart(a, b) && |a| > 0
    ensures Links(fat[a[|a| - 1] := Head(b)], a + b)
  {
    var last := a[|a| - 1];
    var fat' := fat[last := Head(b)];
    var c := a + b;
    assert last in a;
    forall i | 0 <= i < |c| ensures 0 < c[i] < |fat'| {
      assert c[i] == if i < |a| then a[i] else b[i - |a|];
    }
    forall i | 0 <= i < |c| ensures fat'[c[i]] == if i + 1 < |c| then c[i + 1] else 0 {
      if i < |a| {
        assert c[i] == a[i] && fat[a[i]] == if i + 1 < |a| then a[i + 1] else 0;
      } else {
        assert c[i] == b[i - |a|] && b[i - |a|] in b;
        assert fat[b[i - |a|]] == if i + 1 < |c| then b[i + 1 - |a|] else 0;
      }
    }
    assert Links(fat', c);
  }

  /** Cutting a list after its first `k` clusters: the word written ends the front part. */
  lemma {:induction false} LinksCut(fat: seq<nat>, c: seq<nat>, k: nat)
    requires Links(fat, c) && Distinct(c) && 0 < k <= |c|
    ensures Links(fat[c[k - 1] := 0], c[..k])
    ensures Links(fat[c[k - 1] := 0], c[k..])
    ensures Links(fat, c[k..])
    ensures fat[c[k - 1]] == Head(c[k..])
  {
    var d := c[k..];
    forall i | 0 <= i < |d|
      ensures 0 < d[i] < |fat| && d[i] != c[k - 1] && fat[d[i]] == if i + 1 < |d| then d[i + 1] else 0 {
      assert d[i] == c[i + k];
    }
  }

  /** The list from its cluster `k` on is again a list. */
  lemma {:induction false} LinksSuffix(fat: seq<nat>, c: seq<nat>, k: nat)
    requires Links(fat, c) && k < |c|
    ensures Chain(fat, c[k], c[k..]) && c[k..] != []
  {
    var d := c[k..];
    forall i | 0 <= i < |d| ensures 0 < d[i] < |fat| && fat[d[i]] == if i + 1 < |d| then d[i + 1] else 0 {
      assert d[i] == c[i + k];
    }
  }

  /** First cluster of a new file: unlink the head of the free list and end it with 0. */
  lemma {:induction false} CreateRepresents(fat: seq<nat>, ffc: nat, fc: nat, al: Alloc)
    requires Represents(fat, ffc, fc, al) && fc > 0
    ensures 0 < ffc < |fat|
    ensures Represents(fat[ffc := 0], fat[ffc], fc - 1, Step(al, Create))
  {
    StepKeepsSeparate(al, Create);
    LinksCut(fat, al.free, 1);
    assert al.free[..1] == [ffc];
    FilesFrame(fat, al, ffc, 0);
  }

  /** Writing a word of the free list leaves every file as it is. */
  lemma {:induction false} FilesFrame(fat: seq<nat>, al: Alloc, x: nat, v: nat)
    requires Separate(al) && x in al.free && x < |fat|
    requires forall f :: f in al.files ==> Chain(fat, f, al.files[f])
    ensures forall f :: f in al.files ==> Chain(fat[x := v], f, al.files[f])
  {
    forall f | f in al.files ensures Chain(fat[x := v], f, al.files[f]) {
      LinksFrame(fat, al.files[f], x, v);
    }
  }

  /** Writing a word of file `f` leaves the free list and every other file as they are. */
  lemma {:induction false} OthersFrame(fat: seq<nat>, al: Alloc, f: nat, x: nat, v: nat)
    requires Separate(al) && f in al.files && x in al.files[f] && x < |fat|
    requires Links(fat, al.free)
    requires forall g :: g in al.files && g != f ==> Chain(fat, g, al.files[g])
    ensures Links(fat[x := v], al.free)
    ensures forall g :: g in al.files && g != f ==> Chain(fat[x := v], g, al.files[g])
  {
    LinksFrame(fat, al.free, x, v);
    forall g | g in al.files && g != f ensures Chain(fat[x := v], g, al.files[g]) {
      LinksFrame(fat, al.files[g], x, v);
    }
  }

  /** One more cluster: unlink the head of the free list, then link it behind the last word. */
  lemma {:induction false} AppendRepresents(fat: seq<nat>, ffc: nat, fc: nat, al: Alloc, f: nat)
    requires Represents(fat, ffc, fc, al) && fc > 0 && f in al.files
    ensures 0 < ffc < |fat|
    ensures var last := al.files[f][|al.files[f]| - 1];
      && last < |fat|
      && Represents(fat[ffc := 0][last := ffc], fat[ffc], fc - 1, Step(al, Append(f)))
  {
    var c := al.files[f];
    var last := c[|c| - 1];
    assert last in c;
    StepKeepsSeparate(al, Append(f));
    CreateRepresents(fat, ffc, fc, al);
    var fat1 := fat[ffc := 0];
    FilesFrame(fat, al, ffc, 0);
    LinksCut(fat, al.free, 1);
    assert al.free[..1] == [ffc];
    assert Links(fat1, [ffc]);
    assert Links(fat1, c);
    LinksJoin(fat1, c, [ffc]);
    LinksFrame(fat1, al.free[1..], last, ffc);
    forall g | g in al.files && g != f ensures Chain(fat1[last := ffc], g, al.files[g]) {
      LinksFrame(fat1, al.files[g], last, ffc);
    }
  }

  /**
    Truncation: the tail is put in front of the free list and the kept part ended. When the
    tail is empty, the "last word of the tail" is the last kept word itself: it is written
    twice, first with the old head and then with 0, and nothing changes.
  */
  lemma {:induction false} TruncateRepresents(fat: seq<nat>, ffc: nat, fc: nat, al: Alloc, f: nat, keep: nat)
    requires Represents(fat, ffc, fc, al) && f in al.files && 0 < keep <= |al.files[f]|
    ensures var c := al.files[f];
      var p, p1 := c[keep - 1], c[|c| - 1];
      && p < |fat| && p1 < |fat|
      && var fat1 := fat[p1 := ffc];
      Represents(fat1[p := 0], fat1[p], fc + |c| - keep, Step(al, Truncate(f, keep)))
  {
    var c := al.files[f];
    StepKeepsSeparate(al, Truncate(f, keep));
    OthersFrame(fat, al, f, c[|c| - 1], ffc);
    OthersFrame(fat[c[|c| - 1] := ffc], al, f, c[keep - 1], 0);
    if keep == |c| {
      NothingToCut(fat, c, al.free);
    } else {
      forall x | x in c[keep..] ensures x !in al.free { InSplit(c, keep, x); }
      CutAndJoin(fat, c, keep, al.free);
    }
    var fat1 := fat[c[|c| - 1] := ffc];
    Assembled(fat1[c[keep - 1] := 0], fat1[c[keep - 1]], fc + |c| - keep, al, f, c[..keep], c[keep..] + al.free);
  }

  /** The meaning of a map after one file and the free list have changed. */
  lemma {:induction false} Assembled(fat: seq<nat>, ffc: nat, fc: nat, al: Alloc, f: nat, c: seq<nat>, free: seq<nat>)
    requires var next := Alloc(free, al.files[f := c]); Separate(next)
    requires Chain(fat, ffc, free) && fc == |free| && Chain(fat, f, c)
    requires forall g :: g in al.files && g != f ==> Chain(fat, g, al.files[g])
    ensures Represents(fat, ffc, fc, Alloc(free, al.files[f := c]))
  {
  }

  /** Nothing is released: both pointers are one, and what was linked is unlinked again. */
  lemma {:induction false} NothingToCut(fat: seq<nat>, c: seq<nat>, free: seq<nat>)
    requires Links(fat, c) && Links(fat, free) && c != []
    ensures var p := c[|c| - 1];
      && p < |fat| && fat[p := Head(free)][p := 0] == fat && fat[p := Head(free)][p] == Head(free)
      && c[..|c|] == c && c[|c|..] + free == free
  {
    assert fat[c[|c| - 1]] == 0;
  }

  /** A real tail: the front part ends at the cut and the tail is followed by `free`. */
  lemma {:induction false} CutAndJoin(fat: seq<nat>, c: seq<nat>, keep: nat, free: seq<nat>)
    requires Links(fat, c) && Links(fat, free) && Distinct(c) && Apart(c, free) && 0 < keep < |c|
    ensures var p, p1 := c[keep - 1], c[|c| - 1];
      && p < |fat| && p1 < |fat|
      && var fat1 := fat[p1 := Head(free)];
      && Links(fat1[p := 0], c[..keep])
      && Links(fat1[p := 0], c[keep..] + free)
      && fat1[p] == c[keep]
  {
    var p, p1 := c[keep - 1], c[|c| - 1];
    var fat1 := fat[p1 := Head(free)];
    var kept, tail := c[..keep], c[keep..];
    assert p in kept && p1 in tail && p in c;
    DistinctSplit(c, keep);
    LinksCut(fat, c, keep);
    assert Apart(tail, free);
    LinksJoin(fat, tail, free);
    assert tail[|tail| - 1] == p1;
    LinksFrame(fat1, tail + free, p, 0);
    assert fat1[p := 0] == fat[p := 0][p1 := Head(free)];
    LinksFrame(fat[p := 0], kept, p1, Head(free));
  }

  /** Deletion: the whole file is put in front of the free list. */
  lemma {:induction false} DeleteRepresents(fat: seq<nat>, ffc: nat, fc: nat, al: Alloc, f: nat)
    requires Represents(fat, ffc, fc, al) && f in al.files
    ensures var c := al.files[f];
      var last := c[|c| - 1];
      && last < |fat|
      && Represents(fat[last := ffc], f, fc + |c|, Step(al, Delete(f)))
  {
    var c := al.files[f];
    var last := c[|c| - 1];
    assert last in c;
    StepKeepsSeparate(al, Delete(f));
    OthersFrame(fat, al, f, last, ffc);
    assert Apart(c, al.free);
    LinksJoin(fat, c, al.free);
  }
}
