/**
 * The argv permutation of argtable3's getopt: `gcd` and `permute_args`.
 *
 * `permute_args` exchanges two adjacent blocks of the argument vector in place.
 * It walks gcd-many cycles; within a cycle every element passes once through
 * the cycle's first position.
 */
module Permute {
  import opened Arithmetic

  /** d divides x. */
  ghost predicate Divides(d: int, x: int)
    requires d > 0
  {
    exists k :: x == d * k
  }

  lemma DividesIntro(d: int, x: int, k: int)
    requires d > 0 && x == d * k
    ensures Divides(d, x)
  {
  }

  /** Divisors of two numbers divide every integer combination of them. */
  lemma DividesLinear(d: int, x: int, y: int, m: int)
    requires d > 0 && Divides(d, x) && Divides(d, y)
    ensures Divides(d, x + m * y)
  {
    var j :| x == d * j;
    var k :| y == d * k;
    assert x + m * y == d * (j + m * k);
  }

  /** g is the greatest common divisor of a and b, with Bezout coefficients x and y. */
  ghost predicate Bezout(g: int, a: int, b: int, x: int, y: int) {
    g > 0 && g == x * a + y * b && Divides(g, a) && Divides(g, b)
  }

  /** The value Gcd returns is the only common divisor that every common divisor divides. */
  lemma BezoutIsGreatest(g: int, a: int, b: int, x: int, y: int, d: int)
    requires Bezout(g, a, b, x, y)
    requires d > 0 && Divides(d, a) && Divides(d, b)
    ensures Divides(d, g) && d <= g
  {
    var j :| a == d * j;
    var k :| b == d * k;
    Combine(d, j, k, x, y);
    MulSign(d, x * j + y * k);
    DividesIntro(d, g, x * j + y * k);
  }

  lemma Combine(d: int, j: int, k: int, x: int, y: int)
    ensures x * (d * j) + y * (d * k) == d * (x * j + y * k)
  {
    assert x * (d * j) == d * (x * j);
    assert y * (d * k) == d * (y * k);
  }

  /** Euclid's loop. The second argument must be positive: C leaves `a % 0` undefined. */
  method Gcd(a0: int, b0: int) returns (g: int, ghost x: int, ghost y: int)
    requires a0 >= 0 && b0 > 0
    ensures Bezout(g, a0, b0, x, y)
    ensures g <= b0
  {
    var a, b := a0, b0;
    var c := a % b;
    // a == xa*a0 + ya*b0 and b == x*a0 + y*b0
    ghost var xa, ya := 1, 0;
    x, y := 0, 1;
    while c != 0
      invariant a >= 0 && b0 >= b > c >= 0 && c == a % b
      invariant a == xa * a0 + ya * b0 && b == x * a0 + y * b0
      invariant forall d :: d > 0 && Divides(d, a) && Divides(d, b) ==> Divides(d, a0) && Divides(d, b0)
      decreases c
    {
      ghost var q := a / b;
      assert c == a - q * b;
      forall d | d > 0 && Divides(d, b) && Divides(d, c)
        ensures Divides(d, a)
      {
        DividesLinear(d, c, b, q);
        assert c + q * b == a;
      }
      BezoutStep(a, b, q, xa, ya, x, y, a0, b0);
      xa, ya, x, y := x, y, xa - q * x, ya - q * y;
      a := b;
      b := c;
      c := a % b;
    }
    DividesIntro(b, a, a / b);
    DividesIntro(b, b, 1);
    g := b;
  }

  lemma BezoutStep(a: int, b: int, q: int, xa: int, ya: int, xb: int, yb: int, a0: int, b0: int)
    requires a == xa * a0 + ya * b0 && b == xb * a0 + yb * b0
    ensures a - q * b == (xa - q * xb) * a0 + (ya - q * yb) * b0
  {
    assert (xa - q * xb) * a0 == xa * a0 - q * (xb * a0);
    assert (ya - q * yb) * b0 == ya * b0 - q * (yb * b0);
    assert q * b == q * (xb * a0) + q * (yb * b0);
  }

  // ----- the cycle structure -----

  /** Where the walk goes from relative position p: a block of a words precedes a block of b words. */
  function Next(p: int, a: int, b: int): int {
    if p >= a then p - a else p + b
  }

  /** Where the word that ends up at relative position p came from. */
  function Prev(p: int, a: int, b: int): int {
    if p < b then p + a else p - b
  }

  /**
   * One exchange of a words with the b words behind them: n words, in g cycles of len positions.
   * `w` inverts k = b/g modulo len, with quotient `z`.
   */
  datatype Cycles = Cycles(a: nat, b: nat, g: nat, len: nat, k: nat, w: int, z: int) {
    ghost predicate Valid() {
      && b > 0 && g > 0 && len > 0
      && a + b == g * len
      && b == g * k
      && w * k + z * len == 1
    }

    /** How many steps the walk that starts at c takes to reach p. */
    ghost function Rank(c: int, p: int): int
      requires len > 0 && g > 0
    {
      (((p - c) / g) * w) % len
    }
  }

  lemma MakeCycles(a: nat, b: nat, g: nat, x: int, y: int) returns (cy: Cycles)
    requires b > 0 && Bezout(g, a, b, x, y)
    ensures cy.Valid() && cy.a == a && cy.b == b && cy.g == g && cy.len == (a + b) / g
  {
    var j :| a == g * j;
    var k :| b == g * k;
    assert a + b == g * (j + k);
    ExactQuotient(g, a + b, j + k);
    MulSign(g, j);
    MulSign(g, k);
    BezoutQuotients(g, j, k, x, y);
    cy := Cycles(a, b, g, j + k, k, y - x, x);
  }

  lemma BezoutQuotients(g: int, j: int, k: int, x: int, y: int)
    requires g > 0 && g == x * (g * j) + y * (g * k)
    ensures (y - x) * k + x * (j + k) == 1
  {
    var xj, yk := x * j, y * k;
    assert x * (g * j) == g * xj;
    assert y * (g * k) == g * yk;
    assert g * (xj + yk) == g * 1;
    CancelFactor(g, xj + yk, 1);
  }

  /** Each step raises the rank by one, modulo the cycle's length. */
  lemma RankNext(cy: Cycles, c: int, p: int)
    requires cy.Valid() && Divides(cy.g, p - c)
    ensures Divides(cy.g, Next(p, cy.a, cy.b) - c)
    ensures cy.Rank(c, Next(p, cy.a, cy.b)) == (cy.Rank(c, p) + 1) % cy.len
  {
    var m :| p - c == cy.g * m;
    var e := if p >= cy.a then 1 else 0;
    var m' := m + cy.k - e * cy.len;
    NextQuotient(m, cy.k, e, cy.g, cy.len);
    assert Next(p, cy.a, cy.b) - c == cy.g * m';
    RankOf(cy, c, p, m);
    RankOf(cy, c, Next(p, cy.a, cy.b), m');
    RankStep(m, cy.k, e, cy.len, cy.w, cy.z);
  }

  lemma RankOf(cy: Cycles, c: int, p: int, m: int)
    requires cy.g > 0 && cy.len > 0 && p - c == cy.g * m
    ensures Divides(cy.g, p - c) && cy.Rank(c, p) == (m * cy.w) % cy.len
  {
    ExactQuotient(cy.g, p - c, m);
  }

  lemma NextQuotient(m: int, k: int, e: int, g: int, len: int)
    ensures g * (m + k - e * len) == g * m + g * k - e * (g * len)
  {
  }

  lemma RankStep(m: int, k: int, e: int, len: int, w: int, z: int)
    requires len > 0 && w * k + z * len == 1
    ensures ((m + k - e * len) * w) % len == ((m * w) % len + 1) % len
  {
    RankIdentity(m, k, e, len, w, z);
    ModStep(m * w, (m + k - e * len) * w, len, -z - e * w);
  }

  lemma RankIdentity(m: int, k: int, e: int, len: int, w: int, z: int)
    requires w * k + z * len == 1
    ensures (m + k - e * len) * w == m * w + 1 + len * (-z - e * w)
  {
  }

  /** Positions of one cycle with equal rank are the same position. */
  lemma RankInjective(cy: Cycles, c: int, p: int, q: int)
    requires cy.Valid() && Divides(cy.g, p - c) && Divides(cy.g, q - c)
    requires 0 <= p < cy.a + cy.b && 0 <= q < cy.a + cy.b
    requires cy.Rank(c, p) == cy.Rank(c, q)
    ensures p == q
  {
    var i :| p - c == cy.g * i;
    var j :| q - c == cy.g * j;
    RankOf(cy, c, p, i);
    RankOf(cy, c, q, j);
    var h := SameRank(i, j, cy.k, cy.len, cy.w, cy.z);
    ScaleUp(cy.g, cy.len, i, j, h);
    MulSign(cy.g * cy.len, h);
  }

  lemma ScaleUp(g: int, len: int, i: int, j: int, h: int)
    requires i - j == len * h
    ensures g * i - g * j == (g * len) * h
  {
    assert g * (i - j) == g * i - g * j;
    assert g * (len * h) == (g * len) * h;
  }

  lemma SameRank(i: int, j: int, k: int, len: int, w: int, z: int) returns (h: int)
    requires len > 0 && w * k + z * len == 1
    requires (i * w) % len == (j * w) % len
    ensures i - j == len * h
  {
    var t := (i * w) / len - (j * w) / len;
    var d := i - j;
    assert d * w == len * t;
    h := t * k + z * d;
    FactorOut(d, w, k, len, z, t);
  }

  lemma FactorOut(d: int, w: int, k: int, len: int, z: int, t: int)
    requires w * k + z * len == 1 && d * w == len * t
    ensures d == len * (t * k + z * d)
  {
    assert d * (w * k) == (d * w) * k;
    assert (len * t) * k == len * (t * k);
    assert d * (z * len) == len * (z * d);
    assert d * (w * k + z * len) == d * (w * k) + d * (z * len);
  }

  /** The start of a cycle has rank zero. */
  lemma RankStart(cy: Cycles, c: int)
    requires cy.Valid()
    ensures Divides(cy.g, c - c) && cy.Rank(c, c) == 0
  {
    DividesIntro(cy.g, 0, 0);
  }

  /** The cycle that starts at a + i is the residue class of i modulo g. */
  lemma CycleIsResidue(cy: Cycles, i: int, p: int)
    requires cy.Valid() && 0 <= i < cy.g
    ensures Divides(cy.g, p - (cy.a + i)) <==> p % cy.g == i
  {
    var k := cy.len - cy.k;
    assert cy.a == cy.g * k;
    if p % cy.g == i {
      DividesIntro(cy.g, p - (cy.a + i), p / cy.g - k);
    }
    if Divides(cy.g, p - (cy.a + i)) {
      var m :| p - (cy.a + i) == cy.g * m;
      ModUnique(p, cy.g, k + m, i);
    }
  }

  /** The position that walk i, which starts at a + i, has reached after j steps. */
  ghost function Walk(a: int, b: int, i: int, j: nat): int {
    if j == 0 then a + i else Next(Walk(a, b, i, j - 1), a, b)
  }

  /**
   * What makes the exchange correct: the g walks of len steps that start at the first g positions
   * of the second block return to their start, never meet, and together visit every position.
   */
  ghost predicate Partitioned(a: nat, b: nat, g: nat, len: nat) {
    && 0 < g <= b && 0 < len
    && (forall i, j: nat :: 0 <= i < g ==> 0 <= Walk(a, b, i, j) < a + b)
    && (forall i :: 0 <= i < g ==> Walk(a, b, i, len) == a + i)
    && (forall i, j: nat, i', j': nat ::
          0 <= i < g && 0 <= i' < g && j < len && j' < len && Walk(a, b, i, j) == Walk(a, b, i', j') ==>
          i == i' && j == j')
    && (forall p :: 0 <= p < a + b ==> Settled(a, b, len, g, p))
  }

  ghost predicate OnCycle(a: int, b: int, len: nat, i: int, p: int) {
    exists j: nat :: j < len && Walk(a, b, i, j) == p
  }

  /** Position p is on one of the first `done` cycles. */
  ghost predicate Settled(a: nat, b: nat, len: nat, done: int, p: int) {
    exists i :: 0 <= i < done && OnCycle(a, b, len, i, p)
  }

  lemma {:induction false} WalkStays(cy: Cycles, i: int, j: nat)
    requires cy.Valid() && 0 <= i < cy.g <= cy.b
    ensures var p := Walk(cy.a, cy.b, i, j);
            && 0 <= p < cy.a + cy.b && Divides(cy.g, p - (cy.a + i))
            && cy.Rank(cy.a + i, p) == j % cy.len
  {
    if j == 0 {
      RankStart(cy, cy.a + i);
      ModWithin(0, cy.len);
    } else {
      WalkStays(cy, i, j - 1);
      RankNext(cy, cy.a + i, Walk(cy.a, cy.b, i, j - 1));
      ModStep(j - 1, j, cy.len, 0);
    }
  }

  /** Position p is on the cycle of its residue. */
  lemma WalkReaches(cy: Cycles, p: int) returns (i: int)
    requires cy.Valid() && cy.g <= cy.b && 0 <= p < cy.a + cy.b
    ensures 0 <= i < cy.g && OnCycle(cy.a, cy.b, cy.len, i, p)
  {
    i := p % cy.g;
    CycleIsResidue(cy, i, p);
    var j := cy.Rank(cy.a + i, p);
    WalkStays(cy, i, j);
    ModWithin(j, cy.len);
    RankInjective(cy, cy.a + i, p, Walk(cy.a, cy.b, i, j));
  }

  /** Walks from different starts, or of different lengths, end at different positions. */
  lemma WalksDiffer(cy: Cycles, i: int, j: nat, i': int, j': nat)
    requires cy.Valid() && 0 <= i < cy.g <= cy.b && 0 <= i' < cy.g && j < cy.len && j' < cy.len
    requires Walk(cy.a, cy.b, i, j) == Walk(cy.a, cy.b, i', j')
    ensures i == i' && j == j'
  {
    var p := Walk(cy.a, cy.b, i, j);
    WalkStays(cy, i, j);
    WalkStays(cy, i', j');
    CycleIsResidue(cy, i, p);
    CycleIsResidue(cy, i', p);
    ModWithin(j, cy.len);
    ModWithin(j', cy.len);
  }

  lemma CyclesPartition(cy: Cycles)
    requires cy.Valid() && cy.g <= cy.b
    ensures Partitioned(cy.a, cy.b, cy.g, cy.len)
  {
    forall i, j: nat | 0 <= i < cy.g
      ensures 0 <= Walk(cy.a, cy.b, i, j) < cy.a + cy.b
    {
      WalkStays(cy, i, j);
    }
    forall i | 0 <= i < cy.g
      ensures Walk(cy.a, cy.b, i, cy.len) == cy.a + i
    {
      WalkStays(cy, i, cy.len);
      WalkStays(cy, i, 0);
      ModWithin(cy.len, cy.len);
      ModWithin(0, cy.len);
      RankInjective(cy, cy.a + i, Walk(cy.a, cy.b, i, cy.len), cy.a + i);
    }
    forall i, j: nat, i', j': nat | 0 <= i < cy.g && 0 <= i' < cy.g && j < cy.len && j' < cy.len
        && Walk(cy.a, cy.b, i, j) == Walk(cy.a, cy.b, i', j')
      ensures i == i' && j == j'
    {
      WalksDiffer(cy, i, j, i', j');
    }
    forall p | 0 <= p < cy.a + cy.b
      ensures Settled(cy.a, cy.b, cy.len, cy.g, p)
    {
      var i := WalkReaches(cy, p);
    }
  }

  // ----- the exchange -----

  /** The argument vector with its blocks [lo, mid) and [mid, hi) exchanged. */
  function Exchanged<T>(s: seq<T>, lo: nat, mid: nat, hi: nat): (r: seq<T>)
    requires lo <= mid <= hi <= |s|
    ensures |r| == |s|
  {
    s[..lo] + s[mid..hi] + s[lo..mid] + s[hi..]
  }

  /** Where position p's content comes from when cycle i has taken j steps. */
  ghost function Source(a: nat, b: nat, len: nat, i: int, j: nat, p: int): int {
    if p == a + i then (if j < len then Walk(a, b, i, j) else Prev(p, a, b))
    else if Settled(a, b, len, i, p) then Prev(p, a, b)
    else if exists k: nat :: 0 < k <= j && k < len && Walk(a, b, i, k) == p then Prev(p, a, b)
    else p
  }

  /** One step exchanges the sources of the new position and of the cycle's start. */
  ghost predicate StepSwaps(a: nat, b: nat, len: nat, i: int, j: nat, p: int) {
    var next := Walk(a, b, i, j + 1);
    Source(a, b, len, i, j + 1, p) ==
      Source(a, b, len, i, j, if p == next then a + i else if p == a + i then next else p)
  }

  /** Every step of cycle i stays in range and swaps sources. */
  ghost predicate GoodCycle(a: nat, b: nat, len: nat, i: int) {
    && 0 <= i < b
    && (forall j: nat :: 0 <= Walk(a, b, i, j) < a + b)
    && (forall j: nat, p :: j < len && 0 <= p < a + b ==> StepSwaps(a, b, len, i, j, p))
  }

  lemma CycleIsGood(a: nat, b: nat, g: nat, len: nat, i: int)
    requires Partitioned(a, b, g, len) && 0 <= i < g
    ensures GoodCycle(a, b, len, i)
  {
    forall j: nat, p | j < len && 0 <= p < a + b
      ensures StepSwaps(a, b, len, i, j, p)
    {
      StepSource(a, b, g, len, i, j, p);
    }
  }

  lemma StepSource(a: nat, b: nat, g: nat, len: nat, i: int, j: nat, p: int)
    requires Partitioned(a, b, g, len) && 0 <= i < g && j < len && 0 <= p < a + b
    ensures StepSwaps(a, b, len, i, j, p)
  {
    var next := Walk(a, b, i, j + 1);
    assert Walk(a, b, i, 0) == a + i;
    assert 0 <= Walk(a, b, i, j) < a + b;
    assert Prev(next, a, b) == Walk(a, b, i, j);
    if j + 1 < len {
      assert !Settled(a, b, len, i, next);
      assert forall k: nat :: 0 < k <= j && k < len ==> Walk(a, b, i, k) != next;
    }
  }

  /** Every position outside [lo, lo + |src|) is untouched; inside, position p holds what src[p] held. */
  ghost predicate Arranged<T>(was: seq<T>, now: seq<T>, lo: nat, src: seq<int>) {
    && lo + |src| <= |was| == |now|
    && (forall q :: 0 <= q < lo || lo + |src| <= q < |now| ==> now[q] == was[q])
    && (forall p :: 0 <= p < |src| ==> 0 <= src[p] < |src| && now[lo + p] == was[lo + src[p]])
  }

  lemma SwapArranged<T>(was: seq<T>, now: seq<T>, lo: nat, src: seq<int>, x: nat, y: nat)
    requires Arranged(was, now, lo, src) && x < |src| && y < |src|
    ensures Arranged(was, now[lo + x := now[lo + y]][lo + y := now[lo + x]], lo, src[x := src[y]][y := src[x]])
  {
  }

  ghost function Sources(a: nat, b: nat, len: nat, i: int, j: nat): seq<int> {
    seq(a + b, p requires 0 <= p < a + b => Source(a, b, len, i, j, p))
  }

  lemma StepSources(a: nat, b: nat, len: nat, i: int, j: nat)
    requires GoodCycle(a, b, len, i) && j < len
    ensures var src, next := Sources(a, b, len, i, j), Walk(a, b, i, j + 1);
            && 0 <= next < a + b
            && Sources(a, b, len, i, j + 1) == src[next := src[a + i]][a + i := src[next]]
  {
    var src, next := Sources(a, b, len, i, j), Walk(a, b, i, j + 1);
    var after := Sources(a, b, len, i, j + 1);
    forall p | 0 <= p < a + b
      ensures after[p] == src[next := src[a + i]][a + i := src[next]][p]
    {
      assert StepSwaps(a, b, len, i, j, p);
    }
  }

  /** The state of the vector while cycle i has taken j steps. */
  ghost predicate Underway<T>(was: seq<T>, now: seq<T>, lo: nat, a: nat, b: nat, len: nat, i: int, j: nat) {
    Arranged(was, now, lo, Sources(a, b, len, i, j))
  }

  lemma SwapStep<T>(was: seq<T>, now: seq<T>, lo: nat, a: nat, b: nat, len: nat, i: int, j: nat)
    requires GoodCycle(a, b, len, i) && j < len
    requires Underway(was, now, lo, a, b, len, i, j)
    ensures var next := Walk(a, b, i, j + 1);
            && 0 <= next < a + b
            && Underway(was, now[lo + next := now[lo + a + i]][lo + a + i := now[lo + next]], lo, a, b, len, i, j + 1)
  {
    StepSources(a, b, len, i, j);
    SwapArranged(was, now, lo, Sources(a, b, len, i, j), Walk(a, b, i, j + 1), a + i);
  }

  lemma FinishedSource(a: nat, b: nat, g: nat, len: nat, i: int, p: int)
    requires Partitioned(a, b, g, len) && 0 <= i < g && 0 <= p < a + b
    ensures Source(a, b, len, i, len, p) == if Settled(a, b, len, i + 1, p) then Prev(p, a, b) else p
  {
    assert Walk(a, b, i, 0) == a + i;
    if p == a + i {
      assert OnCycle(a, b, len, i, p);
    } else if OnCycle(a, b, len, i, p) {
      var k: nat :| k < len && Walk(a, b, i, k) == p;
      assert 0 < k <= len;
    } else {
      assert forall k: nat :: k < len ==> Walk(a, b, i, k) != p;
    }
  }

  /** A finished cycle and one about to start describe the same vector. */
  lemma NextCycle(a: nat, b: nat, g: nat, len: nat, i: int)
    requires Partitioned(a, b, g, len) && 0 <= i && i + 1 < g
    ensures Sources(a, b, len, i, len) == Sources(a, b, len, i + 1, 0)
  {
    var finished, next := Sources(a, b, len, i, len), Sources(a, b, len, i + 1, 0);
    forall p | 0 <= p < a + b
      ensures finished[p] == next[p]
    {
      FinishedSource(a, b, g, len, i, p);
      assert Walk(a, b, i + 1, 0) == a + i + 1;
    }
  }

  /** The whole plan: nothing moved at the start, everything at the end, every cycle in between good. */
  ghost predicate GoodPlan(a: nat, b: nat, g: nat, len: nat) {
    && 0 < g
    && Sources(a, b, len, 0, 0) == seq(a + b, p => p)
    && Sources(a, b, len, g - 1, len) == seq(a + b, p => Prev(p, a, b))
    && (forall i :: 0 <= i < g ==> GoodCycle(a, b, len, i))
    && (forall i :: 0 <= i && i + 1 < g ==> Continues(a, b, len, i))
  }

  ghost predicate Continues(a: nat, b: nat, len: nat, i: int) {
    Sources(a, b, len, i, len) == Sources(a, b, len, i + 1, 0)
  }

  lemma PlanIsGood(a: nat, b: nat, g: nat, len: nat)
    requires Partitioned(a, b, g, len)
    ensures GoodPlan(a, b, g, len)
  {
    forall i | 0 <= i < g ensures GoodCycle(a, b, len, i) {
      CycleIsGood(a, b, g, len, i);
    }
    forall i | 0 <= i && i + 1 < g ensures Continues(a, b, len, i) {
      NextCycle(a, b, g, len, i);
    }
    assert Walk(a, b, 0, 0) == a;
    var last := Sources(a, b, len, g - 1, len);
    forall p | 0 <= p < a + b ensures last[p] == Prev(p, a, b) {
      FinishedSource(a, b, g, len, g - 1, p);
    }
  }

  lemma Start<T>(was: seq<T>, lo: nat, n: nat)
    requires lo + n <= |was|
    ensures Arranged(was, was, lo, seq(n, p => p))
  {
  }

  lemma Finish<T>(was: seq<T>, now: seq<T>, lo: nat, a: nat, b: nat)
    requires Arranged(was, now, lo, seq(a + b, p => Prev(p, a, b)))
    ensures now == Exchanged(was, lo, lo + a, lo + a + b)
  {
    var src := seq(a + b, p => Prev(p, a, b));
    forall q: nat | q < |now|
      ensures now[q] == Exchanged(was, lo, lo + a, lo + a + b)[q]
    {
      ExchangedAt(was, lo, a, b, q);
      if lo <= q < lo + a + b {
        assert now[lo + (q - lo)] == was[lo + src[q - lo]];
      }
    }
  }

  /** Which element of the original vector the exchange puts at position q. */
  lemma ExchangedAt<T>(s: seq<T>, lo: nat, a: nat, b: nat, q: nat)
    requires lo + a + b <= |s| && q < |s|
    ensures Exchanged(s, lo, lo + a, lo + a + b)[q] ==
            s[if lo <= q < lo + a + b then lo + Prev(q - lo, a, b) else q]
  {
  }

  /**
   * Exchanges argv[lo..mid] with argv[mid..hi], keeping the order inside each block.
   * The second block must not be empty.
   */
  method PermuteArgs<T>(argv: array<T>, lo: nat, mid: nat, hi: nat)
    requires lo <= mid < hi <= argv.Length
    modifies argv
    ensures argv[..] == Exchanged(old(argv[..]), lo, mid, hi)
  {
    var nnonopts := mid - lo;
    var nopts := hi - mid;
    var ncycle, cyclelen := PlanCycles(nnonopts, nopts);
    Start(argv[..], lo, hi - lo);
    var i := 0;
    while i < ncycle
      invariant 0 <= i <= ncycle
      invariant i < ncycle ==> Underway(old(argv[..]), argv[..], lo, nnonopts, nopts, cyclelen, i, 0)
      invariant i == ncycle ==> Underway(old(argv[..]), argv[..], lo, nnonopts, nopts, cyclelen, i - 1, cyclelen)
    {
      PermuteCycle(argv, lo, mid, hi, cyclelen, i, old(argv[..]));
      assert i + 1 < ncycle ==> Continues(nnonopts, nopts, cyclelen, i);
      i := i + 1;
    }
    Finish(old(argv[..]), argv[..], lo, nnonopts, nopts);
  }

  /** The inner loop of permute_args: carry every element of cycle i through the cycle's start. */
  method PermuteCycle<T>(argv: array<T>, lo: nat, mid: nat, hi: nat, cyclelen: nat, i: nat,
                         ghost was: seq<T>)
    requires lo <= mid < hi <= argv.Length
    requires GoodCycle(mid - lo, hi - mid, cyclelen, i)
    requires Underway(was, argv[..], lo, mid - lo, hi - mid, cyclelen, i, 0)
    modifies argv
    ensures Underway(was, argv[..], lo, mid - lo, hi - mid, cyclelen, i, cyclelen)
  {
    var nnonopts, nopts := mid - lo, hi - mid;
    var cstart := mid + i;
    var pos := cstart;
    ghost var now := argv[..];
    for j := 0 to cyclelen
      invariant now == argv[..]
      invariant lo <= pos < hi && pos - lo == Walk(nnonopts, nopts, i, j)
      invariant Underway(was, now, lo, nnonopts, nopts, cyclelen, i, j)
    {
      SwapStep(was, now, lo, nnonopts, nopts, cyclelen, i, j);
      if pos >= mid {
        pos := pos - nnonopts;
      } else {
        pos := pos + nopts;
      }
      Swap(argv, pos, cstart);
      now := now[pos := now[cstart]][cstart := now[pos]];
    }
  }

  method Swap<T>(argv: array<T>, x: nat, y: nat)
    requires x < argv.Length && y < argv.Length
    modifies argv
    ensures argv[..] == old(argv[..])[x := old(argv[..])[y]][y := old(argv[..])[x]]
  {
    var swap := argv[x];
    argv[x] := argv[y];
    argv[y] := swap;
  }

  /** The number of cycles and their length, as permute_args computes them. */
  method CycleShape(nnonopts: nat, nopts: nat) returns (ncycle: nat, cyclelen: nat)
    requires nopts > 0
    ensures Partitioned(nnonopts, nopts, ncycle, cyclelen)
  {
    var g, x, y := Gcd(nnonopts, nopts);
    ghost var cy := MakeCycles(nnonopts, nopts, g, x, y);
    ncycle := g;
    cyclelen := (nnonopts + nopts) / g;
    CyclesPartition(cy);
  }

  method PlanCycles(nnonopts: nat, nopts: nat) returns (ncycle: nat, cyclelen: nat)
    requires nopts > 0
    ensures GoodPlan(nnonopts, nopts, ncycle, cyclelen)
  {
    ncycle, cyclelen := CycleShape(nnonopts, nopts);
    PlanIsGood(nnonopts, nopts, ncycle, cyclelen);
  }
}
