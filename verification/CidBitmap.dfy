/**
 * The per-queue command id bitmap under concurrency: every load of a byte and every compare-and-swap is one
 * atomic step, and any number of threads interleave allocations, explicit allocations and frees.
 */
module CidBitmap {
  import opened Bits

  /** Where a thread stands. `i` is a byte index, `c` a command id, `seen` the byte it loaded. */
  datatype Pc =
    | Idle
    | AtTop(i: nat)
    | TopSwap(i: nat, seen: bv8)
    | AtByte(i: nat)
    | ByteSwap(i: nat, seen: bv8)
    | SetTop(i: nat)
    | Pick(c: nat)
    | PickSwap(c: nat, seen: bv8)
    | Drop(c: nat)
    | DropSwap(c: nat, seen: bv8)

  /** `held` are the ids handed out and not yet given back; an id leaves it with the free's successful swap. */
  datatype System = System(bits: seq<bv8>, size: nat, top: nat, threads: map<nat, Pc>, held: multiset<nat>) {
    function At(p: nat): Pc {
      if p in threads then threads[p] else Idle
    }
  }

  datatype Action = StartAlloc(p: nat) | StartPick(p: nat, c: nat) | StartFree(p: nat, c: nat) | Go(p: nat)

  function Move(s: System, p: nat, at: Pc): System {
    s.(threads := s.threads[p := at])
  }

  /** The thread's swap succeeds exactly when the byte still is what it loaded. */
  predicate Swaps(s: System, i: nat, seen: bv8) {
    i < |s.bits| && s.bits[i] == seen
  }

  function Grant(s: System, i: nat, j: nat): System
    requires i < |s.bits| && j < 8
  {
    s.(bits := s.bits[i := WithBit(s.bits[i], j)], held := s.held + multiset{i * 8 + j})
  }

  /** Is some thread giving back c? */
  predicate BeingFreed(s: System, c: nat) {
    exists p :: p in s.threads && (s.threads[p].Drop? || s.threads[p].DropSwap?) && s.threads[p].c == c
  }

  /** The next atomic step of a thread inside an operation. */
  function Go1(s: System, p: nat): System {
    match s.At(p)
    case Idle => s
    case AtTop(i) =>
      if i >= |s.bits| then s
      else if s.bits[i] == 0xFF then Move(s, p, AtByte(0))
      else Move(s, p, TopSwap(i, s.bits[i]))
    case TopSwap(i, seen) =>
      var j := FirstZero(seen, 0);
      if Swaps(s, i, seen) && j < 8 then Move(Grant(s, i, j), p, Idle) else Move(s, p, AtTop(i))
    case AtByte(i) =>
      if i >= |s.bits| then Move(s, p, Idle)
      else if s.bits[i] == 0xFF then Move(s, p, AtByte(i + 1))
      else Move(s, p, ByteSwap(i, s.bits[i]))
    case ByteSwap(i, seen) =>
      var j := FirstZero(seen, 0);
      if Swaps(s, i, seen) && j < 8 then Move(Grant(s, i, j), p, SetTop(i)) else Move(s, p, AtByte(i + 1))
    case SetTop(i) => Move(s.(top := i), p, Idle)
    case Pick(c) =>
      if c / 8 >= |s.bits| then s
      else if Bit(s.bits[c / 8], c % 8) then Move(s, p, Idle)
      else Move(s, p, PickSwap(c, s.bits[c / 8]))
    case PickSwap(c, seen) =>
      if Swaps(s, c / 8, seen) then Move(Grant(s, c / 8, c % 8), p, Idle) else Move(s, p, Pick(c))
    case Drop(c) =>
      if c / 8 >= |s.bits| then s else Move(s, p, DropSwap(c, s.bits[c / 8]))
    case DropSwap(c, seen) =>
      if Swaps(s, c / 8, seen) then
        Move(s.(bits := s.bits[c / 8 := WithoutBit(seen, c % 8)], held := s.held - multiset{c}), p, Idle)
      else Move(s, p, Drop(c))
  }

  /**
   * Starting an operation loads `top`, or checks the id against the size. A caller frees only an id that it
   * was given, and frees it once: reference counting sees to that.
   */
  function Step(s: System, a: Action): System {
    match a
    case StartAlloc(p) => if s.At(p) == Idle then Move(s, p, AtTop(s.top)) else s
    case StartPick(p, c) => if s.At(p) == Idle && c < s.size then Move(s, p, Pick(c)) else s
    case StartFree(p, c) =>
      if s.At(p) == Idle && c in s.held && !BeingFreed(s, c) then Move(s, p, Drop(c)) else s
    case Go(p) => Go1(s, p)
  }

  function Run(s: System, actions: seq<Action>): System
    decreases |actions|
  {
    if actions == [] then s else Run(Step(s, actions[0]), actions[1..])
  }

  /** What unvmed_cid_init leaves: padding bits of the last byte set, everything else clear. */
  ghost predicate Initial(s: System) {
    && s.size >= 1 && |s.bits| == (s.size + 7) / 8
    && s.top == 0 && s.threads == map[] && s.held == multiset{}
    && (forall i :: 0 <= i < |s.bits| ==>
          s.bits[i] == if i == |s.bits| - 1 && s.size % 8 != 0 then High(s.size % 8) else 0)
  }

  // ----- the invariant -----

  /** A bit is set exactly if its id is held or is padding. */
  ghost predicate BitsOk(s: System) {
    && s.size >= 1 && |s.bits| == (s.size + 7) / 8
    && (forall c: nat :: c / 8 < |s.bits| ==> (Has(s.bits, c) <==> s.size <= c || c in s.held))
    && (forall c :: c in s.held ==> 0 <= c < s.size && s.held[c] == 1)
  }

  /** A thread's indices are in range; a thread that gives back an id does so alone and the id is still held. */
  ghost predicate ThreadOk(s: System, p: nat) {
    match s.At(p)
    case Idle => true
    case AtTop(i) => i < |s.bits|
    case TopSwap(i, seen) => i < |s.bits|
    case AtByte(i) => true
    case ByteSwap(i, seen) => i < |s.bits|
    case SetTop(i) => i < |s.bits|
    case Pick(c) => c < s.size
    case PickSwap(c, seen) => c < s.size && !Bit(seen, c % 8)
    case Drop(c) => c in s.held
    case DropSwap(c, seen) => c in s.held
  }

  predicate Frees(s: System, p: nat, c: nat) {
    (s.At(p).Drop? || s.At(p).DropSwap?) && s.At(p).c == c
  }

  ghost predicate Inv(s: System) {
    && BitsOk(s) && s.top < |s.bits|
    && (forall p: nat :: ThreadOk(s, p))
    && (forall p: nat, q: nat, c: nat :: Frees(s, p, c) && Frees(s, q, c) ==> p == q)
  }

  lemma InitialInv(s: System)
    requires Initial(s)
    ensures Inv(s)
  {
    forall c: nat | c / 8 < |s.bits|
      ensures Has(s.bits, c) <==> s.size <= c
    {
      if c / 8 == |s.bits| - 1 && s.size % 8 != 0 {
        HighBits(s.size % 8, c % 8);
      }
    }
  }

  /** A swap hands out an id nobody holds, below the size, and changes no other bit. */
  lemma GrantIsFresh(s: System, i: nat, j: nat)
    requires BitsOk(s) && i < |s.bits| && j < 8 && !Bit(s.bits[i], j)
    ensures var c, t := i * 8 + j, Grant(s, i, j);
            && c < s.size && c !in s.held && BitsOk(t) && t.held == s.held + multiset{c}
            && (forall k: nat :: k / 8 < |s.bits| && k != c ==> (Has(t.bits, k) <==> Has(s.bits, k)))
  {
    var c, t := i * 8 + j, Grant(s, i, j);
    assert c / 8 == i && c % 8 == j;
    assert !Has(s.bits, c);
    forall k: nat | k / 8 < |s.bits|
      ensures Has(t.bits, k) <==> Has(s.bits, k) || k == c
    {
      SetOne(s.bits, i, j, k);
    }
  }

  /** Giving back an id clears its bit and changes no other. */
  lemma FreeIsExact(s: System, p: nat, c: nat, seen: bv8)
    requires Inv(s) && s.At(p) == DropSwap(c, seen) && Swaps(s, c / 8, seen)
    ensures var t := Go1(s, p);
            && BitsOk(t) && t.held == s.held - multiset{c} && c !in t.held
            && (forall k: nat :: k / 8 < |s.bits| && k != c ==> (Has(t.bits, k) <==> Has(s.bits, k)))
  {
    assert ThreadOk(s, p);
    var t := Go1(s, p);
    forall k: nat | k / 8 < |s.bits|
      ensures Has(t.bits, k) <==> Has(s.bits, k) && k != c
    {
      ClearOne(s.bits, c / 8, c % 8, k);
    }
  }

  /** One step of one thread leaves every other thread's position valid. */
  lemma OthersOk(s: System, t: System, p: nat)
    requires Inv(s) && BitsOk(t) && t.size == s.size && |t.bits| == |s.bits| && t.top < |t.bits|
    requires t.threads == s.threads[p := t.At(p)] && ThreadOk(t, p)
    requires forall c :: c in s.held && !Frees(s, p, c) ==> c in t.held
    requires forall c: nat :: Frees(t, p, c) ==> Frees(s, p, c)
    ensures Inv(t)
  {
    forall q: nat ensures ThreadOk(t, q) {
      assert ThreadOk(s, q);
      if q != p && (s.At(q).Drop? || s.At(q).DropSwap?) {
        assert Frees(s, q, s.At(q).c) && !Frees(s, p, s.At(q).c);
      }
    }
    forall q: nat, r: nat, c: nat | Frees(t, q, c) && Frees(t, r, c) ensures q == r {
      assert Frees(s, q, c) && Frees(s, r, c);
    }
  }

  lemma PickKeeps(s: System, p: nat, c: nat, seen: bv8)
    requires Inv(s) && s.At(p) == PickSwap(c, seen)
    ensures Inv(Go1(s, p))
  {
    assert ThreadOk(s, p);
    if Swaps(s, c / 8, seen) {
      GrantIsFresh(s, c / 8, c % 8);
    }
    OthersOk(s, Go1(s, p), p);
  }

  lemma DropKeeps(s: System, p: nat, c: nat, seen: bv8)
    requires Inv(s) && s.At(p) == DropSwap(c, seen)
    ensures Inv(Go1(s, p))
  {
    assert ThreadOk(s, p) && Frees(s, p, c);
    if Swaps(s, c / 8, seen) {
      FreeIsExact(s, p, c, seen);
    }
    OthersOk(s, Go1(s, p), p);
  }

  /** Steps that only load a byte, or store the hint. */
  lemma LoadKeeps(s: System, p: nat)
    requires Inv(s)
    requires s.At(p).AtTop? || s.At(p).AtByte? || s.At(p).SetTop? || s.At(p).Pick? || s.At(p).Drop?
    ensures Inv(Go1(s, p))
  {
    assert ThreadOk(s, p);
    OthersOk(s, Go1(s, p), p);
  }

  lemma GoKeeps(s: System, p: nat)
    requires Inv(s)
    ensures Inv(Go1(s, p))
  {
    match s.At(p)
    case Idle =>
    case TopSwap(i, seen) => SwapKeeps(s, p, i, seen);
    case ByteSwap(i, seen) => SwapKeeps(s, p, i, seen);
    case PickSwap(c, seen) => PickKeeps(s, p, c, seen);
    case DropSwap(c, seen) => DropKeeps(s, p, c, seen);
    case _ => LoadKeeps(s, p);
  }

  lemma SwapKeeps(s: System, p: nat, i: nat, seen: bv8)
    requires Inv(s) && (s.At(p) == TopSwap(i, seen) || s.At(p) == ByteSwap(i, seen))
    ensures Inv(Go1(s, p))
  {
    assert ThreadOk(s, p);
    var j := FirstZero(seen, 0);
    if Swaps(s, i, seen) && j < 8 {
      GrantIsFresh(s, i, j);
    }
    OthersOk(s, Go1(s, p), p);
  }

  lemma StepKeeps(s: System, a: Action)
    requires Inv(s)
    ensures Inv(Step(s, a))
  {
    match a
    case Go(p) => GoKeeps(s, p);
    case StartFree(p, c) => StartFreeKeeps(s, p, c);
    case _ =>
      if Step(s, a) != s {
        OthersOk(s, Step(s, a), a.p);
      }
  }

  lemma StartFreeKeeps(s: System, p: nat, c: nat)
    requires Inv(s)
    ensures Inv(Step(s, StartFree(p, c)))
  {
    var t := Step(s, StartFree(p, c));
    forall q: nat ensures ThreadOk(t, q) {
      assert ThreadOk(s, q);
    }
    forall q: nat, r: nat, d: nat | Frees(t, q, d) && Frees(t, r, d) ensures q == r {
      assert q != p ==> Frees(s, q, d);
      assert r != p ==> Frees(s, r, d);
    }
  }

  lemma {:induction false} RunKeeps(s: System, actions: seq<Action>)
    requires Inv(s)
    ensures Inv(Run(s, actions))
    decreases |actions|
  {
    if actions != [] {
      StepKeeps(s, actions[0]);
      RunKeeps(Step(s, actions[0]), actions[1..]);
    }
  }

  /**
   * In every state any interleaving reaches: no id is held twice, every id held is below the size, and the
   * padding bits are still set; a bit is set exactly for the ids held and the padding.
   */
  lemma EveryRunHoldsEachIdOnce(s: System, actions: seq<Action>, c: nat)
    requires Initial(s)
    ensures var r := Run(s, actions);
            && r.held[c] <= 1
            && (c in r.held ==> c < r.size)
            && (c / 8 < |r.bits| ==> (Has(r.bits, c) <==> r.size <= c || c in r.held))
  {
    InitialInv(s);
    RunKeeps(s, actions);
  }

  // ----- how operations end -----

  /** The thread's operation takes id c in this step. */
  predicate Takes(s: System, a: Action, p: nat, c: nat) {
    a == Go(p) && Step(s, a).held == s.held + multiset{c}
  }

  /** The thread's operation gives back id c in this step, and is over. */
  predicate GivesBack(s: System, a: Action, p: nat, c: nat) {
    a == Go(p) && Step(s, a).held == s.held - multiset{c} && Step(s, a).At(p) == Idle
  }

  ghost predicate TakesIn(s: System, actions: seq<Action>, p: nat, c: nat)
    decreases |actions|
  {
    actions != [] && (Takes(s, actions[0], p, c) || TakesIn(Step(s, actions[0]), actions[1..], p, c))
  }

  ghost predicate GivesBackIn(s: System, actions: seq<Action>, p: nat, c: nat)
    decreases |actions|
  {
    actions != [] && (GivesBack(s, actions[0], p, c) || GivesBackIn(Step(s, actions[0]), actions[1..], p, c))
  }

  /** Nobody holds c before any of the steps. */
  ghost predicate StaysFree(s: System, actions: seq<Action>, c: nat)
    decreases |actions|
  {
    actions != [] ==> c !in s.held && StaysFree(Step(s, actions[0]), actions[1..], c)
  }

  predicate Picks(s: System, p: nat, c: nat) {
    (s.At(p).Pick? || s.At(p).PickSwap?) && s.At(p).c == c
  }

  lemma GoMovesOne(s: System, q: nat, p: nat)
    requires q != p
    ensures Go1(s, q).At(p) == s.At(p)
  {
    match s.At(q)
    case TopSwap(i, seen) => SwapMovesOne(s, q, p, i, seen);
    case ByteSwap(i, seen) => SwapMovesOne(s, q, p, i, seen);
    case _ =>
  }

  lemma SwapMovesOne(s: System, q: nat, p: nat, i: nat, seen: bv8)
    requires q != p && (s.At(q) == TopSwap(i, seen) || s.At(q) == ByteSwap(i, seen))
    ensures Go1(s, q).At(p) == s.At(p)
  {
  }

  /** Only its own steps move a thread that is inside an operation. */
  lemma OthersStay(s: System, a: Action, p: nat)
    requires s.At(p) != Idle && a != Go(p)
    ensures Step(s, a).At(p) == s.At(p)
  {
    if a.Go? {
      GoMovesOne(s, a.p, p);
    }
  }

  lemma PickGo(s: System, p: nat, c: nat)
    requires Inv(s) && Picks(s, p, c) && c !in s.held
    ensures Picks(Go1(s, p), p, c) || Go1(s, p).held == s.held + multiset{c}
  {
    assert ThreadOk(s, p);
    assert Has(s.bits, c) <==> s.size <= c || c in s.held;
    assert c / 8 * 8 + c % 8 == c;
  }

  lemma PickStep(s: System, a: Action, p: nat, c: nat)
    requires Inv(s) && Picks(s, p, c) && c !in s.held
    ensures Picks(Step(s, a), p, c) || Takes(s, a, p, c)
  {
    if a == Go(p) {
      PickGo(s, p, c);
    } else {
      OthersStay(s, a, p);
    }
  }

  /** An explicit allocation is refused only if the id was held at some time; a lost swap is tried again. */
  lemma {:induction false} PickOfFreeTakes(s: System, actions: seq<Action>, p: nat, c: nat)
    requires Inv(s) && Picks(s, p, c) && StaysFree(s, actions, c)
    ensures Picks(Run(s, actions), p, c) || TakesIn(s, actions, p, c)
    decreases |actions|
  {
    if actions != [] {
      PickStep(s, actions[0], p, c);
      StepKeeps(s, actions[0]);
      if Picks(Step(s, actions[0]), p, c) {
        PickOfFreeTakes(Step(s, actions[0]), actions[1..], p, c);
      }
    }
  }

  lemma FreeGo(s: System, p: nat, c: nat)
    requires Frees(s, p, c)
    ensures Frees(Go1(s, p), p, c) || (Go1(s, p).held == s.held - multiset{c} && Go1(s, p).At(p) == Idle)
  {
  }

  lemma FreeStep(s: System, a: Action, p: nat, c: nat)
    requires Frees(s, p, c)
    ensures Frees(Step(s, a), p, c) || GivesBack(s, a, p, c)
  {
    if a == Go(p) {
      FreeGo(s, p, c);
    } else {
      OthersStay(s, a, p);
    }
  }

  /** A free ends only by giving the id back. */
  lemma {:induction false} FreeGivesBack(s: System, actions: seq<Action>, p: nat, c: nat)
    requires Frees(s, p, c)
    ensures Frees(Run(s, actions), p, c) || GivesBackIn(s, actions, p, c)
    decreases |actions|
  {
    if actions != [] {
      FreeStep(s, actions[0], p, c);
      if Frees(Step(s, actions[0]), p, c) {
        FreeGivesBack(Step(s, actions[0]), actions[1..], p, c);
      }
    }
  }

  /** Byte i holds `b` before any of the steps. */
  ghost predicate Quiet(s: System, actions: seq<Action>, i: nat, b: bv8)
    decreases |actions|
  {
    actions != [] ==> i < |s.bits| && s.bits[i] == b && Quiet(Step(s, actions[0]), actions[1..], i, b)
  }

  /** An allocation that has yet to look at byte i, or has seen it as it is. */
  predicate Before(s: System, p: nat, i: nat, b: bv8) {
    match s.At(p)
    case AtTop(_) => true
    case TopSwap(_, _) => true
    case AtByte(k) => k <= i
    case ByteSwap(k, seen) => k < i || (k == i && seen == b)
    case _ => false
  }

  /** The thread's operation takes some id in this step. */
  ghost predicate TakesAny(s: System, a: Action, p: nat) {
    exists c :: Takes(s, a, p, c)
  }

  ghost predicate TakesAnyIn(s: System, actions: seq<Action>, p: nat)
    decreases |actions|
  {
    actions != [] && (TakesAny(s, actions[0], p) || TakesAnyIn(Step(s, actions[0]), actions[1..], p))
  }

  lemma BeforeGo(s: System, p: nat, i: nat, b: bv8)
    requires Before(s, p, i, b) && i < |s.bits| && s.bits[i] == b && b != 0xFF
    ensures Before(Go1(s, p), p, i, b) || TakesAny(s, Go(p), p)
  {
    if s.At(p).TopSwap? || s.At(p).ByteSwap? {
      var k, j := s.At(p).i, FirstZero(s.At(p).seen, 0);
      AllSet(b);
      if Swaps(s, k, s.At(p).seen) && j < 8 {
        assert Takes(s, Go(p), p, k * 8 + j);
      }
    }
  }

  lemma BeforeStep(s: System, a: Action, p: nat, i: nat, b: bv8)
    requires Before(s, p, i, b) && i < |s.bits| && s.bits[i] == b && b != 0xFF
    ensures Before(Step(s, a), p, i, b) || TakesAny(s, a, p)
  {
    if a == Go(p) {
      BeforeGo(s, p, i, b);
    } else {
      OthersStay(s, a, p);
    }
  }

  /** An allocation fails only if every byte with a free bit was changed by others while it ran. */
  lemma {:induction false} AllocFindsQuietByte(s: System, actions: seq<Action>, p: nat, i: nat, b: bv8)
    requires Before(s, p, i, b) && b != 0xFF && Quiet(s, actions, i, b)
    ensures Before(Run(s, actions), p, i, b) || TakesAnyIn(s, actions, p)
    decreases |actions|
  {
    if actions != [] {
      BeforeStep(s, actions[0], p, i, b);
      if Before(Step(s, actions[0]), p, i, b) {
        AllocFindsQuietByte(Step(s, actions[0]), actions[1..], p, i, b);
      }
    }
  }

  /** The allocation is at the byte that the hint named. */
  predicate AtHint(s: System, p: nat, i: nat) {
    (s.At(p).AtTop? || s.At(p).TopSwap?) && s.At(p).i == i
  }

  /** Byte i has a free bit before each of the steps. */
  ghost predicate NeverFull(s: System, actions: seq<Action>, i: nat)
    decreases |actions|
  {
    actions != [] ==> i < |s.bits| && s.bits[i] != 0xFF && NeverFull(Step(s, actions[0]), actions[1..], i)
  }

  lemma AtHintStep(s: System, a: Action, p: nat, i: nat)
    requires AtHint(s, p, i) && i < |s.bits| && s.bits[i] != 0xFF
    ensures AtHint(Step(s, a), p, i) || TakesAny(s, a, p)
  {
    if a != Go(p) {
      OthersStay(s, a, p);
    } else if s.At(p).TopSwap? && Swaps(s, i, s.At(p).seen) {
      AllSet(s.bits[i]);
      assert Takes(s, a, p, i * 8 + FirstZero(s.bits[i], 0));
    }
  }

  /** At the hinted byte a lost swap is tried again, until the byte is full or the allocation has its id. */
  lemma {:induction false} AllocStaysAtHint(s: System, actions: seq<Action>, p: nat, i: nat)
    requires AtHint(s, p, i) && NeverFull(s, actions, i)
    ensures AtHint(Run(s, actions), p, i) || TakesAnyIn(s, actions, p)
    decreases |actions|
  {
    if actions != [] {
      AtHintStep(s, actions[0], p, i);
      if AtHint(Step(s, actions[0]), p, i) {
        AllocStaysAtHint(Step(s, actions[0]), actions[1..], p, i);
      }
    }
  }

  /** An id that is not from the hinted byte leaves the hint at its own. */
  lemma HintFollows(s: System, p: nat, i: nat, seen: bv8, c: nat)
    requires s.At(p) == ByteSwap(i, seen) && Takes(s, Go(p), p, c)
    ensures var r := Step(Step(s, Go(p)), Go(p)); r.At(p) == Idle && r.top == c / 8
  {
    var j := FirstZero(seen, 0);
    assert Swaps(s, i, seen) && j < 8 by {
      assert (s.held + multiset{c})[c] == s.held[c] + 1;
    }
    assert (s.held + multiset{i * 8 + j})[c] == (s.held + multiset{c})[c];
    assert c == i * 8 + j;
  }
}
