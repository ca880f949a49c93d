/**
 * The virtual completion queue: a ring that many threads push to under a spin lock and one thread pops
 * from without a lock. Each load, slot access, store and lock operation is one atomic step, and any
 * number of threads interleave their steps in any order.
 */
module VcqRing {

  import opened Arithmetic
  import opened Options

  /** Where a pushing thread stands in __unvmed_vcq_push; `v` is its entry, `t` its copy of the tail. */
  datatype Push<V> =
    | Outside
    | Locked(v: V)
    | TailLoaded(v: V, t: nat)
    | RoomSeen(v: V, t: nat)
    | SlotWritten(v: V, t: nat)
    | Leaving

  /** Where the popping thread stands in unvmed_vcq_pop; `h` is its copy of the head. */
  datatype Pop<V> =
    | Resting
    | HeadLoaded(h: nat)
    | EntrySeen(h: nat)
    | SlotRead(h: nat, v: V)

  /** `pushed` lists the entries in the order their tails were published, `popped` those taken out. */
  datatype Ring<V> = Ring(qsize: nat, slots: seq<V>, head: nat, tail: nat, lock: Option<nat>,
                          producers: map<nat, Push<V>>, consumer: Pop<V>,
                          pushed: seq<V>, popped: seq<V>)
  {
    function At(p: nat): Push<V> {
      if p in producers then producers[p] else Outside
    }
  }

  datatype Action<V> =
    | Lock(p: nat, v: V) | LoadTail(p: nat) | CheckRoom(p: nat) | WriteSlot(p: nat) | Publish(p: nat) | Unlock(p: nat)
    | LoadHead | CheckEntry | ReadSlot | Release

  /** The counters are 16 bits wide. */
  const COUNTER_RANGE := 0x1_0000

  function Successor(i: nat, qsize: nat): nat
    requires qsize > 0
  {
    ((i + 1) % qsize) % COUNTER_RANGE
  }

  /** One atomic step; an action whose thread is not at that point leaves everything as it is. */
  function Step<V>(s: Ring<V>, a: Action<V>): Ring<V>
    requires s.qsize == |s.slots| > 0
  {
    match a
    case Lock(p, v) =>
      if s.At(p).Outside? && s.lock.None? then Move(s.(lock := Some(p)), p, Locked(v)) else s
    case LoadTail(p) =>
      if s.At(p).Locked? then Move(s, p, TailLoaded(s.At(p).v, s.tail)) else s
    case CheckRoom(p) =>
      if !s.At(p).TailLoaded? then s
      else if (s.At(p).t + 1) % s.qsize == s.head then Move(s, p, Leaving)
      else Move(s, p, RoomSeen(s.At(p).v, s.At(p).t))
    case WriteSlot(p) =>
      if s.At(p).RoomSeen? && s.At(p).t < |s.slots| then
        Move(s.(slots := s.slots[s.At(p).t := s.At(p).v]), p, SlotWritten(s.At(p).v, s.At(p).t))
      else s
    case Publish(p) =>
      if s.At(p).SlotWritten? then
        Move(s.(tail := Successor(s.At(p).t, s.qsize), pushed := s.pushed + [s.At(p).v]), p, Leaving)
      else s
    case Unlock(p) =>
      if s.At(p).Leaving? then Move(s.(lock := None), p, Outside) else s
    case LoadHead =>
      if s.consumer.Resting? then s.(consumer := HeadLoaded(s.head)) else s
    case CheckEntry =>
      if !s.consumer.HeadLoaded? then s
      else if s.consumer.h == s.tail then s.(consumer := Resting)
      else s.(consumer := EntrySeen(s.consumer.h))
    case ReadSlot =>
      if s.consumer.EntrySeen? && s.consumer.h < |s.slots| then
        s.(consumer := SlotRead(s.consumer.h, s.slots[s.consumer.h]))
      else s
    case Release =>
      if s.consumer.SlotRead? then
        s.(consumer := Resting, head := Successor(s.consumer.h, s.qsize), popped := s.popped + [s.consumer.v])
      else s
  }

  function Move<V>(s: Ring<V>, p: nat, at: Push<V>): Ring<V> {
    s.(producers := s.producers[p := at])
  }

  function Run<V>(s: Ring<V>, actions: seq<Action<V>>): (r: Ring<V>)
    requires s.qsize == |s.slots| > 0
    ensures r.qsize == |r.slots| == s.qsize
    decreases |actions|
  {
    if actions == [] then s else
      var t := Step(s, actions[0]);
      assert |t.slots| == |s.slots|;
      Run(t, actions[1..])
  }

  /** What unvmed_vcq_init leaves behind. The slots hold whatever the allocation did. */
  ghost predicate Initial<V>(s: Ring<V>) {
    && 0 < s.qsize == |s.slots| && s.qsize <= COUNTER_RANGE
    && s.head == 0 && s.tail == 0 && s.lock == None && s.producers == map[] && s.consumer == Resting
    && s.pushed == [] && s.popped == []
  }

  // ----- the invariant -----

  /** The entries in the ring, oldest first. */
  function Held<V>(s: Ring<V>): seq<V>
    requires |s.popped| <= |s.pushed|
  {
    s.pushed[|s.popped|..]
  }

  /** The ring's slots and counters against the history of pushes and pops. */
  ghost predicate Storage<V>(s: Ring<V>) {
    && 0 < s.qsize == |s.slots| && s.qsize <= COUNTER_RANGE
    && |s.popped| <= |s.pushed| < |s.popped| + s.qsize
    && s.popped == s.pushed[..|s.popped|]
    && s.head == |s.popped| % s.qsize
    && s.tail == |s.pushed| % s.qsize
    && (forall k :: |s.popped| <= k < |s.pushed| ==> s.slots[k % s.qsize] == s.pushed[k])
  }

  /** A pushing thread's copies are right, and it holds the lock. */
  ghost predicate ProducerOk<V>(s: Ring<V>, p: nat)
    requires s.qsize == |s.slots|
  {
    && (!s.At(p).Outside? ==> s.lock == Some(p))
    && (match s.At(p)
        case TailLoaded(_, t) => t == s.tail
        case RoomSeen(_, t) => t == s.tail && |s.pushed| + 1 < |s.popped| + s.qsize
        case SlotWritten(v, t) => t == s.tail < |s.slots| && |s.pushed| + 1 < |s.popped| + s.qsize && s.slots[t] == v
        case _ => true)
  }

  ghost predicate ConsumerOk<V>(s: Ring<V>) {
    match s.consumer
    case Resting => true
    case HeadLoaded(h) => h == s.head
    case EntrySeen(h) => h == s.head && |s.popped| < |s.pushed|
    case SlotRead(h, v) => h == s.head && |s.popped| < |s.pushed| && v == s.pushed[|s.popped|]
  }

  ghost predicate Inv<V>(s: Ring<V>) {
    && Storage(s)
    && ConsumerOk(s)
    && (forall p: nat :: ProducerOk(s, p))
  }

  // ----- steps keep the invariant -----

  /** Stepping an index is counting on. */
  lemma SuccessorCounts(k: nat, n: nat)
    requires 0 < n <= COUNTER_RANGE
    ensures (k % n + 1) % n == (k + 1) % n == Successor(k % n, n)
  {
    ModSuccessor(k, n);
    ModWithin((k + 1) % n, COUNTER_RANGE);
  }

  /** The test for a full ring is exact: one slot always stays free. */
  lemma FullIsExact<V>(s: Ring<V>)
    requires Storage(s)
    ensures (s.tail + 1) % s.qsize == s.head <==> |Held(s)| == s.qsize - 1
  {
    var i, j := |s.popped|, |s.pushed| + 1;
    SuccessorCounts(|s.pushed|, s.qsize);
    if j < i + s.qsize {
      ModDistinct(i, j, s.qsize);
    } else {
      ModShift(i, s.qsize, 1);
    }
  }

  /** So is the test for an empty one. */
  lemma EmptyIsExact<V>(s: Ring<V>)
    requires Storage(s)
    ensures s.head == s.tail <==> Held(s) == []
  {
    if |s.popped| < |s.pushed| {
      ModDistinct(|s.popped|, |s.pushed|, s.qsize);
    }
  }

  /** The slot at the tail holds no entry, whatever the consumer is about to read. */
  lemma TailSlotIsFree<V>(s: Ring<V>, k: nat)
    requires Storage(s) && |s.popped| <= k < |s.pushed|
    ensures k % s.qsize != s.tail
  {
    ModDistinct(k, |s.pushed|, s.qsize);
  }

  lemma WriteKeeps<V>(s: Ring<V>, p: nat)
    requires Inv(s) && s.At(p).RoomSeen?
    ensures Inv(Step(s, WriteSlot(p)))
  {
    var t := Step(s, WriteSlot(p));
    assert ProducerOk(s, p);
    forall k | |t.popped| <= k < |t.pushed|
      ensures t.slots[k % t.qsize] == t.pushed[k]
    {
      TailSlotIsFree(s, k);
    }
    forall q: nat ensures ProducerOk(t, q) {
      assert ProducerOk(s, q);
    }
  }

  lemma PublishKeeps<V>(s: Ring<V>, p: nat)
    requires Inv(s) && s.At(p).SlotWritten?
    ensures Inv(Step(s, Publish(p)))
  {
    assert ProducerOk(s, p);
    var t := Step(s, Publish(p));
    SuccessorCounts(|s.pushed|, s.qsize);
    forall q: nat ensures ProducerOk(t, q) {
      assert ProducerOk(s, q);
    }
  }

  lemma ReleaseKeeps<V>(s: Ring<V>)
    requires Inv(s) && s.consumer.SlotRead?
    ensures Inv(Step(s, Release))
  {
    var t := Step(s, Release);
    SuccessorCounts(|s.popped|, s.qsize);
    forall q: nat ensures ProducerOk(t, q) {
      assert ProducerOk(s, q);
    }
  }

  /** Steps that move one pushing thread and touch neither slots nor counters. */
  lemma PushMoveKeeps<V>(s: Ring<V>, a: Action<V>)
    requires Inv(s) && (a.Lock? || a.LoadTail? || a.CheckRoom? || a.Unlock?)
    ensures Inv(Step(s, a))
  {
    var t := Step(s, a);
    FullIsExact(s);
    forall q: nat ensures ProducerOk(t, q) {
      assert ProducerOk(s, q) && ProducerOk(s, a.p);
    }
  }

  lemma PopMoveKeeps<V>(s: Ring<V>, a: Action<V>)
    requires Inv(s) && (a.LoadHead? || a.CheckEntry? || a.ReadSlot?)
    ensures Inv(Step(s, a))
  {
    var t := Step(s, a);
    EmptyIsExact(s);
    forall q: nat ensures ProducerOk(t, q) {
      assert ProducerOk(s, q);
    }
  }

  lemma StepKeeps<V>(s: Ring<V>, a: Action<V>)
    requires Inv(s)
    ensures Inv(Step(s, a))
  {
    match a
    case WriteSlot(p) => if s.At(p).RoomSeen? { WriteKeeps(s, p); }
    case Publish(p) => if s.At(p).SlotWritten? { PublishKeeps(s, p); }
    case Release => if s.consumer.SlotRead? { ReleaseKeeps(s); }
    case LoadHead => PopMoveKeeps(s, a);
    case CheckEntry => PopMoveKeeps(s, a);
    case ReadSlot => PopMoveKeeps(s, a);
    case _ => PushMoveKeeps(s, a);
  }

  lemma {:induction false} RunKeeps<V>(s: Ring<V>, actions: seq<Action<V>>)
    requires Inv(s)
    ensures Inv(Run(s, actions))
    decreases |actions|
  {
    if actions != [] {
      StepKeeps(s, actions[0]);
      RunKeeps(Step(s, actions[0]), actions[1..]);
    }
  }

  // ----- what every interleaving guarantees -----

  /**
   * In every state that any interleaving reaches: what was popped followed by what is in the ring is what was
   * pushed, in order; the ring keeps one slot free; and its slots, read from the head, hold exactly those entries.
   */
  lemma EveryRunIsFifo<V>(s: Ring<V>, actions: seq<Action<V>>)
    requires Initial(s)
    ensures var r := Run(s, actions);
            && |r.popped| <= |r.pushed|
            && r.popped + Held(r) == r.pushed
            && |Held(r)| <= r.qsize - 1
            && (forall i :: 0 <= i < |Held(r)| ==> Held(r)[i] == r.slots[SlotOf(r, i)])
  {
    var r := Run(s, actions);
    RunKeeps(s, actions);
    forall i | 0 <= i < |Held(r)|
      ensures Held(r)[i] == r.slots[SlotOf(r, i)]
    {
      SlotCounts(r, i);
      var k := |r.popped| + i;
      assert r.slots[k % r.qsize] == r.pushed[k];
    }
  }

  /** The slot of the i-th entry from the head. */
  function SlotOf<V>(s: Ring<V>, i: nat): (k: nat)
    requires s.qsize > 0
    ensures k < s.qsize
  {
    (s.head + i) % s.qsize
  }

  lemma SlotCounts<V>(s: Ring<V>, i: nat)
    requires Storage(s)
    ensures SlotOf(s, i) == (|s.popped| + i) % s.qsize
  {
    var turns := |s.popped| / s.qsize;
    assert |s.popped| + i == (s.head + i) + s.qsize * turns;
    ModShift(s.head + i, s.qsize, turns);
  }

  /** A thread about to write a slot has the lock alone, and the slot is none that the consumer may read. */
  lemma EveryRunIsRaceFree<V>(s: Ring<V>, actions: seq<Action<V>>, p: nat, q: nat)
    requires Initial(s)
    ensures var r := Run(s, actions);
            && (!r.At(p).Outside? && !r.At(q).Outside? ==> p == q)
            && (r.At(p).RoomSeen? || r.At(p).SlotWritten? ==>
                  && r.At(p).t < r.qsize
                  && (forall i :: 0 <= i < |r.pushed| - |r.popped| ==> SlotOf(r, i) != r.At(p).t)
                  && (r.consumer.EntrySeen? ==> r.consumer.h != r.At(p).t))
  {
    var r := Run(s, actions);
    RunKeeps(s, actions);
    assert ProducerOk(r, p) && ProducerOk(r, q);
    forall i | 0 <= i < |r.pushed| - |r.popped|
      ensures SlotOf(r, i) != r.tail
    {
      SlotCounts(r, i);
      TailSlotIsFree(r, |r.popped| + i);
    }
    if r.consumer.EntrySeen? {
      TailSlotIsFree(r, |r.popped|);
    }
  }

  /** Seen from outside the ring is a queue: a step adds one entry behind, takes the first one, or does nothing. */
  lemma StepIsQueueStep<V>(s: Ring<V>, a: Action<V>)
    requires Inv(s)
    ensures Inv(Step(s, a))
    ensures var t := Step(s, a);
            if a.Publish? && s.At(a.p).SlotWritten? then Held(t) == Held(s) + [s.At(a.p).v] && t.popped == s.popped
            else if a.Release? && s.consumer.SlotRead? then
              Held(s) != [] && s.consumer.v == Held(s)[0] && Held(t) == Held(s)[1..] && t.pushed == s.pushed
            else t.pushed == s.pushed && t.popped == s.popped
  {
    StepKeeps(s, a);
  }

  /** A push gives up with EAGAIN, and a pop with ENOENT, exactly when the queue is full or empty at that instant. */
  lemma RefusalsAreExact<V>(s: Ring<V>, p: nat)
    requires Inv(s)
    ensures s.At(p).TailLoaded? ==> (Step(s, CheckRoom(p)).At(p).Leaving? <==> |Held(s)| == s.qsize - 1)
    ensures s.consumer.HeadLoaded? ==> (Step(s, CheckEntry).consumer.Resting? <==> Held(s) == [])
  {
    assert ProducerOk(s, p);
    FullIsExact(s);
    EmptyIsExact(s);
  }
}
