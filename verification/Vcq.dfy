/** The virtual completion queue's calls, each run to its end without interruption, on the ring they change in place. */
module Vcq {
  import opened Options
  import opened VcqRing

  /** A ring nobody is in the middle of using. */
  predicate Quiet<V>(s: Ring<V>) {
    s.lock == None && s.consumer == Resting && forall p :: p in s.producers ==> s.producers[p] == Outside
  }

  /** The atomic steps of one push by thread p, and of one pop. */
  function PushSteps<V>(p: nat, v: V): seq<Action<V>> {
    [Lock(p, v), LoadTail(p), CheckRoom(p), WriteSlot(p), Publish(p), Unlock(p)]
  }

  function PopSteps<V>(): seq<Action<V>> {
    [LoadHead, CheckEntry, ReadSlot, Release]
  }

  /** A push that found room, and a pop that found an entry, as one change of the ring. */
  function Put<V>(s: Ring<V>, v: V): Ring<V>
    requires s.tail < |s.slots| && s.qsize > 0
  {
    s.(slots := s.slots[s.tail := v], tail := Successor(s.tail, s.qsize), pushed := s.pushed + [v])
  }

  function Got<V>(s: Ring<V>): Ring<V>
    requires s.head < |s.slots| && s.qsize > 0
  {
    s.(head := Successor(s.head, s.qsize), popped := s.popped + [s.slots[s.head]])
  }

  lemma RunCons<V>(s: Ring<V>, a: Action<V>, rest: seq<Action<V>>)
    requires s.qsize == |s.slots| > 0
    ensures |Step(s, a).slots| == s.qsize == Step(s, a).qsize
    ensures Run(s, [a] + rest) == Run(Step(s, a), rest)
  {
    assert ([a] + rest)[1..] == rest;
  }

  /** What the steps of a push amount to when nobody else steps in between. */
  lemma PushAlone<V>(s: Ring<V>, p: nat, v: V)
    requires Inv(s) && Quiet(s)
    ensures var full := |Held(s)| == s.qsize - 1;
            Run(s, PushSteps(p, v)) == (if full then s else Put(s, v)).(producers := s.producers[p := Outside])
  {
    FullIsExact(s);
    var a := Step(s, Lock(p, v));
    assert PushSteps(p, v)
        == [Lock(p, v)] + ([LoadTail(p)] + ([CheckRoom(p)] + ([WriteSlot(p)] + ([Publish(p)] + ([Unlock(p)] + [])))));
    RunCons(s, Lock(p, v), [LoadTail(p)] + ([CheckRoom(p)] + ([WriteSlot(p)] + ([Publish(p)] + ([Unlock(p)] + [])))));
    var b := Step(a, LoadTail(p));
    RunCons(a, LoadTail(p), [CheckRoom(p)] + ([WriteSlot(p)] + ([Publish(p)] + ([Unlock(p)] + []))));
    var c := Step(b, CheckRoom(p));
    RunCons(b, CheckRoom(p), [WriteSlot(p)] + ([Publish(p)] + ([Unlock(p)] + [])));
    var d := Step(c, WriteSlot(p));
    RunCons(c, WriteSlot(p), [Publish(p)] + ([Unlock(p)] + []));
    var e := Step(d, Publish(p));
    RunCons(d, Publish(p), [Unlock(p)] + []);
    RunCons(e, Unlock(p), []);
  }

  lemma PopAlone<V>(s: Ring<V>)
    requires Inv(s) && Quiet(s)
    ensures Run(s, PopSteps<V>()) == if Held(s) == [] then s else Got(s)
  {
    EmptyIsExact(s);
    var a := Step(s, LoadHead);
    assert PopSteps<V>() == [LoadHead] + ([CheckEntry] + ([ReadSlot] + ([Release] + [])));
    RunCons(s, LoadHead, [CheckEntry] + ([ReadSlot] + ([Release] + [])));
    var b := Step(a, CheckEntry);
    RunCons(a, CheckEntry, [ReadSlot] + ([Release] + []));
    var c := Step(b, ReadSlot);
    RunCons(b, ReadSlot, [Release] + []);
    RunCons(c, Release, []);
  }

  /** The shape of the ring does not depend on who pushed. */
  lemma PutKeeps<V>(s: Ring<V>, v: V)
    requires Inv(s) && Quiet(s) && |Held(s)| < s.qsize - 1
    ensures Inv(Put(s, v)) && Quiet(Put(s, v)) && Held(Put(s, v)) == Held(s) + [v]
  {
    SuccessorCounts(|s.pushed|, s.qsize);
    var r := Put(s, v);
    forall k | |r.popped| <= k < |r.pushed| ensures r.slots[k % r.qsize] == r.pushed[k] {
      if k < |s.pushed| {
        TailSlotIsFree(s, k);
      }
    }
    assert forall q: nat :: ProducerOk(s, q) ==> ProducerOk(r, q);
  }

  lemma GotKeeps<V>(s: Ring<V>)
    requires Inv(s) && Quiet(s) && Held(s) != []
    ensures Inv(Got(s)) && Quiet(Got(s)) && s.slots[s.head] == Held(s)[0] && Held(Got(s)) == Held(s)[1..]
  {
    SuccessorCounts(|s.popped|, s.qsize);
    var r := Got(s);
    assert s.slots[|s.popped| % s.qsize] == s.pushed[|s.popped|];
    assert forall q: nat :: ProducerOk(s, q) ==> ProducerOk(r, q);
  }

  class Queue<V> {
    const vcqe: array<V>
    var head: nat
    var tail: nat
    ghost var pushed: seq<V>
    ghost var popped: seq<V>

    ghost function State(): Ring<V>
      reads this, vcqe
    {
      Ring(vcqe.Length, vcqe[..], head, tail, None, map[], Resting, pushed, popped)
    }

    ghost predicate Valid()
      reads this, vcqe
    {
      Inv(State())
    }

    /** unvmed_vcq_init over storage the caller allocated. */
    constructor (storage: array<V>)
      requires 0 < storage.Length <= COUNTER_RANGE
      ensures vcqe == storage && Valid() && Held(State()) == []
    {
      vcqe, head, tail, pushed, popped := storage, 0, 0, [], [];
    }

    /** __unvmed_vcq_push: false, for EAGAIN, exactly when all but one of the slots are taken. */
    method Push(v: V) returns (ok: bool)
      requires Valid()
      modifies this, vcqe
      ensures Valid() && ok == (|old(Held(State()))| < vcqe.Length - 1)
      ensures State() == if ok then Put(old(State()), v) else old(State())
      ensures Held(State()) == old(Held(State())) + if ok then [v] else []
    {
      ghost var s := State();
      FullIsExact(s);
      if (tail + 1) % vcqe.Length == head {
        return false;
      }
      PutKeeps(s, v);
      vcqe[tail] := v;
      tail := ((tail + 1) % vcqe.Length) % COUNTER_RANGE;
      pushed := pushed + [v];
      assert State() == Put(s, v);
      ok := true;
    }

    /** unvmed_vcq_pop: none, for ENOENT, exactly when the queue is empty. */
    method Pop() returns (r: Option<V>)
      requires Valid()
      modifies this
      ensures Valid() && (r == None <==> old(Held(State())) == [])
      ensures State() == if r.Some? then Got(old(State())) else old(State())
      ensures r.Some? ==> old(Held(State())) == [r.value] + Held(State())
    {
      ghost var s := State();
      EmptyIsExact(s);
      if head == tail {
        return None;
      }
      GotKeeps(s);
      r := Some(vcqe[head]);
      head := ((head + 1) % vcqe.Length) % COUNTER_RANGE;
      popped := popped + [r.value];
      assert State() == Got(s);
    }

    /** __unvmed_vcq_run_n without waiting: up to n entries, oldest first. */
    method RunN(n: nat) returns (out: seq<V>)
      requires Valid()
      modifies this
      ensures Valid() && old(Held(State())) == out + Held(State())
      ensures |out| == if n <= |old(Held(State()))| then n else |old(Held(State()))|
    {
      ghost var all := Held(State());
      out := [];
      while |out| < n
        invariant Valid() && all == out + Held(State()) && |out| <= n
        decreases n - |out|
      {
        var r := Pop();
        if r.None? {
          break;
        }
        out := out + [r.value];
      }
    }
  }
}
