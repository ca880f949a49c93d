/**
 * The loops of __unvmed_reap_cqe and unvmed_cancel_sq, run under the completion queue's lock: walk the ring by
 * phase, route each new entry, then abort what is left.
 */
module Cancel {
  import opened Options
  import opened CommandStates
  import opened PhaseRing
  import opened Completion

  class CompletionQueue {
    const ring: array<Entry<Cqe>>
    var head: nat
    var phase: bool

    constructor (entries: array<Entry<Cqe>>, at: nat, p: bool)
      ensures ring == entries && head == at && phase == p
    {
      ring, head, phase := entries, at, p;
    }
  }

  /** An entry that is routed to a command completes that one with it; any other changes nothing. */
  ghost predicate Delivered(h: Host, r: Host, e: Cqe)
    requires InRange(h, e)
  {
    match Route(h, e)
    case None => r == h
    case Some(p) =>
      && SameShape(h, r) && CompletedWith(h.cmds[p], r.cmds[p], e) && r.log == h.log + [Delivery(p, e)]
      && forall q :: q in h.cmds && q != p ==> r.cmds[q] == h.cmds[q]
  }

  class Driver {
    const qsizes: map<nat, nat>
    var cmds: map<Place, Command>
    /** Every completion delivered, in order. */
    var log: seq<Delivery>

    constructor (sizes: map<nat, nat>, commands: map<Place, Command>)
      ensures qsizes == sizes && cmds == commands && log == []
    {
      qsizes, cmds, log := sizes, commands, [];
    }

    ghost function State(): Host
      reads this
    {
      Host(qsizes, cmds, log)
    }

    /** unvmed_cmd_cmpl. */
    method CompleteCmd(p: Place, e: Cqe)
      requires p in cmds
      modifies this
      ensures State() == Complete(old(State()), p, e)
      ensures cmds.Keys == old(cmds).Keys && (forall q :: q in cmds && q != p ==> cmds[q] == old(cmds)[q])
      ensures CompletedWith(old(cmds)[p], cmds[p], e) && log == old(log) + [Delivery(p, e)]
    {
      var c := cmds[p].(state := ToBeCompleted);
      if c.wakeup {
        c := c.(cqe := Some(e), state := Completed);
      }
      cmds := cmds[p := c];
      log := log + [Delivery(p, e)];
    }

    /** One entry of a drain loop: unvmed_get_cmd_on_reaper and what follows. */
    method DeliverEntry(e: Cqe)
      requires InRange(State(), e)
      modifies this
      ensures State() == Deliver(old(State()), e)
      ensures Delivered(old(State()), State(), e)
    {
      if e.sqid !in qsizes {
        return;
      }
      var p := Place(e.sqid, Resident(e.cid));
      if cmds[p].state != Submitted {
        p := Place(e.sqid, Conflict);
        if cmds[p].state != Submitted || cmds[p].cid != e.cid {
          return;
        }
      }
      CompleteCmd(p, e);
    }

    method DeliverNext(e: Cqe, ghost h: Host, ghost visited: seq<Cqe>)
      requires AllInRange(h, visited) && InRange(h, e) && State() == DeliverAll(h, visited)
      modifies this
      ensures AllInRange(h, visited + [e]) && State() == DeliverAll(h, visited + [e])
    {
      DeliverOneMore(h, visited, e);
      DeliverEntry(e);
    }

    /**
     * Deliver the new entries of the ring and move its head and phase behind them. Whatever the ring holds, the
     * loop ends within one turn of it.
     */
    method Drain(cq: CompletionQueue) returns (ghost visited: seq<Cqe>)
      requires cq.head < cq.ring.Length
      requires forall i :: 0 <= i < cq.ring.Length ==> InRange(State(), cq.ring[i].e)
      modifies this, cq`head, cq`phase
      ensures AllInRange(old(State()), visited) && State() == DeliverAll(old(State()), visited)
      ensures Walked(visited, cq.head, cq.phase) == Walk(cq.ring[..], old(cq.head), old(cq.phase), cq.ring.Length)
      ensures |visited| <= cq.ring.Length && cq.head < cq.ring.Length && !Fresh(cq.ring[..], cq.head, cq.phase)
    {
      visited := [];
      var head: nat, phase := cq.head, cq.phase;
      ghost var ring, h := cq.ring[..], State();
      ghost var whole := Walk(ring, head, phase, |ring|);
      while cq.ring[head].tag != phase
        invariant cq.ring[..] == ring && cq.head == old(cq.head) && cq.phase == old(cq.phase)
        invariant |visited| <= |ring| && StepsOn(|ring|, cq.head, cq.phase, |visited|, head, phase)
        invariant |visited| > 0 ==> ring[cq.head].tag != cq.phase
        invariant whole == Behind(visited, Walk(ring, head, phase, |ring| - |visited|))
        invariant AllInRange(h, visited) && State() == DeliverAll(h, visited)
        decreases |ring| - |visited|
      {
        WalkOn(ring, head, phase, |ring| - |visited|, visited);
        var e := cq.ring[head].e;
        assert InRange(h, ring[head].e);
        DeliverNext(e, h, visited);
        visited := visited + [e];
        if head + 1 == cq.ring.Length {
          head, phase := 0, !phase;
        } else {
          head := head + 1;
        }
      }
      cq.head, cq.phase := head, phase;
    }

    /** __unvmed_put_cqe: only a command that is allocated or submitted is completed. */
    method AbortCmd(p: Place)
      requires p in cmds
      modifies this
      ensures State() == Abort(old(State()), p)
    {
      var c := cmds[p];
      if c.state == Submitted || c.state == Allocated {
        CompleteCmd(p, Cqe(p.sqid, c.cid, ABORTED_BY_HOST));
      }
    }

    method AbortLoop(sqid: nat, n: nat)
      requires HasIds(State(), sqid, n)
      modifies this
      ensures State() == AbortBelow(old(State()), sqid, n)
    {
      ghost var h := State();
      for i := 0 to n
        invariant HasIds(h, sqid, i) && State() == AbortBelow(h, sqid, i)
      {
        assert Place(sqid, Resident(i)) in h.cmds;
        AbortCmd(Place(sqid, Resident(i)));
      }
    }

    /** unvmed_cancel_sq. */
    method CancelSq(cq: CompletionQueue, sqid: nat) returns (ghost visited: seq<Cqe>)
      requires sqid in qsizes && HasQueue(State(), sqid) && cq.head < cq.ring.Length
      requires forall i :: 0 <= i < cq.ring.Length ==> InRange(State(), cq.ring[i].e)
      modifies this, cq`head, cq`phase
      ensures AllInRange(old(State()), visited) && State() == Cancelled(old(State()), visited, sqid)
      ensures Walked(visited, cq.head, cq.phase) == Walk(cq.ring[..], old(cq.head), old(cq.phase), cq.ring.Length)
    {
      visited := Drain(cq);
      AbortLoop(sqid, qsizes[sqid] - 1);
      AbortCmd(Place(sqid, Conflict));
    }
  }

  /**
   * The whole of it, from the device's stream to the commands: with k of the posted entries consumed and none of the
   * others overwritten, the drain visits exactly the others, and a covered command ends up with its share of those
   * if it has one, with the host's abort if it was waiting without one, and never waits any longer.
   */
  lemma {:induction false} CancelServesThePending(h: Host, ring: seq<Entry<Cqe>>, stream: seq<Cqe>, k: nat, p: Place)
    requires Holds(ring, stream) && |stream| - |ring| <= k <= |stream|
    requires h.Valid() && AllInRange(h, stream[k..]) && Covered(h, p)
    ensures k % |ring| < |ring| && p in h.cmds && Owner(h, p) in h.cmds
    ensures Walk(ring, k % |ring|, Pass(k, |ring|), |ring|)
         == Walked(stream[k..], |stream| % |ring|, Pass(|stream|, |ring|))
    ensures var r := Cancelled(h, stream[k..], p.sqid);
            var due := Due(p, h.cmds[p], Share(h, p, stream[k..]));
            && !Waiting(r.cmds[p])
            && To(r.log, p) == To(h.log, p) + due
            && Served(h.cmds[p], r.cmds[p], due)
  {
    WalkFollowsStream(ring, stream, k, |ring|);
    CancelCompletesOnce(h, stream[k..], p);
  }
}
