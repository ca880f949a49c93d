/**
 * Routing completions to commands, and what cancellation of a queue delivers to whom. The device's entries are
 * delivered first; whatever is still waiting is then completed as aborted by the host.
 */
module Completion {
  import opened Options
  import opened CommandStates

  datatype Cqe = Cqe(sqid: nat, cid: nat, status: nat)

  /** `wakeup` says that the issuer waits on the command itself rather than on a virtual queue. */
  datatype Command = Command(state: CmdState, cid: nat, wakeup: bool, cqe: Option<Cqe>)

  /** A slot of a submission queue. */
  datatype Place = Place(sqid: nat, slot: Slot)

  datatype Delivery = Delivery(to: Place, cqe: Cqe)

  /** The size of each queue, its commands, and every completion delivered so far, to a waiter or a virtual queue. */
  datatype Host = Host(qsizes: map<nat, nat>, cmds: map<Place, Command>, log: seq<Delivery>) {
    /** Every queue has a structure for each of its ids and one for a conflict command, which uses one of them. */
    predicate Valid() {
      forall q :: q in qsizes ==> HasQueue(this, q)
    }
  }

  predicate HasIds(h: Host, sqid: nat, n: nat) {
    forall c :: 0 <= c < n ==> Place(sqid, Resident(c)) in h.cmds
  }

  predicate HasQueue(h: Host, sqid: nat)
    requires sqid in h.qsizes
  {
    && h.qsizes[sqid] >= 2 && HasIds(h, sqid, h.qsizes[sqid])
    && Place(sqid, Conflict) in h.cmds && h.cmds[Place(sqid, Conflict)].cid < h.qsizes[sqid]
  }

  /** The id under which a place's completions arrive. */
  function IdOf(h: Host, p: Place): nat
    requires p in h.cmds
  {
    if p.slot.Conflict? then h.cmds[p].cid else p.slot.cid
  }

  /** The place that has the first claim on the completions of p's id. */
  function Owner(h: Host, p: Place): Place
    requires p in h.cmds
  {
    Place(p.sqid, Resident(IdOf(h, p)))
  }

  /** The device names an id that the queue, if it exists, has structures for. */
  predicate InRange(h: Host, e: Cqe) {
    e.sqid in h.qsizes ==> Place(e.sqid, Resident(e.cid)) in h.cmds && Place(e.sqid, Conflict) in h.cmds
  }

  /**
   * unvmed_get_cmd_on_reaper: the submitted command at the id, else the conflict command if it is submitted
   * under that id.
   */
  function Route(h: Host, e: Cqe): (p: Option<Place>)
    requires InRange(h, e)
    ensures p.Some? ==> p.value in h.cmds
  {
    var resident, conflict := Place(e.sqid, Resident(e.cid)), Place(e.sqid, Conflict);
    if e.sqid !in h.qsizes then None
    else if h.cmds[resident].state == Submitted then Some(resident)
    else if h.cmds[conflict].state == Submitted && h.cmds[conflict].cid == e.cid then Some(conflict)
    else None
  }

  /** unvmed_cmd_cmpl: a waiter gets the entry in the command, anybody else through a virtual queue. */
  function Completed1(c: Command, e: Cqe): Command {
    if c.wakeup then c.(state := Completed, cqe := Some(e)) else c.(state := ToBeCompleted)
  }

  /** No completion adds or removes a queue or a command structure. */
  predicate SameShape(h: Host, r: Host) {
    r.qsizes == h.qsizes && r.cmds.Keys == h.cmds.Keys
  }

  function Complete(h: Host, p: Place, e: Cqe): (r: Host)
    requires p in h.cmds
    ensures SameShape(h, r)
  {
    h.(cmds := h.cmds[p := Completed1(h.cmds[p], e)], log := h.log + [Delivery(p, e)])
  }

  /** One iteration of a reaping or draining loop; an entry that fits no command is dropped. */
  function Deliver(h: Host, e: Cqe): (r: Host)
    requires InRange(h, e)
    ensures SameShape(h, r)
  {
    match Route(h, e)
    case None => h
    case Some(p) => Complete(h, p, e)
  }

  predicate AllInRange(h: Host, es: seq<Cqe>) {
    forall i :: 0 <= i < |es| ==> InRange(h, es[i])
  }

  function DeliverAll(h: Host, es: seq<Cqe>): (r: Host)
    requires AllInRange(h, es)
    ensures SameShape(h, r)
    decreases |es|
  {
    if es == [] then h
    else Deliver(DeliverAll(h, es[..|es| - 1]), es[|es| - 1])
  }

  // ----- who gets what from the device -----

  /** The entries delivered to one place. */
  function To(log: seq<Delivery>, p: Place): seq<Cqe>
    decreases |log|
  {
    if log == [] then []
    else
      var rest, d := To(log[..|log| - 1], p), log[|log| - 1];
      if d.to == p then rest + [d.cqe] else rest
  }

  /** The entries that name one id. */
  function Naming(es: seq<Cqe>, sqid: nat, cid: nat): seq<Cqe>
    decreases |es|
  {
    if es == [] then []
    else
      var rest, e := Naming(es[..|es| - 1], sqid, cid), es[|es| - 1];
      if e.sqid == sqid && e.cid == cid then rest + [e] else rest
  }

  /** How many entries of a place's id go to somebody else first. */
  function Ahead(h: Host, p: Place): nat
    requires p in h.cmds && Owner(h, p) in h.cmds
  {
    if p.slot.Conflict? && h.cmds[Owner(h, p)].state == Submitted then 1 else 0
  }

  /** A resident command takes the first entry of its id; a conflict command the next one. */
  function Share(h: Host, p: Place, es: seq<Cqe>): (share: seq<Cqe>)
    requires p in h.cmds && Owner(h, p) in h.cmds
    ensures |share| <= 1 && (h.cmds[p].state != Submitted ==> share == [])
  {
    var mine, n := Naming(es, p.sqid, IdOf(h, p)), Ahead(h, p);
    if h.cmds[p].state == Submitted && n < |mine| then [mine[n]] else []
  }

  /** With a waiter the command is COMPLETED and holds the entry; otherwise it waits for its virtual queue's reader. */
  predicate CompletedWith(was: Command, c: Command, e: Cqe) {
    && c.cid == was.cid && c.wakeup == was.wakeup
    && (was.wakeup ==> c.state == Completed && c.cqe == Some(e))
    && (!was.wakeup ==> c.state == ToBeCompleted && c.cqe == was.cqe)
  }

  /** A command before and after it got the completions in `share`, of which there is at most one. */
  predicate Served(was: Command, c: Command, share: seq<Cqe>) {
    if share == [] then c == was else CompletedWith(was, c, share[0])
  }

  /** A command after its share of the device's entries. */
  ghost predicate GotShare(h: Host, r: Host, p: Place, share: seq<Cqe>)
    requires p in h.cmds && p in r.cmds
  {
    To(r.log, p) == To(h.log, p) + share && Served(h.cmds[p], r.cmds[p], share)
  }

  lemma ToAppend(log: seq<Delivery>, d: Delivery, p: Place)
    ensures To(log + [d], p) == To(log, p) + if d.to == p then [d.cqe] else []
  {
    assert (log + [d])[..|log|] == log;
  }

  /** One more entry changes a place's share only if it is the one the place was waiting for. */
  predicate IsDue(h: Host, before: seq<Cqe>, e: Cqe, p: Place)
    requires p in h.cmds && Owner(h, p) in h.cmds
  {
    && e.sqid == p.sqid && e.cid == IdOf(h, p) && h.cmds[p].state == Submitted
    && |Naming(before, p.sqid, IdOf(h, p))| == Ahead(h, p)
  }

  lemma ShareGrows(h: Host, es: seq<Cqe>, p: Place)
    requires es != [] && p in h.cmds && Owner(h, p) in h.cmds
    ensures var before, e := es[..|es| - 1], es[|es| - 1];
            if IsDue(h, before, e, p) then Share(h, p, before) == [] && Share(h, p, es) == [e]
            else Share(h, p, es) == Share(h, p, before)
  {
  }

  /** An entry is routed to a place exactly when the place is waiting for it. */
  lemma RouteDue(h: Host, before: seq<Cqe>, m: Host, e: Cqe, p: Place)
    requires p in h.cmds && Owner(h, p) in h.cmds && p.sqid in h.qsizes && SameShape(h, m) && InRange(m, e)
    requires GotShare(h, m, p, Share(h, p, before))
    requires GotShare(h, m, Owner(h, p), Share(h, Owner(h, p), before))
    ensures Route(m, e) == Some(p) <==> IsDue(h, before, e, p)
  {
  }

  /** What one more entry does to one place. */
  lemma DeliverEffect(h: Host, e: Cqe, p: Place)
    requires InRange(h, e) && p in h.cmds
    ensures GotShare(h, Deliver(h, e), p, if Route(h, e) == Some(p) then [e] else [])
  {
    assert To(h.log, p) + [] == To(h.log, p);
    if Route(h, e).Some? {
      ToAppend(h.log, Delivery(Route(h, e).value, e), p);
    }
  }

  lemma ShareChain(h: Host, m: Host, r: Host, p: Place, first: seq<Cqe>, second: seq<Cqe>)
    requires p in h.cmds && p in m.cmds && p in r.cmds
    requires GotShare(h, m, p, first) && GotShare(m, r, p, second) && (first == [] || second == [])
    ensures GotShare(h, r, p, first + second)
  {
    assert To(h.log, p) + (first + second) == (To(h.log, p) + first) + second;
    assert first + [] == first && [] + second == second;
  }

  /**
   * For any entries the device posted, duplicates and strangers included: each submitted command gets its share
   * and no more, and every other command is left alone.
   */
  lemma {:induction false} DeliverAllShares(h: Host, es: seq<Cqe>, p: Place)
    requires AllInRange(h, es) && p in h.cmds && p.sqid in h.qsizes && Owner(h, p) in h.cmds
    ensures GotShare(h, DeliverAll(h, es), p, Share(h, p, es))
    decreases |es|
  {
    if es == [] {
      assert To(h.log, p) + [] == To(h.log, p);
    } else {
      var before, e := es[..|es| - 1], es[|es| - 1];
      var m := DeliverAll(h, before);
      DeliverAllShares(h, before, p);
      DeliverAllShares(h, before, Owner(h, p));
      ShareGrows(h, es, p);
      RouteDue(h, before, m, e, p);
      DeliverEffect(m, e, p);
      var next := if IsDue(h, before, e, p) then [e] else [];
      ShareChain(h, m, Deliver(m, e), p, Share(h, p, before), next);
      assert Share(h, p, before) + next == Share(h, p, es);
    }
  }

  // ----- cancellation -----

  /** Status code type 3h, path related, with status code 71h, Command Aborted By Host. */
  const ABORTED_BY_HOST := 0x371

  function AbortCqe(p: Place, c: Command): Cqe {
    Cqe(p.sqid, c.cid, ABORTED_BY_HOST)
  }

  /** A command that is waiting for a completion, or has not been submitted yet. */
  predicate Waiting(c: Command) {
    c.state == Submitted || c.state == Allocated
  }

  /** __unvmed_put_cqe. */
  function Abort(h: Host, p: Place): (r: Host)
    requires p in h.cmds
    ensures SameShape(h, r)
  {
    if Waiting(h.cmds[p]) then Complete(h, p, AbortCqe(p, h.cmds[p])) else h
  }

  function AbortBelow(h: Host, sqid: nat, n: nat): (r: Host)
    requires HasIds(h, sqid, n)
    ensures SameShape(h, r)
  {
    if n == 0 then h else Abort(AbortBelow(h, sqid, n - 1), Place(sqid, Resident(n - 1)))
  }

  /** What an abort meant for c's place delivers. */
  function AbortShare(p: Place, c: Command, meant: bool): seq<Cqe> {
    if meant && Waiting(c) then [AbortCqe(p, c)] else []
  }

  lemma AbortEffect(h: Host, target: Place, p: Place)
    requires target in h.cmds && p in h.cmds
    ensures GotShare(h, Abort(h, target), p, AbortShare(p, h.cmds[p], p == target))
  {
    assert To(h.log, p) + [] == To(h.log, p);
    if Waiting(h.cmds[target]) {
      ToAppend(h.log, Delivery(target, AbortCqe(target, h.cmds[target])), p);
    }
  }

  /** Of two aborts only the first finds the command waiting. */
  lemma AbortTwice(h: Host, m: Host, r: Host, p: Place, first: bool, second: bool)
    requires p in h.cmds && p in m.cmds && p in r.cmds
    requires GotShare(h, m, p, AbortShare(p, h.cmds[p], first))
    requires GotShare(m, r, p, AbortShare(p, m.cmds[p], second))
    ensures GotShare(h, r, p, AbortShare(p, h.cmds[p], first || second))
  {
    var a, b := AbortShare(p, h.cmds[p], first), AbortShare(p, m.cmds[p], second);
    ShareChain(h, m, r, p, a, b);
    assert a + b == AbortShare(p, h.cmds[p], first || second);
  }

  lemma {:induction false} AbortBelowEffect(h: Host, sqid: nat, n: nat, p: Place)
    requires p in h.cmds && HasIds(h, sqid, n) && p.sqid == sqid
    ensures GotShare(h, AbortBelow(h, sqid, n), p, AbortShare(p, h.cmds[p], p.slot.Resident? && p.slot.cid < n))
    decreases n
  {
    if n == 0 {
      assert To(h.log, p) + [] == To(h.log, p);
    } else {
      var m, last := AbortBelow(h, sqid, n - 1), Place(sqid, Resident(n - 1));
      AbortBelowEffect(h, sqid, n - 1, p);
      AbortEffect(m, last, p);
      AbortTwice(h, m, Abort(m, last), p, p.slot.Resident? && p.slot.cid < n - 1, p == last);
    }
  }

  /** The places that cancellation of a queue covers. */
  predicate Covered(h: Host, p: Place) {
    p.sqid in h.qsizes && (p.slot.Resident? ==> p.slot.cid + 1 < h.qsizes[p.sqid])
  }

  lemma {:induction false} AbortsCover(h: Host, n: nat, p: Place)
    requires p in h.cmds && HasIds(h, p.sqid, n) && Place(p.sqid, Conflict) in h.cmds
    requires p.slot.Resident? ==> p.slot.cid < n
    ensures GotShare(h, Abort(AbortBelow(h, p.sqid, n), Place(p.sqid, Conflict)), p, AbortShare(p, h.cmds[p], true))
  {
    var m, last := AbortBelow(h, p.sqid, n), Place(p.sqid, Conflict);
    AbortBelowEffect(h, p.sqid, n, p);
    AbortEffect(m, last, p);
    AbortTwice(h, m, Abort(m, last), p, p.slot.Resident?, p == last);
  }

  /** The completions a command gets from cancellation, given its share of the device's entries. */
  function Due(p: Place, c: Command, share: seq<Cqe>): seq<Cqe> {
    if c.state == Submitted && share != [] then [share[0]]
    else if Waiting(c) then [Cqe(p.sqid, c.cid, ABORTED_BY_HOST)]
    else []
  }

  /** A command after cancellation: it got what was due to it, and waits no longer. */
  ghost predicate GotDue(h: Host, r: Host, p: Place, share: seq<Cqe>)
    requires p in h.cmds && p in r.cmds
  {
    GotShare(h, r, p, Due(p, h.cmds[p], share)) && !Waiting(r.cmds[p])
  }

  lemma SharedThenAborted(h: Host, m: Host, r: Host, p: Place, share: seq<Cqe>)
    requires p in h.cmds && p in m.cmds && p in r.cmds
    requires |share| <= 1 && (h.cmds[p].state != Submitted ==> share == [])
    requires GotShare(h, m, p, share) && GotShare(m, r, p, AbortShare(p, m.cmds[p], true))
    ensures GotDue(h, r, p, share)
  {
    var a := AbortShare(p, m.cmds[p], true);
    ShareChain(h, m, r, p, share, a);
    assert share + a == Due(p, h.cmds[p], share);
  }

  lemma CoveredPlaces(h: Host, p: Place)
    requires Covered(h, p) && HasQueue(h, p.sqid)
    ensures p in h.cmds && Owner(h, p) in h.cmds && HasIds(h, p.sqid, h.qsizes[p.sqid] - 1)
  {
    assert p.slot.Resident? ==> p == Place(p.sqid, Resident(p.slot.cid));
    assert p.slot.Conflict? ==> p == Place(p.sqid, Conflict);
  }

  /** The abort part of cancellation, from the host in which the device's entries have been delivered. */
  function AbortAll(h: Host, sqid: nat): (r: Host)
    requires sqid in h.qsizes && h.qsizes[sqid] >= 1 && HasIds(h, sqid, h.qsizes[sqid] - 1)
        && Place(sqid, Conflict) in h.cmds
    ensures SameShape(h, r)
  {
    Abort(AbortBelow(h, sqid, h.qsizes[sqid] - 1), Place(sqid, Conflict))
  }

  /** unvmed_cancel_sq: deliver what the device posted, then abort the queue's ids and its conflict command. */
  function Cancelled(h: Host, es: seq<Cqe>, sqid: nat): (r: Host)
    requires AllInRange(h, es) && sqid in h.qsizes && HasQueue(h, sqid)
    ensures SameShape(h, r)
  {
    AbortAll(DeliverAll(h, es), sqid)
  }

  lemma {:induction false} AbortsAfterShare(h: Host, m: Host, p: Place, share: seq<Cqe>)
    requires Covered(h, p) && HasQueue(h, p.sqid) && SameShape(h, m) && p in h.cmds
    requires |share| <= 1 && (h.cmds[p].state != Submitted ==> share == [])
    requires GotShare(h, m, p, share)
    ensures GotDue(h, AbortAll(m, p.sqid), p, share)
  {
    AbortsCover(m, h.qsizes[p.sqid] - 1, p);
    SharedThenAborted(h, m, AbortAll(m, p.sqid), p, share);
  }

  /**
   * After cancellation no covered command waits. Each one that was submitted got exactly one completion, the
   * device's if one was pending for it and the host's otherwise; one only allocated got the host's; no other got any.
   * Whoever waits on the command finds it COMPLETED with that entry, and other commands are left to their queues.
   */
  lemma {:induction false} CancelCompletesOnce(h: Host, es: seq<Cqe>, p: Place)
    requires h.Valid() && AllInRange(h, es) && Covered(h, p)
    ensures p in h.cmds && Owner(h, p) in h.cmds
    ensures var r := Cancelled(h, es, p.sqid);
            var due := Due(p, h.cmds[p], Share(h, p, es));
            && !Waiting(r.cmds[p])
            && To(r.log, p) == To(h.log, p) + due
            && Served(h.cmds[p], r.cmds[p], due)
  {
    CoveredPlaces(h, p);
    DeliverAllShares(h, es, p);
    AbortsAfterShare(h, DeliverAll(h, es), p, Share(h, p, es));
  }

  lemma {:induction false} AbortBelowSpares(h: Host, sqid: nat, n: nat, p: Place)
    requires p in h.cmds && HasIds(h, sqid, n) && (p.sqid != sqid || p.slot.Conflict? || p.slot.cid >= n)
    ensures GotShare(h, AbortBelow(h, sqid, n), p, [])
    decreases n
  {
    if n == 0 {
      assert To(h.log, p) + [] == To(h.log, p);
    } else {
      AbortBelowSpares(h, sqid, n - 1, p);
      AbortEffect(AbortBelow(h, sqid, n - 1), Place(sqid, Resident(n - 1)), p);
      ShareChain(h, AbortBelow(h, sqid, n - 1), AbortBelow(h, sqid, n), p, [], []);
    }
  }

  lemma AbortAllSpares(h: Host, sqid: nat, p: Place)
    requires sqid in h.qsizes && h.qsizes[sqid] >= 1 && HasIds(h, sqid, h.qsizes[sqid] - 1)
    requires Place(sqid, Conflict) in h.cmds && p in h.cmds
    requires p.sqid != sqid || (p.slot.Resident? && p.slot.cid + 1 >= h.qsizes[sqid])
    ensures GotShare(h, AbortAll(h, sqid), p, [])
  {
    var n, last := h.qsizes[sqid] - 1, Place(sqid, Conflict);
    var m := AbortBelow(h, sqid, n);
    AbortBelowSpares(h, sqid, n, p);
    AbortEffect(m, last, p);
    ShareChain(h, m, Abort(m, last), p, [], []);
  }

  /** Cancellation of a queue gives the commands of others, and structures without an id, the device's entries only. */
  lemma {:induction false} CancelSparesOthers(h: Host, es: seq<Cqe>, sqid: nat, p: Place)
    requires AllInRange(h, es) && sqid in h.qsizes && HasQueue(h, sqid)
    requires p in h.cmds && p.sqid in h.qsizes && Owner(h, p) in h.cmds
    requires p.sqid != sqid || (p.slot.Resident? && p.slot.cid + 1 >= h.qsizes[sqid])
    ensures GotShare(h, Cancelled(h, es, sqid), p, Share(h, p, es))
  {
    var d, share := DeliverAll(h, es), Share(h, p, es);
    DeliverAllShares(h, es, p);
    AbortAllSpares(d, sqid, p);
    ShareChain(h, d, AbortAll(d, sqid), p, share, []);
    assert share + [] == share;
  }

  lemma DeliverOneMore(h: Host, es: seq<Cqe>, e: Cqe)
    requires AllInRange(h, es) && InRange(h, e)
    ensures AllInRange(h, es + [e]) && InRange(DeliverAll(h, es), e)
    ensures DeliverAll(h, es + [e]) == Deliver(DeliverAll(h, es), e)
  {
    assert (es + [e])[..|es|] == es;
  }

  /** A resident and a conflict command under one id: two entries for it complete one each, the resident first. */
  lemma TwoEntriesCompleteOneEach(h: Host, es: seq<Cqe>, sqid: nat, cid: nat)
    requires AllInRange(h, es) && sqid in h.qsizes && |Naming(es, sqid, cid)| >= 2
    requires Place(sqid, Resident(cid)) in h.cmds && h.cmds[Place(sqid, Resident(cid))].state == Submitted
    requires Place(sqid, Conflict) in h.cmds
    requires h.cmds[Place(sqid, Conflict)].state == Submitted && h.cmds[Place(sqid, Conflict)].cid == cid
    ensures var r, mine := DeliverAll(h, es), Naming(es, sqid, cid);
            && To(r.log, Place(sqid, Resident(cid))) == To(h.log, Place(sqid, Resident(cid))) + [mine[0]]
            && To(r.log, Place(sqid, Conflict)) == To(h.log, Place(sqid, Conflict)) + [mine[1]]
  {
    DeliverAllShares(h, es, Place(sqid, Resident(cid)));
    DeliverAllShares(h, es, Place(sqid, Conflict));
  }
}
