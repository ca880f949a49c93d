/**
 * Snapshot of a controller's configuration before a reset and its restoration afterwards. Device commands succeed;
 * the driver's own checks may still refuse a step.
 */
module CtxSpec {
  import opened Arithmetic
  import opened CtrlState

  /** The references to a queue instance: the driver's own, and those held outside it. */
  datatype Refs = Refs(claims: nat, holders: nat)

  datatype Cq = Cq(qsize: nat, vector: int, pc: nat, enabled: bool, refs: Refs)

  datatype Sq = Sq(qsize: nat, cqid: nat, qprio: nat, pc: nat, nvmsetid: nat, enabled: bool, refs: Refs)

  /** The fields of the controller's configuration register, and the command timeout. */
  datatype Settings = Settings(iosqes: nat, iocqes: nat, mps: nat, ams: nat, css: nat, timeout: int)

  datatype Ctx =
    | CtxCtrl(settings: Settings, sqSize: nat, cqSize: nat, adminIrq: bool)
    | CtxNs(nsid: nat)
    | CtxCq(qid: nat, qsize: nat, vector: int, pc: nat)
    | CtxSq(qid: nat, qsize: nat, cqid: nat, qprio: nat, pc: nat, nvmsetid: nat)

  datatype Event = CqMade(qid: nat) | SqMade(qid: nat, cqid: nat) | Enabled

  /** `aqa` is the admin queue attributes register; `log` records what the device was told, in order. */
  datatype Driver = Driver(
    state: State, settings: Settings, aqa: nat, nrIrqs: nat, nrCqs: nat, nrSqs: nat,
    cqs: map<nat, Cq>, sqs: map<nat, Sq>, nss: seq<nat>, nsOn: set<nat>, log: seq<Event>)

  // ----- snapshot -----

  /** Two zero-based sizes, the submission queue's in the low half. */
  function Aqa(sqSize: nat, cqSize: nat): nat
    requires 1 <= sqSize <= 0x1_0000 && 1 <= cqSize
  {
    (sqSize - 1) + (cqSize - 1) * 0x1_0000
  }

  /** The fields are twelve bits wide. */
  function AsqSize(aqa: nat): nat {
    aqa % 0x1000 + 1
  }

  function AcqSize(aqa: nat): nat {
    aqa / 0x1_0000 % 0x1000 + 1
  }

  function CtrlEntry(d: Driver): Ctx {
    CtxCtrl(d.settings, AsqSize(d.aqa), AcqSize(d.aqa), 0 in d.sqs && 0 in d.cqs && d.cqs[0].vector == 0)
  }

  function NsEntries(nss: seq<nat>): seq<Ctx>
    decreases |nss|
  {
    if nss == [] then [] else NsEntries(nss[..|nss| - 1]) + [CtxNs(nss[|nss| - 1])]
  }

  function CqEntry(q: nat, c: Cq): Ctx {
    CtxCq(q, c.qsize, c.vector, c.pc)
  }

  function SqEntry(q: nat, s: Sq): Ctx {
    CtxSq(q, s.qsize, s.cqid, s.qprio, s.pc, s.nvmsetid)
  }

  /** The I/O completion queues below n, by ascending id. */
  function CqEntries(cqs: map<nat, Cq>, n: nat): seq<Ctx> {
    if n <= 1 then [] else CqEntries(cqs, n - 1) + if n - 1 in cqs then [CqEntry(n - 1, cqs[n - 1])] else []
  }

  function SqEntries(sqs: map<nat, Sq>, n: nat): seq<Ctx> {
    if n <= 1 then [] else SqEntries(sqs, n - 1) + if n - 1 in sqs then [SqEntry(n - 1, sqs[n - 1])] else []
  }

  function Snapshot(d: Driver): seq<Ctx> {
    [CtrlEntry(d)] + NsEntries(d.nss) + CqEntries(d.cqs, d.nrCqs) + SqEntries(d.sqs, d.nrSqs)
  }

  // ----- reset -----

  /** unvmed_reset_ctrl: the controller and all queues are disabled. The log starts anew. */
  function Reset(d: Driver): Driver {
    d.(state := Set(Set(d.state, RESETTING).state, DISABLED).state,
       cqs := map q | q in d.cqs :: d.cqs[q].(enabled := false),
       sqs := map q | q in d.sqs :: d.sqs[q].(enabled := false),
       nsOn := {}, log := [])
  }

  /** Deletion puts once: it drops a claim if the driver has one, and otherwise somebody else's reference. */
  function Put(r: Refs): Refs {
    if r.claims > 0 then r.(claims := r.claims - 1)
    else if r.holders > 0 then r.(holders := r.holders - 1)
    else r
  }

  predicate Survives(r: Refs) {
    r.claims + r.holders > 1
  }

  /** unvmed_free_ctx: every queue is put once; those that still have a reference stay behind. */
  function Freed(d: Driver): Driver {
    d.(cqs := map q | q in d.cqs && Survives(d.cqs[q].refs) :: d.cqs[q].(refs := Put(d.cqs[q].refs)),
       sqs := map q | q in d.sqs && Survives(d.sqs[q].refs) :: d.sqs[q].(refs := Put(d.sqs[q].refs)))
  }

  // ----- restoration -----

  datatype Tried = Tried(d: Driver, ok: bool)

  predicate CqBusy(d: Driver, q: nat) {
    q in d.cqs && d.cqs[q].enabled
  }

  predicate SqBusy(d: Driver, q: nat) {
    q in d.sqs && d.sqs[q].enabled
  }

  /** A create gets the instance that is there, or a new one, and keeps that reference as a claim. */
  function Claimed(r: Refs): Refs {
    r.(claims := r.claims + 1)
  }

  function CqRefs(cqs: map<nat, Cq>, q: nat): Refs {
    if q in cqs then cqs[q].refs else Refs(0, 0)
  }

  function SqRefs(sqs: map<nat, Sq>, q: nat): Refs {
    if q in sqs then sqs[q].refs else Refs(0, 0)
  }

  /** unvmed_create_adminq. Sizes that the register cannot hold are refused here. */
  function CreateAdminq(d: Driver, sqSize: nat, cqSize: nat, irq: bool): Tried {
    if d.state != DISABLED || CqBusy(d, 0) then Tried(d, false)
    else if SqBusy(d, 0) || !(1 <= sqSize <= 0x1_0000 && 1 <= cqSize) then Tried(d.(cqs := d.cqs - {0}), false)
    else
      var cq := Cq(cqSize, if irq && d.nrIrqs > 0 then 0 else -1, 1, false, Claimed(CqRefs(d.cqs, 0)));
      var sq := Sq(sqSize, 0, 0, 1, 0, false, Claimed(SqRefs(d.sqs, 0)));
      Tried(d.(cqs := d.cqs[0 := cq], sqs := d.sqs[0 := sq], aqa := Aqa(sqSize, cqSize),
               log := d.log + [CqMade(0), SqMade(0, 0)]), true)
  }

  /** unvmed_enable_ctrl, which leaves the command set selection out of the register it writes. */
  function EnableCtrl(d: Driver, s: Settings): Tried {
    if !Set(d.state, ENABLING).ok then Tried(d, false)
    else
      Tried(d.(state := ENABLED, settings := s.(css := 0),
               cqs := if 0 in d.cqs then d.cqs[0 := d.cqs[0].(enabled := true)] else d.cqs,
               sqs := if 0 in d.sqs then d.sqs[0 := d.sqs[0].(enabled := true)] else d.sqs,
               log := d.log + [Enabled]), true)
  }

  function InitNs(d: Driver, nsid: nat): Tried {
    Tried(d.(nss := if nsid in d.nss then d.nss else d.nss + [nsid], nsOn := d.nsOn + {nsid}), true)
  }

  /** unvmed_create_cq, which needs an admin queue but does not look at the controller's state. */
  function CreateCq(d: Driver, q: nat, qsize: nat, vector: int, pc: nat): Tried {
    if vector >= d.nrIrqs || 0 !in d.sqs || CqBusy(d, q) then Tried(d, false)
    else
      var cq := Cq(qsize, if vector < 0 then -1 else vector, pc, true, Claimed(CqRefs(d.cqs, q)));
      Tried(d.(cqs := d.cqs[q := cq], log := d.log + [CqMade(q)]), true)
  }

  function CreateSq(d: Driver, q: nat, qsize: nat, cqid: nat, qprio: nat, pc: nat, nvmsetid: nat): Tried {
    if d.state != ENABLED || 0 !in d.sqs || cqid !in d.cqs || SqBusy(d, q) then Tried(d, false)
    else
      var sq := Sq(qsize, cqid, qprio, pc, nvmsetid, true, Claimed(SqRefs(d.sqs, q)));
      Tried(d.(sqs := d.sqs[q := sq], log := d.log + [SqMade(q, cqid)]), true)
  }

  function RestoreOne(d: Driver, c: Ctx): Tried {
    match c
    case CtxCtrl(settings, sqSize, cqSize, adminIrq) =>
      var t := CreateAdminq(d, sqSize, cqSize, adminIrq);
      if t.ok then EnableCtrl(t.d, settings) else t
    case CtxNs(nsid) => InitNs(d, nsid)
    case CtxCq(q, qsize, vector, pc) => CreateCq(d, q, qsize, vector, pc)
    case CtxSq(q, qsize, cqid, qprio, pc, nvmsetid) => CreateSq(d, q, qsize, cqid, qprio, pc, nvmsetid)
  }

  /** The first failure ends the restoration. */
  function RestoreAll(d: Driver, cs: seq<Ctx>): Tried
    decreases |cs|
  {
    if cs == [] then Tried(d, true)
    else
      var t := RestoreAll(d, cs[..|cs| - 1]);
      if t.ok then RestoreOne(t.d, cs[|cs| - 1]) else t
  }

  lemma {:induction false} RestoreConcat(d: Driver, a: seq<Ctx>, b: seq<Ctx>)
    requires RestoreAll(d, a).ok
    ensures RestoreAll(d, a + b) == RestoreAll(RestoreAll(d, a).d, b)
    decreases |b|
  {
    if b == [] {
      assert a + b == a;
    } else {
      RestoreConcat(d, a, b[..|b| - 1]);
      assert (a + b)[..|a + b| - 1] == a + b[..|b| - 1];
    }
  }

  // ----- what restoration rebuilds -----

  /** An instance in the table has at least one reference. */
  predicate Referred(r: Refs) {
    r.claims + r.holders > 0
  }

  /** A controller as the driver leaves it: an admin queue pair, and I/O submission queues on existing queues. */
  ghost predicate WellFormed(d: Driver) {
    && d.state == ENABLED
    && 0 in d.cqs && 0 in d.sqs
    && d.sqs[0] == Sq(d.sqs[0].qsize, 0, 0, 1, 0, d.sqs[0].enabled, d.sqs[0].refs)
    && d.cqs[0] == Cq(d.cqs[0].qsize, if d.cqs[0].vector == 0 then 0 else -1, 1, d.cqs[0].enabled, d.cqs[0].refs)
    && (d.cqs[0].vector == 0 ==> d.nrIrqs > 0)
    && 1 <= d.sqs[0].qsize <= 0x1000 && 1 <= d.cqs[0].qsize <= 0x1000
    && d.aqa == Aqa(d.sqs[0].qsize, d.cqs[0].qsize)
    && (forall q :: q in d.cqs ==> Referred(d.cqs[q].refs))
    && (forall q :: q in d.sqs ==> Referred(d.sqs[q].refs))
    && (forall q :: q in d.cqs && q > 0 ==> q < d.nrCqs && -1 <= d.cqs[q].vector < d.nrIrqs)
    && (forall q :: q in d.sqs && q > 0 ==> q < d.nrSqs && d.sqs[q].cqid in d.cqs)
  }

  /** A queue recreated with given parameters on top of the references there are. */
  function MadeCq(c: Cq, r: Refs): Cq {
    c.(enabled := true, refs := Claimed(r))
  }

  function MadeSq(s: Sq, r: Refs): Sq {
    s.(enabled := true, refs := Claimed(r))
  }

  /** A map after the ids from 1 to n - 1 were recreated as another has them. */
  function TakeCqs(base: map<nat, Cq>, src: map<nat, Cq>, n: nat): map<nat, Cq> {
    if n <= 1 then base
    else
      var m := TakeCqs(base, src, n - 1);
      if n - 1 in src then m[n - 1 := MadeCq(src[n - 1], CqRefs(base, n - 1))] else m
  }

  function TakeSqs(base: map<nat, Sq>, src: map<nat, Sq>, n: nat): map<nat, Sq> {
    if n <= 1 then base
    else
      var m := TakeSqs(base, src, n - 1);
      if n - 1 in src then m[n - 1 := MadeSq(src[n - 1], SqRefs(base, n - 1))] else m
  }

  lemma {:induction false} TakeCqsAt(base: map<nat, Cq>, src: map<nat, Cq>, n: nat, q: nat)
    ensures var m := TakeCqs(base, src, n);
            if 0 < q < n && q in src then q in m && m[q] == MadeCq(src[q], CqRefs(base, q))
            else (q in m <==> q in base) && (q in m ==> m[q] == base[q])
  {
    if n > 1 {
      TakeCqsAt(base, src, n - 1, q);
    }
  }

  lemma {:induction false} TakeSqsAt(base: map<nat, Sq>, src: map<nat, Sq>, n: nat, q: nat)
    ensures var m := TakeSqs(base, src, n);
            if 0 < q < n && q in src then q in m && m[q] == MadeSq(src[q], SqRefs(base, q))
            else (q in m <==> q in base) && (q in m ==> m[q] == base[q])
  {
    if n > 1 {
      TakeSqsAt(base, src, n - 1, q);
    }
  }

  function CqEvents(cqs: map<nat, Cq>, n: nat): seq<Event> {
    if n <= 1 then [] else CqEvents(cqs, n - 1) + if n - 1 in cqs then [CqMade(n - 1)] else []
  }

  function SqEvents(sqs: map<nat, Sq>, n: nat): seq<Event> {
    if n <= 1 then [] else SqEvents(sqs, n - 1) + if n - 1 in sqs then [SqMade(n - 1, sqs[n - 1].cqid)] else []
  }

  lemma RestoreSnoc(d: Driver, cs: seq<Ctx>, c: Ctx)
    ensures RestoreAll(d, cs + [c])
        == if RestoreAll(d, cs).ok then RestoreOne(RestoreAll(d, cs).d, c) else RestoreAll(d, cs)
  {
    assert (cs + [c])[..|cs|] == cs;
  }

  function Elements(s: seq<nat>): set<nat> {
    set n | n in s
  }

  lemma {:induction false} RestoreNss(d: Driver, nss: seq<nat>)
    requires forall i :: 0 <= i < |nss| ==> nss[i] in d.nss
    ensures RestoreAll(d, NsEntries(nss)) == Tried(d.(nsOn := d.nsOn + Elements(nss)), true)
    decreases |nss|
  {
    if nss == [] {
      assert d.nsOn + {} == d.nsOn;
    } else {
      var before, n := nss[..|nss| - 1], nss[|nss| - 1];
      RestoreNss(d, before);
      RestoreSnoc(d, NsEntries(before), CtxNs(n));
      assert nss == before + [n];
      assert d.nsOn + Elements(before) + {n} == d.nsOn + Elements(nss);
    }
  }

  /** The namespaces in `ns` are known and on besides those that were, and nothing else has changed. */
  ghost predicate NssAdded(d: Driver, r: Driver, ns: set<nat>) {
    && r == d.(nss := r.nss, nsOn := r.nsOn) && r.nsOn == d.nsOn + ns
    && d.nss <= r.nss && Elements(r.nss) == Elements(d.nss) + ns
  }

  lemma InitNsAdds(d: Driver, n: nat)
    ensures RestoreOne(d, CtxNs(n)).ok && NssAdded(d, RestoreOne(d, CtxNs(n)).d, {n})
  {
    if n !in d.nss {
      assert Elements(d.nss + [n]) == Elements(d.nss) + {n};
    } else {
      assert Elements(d.nss) == Elements(d.nss) + {n};
    }
  }

  lemma NssAddedChain(d: Driver, m: Driver, r: Driver, a: set<nat>, b: set<nat>)
    requires NssAdded(d, m, a) && NssAdded(m, r, b)
    ensures NssAdded(d, r, a + b)
  {
    assert d.nsOn + (a + b) == (d.nsOn + a) + b;
    assert Elements(d.nss) + (a + b) == (Elements(d.nss) + a) + b;
  }

  lemma OneMoreNs(d: Driver, cs: seq<Ctx>, m: Tried, n: nat, ns: set<nat>)
    requires m == RestoreAll(d, cs) && m.ok && NssAdded(d, m.d, ns)
    ensures var t := RestoreAll(d, cs + [CtxNs(n)]); t.ok && NssAdded(d, t.d, ns + {n})
  {
    RestoreSnoc(d, cs, CtxNs(n));
    InitNsAdds(m.d, n);
    NssAddedChain(d, m.d, RestoreOne(m.d, CtxNs(n)).d, ns, {n});
  }

  /** Whether or not the driver still knew them, the namespaces of a list are known and on afterwards. */
  lemma {:induction false} NssComeBack(d: Driver, nss: seq<nat>)
    ensures RestoreAll(d, NsEntries(nss)).ok && NssAdded(d, RestoreAll(d, NsEntries(nss)).d, Elements(nss))
    decreases |nss|
  {
    if nss == [] {
      assert d.nsOn + {} == d.nsOn && Elements(d.nss) + {} == Elements(d.nss);
    } else {
      var before, n := nss[..|nss| - 1], nss[|nss| - 1];
      NssComeBack(d, before);
      OneMoreNs(d, NsEntries(before), RestoreAll(d, NsEntries(before)), n, Elements(before));
      assert nss == before + [n];
      assert Elements(nss) == Elements(before) + {n};
    }
  }

  /** A saved queue is created anew with its parameters. */
  lemma RestoreCq(d: Driver, q: nat, c: Cq)
    requires 0 in d.sqs && -1 <= c.vector < d.nrIrqs && !CqBusy(d, q)
    ensures RestoreOne(d, CqEntry(q, c))
        == Tried(d.(cqs := d.cqs[q := MadeCq(c, CqRefs(d.cqs, q))], log := d.log + [CqMade(q)]), true)
  {
  }

  lemma RestoreSq(d: Driver, q: nat, s: Sq)
    requires d.state == ENABLED && 0 in d.sqs && s.cqid in d.cqs && !SqBusy(d, q)
    ensures RestoreOne(d, SqEntry(q, s))
        == Tried(d.(sqs := d.sqs[q := MadeSq(s, SqRefs(d.sqs, q))], log := d.log + [SqMade(q, s.cqid)]), true)
  {
  }

  lemma Extends<T>(log: seq<T>, es: seq<T>, e: T)
    ensures (log + es) + [e] == log + (es + [e]) && es + [] == es
  {
  }

  lemma {:induction false} RestoreCqs(d: Driver, src: map<nat, Cq>, n: nat)
    requires 0 in d.sqs && forall q :: q in src && 0 < q < n ==> -1 <= src[q].vector < d.nrIrqs
    requires forall q :: q in d.cqs && q > 0 ==> !d.cqs[q].enabled
    ensures RestoreAll(d, CqEntries(src, n))
        == Tried(d.(cqs := TakeCqs(d.cqs, src, n), log := d.log + CqEvents(src, n)), true)
  {
    if n <= 1 {
      assert d.log + [] == d.log;
    } else {
      RestoreCqs(d, src, n - 1);
      Extends(d.log, CqEvents(src, n - 1), CqMade(n - 1));
      if n - 1 in src {
        var m := RestoreAll(d, CqEntries(src, n - 1)).d;
        TakeCqsAt(d.cqs, src, n - 1, n - 1);
        RestoreCq(m, n - 1, src[n - 1]);
        RestoreSnoc(d, CqEntries(src, n - 1), CqEntry(n - 1, src[n - 1]));
      } else {
        assert CqEntries(src, n) == CqEntries(src, n - 1);
      }
    }
  }

  lemma {:induction false} RestoreSqs(d: Driver, src: map<nat, Sq>, n: nat)
    requires d.state == ENABLED && 0 in d.sqs && forall q :: q in src && 0 < q < n ==> src[q].cqid in d.cqs
    requires forall q :: q in d.sqs && q > 0 ==> !d.sqs[q].enabled
    ensures RestoreAll(d, SqEntries(src, n))
        == Tried(d.(sqs := TakeSqs(d.sqs, src, n), log := d.log + SqEvents(src, n)), true)
  {
    if n <= 1 {
      assert d.log + [] == d.log;
    } else {
      RestoreSqs(d, src, n - 1);
      if n - 1 in src {
        var m := RestoreAll(d, SqEntries(src, n - 1)).d;
        Extends(d.log, SqEvents(src, n - 1), SqMade(n - 1, src[n - 1].cqid));
        TakeSqsAt(d.sqs, src, n - 1, n - 1);
        TakeSqsAt(d.sqs, src, n - 1, 0);
        RestoreSq(m, n - 1, src[n - 1]);
        RestoreSnoc(d, SqEntries(src, n - 1), SqEntry(n - 1, src[n - 1]));
      } else {
        assert SqEntries(src, n) == SqEntries(src, n - 1) && SqEvents(src, n) == SqEvents(src, n - 1);
      }
    }
  }

  lemma AqaRoundTrip(sqSize: nat, cqSize: nat)
    requires 1 <= sqSize <= 0x1000 && 1 <= cqSize <= 0x1000
    ensures AsqSize(Aqa(sqSize, cqSize)) == sqSize && AcqSize(Aqa(sqSize, cqSize)) == cqSize
  {
    ModUnique(Aqa(sqSize, cqSize), 0x1000, 0x10 * (cqSize - 1), sqSize - 1);
    assert Aqa(sqSize, cqSize) / 0x1_0000 == cqSize - 1;
  }

  /** The driver after its first snapshot entry has been restored. */
  function AdminUp(d: Driver, f: Driver): Driver
    requires 0 in d.cqs && 0 in d.sqs
  {
    f.(state := ENABLED, settings := d.settings.(css := 0), aqa := d.aqa,
       cqs := f.cqs[0 := MadeCq(d.cqs[0], CqRefs(f.cqs, 0))], sqs := f.sqs[0 := MadeSq(d.sqs[0], SqRefs(f.sqs, 0))],
       log := [CqMade(0), SqMade(0, 0), Enabled])
  }

  lemma RestoreCtrl(d: Driver, f: Driver)
    requires WellFormed(d) && f.state == DISABLED && f.nrIrqs == d.nrIrqs && f.log == []
    requires !CqBusy(f, 0) && !SqBusy(f, 0)
    ensures RestoreAll(f, [CtrlEntry(d)]) == Tried(AdminUp(d, f), true)
  {
    AqaRoundTrip(d.sqs[0].qsize, d.cqs[0].qsize);
    RestoreSnoc(f, [], CtrlEntry(d));
    assert [] + [CtrlEntry(d)] == [CtrlEntry(d)];
    var t := RestoreOne(f, CtrlEntry(d));
    assert t.d.cqs == AdminUp(d, f).cqs && t.d.sqs == AdminUp(d, f).sqs;
  }

  /** A put and a new claim: a queue that the driver had deleted takes over the reference of a holder. */
  function Renewed(r: Refs): Refs {
    if r.claims > 0 then r else Refs(1, if r.holders > 0 then r.holders - 1 else 0)
  }

  function OnCq(c: Cq): Cq {
    c.(enabled := true, refs := Renewed(c.refs))
  }

  function OnSq(s: Sq): Sq {
    s.(enabled := true, refs := Renewed(s.refs))
  }

  /** Everything as before: every queue with its parameters, enabled; only the command set selection is gone. */
  function Rebuilt(d: Driver): Driver
    requires 0 in d.cqs && 0 in d.sqs
  {
    d.(settings := d.settings.(css := 0),
       cqs := map q | q in d.cqs :: OnCq(d.cqs[q]), sqs := map q | q in d.sqs :: OnSq(d.sqs[q]),
       nsOn := Elements(d.nss),
       log := [CqMade(0), SqMade(0, 0), Enabled] + CqEvents(d.cqs, d.nrCqs) + SqEvents(d.sqs, d.nrSqs))
  }

  /** Whether the instance survives the put or a new one takes its place. */
  lemma PutThenClaim(r: Refs)
    requires Referred(r)
    ensures Claimed(if Survives(r) then Put(r) else Refs(0, 0)) == Renewed(r)
  {
  }

  lemma TakenCqs(d: Driver)
    requires WellFormed(d)
    ensures TakeCqs(AdminUp(d, Freed(Reset(d))).cqs, d.cqs, d.nrCqs) == Rebuilt(d).cqs
  {
    var f := Freed(Reset(d));
    var base, r := AdminUp(d, f).cqs, Rebuilt(d).cqs;
    var m := TakeCqs(base, d.cqs, d.nrCqs);
    forall q: nat ensures (q in m <==> q in r) && (q in m ==> m[q] == r[q]) {
      TakeCqsAt(base, d.cqs, d.nrCqs, q);
      if q in d.cqs {
        PutThenClaim(d.cqs[q].refs);
      }
    }
  }

  lemma TakenSqs(d: Driver)
    requires WellFormed(d)
    ensures TakeSqs(AdminUp(d, Freed(Reset(d))).sqs, d.sqs, d.nrSqs) == Rebuilt(d).sqs
  {
    var f := Freed(Reset(d));
    var base, r := AdminUp(d, f).sqs, Rebuilt(d).sqs;
    var m := TakeSqs(base, d.sqs, d.nrSqs);
    forall q: nat ensures (q in m <==> q in r) && (q in m ==> m[q] == r[q]) {
      TakeSqsAt(base, d.sqs, d.nrSqs, q);
      if q in d.sqs {
        PutThenClaim(d.sqs[q].refs);
      }
    }
  }

  /** The driver when the queue entries are next. */
  function NssUp(d: Driver, f: Driver): Driver
    requires 0 in d.cqs && 0 in d.sqs
  {
    AdminUp(d, f).(nsOn := Elements(d.nss))
  }

  lemma RestoreToNss(d: Driver, f: Driver)
    requires WellFormed(d) && f.state == DISABLED && f.nrIrqs == d.nrIrqs && f.log == [] && f.nss == d.nss
        && f.nsOn == {}
    requires !CqBusy(f, 0) && !SqBusy(f, 0)
    ensures RestoreAll(f, [CtrlEntry(d)] + NsEntries(d.nss)) == Tried(NssUp(d, f), true)
  {
    RestoreCtrl(d, f);
    RestoreNss(AdminUp(d, f), d.nss);
    assert {} + Elements(d.nss) == Elements(d.nss);
    RestoreConcat(f, [CtrlEntry(d)], NsEntries(d.nss));
  }

  /** The driver when the submission queue entries are next. */
  function CqsUp(d: Driver): Driver
    requires 0 in d.cqs && 0 in d.sqs
  {
    var b := NssUp(d, Freed(Reset(d)));
    b.(cqs := Rebuilt(d).cqs, log := b.log + CqEvents(d.cqs, d.nrCqs))
  }

  lemma RestoreToCqs(d: Driver)
    requires WellFormed(d)
    ensures RestoreAll(Freed(Reset(d)), [CtrlEntry(d)] + NsEntries(d.nss) + CqEntries(d.cqs, d.nrCqs))
         == Tried(CqsUp(d), true)
  {
    var f := Freed(Reset(d));
    var b := NssUp(d, f);
    RestoreToNss(d, f);
    RestoreCqs(b, d.cqs, d.nrCqs);
    TakenCqs(d);
    RestoreConcat(f, [CtrlEntry(d)] + NsEntries(d.nss), CqEntries(d.cqs, d.nrCqs));
  }

  /** Snapshot, reset, free and restore, whoever else holds references to the queues. */
  lemma RestoreRebuilds(d: Driver)
    requires WellFormed(d)
    ensures RestoreAll(Freed(Reset(d)), Snapshot(d)) == Tried(Rebuilt(d), true)
  {
    RestoreToCqs(d);
    RestoreSqs(CqsUp(d), d.sqs, d.nrSqs);
    TakenSqs(d);
    RestoreConcat(Freed(Reset(d)), [CtrlEntry(d)] + NsEntries(d.nss) + CqEntries(d.cqs, d.nrCqs),
        SqEntries(d.sqs, d.nrSqs));
  }

  /** Every setting comes back exactly if the command set selection was zero. */
  lemma SettingsComeBackIff(d: Driver)
    requires WellFormed(d)
    ensures RestoreAll(Freed(Reset(d)), Snapshot(d)).d.settings == d.settings <==> d.settings.css == 0
  {
    RestoreRebuilds(d);
  }

  /** The driver has a claim on every queue: none was deleted and is only held outside. */
  ghost predicate AllClaimed(d: Driver) {
    (forall q :: q in d.cqs ==> d.cqs[q].refs.claims > 0) && (forall q :: q in d.sqs ==> d.sqs[q].refs.claims > 0)
  }

  ghost predicate SameRefs(d: Driver, r: Driver) {
    && (forall q :: q in d.cqs ==> q in r.cqs && r.cqs[q].refs == d.cqs[q].refs)
    && (forall q :: q in d.sqs ==> q in r.sqs && r.sqs[q].refs == d.sqs[q].refs)
  }

  /**
   * Every reference comes back exactly if no queue was deleted while it was held: such a queue is in the snapshot,
   * loses a holder's reference to the reset, and comes back as one of the driver's.
   */
  lemma RefsComeBackIff(d: Driver)
    requires WellFormed(d)
    ensures SameRefs(d, RestoreAll(Freed(Reset(d)), Snapshot(d)).d) <==> AllClaimed(d)
  {
    RestoreRebuilds(d);
    var r := Rebuilt(d);
    forall q ensures q in d.cqs ==> q in r.cqs && (r.cqs[q].refs == d.cqs[q].refs <==> d.cqs[q].refs.claims > 0) {
    }
    forall q ensures q in d.sqs ==> q in r.sqs && (r.sqs[q].refs == d.sqs[q].refs <==> d.sqs[q].refs.claims > 0) {
    }
  }

  // ----- when restoration fails -----

  /**
   * When an entry is refused, and what is left: everything as it was, except that a controller whose submission queue
   * cannot be made is left without the completion queue of the pair.
   */
  lemma RestoreOneIff(d: Driver, c: Ctx)
    ensures c.CtxNs? ==> RestoreOne(d, c).ok
    ensures c.CtxCq? ==>
              var off := c.qid in d.cqs ==> !d.cqs[c.qid].enabled;
              (RestoreOne(d, c).ok <==> c.vector < d.nrIrqs && 0 in d.sqs && off)
    ensures c.CtxSq? ==>
              var off := c.qid in d.sqs ==> !d.sqs[c.qid].enabled;
              (RestoreOne(d, c).ok <==> d.state == ENABLED && 0 in d.sqs && c.cqid in d.cqs && off)
    ensures c.CtxCtrl? ==>
              var ready := d.state == DISABLED && (0 in d.cqs ==> !d.cqs[0].enabled);
              var off, sized := 0 in d.sqs ==> !d.sqs[0].enabled, 1 <= c.sqSize <= 0x1_0000 && 1 <= c.cqSize;
              && (RestoreOne(d, c).ok <==> ready && off && sized)
              && (ready && !(off && sized) ==> RestoreOne(d, c).d == d.(cqs := d.cqs - {0}))
              && (!ready ==> RestoreOne(d, c).d == d)
    ensures !c.CtxCtrl? && !RestoreOne(d, c).ok ==> RestoreOne(d, c).d == d
  {
  }

  /** The list is replayed up to its first entry that is refused, and no further. */
  lemma {:induction false} RestoreStops(d: Driver, cs: seq<Ctx>) returns (k: nat)
    ensures k <= |cs| && RestoreAll(d, cs[..k]).ok
    ensures RestoreAll(d, cs).ok <==> k == |cs|
    ensures k < |cs| ==> !RestoreOne(RestoreAll(d, cs[..k]).d, cs[k]).ok
    ensures k < |cs| ==> RestoreAll(d, cs) == RestoreOne(RestoreAll(d, cs[..k]).d, cs[k])
    decreases |cs|
  {
    if cs == [] {
      k := 0;
    } else {
      var before := cs[..|cs| - 1];
      k := RestoreStops(d, before);
      assert before[..k] == cs[..k];
      if k == |before| && RestoreAll(d, cs).ok {
        k := |cs|;
        assert cs[..k] == cs;
      } else if k == |before| {
        assert before[..k] == before;
      }
    }
  }

  ghost predicate VectorsThere(d: Driver, src: map<nat, Cq>, n: nat) {
    forall q :: q in src && 0 < q < n ==> src[q].vector < d.nrIrqs
  }

  /** A queue without its vector, or without its completion queue, is not made. */
  lemma StopsAt(d: Driver, cs: seq<Ctx>, m: Tried, c: Ctx)
    requires m == RestoreAll(d, cs)
    requires !m.ok || (c.CtxCq? && c.vector >= m.d.nrIrqs) || (c.CtxSq? && c.cqid !in m.d.cqs)
    ensures !RestoreAll(d, cs + [c]).ok
  {
    RestoreSnoc(d, cs, c);
  }

  lemma {:induction false} CqsStop(d: Driver, src: map<nat, Cq>, n: nat)
    requires 0 in d.sqs && forall q :: q in d.cqs && q > 0 ==> !d.cqs[q].enabled
    requires forall q :: q in src && 0 < q < n ==> -1 <= src[q].vector
    requires !VectorsThere(d, src, n)
    ensures !RestoreAll(d, CqEntries(src, n)).ok
    decreases n
  {
    var before := CqEntries(src, n - 1);
    if VectorsThere(d, src, n - 1) {
      RestoreCqs(d, src, n - 1);
      StopsAt(d, before, RestoreAll(d, before), CqEntry(n - 1, src[n - 1]));
    } else {
      CqsStop(d, src, n - 1);
      if n - 1 in src {
        StopsAt(d, before, RestoreAll(d, before), CqEntry(n - 1, src[n - 1]));
      } else {
        assert CqEntries(src, n) == before;
      }
    }
  }

  /** The completion queues come back exactly if the controller still has a vector for each of them. */
  lemma CqsComeBackIff(d: Driver, src: map<nat, Cq>, n: nat)
    requires 0 in d.sqs && forall q :: q in d.cqs && q > 0 ==> !d.cqs[q].enabled
    requires forall q :: q in src && 0 < q < n ==> -1 <= src[q].vector
    ensures RestoreAll(d, CqEntries(src, n)).ok <==> forall q :: q in src && 0 < q < n ==> src[q].vector < d.nrIrqs
  {
    if VectorsThere(d, src, n) {
      RestoreCqs(d, src, n);
    } else {
      CqsStop(d, src, n);
    }
  }

  ghost predicate CqsThere(d: Driver, src: map<nat, Sq>, n: nat) {
    forall q :: q in src && 0 < q < n ==> src[q].cqid in d.cqs
  }

  lemma {:induction false} SqsStop(d: Driver, src: map<nat, Sq>, n: nat)
    requires d.state == ENABLED && 0 in d.sqs && forall q :: q in d.sqs && q > 0 ==> !d.sqs[q].enabled
    requires !CqsThere(d, src, n)
    ensures !RestoreAll(d, SqEntries(src, n)).ok
    decreases n
  {
    var before := SqEntries(src, n - 1);
    if CqsThere(d, src, n - 1) {
      RestoreSqs(d, src, n - 1);
      StopsAt(d, before, RestoreAll(d, before), SqEntry(n - 1, src[n - 1]));
    } else {
      SqsStop(d, src, n - 1);
      if n - 1 in src {
        StopsAt(d, before, RestoreAll(d, before), SqEntry(n - 1, src[n - 1]));
      } else {
        assert SqEntries(src, n) == before;
      }
    }
  }

  /** The submission queues come back exactly if the completion queue of each is there. */
  lemma SqsComeBackIff(d: Driver, src: map<nat, Sq>, n: nat)
    requires d.state == ENABLED && 0 in d.sqs && forall q :: q in d.sqs && q > 0 ==> !d.sqs[q].enabled
    ensures RestoreAll(d, SqEntries(src, n)).ok <==> forall q :: q in src && 0 < q < n ==> src[q].cqid in d.cqs
  {
    if CqsThere(d, src, n) {
      RestoreSqs(d, src, n);
    } else {
      SqsStop(d, src, n);
    }
  }

  // ----- in a legal order -----

  lemma {:induction false} CqEventsAt(cqs: map<nat, Cq>, n: nat)
    ensures forall q :: 0 < q < n && q in cqs ==> CqMade(q) in CqEvents(cqs, n)
    ensures forall e :: e in CqEvents(cqs, n) ==> e.CqMade?
  {
    if n > 1 {
      CqEventsAt(cqs, n - 1);
    }
  }

  lemma {:induction false} SqEventsAt(sqs: map<nat, Sq>, n: nat)
    ensures forall e :: e in SqEvents(sqs, n) ==>
        e.SqMade? && e.qid in sqs && 0 < e.qid < n && e.cqid == sqs[e.qid].cqid
  {
    if n > 1 {
      SqEventsAt(sqs, n - 1);
    }
  }

  /** No submission queue before its completion queue, and no I/O queue before the controller is enabled. */
  ghost predicate InOrder(log: seq<Event>) {
    forall i :: 0 <= i < |log| ==>
      && (log[i].SqMade? ==> CqMade(log[i].cqid) in log[..i])
      && (!log[i].Enabled? && log[i].qid != 0 ==> Enabled in log[..i])
  }

  lemma RebuiltInOrder(d: Driver)
    requires WellFormed(d)
    ensures InOrder(Rebuilt(d).log)
  {
    CqEventsAt(d.cqs, d.nrCqs);
    SqEventsAt(d.sqs, d.nrSqs);
    var head, cs, ss := [CqMade(0), SqMade(0, 0), Enabled], CqEvents(d.cqs, d.nrCqs), SqEvents(d.sqs, d.nrSqs);
    var log := head + cs + ss;
    forall i | 0 <= i < |log|
      ensures log[i].SqMade? ==> CqMade(log[i].cqid) in log[..i]
      ensures !log[i].Enabled? && log[i].qid != 0 ==> Enabled in log[..i]
    {
      if i >= 3 {
        assert log[..i][2] == Enabled;
      }
      if i > 0 {
        assert log[..i][0] == CqMade(0);
      }
      if 3 <= i < 3 + |cs| {
        assert log[i] == cs[i - 3] && cs[i - 3] in cs;
      } else if 3 <= i {
        assert log[i] == ss[i - 3 - |cs|];
        assert log[..i] == head + cs + ss[..i - 3 - |cs|];
        assert log[i].cqid != 0 ==> CqMade(log[i].cqid) in cs;
      }
    }
  }
}
