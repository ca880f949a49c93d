/**
 * Commands of one submission queue, one operation at a time: the id bitmap, the request tokens that libvfn
 * hands out, the shared conflict slot, and the reference counts that decide when a command is given back.
 */
module CommandPool {
  import opened Options
  import opened Bits
  import opened CommandStates

  /** Every id below n. */
  function Below(n: nat): (s: set<nat>)
    ensures |s| == n
    ensures forall c :: c in s <==> 0 <= c < n
  {
    if n == 0 then {} else Below(n - 1) + {n - 1}
  }

  /** The ids of byte i below c are all in use. */
  ghost predicate InUse(used: set<nat>, i: nat, c: nat) {
    forall k: nat :: k < c && k / 8 == i ==> k in used
  }

  /** c is the lowest free id of its byte; if that is not the hinted one, which is then full, c is the lowest of all. */
  ghost predicate IsLowest(used: set<nat>, hint: nat, size: nat, c: nat) {
    InUse(used, c / 8, c) && (c / 8 != hint ==> InUse(used, hint, size) && forall k: nat :: k < c ==> k in used)
  }

  lemma LowestOfAll(used: set<nat>, i: nat, size: nat, c: nat)
    requires c < size && c / 8 == i && InUse(used, i, c) && forall k :: 0 <= k < i ==> InUse(used, k, size)
    ensures forall k: nat :: k < c ==> k in used
  {
    forall k: nat | k < c ensures k in used {
      assert k / 8 < i ==> InUse(used, k / 8, size);
    }
  }

  lemma LowestInByte(bits: seq<bv8>, i: nat, j: nat, used: set<nat>, size: nat)
    requires i < |bits| && j < 8 && j == FirstZero(bits[i], 0) && i * 8 + j <= size
    requires forall c: nat :: c < size && c / 8 < |bits| ==> (c in used <==> Has(bits, c))
    ensures InUse(used, i, i * 8 + j)
  {
  }

  lemma FullByte(bits: seq<bv8>, i: nat, used: set<nat>, size: nat)
    requires i < |bits| && FirstZero(bits[i], 0) == 8
    requires forall c: nat :: c < size && c / 8 < |bits| ==> (c in used <==> Has(bits, c))
    ensures InUse(used, i, size)
  {
  }

  class Bitmap {
    const size: nat
    const bits: array<bv8>
    var top: nat

    /** The padding bits of the last byte are always set. */
    ghost predicate Valid()
      reads this, bits
    {
      && size >= 1 && bits.Length == (size + 7) / 8 && top < bits.Length
      && (forall c: nat :: c / 8 < bits.Length && size <= c ==> Has(bits[..], c))
    }

    /** The ids in use. */
    ghost function Used(): set<nat>
      requires bits.Length == (size + 7) / 8
      reads this, bits
    {
      set c: nat | c < size && Has(bits[..], c)
    }

    /** unvmed_cid_init. */
    constructor (n: nat)
      requires n >= 1
      ensures Valid() && size == n && Used() == {} && fresh(bits)
    {
      size := n;
      bits := new bv8[(n + 7) / 8](_ => 0);
      top := 0;
      new;
      if n % 8 != 0 {
        bits[bits.Length - 1] := High(n % 8);
      }
      forall c: nat | c / 8 < bits.Length
        ensures Has(bits[..], c) <==> n <= c
      {
        if c / 8 == bits.Length - 1 && n % 8 != 0 {
          HighBits(n % 8, c % 8);
        }
      }
    }

    /** One successful compare-and-swap. */
    method Take(i: nat, j: nat)
      requires Valid() && i < bits.Length && j < 8 && !Bit(bits[i], j)
      modifies bits
      ensures Valid() && i * 8 + j < size && i * 8 + j !in old(Used())
      ensures Used() == old(Used()) + {i * 8 + j}
    {
      var c := i * 8 + j;
      assert c / 8 == i && c % 8 == j;
      assert !Has(bits[..], c);
      ghost var was := bits[..];
      bits[i] := WithBit(bits[i], j);
      assert bits[..] == was[i := WithBit(was[i], j)];
      forall k: nat | k / 8 < bits.Length
        ensures Has(bits[..], k) <==> Has(was, k) || k == c
      {
        SetOne(was, i, j, k);
      }
    }

    /** The lowest free id of one byte, if it has one. */
    method AllocIn(i: nat) returns (cid: Option<nat>)
      requires Valid() && i < bits.Length
      modifies bits
      ensures Valid()
      ensures cid.Some? ==> cid.value / 8 == i && cid.value < size && cid.value !in old(Used())
      ensures cid.Some? ==> Used() == old(Used()) + {cid.value} && InUse(old(Used()), i, cid.value)
      ensures cid.None? ==> bits[..] == old(bits[..]) && InUse(old(Used()), i, size)
    {
      ghost var used := Used();
      var j := FirstZero(bits[i], 0);
      if j == 8 {
        FullByte(bits[..], i, used, size);
        return None;
      }
      ghost var was := bits[..];
      Take(i, j);
      LowestInByte(was, i, j, used, size);
      return Some(i * 8 + j);
    }

    /**
     * unvmed_cid_alloc: the lowest free id of the hinted byte, else the lowest of all, whose byte becomes the hint. It
     * fails only if every id is in use.
     */
    method Alloc() returns (cid: Option<nat>)
      requires Valid()
      modifies this`top, bits
      ensures Valid()
      ensures cid.Some? ==> cid.value < size && cid.value !in old(Used()) && Used() == old(Used()) + {cid.value}
      ensures cid.Some? ==> top == cid.value / 8 && IsLowest(old(Used()), old(top), size, cid.value)
      ensures cid.None? ==> Used() == old(Used()) == Below(size) && top == old(top)
    {
      ghost var used := Used();
      cid := AllocIn(top);
      if cid.Some? {
        return;
      }
      var i := 0;
      while i < bits.Length
        invariant 0 <= i <= bits.Length && Valid() && bits[..] == old(bits[..]) && top == old(top)
        invariant forall k :: 0 <= k < i ==> InUse(used, k, size)
      {
        cid := AllocIn(i);
        if cid.Some? {
          LowestOfAll(used, i, size, cid.value);
          top := i;
          return;
        }
        i := i + 1;
      }
      forall c: nat | c < size ensures c in used {
        assert InUse(used, c / 8, size);
      }
      assert Used() == Below(size);
      return None;
    }

    /** unvmed_cid_alloc_n: EINVAL beyond the size, EEXIST if taken. */
    method AllocN(cid: nat) returns (ok: bool)
      requires Valid()
      modifies bits
      ensures Valid()
      ensures ok <==> cid < size && cid !in old(Used())
      ensures Used() == if ok then old(Used()) + {cid} else old(Used())
    {
      if cid >= size || Bit(bits[cid / 8], cid % 8) {
        return false;
      }
      Take(cid / 8, cid % 8);
      return true;
    }

    /** unvmed_cid_free: clears one bit and no other. */
    method Free(cid: nat)
      requires Valid() && cid < size
      modifies bits
      ensures Valid() && Used() == old(Used()) - {cid}
    {
      ghost var was := bits[..];
      bits[cid / 8] := WithoutBit(bits[cid / 8], cid % 8);
      assert bits[..] == was[cid / 8 := WithoutBit(was[cid / 8], cid % 8)];
      forall k: nat | k / 8 < bits.Length
        ensures Has(bits[..], k) <==> Has(was, k) && k != cid
      {
        ClearOne(was, cid / 8, cid % 8, k);
      }
    }
  }

  /** The fields of a command that allocation and release touch; `injected` marks a conflict command. */
  datatype Cmd = Cmd(refcnt: nat, state: CmdState, cid: nat, vcq: nat, injected: bool)

  /** What memset leaves. */
  const CLEARED := Cmd(0, Init, 0, 0, false)

  datatype Error = EINVAL | EBUSY | ENORQ

  datatype AllocResult = Ok(slot: Slot) | Err(error: Error)

  // ----- what the operations do to the queue's bookkeeping -----

  /** `used` are the ids whose bit is set; `requests` counts the tokens taken from libvfn's pool of qsize - 1. */
  datatype Pool = Pool(qsize: nat, used: set<nat>, cmds: seq<Cmd>, conflict: Cmd, nrCmds: int, requests: nat) {
    predicate Shape() {
      qsize >= 2 && |cmds| == qsize && forall c :: c in used ==> c < qsize - 1
    }

    function At(slot: Slot): Cmd
      requires slot.Resident? ==> slot.cid < |cmds|
    {
      if slot.Conflict? then conflict else cmds[slot.cid]
    }

    predicate Live(slot: Slot) {
      if slot.Conflict? then conflict.refcnt > 0 else slot.cid in used
    }
  }

  /** The commands that are out: one per id in use, and the conflict command. */
  function Outstanding(p: Pool): nat {
    |p.used| + if p.conflict.refcnt > 0 then 1 else 0
  }

  /**
   * A slot is in use exactly if it is referenced, and only the conflict slot holds a conflict command, under an id of
   * the queue's.
   */
  ghost predicate SlotsOk(p: Pool)
    requires p.Shape()
  {
    && (forall c :: 0 <= c < p.qsize ==> (c in p.used <==> p.cmds[c].refcnt > 0))
    && (forall c :: 0 <= c < p.qsize && p.cmds[c].refcnt > 0 ==>
          p.cmds[c].cid == c && p.cmds[c].state != Init && !p.cmds[c].injected)
    && (forall c :: 0 <= c < p.qsize && p.cmds[c].refcnt == 0 ==> p.cmds[c].state == Init)
    && (p.conflict.refcnt > 0 <==> p.conflict.state != Init)
    && (p.conflict.refcnt > 0 ==> p.conflict.injected && p.conflict.cid < p.qsize - 1)
  }

  /** The conservation law: commands counted, ids and conflict slot in use, and requests taken agree. */
  ghost predicate Conserved(p: Pool) {
    && p.Shape() && SlotsOk(p)
    && p.nrCmds == Outstanding(p) == p.requests <= p.qsize - 1
  }

  /** A command takes the free id c, unless no request is left. */
  function Occupied(p: Pool, c: nat, vcq: nat): (Pool, AllocResult)
    requires p.Shape() && c < p.qsize
  {
    if p.requests >= p.qsize - 1 then (p, Err(ENORQ))
    else (p.(used := p.used + {c}, cmds := p.cmds[c := Cmd(1, Allocated, c, vcq, false)],
             nrCmds := p.nrCmds + 1, requests := p.requests + 1),
          Ok(Resident(c)))
  }

  /** A command with the taken id c enters the conflict slot; the bit stays with the resident command. */
  function Conflicting(p: Pool, c: nat, vcq: nat): (Pool, AllocResult) {
    if p.conflict.state != Init then (p, Err(EBUSY))
    else if p.requests >= p.qsize - 1 then (p, Err(ENORQ))
    else (p.(conflict := Cmd(1, Allocated, c, vcq, true), nrCmds := p.nrCmds + 1, requests := p.requests + 1),
          Ok(Conflict))
  }

  /** An explicit id: only one that is already taken leads to the conflict slot. */
  function AllocatedAt(p: Pool, c: nat, vcq: nat): (Pool, AllocResult)
    requires p.Shape()
  {
    if c >= p.qsize - 1 then (p, Err(EINVAL))
    else if c in p.used then Conflicting(p, c, vcq)
    else Occupied(p, c, vcq)
  }

  function Update(p: Pool, slot: Slot, cmd: Cmd): Pool
    requires slot.Resident? ==> slot.cid < |p.cmds|
  {
    if slot.Conflict? then p.(conflict := cmd) else p.(cmds := p.cmds[slot.cid := cmd])
  }

  /** The last reference is gone: the slot is cleared, the request returned, and the id unless it is a conflict. */
  function Released(p: Pool, slot: Slot): Pool
    requires slot.Resident? ==> slot.cid < |p.cmds|
    requires p.requests > 0
  {
    var cmd := p.At(slot);
    var q := Update(p, slot, CLEARED).(nrCmds := p.nrCmds - 1, requests := p.requests - 1);
    if cmd.injected then q else q.(used := q.used - {cmd.cid})
  }

  function AfterPut(p: Pool, slot: Slot): Pool
    requires p.Shape() && p.requests > 0
    requires slot.Resident? ==> slot.cid < |p.cmds|
    requires p.At(slot).refcnt > 0
  {
    var cmd := p.At(slot);
    var q := Update(p, slot, cmd.(refcnt := cmd.refcnt - 1));
    if cmd.refcnt == 1 then Released(q, slot) else q
  }

  // ----- what a caller is given -----

  /** No slot but one changes its command. */
  predicate OnlyAt(p: Pool, q: Pool, slot: Slot) {
    && |q.cmds| == |p.cmds| && (slot.Resident? ==> slot.cid < |p.cmds| && q.conflict == p.conflict)
    && forall c :: 0 <= c < |p.cmds| && slot != Resident(c) ==> q.cmds[c] == p.cmds[c]
  }

  /**
   * The caller is given a slot: its command has one reference and the caller's id and virtual queue. Only a resident
   * takes the id with it.
   */
  predicate Given(p: Pool, q: Pool, slot: Slot, cid: nat, vcq: nat) {
    && OnlyAt(p, q, slot) && (slot.Resident? ==> slot.cid == cid)
    && (var c := q.At(slot);
        c.refcnt == 1 && c.state == Allocated && c.cid == cid && c.vcq == vcq && (c.injected <==> slot.Conflict?))
    && q.used == p.used + (if slot.Conflict? then {} else {cid})
    && q.qsize == p.qsize && q.nrCmds == p.nrCmds + 1 && q.requests == p.requests + 1
  }

  /** When an allocation with an id succeeds, how it is refused otherwise, and what it gives. */
  lemma AllocAtIsExact(p: Pool, cid: nat, vcq: nat)
    requires p.Shape()
    ensures var (q, r) := AllocatedAt(p, cid, vcq);
            var blocked, spent := cid in p.used && p.conflict.state != Init, p.requests >= p.qsize - 1;
            && (r == Err(EINVAL) <==> cid >= p.qsize - 1)
            && (r == Err(EBUSY) <==> cid < p.qsize - 1 && blocked)
            && (r == Err(ENORQ) <==> cid < p.qsize - 1 && !blocked && spent)
            && (r.Err? ==> q == p)
            && (r.Ok? ==> r.slot == if cid in p.used then Conflict else Resident(cid))
            && (r.Ok? ==> Given(p, q, r.slot, cid, vcq))
  {
    assert p.used + {} == p.used;
  }

  /** A put drops one reference of one command, which is cleared with the last one and otherwise stays as it is. */
  lemma PutIsExact(p: Pool, slot: Slot)
    requires p.Shape() && p.requests > 0 && (slot.Resident? ==> slot.cid < |p.cmds|) && p.At(slot).refcnt > 0
    ensures var q, c := AfterPut(p, slot), p.At(slot);
            && OnlyAt(p, q, slot)
            && q.At(slot) == if c.refcnt == 1 then CLEARED else c.(refcnt := c.refcnt - 1)
  {
  }

  /** A command that is in use before and after an operation keeps its id, its virtual queue and its kind. */
  predicate SameCommand(p: Pool, q: Pool, slot: Slot) {
    && (slot.Resident? ==> slot.cid < |p.cmds| && slot.cid < |q.cmds|)
    && (var c, d := p.At(slot), q.At(slot); d.cid == c.cid && d.vcq == c.vcq && d.injected == c.injected)
  }

  lemma GivenKeepsCommand(p: Pool, q: Pool, to: Slot, cid: nat, vcq: nat, slot: Slot)
    requires p.Shape() && Given(p, q, to, cid, vcq) && p.Live(slot) && !p.Live(to)
    ensures SameCommand(p, q, slot)
  {
  }

  lemma PutKeepsCommand(p: Pool, at: Slot, slot: Slot)
    requires Conserved(p) && p.Live(at) && p.Live(slot)
    ensures p.requests > 0 && p.At(at).refcnt > 0
    ensures AfterPut(p, at).Live(slot) ==> SameCommand(p, AfterPut(p, at), slot)
  {
    PutKeeps(p, at);
    PutIsExact(p, at);
  }

  lemma AllocKeepsCommand(p: Pool, cid: nat, vcq: nat, slot: Slot)
    requires Conserved(p) && p.Live(slot)
    ensures SameCommand(p, AllocatedAt(p, cid, vcq).0, slot)
  {
    AllocAtIsExact(p, cid, vcq);
    var (q, r) := AllocatedAt(p, cid, vcq);
    if r.Ok? {
      GivenKeepsCommand(p, q, r.slot, cid, vcq, slot);
    }
  }

  lemma ApplyKeepsCommand(p: Pool, op: Op, slot: Slot)
    requires Conserved(p) && Allowed(p, op) && p.Live(slot)
    ensures op.Put? ==> p.requests > 0 && p.At(op.slot).refcnt > 0
    ensures Apply(p, op).Live(slot) ==> SameCommand(p, Apply(p, op), slot)
  {
    match op
    case Put(at) => PutKeepsCommand(p, at, slot);
    case AllocAt(cid, vcq) => AllocKeepsCommand(p, cid, vcq, slot);
    case AllocAny(found, vcq) =>
      if found.Some? {
        AllocKeepsCommand(p, found.value, vcq, slot);
      }
    case _ =>
  }

  lemma LiveKeepsCommand(p: Pool, op: Op, slot: Slot)
    requires Conserved(p) && p.Live(slot) && Next(p, op).Live(slot)
    ensures SameCommand(p, Next(p, op), slot)
  {
    if Allowed(p, op) {
      ApplyKeepsCommand(p, op, slot);
    }
  }

  ghost predicate AlwaysLive(p: Pool, ops: seq<Op>, slot: Slot)
    decreases |ops|
  {
    p.Live(slot) && (ops != [] ==> AlwaysLive(Next(p, ops[0]), ops[1..], slot))
  }

  function Ran(p: Pool, ops: seq<Op>): Pool
    decreases |ops|
  {
    if ops == [] then p else Ran(Next(p, ops[0]), ops[1..])
  }

  /** So does one that is in use throughout a run: entries for the id it was given keep finding it. */
  lemma {:induction false} EveryRunKeepsCommands(p: Pool, ops: seq<Op>, slot: Slot)
    requires Conserved(p) && AlwaysTidy(p, ops) && AlwaysLive(p, ops, slot)
    ensures SameCommand(p, Ran(p, ops), slot)
    decreases |ops|
  {
    if ops != [] {
      var q := Next(p, ops[0]);
      if Allowed(p, ops[0]) {
        ApplyKeepsIff(p, ops[0]);
      }
      LiveKeepsCommand(p, ops[0], slot);
      EveryRunKeepsCommands(q, ops[1..], slot);
    }
  }

  // ----- the law holds through every operation -----

  lemma OccupiedKeeps(p: Pool, c: nat, vcq: nat)
    requires Conserved(p) && c < p.qsize - 1 && c !in p.used
    ensures Conserved(Occupied(p, c, vcq).0)
  {
  }

  lemma ConflictingKeeps(p: Pool, c: nat, vcq: nat)
    requires Conserved(p) && c in p.used
    ensures Conserved(Conflicting(p, c, vcq).0) && Conflicting(p, c, vcq).0.used == p.used
  {
  }

  /** Releasing a conflict command leaves the resident command, and its bit, alone. */
  lemma PutKeeps(p: Pool, slot: Slot)
    requires Conserved(p) && p.Live(slot)
    ensures p.requests > 0 && p.At(slot).refcnt > 0
    ensures Conserved(AfterPut(p, slot))
    ensures slot.Conflict? ==> AfterPut(p, slot).used == p.used && AfterPut(p, slot).cmds == p.cmds
    ensures slot.Resident? ==> AfterPut(p, slot).conflict == p.conflict
    ensures slot.Resident? ==>
              AfterPut(p, slot).used == if p.At(slot).refcnt == 1 then p.used - {slot.cid} else p.used
  {
    if slot.Resident? {
      assert p.used == (p.used - {slot.cid}) + {slot.cid};
    }
  }

  /**
   * unvmed_init_usq on an instance that is still there: a new queue with all its requests, no command counted, and the
   * bitmap and the command structures as they were.
   */
  function Reinitialised(p: Pool, qsize: nat): Pool {
    p.(qsize := qsize, nrCmds := 0, requests := 0)
  }

  /** Commands counted, ids and conflict slot in use, and requests taken agree. */
  predicate Counted(p: Pool) {
    p.nrCmds == Outstanding(p) == p.requests
  }

  /** The counts survive exactly if no command is out; the structures match the queue exactly if its size stays. */
  lemma ReinitKeepsIff(p: Pool, qsize: nat)
    requires Conserved(p)
    ensures Counted(Reinitialised(p, qsize)) <==> Outstanding(p) == 0
    ensures Conserved(Reinitialised(p, qsize)) <==> Outstanding(p) == 0 && qsize == p.qsize
  {
  }

  /** What callers do to a queue: `AllocAny` is given the id the bitmap search finds, None if there is none. */
  datatype Op =
    | AllocAny(found: Option<nat>, vcq: nat)
    | AllocAt(cid: nat, vcq: nat)
    | Get(cid: nat)
    | Put(slot: Slot)
    | Become(slot: Slot, state: CmdState)
    | Reinit(qsize: nat)

  /** A caller puts what it holds, moves commands through their life, and never back to Init. */
  predicate Allowed(p: Pool, op: Op) {
    match op
    case AllocAny(found, _) => found.Some? ==> found.value < p.qsize - 1 && found.value !in p.used
    case AllocAt(_, _) => true
    case Get(cid) => cid < p.qsize
    case Put(slot) => p.Live(slot)
    case Become(slot, state) => p.Live(slot) && state != Init
    case Reinit(qsize) => true
  }

  function Apply(p: Pool, op: Op): Pool
    requires p.Shape() && Allowed(p, op)
    requires op.Put? ==> p.requests > 0 && p.At(op.slot).refcnt > 0
  {
    match op
    case AllocAny(found, vcq) => if found.None? then p else Occupied(p, found.value, vcq).0
    case AllocAt(cid, vcq) => AllocatedAt(p, cid, vcq).0
    case Get(cid) =>
      if p.cmds[cid].refcnt > 0 then
        Update(p, Resident(cid), p.cmds[cid].(refcnt := p.cmds[cid].refcnt + 1))
      else p
    case Put(slot) => AfterPut(p, slot)
    case Become(slot, state) => Update(p, slot, p.At(slot).(state := state))
    case Reinit(qsize) => Reinitialised(p, qsize)
  }

  /** A queue instance is re-initialised only in its old size and with no command out. */
  predicate Tidy(p: Pool, op: Op) {
    op.Reinit? ==> Outstanding(p) == 0 && op.qsize == p.qsize
  }

  lemma ApplyKeepsIff(p: Pool, op: Op)
    requires Conserved(p) && Allowed(p, op)
    ensures op.Put? ==> p.requests > 0 && p.At(op.slot).refcnt > 0
    ensures Conserved(Apply(p, op)) <==> Tidy(p, op)
  {
    match op
    case Reinit(qsize) => ReinitKeepsIff(p, qsize);
    case AllocAny(found, vcq) => if found.Some? { OccupiedKeeps(p, found.value, vcq); }
    case AllocAt(cid, vcq) =>
      if cid in p.used {
        ConflictingKeeps(p, cid, vcq);
      } else if cid < p.qsize - 1 {
        OccupiedKeeps(p, cid, vcq);
      }
    case Put(slot) => PutKeeps(p, slot);
    case _ =>
  }

  /** Operations that a caller may not do are skipped. */
  function Next(p: Pool, op: Op): Pool {
    var ready := p.Shape() && Allowed(p, op) && (op.Put? ==> p.requests > 0 && p.At(op.slot).refcnt > 0);
    if ready then Apply(p, op) else p
  }

  /** The law holds in every state that a run passes through. */
  ghost predicate AlwaysConserved(p: Pool, ops: seq<Op>)
    decreases |ops|
  {
    Conserved(p) && (ops != [] ==> AlwaysConserved(Next(p, ops[0]), ops[1..]))
  }

  ghost predicate AlwaysTidy(p: Pool, ops: seq<Op>)
    decreases |ops|
  {
    ops != [] ==> Tidy(p, ops[0]) && AlwaysTidy(Next(p, ops[0]), ops[1..])
  }

  /**
   * Through every success and failure path of every run the law holds, if and only if no instance is re-initialised
   * with a command out or in another size.
   */
  lemma {:induction false} ConservedIff(p: Pool, ops: seq<Op>)
    requires Conserved(p)
    ensures AlwaysConserved(p, ops) <==> AlwaysTidy(p, ops)
    decreases |ops|
  {
    if ops != [] {
      var op, q := ops[0], Next(p, ops[0]);
      if Allowed(p, op) {
        ApplyKeepsIff(p, op);
      }
      if Conserved(q) {
        ConservedIff(q, ops[1..]);
      }
    }
  }

  lemma {:induction false} TidyWithoutReinit(p: Pool, ops: seq<Op>)
    requires forall i :: 0 <= i < |ops| ==> !ops[i].Reinit?
    ensures AlwaysTidy(p, ops)
    decreases |ops|
  {
    if ops != [] {
      TidyWithoutReinit(Next(p, ops[0]), ops[1..]);
    }
  }

  /** In the life of one queue, from one initialisation to the next, the law always holds. */
  lemma EveryRunConserves(p: Pool, ops: seq<Op>)
    requires Conserved(p) && forall i :: 0 <= i < |ops| ==> !ops[i].Reinit?
    ensures AlwaysConserved(p, ops)
  {
    TidyWithoutReinit(p, ops);
    ConservedIff(p, ops);
  }

  // ----- the operations -----

  class Commands {
    const qsize: nat
    const cids: Bitmap
    const cmds: array<Cmd>
    var conflict: Cmd
    var nrCmds: int
    var requests: nat

    ghost predicate Shape()
      reads this, cids, cids.bits
    {
      qsize >= 2 && cids.Valid() && cids.size == qsize - 1 && cmds.Length == qsize
    }

    ghost function State(): (p: Pool)
      requires Shape()
      reads this, cids, cids.bits, cmds
      ensures p.Shape()
    {
      Pool(qsize, cids.Used(), cmds[..], conflict, nrCmds, requests)
    }

    constructor (n: nat)
      requires n >= 2
      ensures Shape() && qsize == n && Conserved(State()) && nrCmds == 0
      ensures fresh(cids) && fresh(cids.bits) && fresh(cmds)
    {
      qsize := n;
      cids := new Bitmap(n - 1);
      cmds := new Cmd[n](_ => CLEARED);
      conflict, nrCmds, requests := CLEARED, 0, 0;
    }

    /** nvme_rq_acquire_atomic: fails when every token is taken. */
    method AcquireRequest() returns (ok: bool)
      modifies this`requests
      ensures ok <==> old(requests) < qsize - 1
      ensures requests == if ok then old(requests) + 1 else old(requests)
    {
      ok := requests < qsize - 1;
      if ok {
        requests := requests + 1;
      }
    }

    /** __unvmed_conflict_cmd_alloc. */
    method AllocConflict(cid: nat, vcq: nat) returns (r: AllocResult)
      requires Shape()
      modifies this`conflict, this`nrCmds, this`requests
      ensures Shape() && (State(), r) == Conflicting(old(State()), cid, vcq)
      ensures r.Ok? ==> r.slot == Conflict && Given(old(State()), State(), r.slot, cid, vcq)
    {
      if conflict.state != Init {
        return Err(EBUSY);
      }
      conflict := conflict.(state := Allocated);
      var ok := AcquireRequest();
      if !ok {
        conflict := conflict.(state := Init);
        return Err(ENORQ);
      }
      nrCmds := nrCmds + 1;
      conflict := Cmd(1, Allocated, cid, vcq, true);
      return Ok(Conflict);
    }

    /** The second half of __unvmed_cmd_alloc, with the id's bit just set: occupy it, or clear it again. */
    method Occupy(cid: nat, vcq: nat, ghost before: Pool) returns (r: AllocResult)
      requires Shape() && before.Shape() && cid < cids.size && cid !in before.used
      requires State() == before.(used := before.used + {cid})
      modifies this`nrCmds, this`requests, cids.bits, cmds
      ensures Shape() && (State(), r) == Occupied(before, cid, vcq)
    {
      var ok := AcquireRequest();
      if !ok {
        cids.Free(cid);
        assert cids.Used() == before.used;
        return Err(ENORQ);
      }
      nrCmds := nrCmds + 1;
      cmds[cid] := Cmd(1, Allocated, cid, vcq, false);
      return Ok(Resident(cid));
    }

    /** __unvmed_cmd_alloc without an id: EBUSY exactly if every id is in use. */
    method AllocAny(vcq: nat) returns (r: AllocResult)
      requires Shape()
      modifies this`nrCmds, this`requests, cids`top, cids.bits, cmds
      ensures Shape()
      ensures r == Err(EBUSY) <==> old(State()).used == Below(qsize - 1)
      ensures r == Err(EBUSY) ==> State() == old(State())
      ensures r != Err(EBUSY) ==> exists c :: 0 <= c < qsize - 1 && c !in old(State()).used
                                              && (State(), r) == Occupied(old(State()), c, vcq)
      ensures r.Ok? ==> r.slot.Resident? && r.slot.cid !in old(State()).used
      ensures r.Ok? ==> Given(old(State()), State(), r.slot, r.slot.cid, vcq)
    {
      ghost var before := State();
      var found := cids.Alloc();
      if found.None? {
        return Err(EBUSY);
      }
      r := Occupy(found.value, vcq, before);
    }

    /** __unvmed_cmd_alloc with an id. */
    method AllocAt(cid: nat, vcq: nat) returns (r: AllocResult)
      requires Shape()
      modifies this`conflict, this`nrCmds, this`requests, cids.bits, cmds
      ensures Shape() && (State(), r) == AllocatedAt(old(State()), cid, vcq)
      ensures r.Ok? ==> r.slot == (if cid in old(State()).used then Conflict else Resident(cid))
      ensures r.Ok? ==> Given(old(State()), State(), r.slot, cid, vcq)
    {
      AllocAtIsExact(State(), cid, vcq);
      ghost var before := State();
      var taken := cids.AllocN(cid);
      if taken {
        r := Occupy(cid, vcq, before);
      } else if cid < cids.size {
        r := AllocConflict(cid, vcq);
      } else {
        r := Err(EINVAL);
      }
    }

    /** unvmed_cmd_get: a command that nobody holds is not revived. */
    method Get(cid: nat) returns (ok: bool)
      requires Shape() && cid < qsize
      modifies cmds
      ensures Shape() && State() == Apply(old(State()), Op.Get(cid))
      ensures ok <==> old(cmds[cid]).refcnt > 0
      ensures OnlyAt(old(State()), State(), Resident(cid))
      ensures cmds[cid] == old(cmds[cid]).(refcnt := old(cmds[cid]).refcnt + if ok then 1 else 0)
    {
      ok := cmds[cid].refcnt > 0;
      if ok {
        cmds[cid] := cmds[cid].(refcnt := cmds[cid].refcnt + 1);
      }
    }

    method SetCmd(slot: Slot, cmd: Cmd)
      requires Shape() && (slot.Resident? ==> slot.cid < qsize)
      modifies this`conflict, cmds
      ensures Shape() && State() == Update(old(State()), slot, cmd)
    {
      if slot.Conflict? {
        conflict := cmd;
      } else {
        cmds[slot.cid] := cmd;
      }
    }

    /** __unvmed_cmd_free: whether the id goes back is decided before the command is cleared. */
    method Release(slot: Slot)
      requires Shape() && requests > 0 && (slot.Resident? ==> slot.cid < qsize)
      requires !State().At(slot).injected ==> State().At(slot).cid < cids.size
      modifies this`conflict, this`nrCmds, this`requests, cids.bits, cmds
      ensures Shape() && State() == Released(old(State()), slot)
    {
      var cmd := if slot.Conflict? then conflict else cmds[slot.cid];
      SetCmd(slot, CLEARED);
      nrCmds := nrCmds - 1;
      requests := requests - 1;
      if !cmd.injected {
        cids.Free(cmd.cid);
      }
    }

    /** unvmed_cmd_put. */
    method Put(slot: Slot) returns (refcnt: nat)
      requires Shape() && Conserved(State()) && State().Live(slot)
      modifies this`conflict, this`nrCmds, this`requests, cids.bits, cmds
      ensures Shape() && Conserved(State()) && refcnt == old(State()).At(slot).refcnt - 1
      ensures old(requests) > 0 && old(State()).At(slot).refcnt > 0 && State() == AfterPut(old(State()), slot)
    {
      PutKeeps(State(), slot);
      var cmd := if slot.Conflict? then conflict else cmds[slot.cid];
      refcnt := cmd.refcnt - 1;
      SetCmd(slot, cmd.(refcnt := refcnt));
      if refcnt == 0 {
        Release(slot);
      }
    }
  }
}
