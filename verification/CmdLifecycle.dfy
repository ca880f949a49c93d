/**
 * Who completes a command, at the granularity of single loads and stores. A reaper, a timeout sweep and a reset
 * each look at a command's state first and store the new one later; only the cross-thread push decides by
 * compare-and-swap. Between a look and its store lies a window in which another thread may do the same.
 */
module CmdLifecycle {
  import opened CommandStates

  /** `ticket` numbers the current use of the structure: every allocation and every post gets a new one. */
  datatype Cmd = Cmd(state: CmdState, cid: nat, ticket: nat)

  /**
   * Where a thread is between its steps; `ticket` is the use it saw. A `Holding` thread has seen the command waiting
   * and will complete whatever the structure holds by then, a `Pushing` one whatever is submitted in it by then.
   */
  datatype Thread =
    | Missed(cid: nat, push: bool)
    | Holding(slot: Slot, ticket: nat)
    | Pushing(slot: Slot, ticket: nat)

  /**
   * One submission queue. `issued` says which slot each ticket went to, `done` how many completions each use got, and
   * `strays` counts completions that did not find the command waiting in the use they were decided for.
   */
  datatype Sys = Sys(
    cmds: map<Slot, Cmd>, threads: map<nat, Thread>, issued: seq<Slot>, done: multiset<nat>, strays: nat)

  /** Issuers, which may do anything at any time, and the steps of the completing threads. */
  datatype Action =
    | Alloc(slot: Slot, cid: nat)
    | Post(slot: Slot)
    | Consume(slot: Slot)
    | Free(slot: Slot)
    | LookResident(t: nat, cid: nat, push: bool)
    | LookConflict(t: nat)
    | LookExpired(t: nat, cid: nat)
    | LookCancel(t: nat, slot: Slot)
    | Store(t: nat, wakeup: bool)
    | Cas(t: nat)

  predicate Waiting(c: Cmd) {
    c.state == Submitted || c.state == Allocated
  }

  function SetState(s: Sys, slot: Slot, st: CmdState): Sys {
    if slot in s.cmds then s.(cmds := s.cmds[slot := s.cmds[slot].(state := st)]) else s
  }

  /** A new use of a slot. */
  function Issue(s: Sys, slot: Slot, st: CmdState, cid: nat): Sys {
    if slot in s.cmds
    then s.(cmds := s.cmds[slot := Cmd(st, cid, |s.issued|)], issued := s.issued + [slot])
    else s
  }

  function Open(s: Sys, t: nat, slot: Slot): Sys
    requires slot in s.cmds
  {
    s.(threads := s.threads[t := Holding(slot, s.cmds[slot].ticket)])
  }

  function Idle(s: Sys, t: nat): Sys {
    s.(threads := s.threads - {t})
  }

  /** After a lookup found `slot`: the reaper's next step is its store, the push's is its compare-and-swap. */
  function Found(s: Sys, t: nat, slot: Slot, push: bool): Sys
    requires slot in s.cmds
  {
    if push then s.(threads := s.threads[t := Pushing(slot, s.cmds[slot].ticket)]) else Open(s, t, slot)
  }

  predicate Submits(s: Sys, slot: Slot) {
    slot in s.cmds && s.cmds[slot].state == Submitted
  }

  /** The state unvmed_cmd_cmpl leaves: a waiter finds the command completed, a queue's reader has yet to get it. */
  function AfterStore(wakeup: bool): CmdState {
    if wakeup then Completed else ToBeCompleted
  }

  /** A completion goes to the use that the structure holds now. */
  function Finish(s: Sys, slot: Slot, st: CmdState): Sys
    requires slot in s.cmds
  {
    SetState(s, slot, st).(done := s.done + multiset{s.cmds[slot].ticket})
  }

  /** What a holding thread saw is still so. */
  predicate Intact(s: Sys, t: nat)
    requires t in s.threads && s.threads[t].Holding?
  {
    var w := s.threads[t];
    w.slot in s.cmds && s.cmds[w.slot].ticket == w.ticket && Waiting(s.cmds[w.slot])
  }

  /** A push's swap succeeds on a use of the command other than the one looked at. */
  predicate StaleSwap(s: Sys, a: Action) {
    && a.Cas? && a.t in s.threads && s.threads[a.t].Pushing? && Submits(s, s.threads[a.t].slot)
    && s.cmds[s.threads[a.t].slot].ticket != s.threads[a.t].ticket
  }

  /** A step that is not enabled changes nothing. */
  function Step(s: Sys, a: Action): Sys {
    match a
    case Alloc(slot, cid) => Issue(s, slot, Allocated, cid)
    case Post(slot) => if slot in s.cmds then Issue(s, slot, Submitted, s.cmds[slot].cid) else s
    case Consume(slot) => SetState(s, slot, Completed)
    case Free(slot) => SetState(s, slot, Init)
    case LookResident(t, cid, push) =>
      if t in s.threads then s
      else if Submits(s, Resident(cid)) then Found(s, t, Resident(cid), push)
      else s.(threads := s.threads[t := Missed(cid, push)])
    case LookConflict(t) =>
      if t !in s.threads || !s.threads[t].Missed? then s
      else if Submits(s, Conflict) && s.cmds[Conflict].cid == s.threads[t].cid
      then Found(s, t, Conflict, s.threads[t].push)
      else Idle(s, t)
    case LookExpired(t, cid) =>
      if t !in s.threads && Submits(s, Resident(cid)) then Open(s, t, Resident(cid)) else s
    case LookCancel(t, slot) =>
      if t !in s.threads && slot in s.cmds && Waiting(s.cmds[slot]) then Open(s, t, slot) else s
    case Store(t, wakeup) =>
      if t !in s.threads || !s.threads[t].Holding? || s.threads[t].slot !in s.cmds then s
      else
        var w := s.threads[t];
        var stray := if Intact(s, t) then 0 else 1;
        Finish(Idle(s, t), w.slot, AfterStore(wakeup)).(strays := s.strays + stray)
    case Cas(t) =>
      if t !in s.threads || !s.threads[t].Pushing? then s
      else if Submits(s, s.threads[t].slot) then
        var stray := if StaleSwap(s, a) then 1 else 0;
        Finish(Idle(s, t), s.threads[t].slot, ToBeCompleted).(strays := s.strays + stray)
      else Idle(s, t)
  }

  function Run(s: Sys, actions: seq<Action>): Sys
    decreases |actions|
  {
    if actions == [] then s
    else Step(Run(s, actions[..|actions| - 1]), actions[|actions| - 1])
  }

  predicate Initial(s: Sys) {
    && s.threads == map[] && s.issued == [] && s.done == multiset{} && s.strays == 0
    && forall p :: p in s.cmds ==> s.cmds[p].state == Init
  }

  // ----- one completing thread, left alone -----

  /** The use in a slot got one completion, which left the command in state st; nothing else changed. */
  ghost predicate Completes(s: Sys, r: Sys, slot: Slot, st: CmdState) {
    && slot in s.cmds && slot in r.cmds && r.cmds == s.cmds[slot := r.cmds[slot]]
    && r.cmds[slot] == s.cmds[slot].(state := st)
    && r.done == s.done + multiset{s.cmds[slot].ticket}
    && r.threads == s.threads && r.issued == s.issued && r.strays == s.strays
  }

  /** The slot that an entry for `cid` belongs to: the submitted resident, else the submitted conflict command. */
  predicate Belongs(s: Sys, cid: nat, slot: Slot) {
    && Submits(s, slot)
    && (slot == Resident(cid) || (!Submits(s, Resident(cid)) && slot == Conflict && s.cmds[Conflict].cid == cid))
  }

  /** The reaper, or the push, after both of its looks. */
  function Looked(s: Sys, t: nat, cid: nat, push: bool): Sys {
    Step(Step(s, LookResident(t, cid, push)), LookConflict(t))
  }

  lemma LookedAlone(s: Sys, t: nat, cid: nat, push: bool, slot: Slot)
    requires t !in s.threads
    ensures Belongs(s, cid, slot) && push ==>
              Looked(s, t, cid, push) == s.(threads := s.threads[t := Pushing(slot, s.cmds[slot].ticket)])
    ensures Belongs(s, cid, slot) && !push ==>
              Looked(s, t, cid, push) == s.(threads := s.threads[t := Holding(slot, s.cmds[slot].ticket)])
    ensures (forall p :: !Belongs(s, cid, p)) ==> Looked(s, t, cid, push) == s
  {
    var m := Step(s, LookResident(t, cid, push));
    assert s.threads[t := Missed(cid, push)] - {t} == s.threads;
    if !Submits(s, Resident(cid)) {
      assert m.threads[t] == Missed(cid, push) && m.cmds == s.cmds;
      if forall p :: !Belongs(s, cid, p) {
        assert !Belongs(s, cid, Conflict);
        assert Looked(s, t, cid, push) == s;
      }
    } else {
      assert Belongs(s, cid, Resident(cid));
      assert Step(m, LookConflict(t)) == m;
    }
  }

  /** A reaper that nobody interrupts completes the command an entry belongs to, or nothing if there is none. */
  lemma ReapAlone(s: Sys, t: nat, cid: nat, wakeup: bool, slot: Slot)
    requires t !in s.threads
    ensures var r := Step(Looked(s, t, cid, false), Store(t, wakeup));
            && (Belongs(s, cid, slot) ==> Completes(s, r, slot, if wakeup then Completed else ToBeCompleted))
            && ((forall p :: !Belongs(s, cid, p)) ==> r == s)
  {
    LookedAlone(s, t, cid, false, slot);
    if Belongs(s, cid, slot) {
      StoreAlone(s, t, slot, wakeup);
    }
  }

  /** So does a cross-thread push, which leaves the command to the other thread's virtual queue. */
  lemma PushAlone(s: Sys, t: nat, cid: nat, slot: Slot)
    requires t !in s.threads
    ensures var r := Step(Looked(s, t, cid, true), Cas(t));
            && (Belongs(s, cid, slot) ==> Completes(s, r, slot, ToBeCompleted))
            && ((forall p :: !Belongs(s, cid, p)) ==> r == s)
  {
    LookedAlone(s, t, cid, true, slot);
    if Belongs(s, cid, slot) {
      assert s.threads[t := Pushing(slot, s.cmds[slot].ticket)] - {t} == s.threads;
    }
  }

  lemma StoreAlone(s: Sys, t: nat, slot: Slot, wakeup: bool)
    requires t !in s.threads && slot in s.cmds && Waiting(s.cmds[slot])
    ensures var m := s.(threads := s.threads[t := Holding(slot, s.cmds[slot].ticket)]);
            Completes(s, Step(m, Store(t, wakeup)), slot, if wakeup then Completed else ToBeCompleted)
  {
    assert s.threads[t := Holding(slot, s.cmds[slot].ticket)] - {t} == s.threads;
  }

  /** The timeout sweep completes exactly a submitted resident; a reset any command submitted or allocated. */
  lemma SweepAlone(s: Sys, t: nat, cid: nat, slot: Slot, wakeup: bool)
    requires t !in s.threads
    ensures var r := Step(Step(s, LookExpired(t, cid)), Store(t, wakeup));
            if Submits(s, Resident(cid))
            then Completes(s, r, Resident(cid), if wakeup then Completed else ToBeCompleted)
            else r == s
    ensures var r := Step(Step(s, LookCancel(t, slot)), Store(t, wakeup));
            if slot in s.cmds && (s.cmds[slot].state == Submitted || s.cmds[slot].state == Allocated)
            then Completes(s, r, slot, if wakeup then Completed else ToBeCompleted)
            else r == s
  {
    if Submits(s, Resident(cid)) {
      StoreAlone(s, t, Resident(cid), wakeup);
    }
    if slot in s.cmds && Waiting(s.cmds[slot]) {
      StoreAlone(s, t, slot, wakeup);
    }
  }

  // ----- when a schedule is safe -----

  predicate Holds(s: Sys, t: nat, p: Slot) {
    t in s.threads && s.threads[t].Holding? && s.threads[t].slot == p
  }

  /** Some thread is between its look at the command and its store. */
  ghost predicate Window(s: Sys, p: Slot) {
    exists t :: Holds(s, t, p)
  }

  /** The command a step is about to take for its thread, by opening a window or by a compare-and-swap. */
  function Claim(s: Sys, a: Action): (slot: set<Slot>)
    ensures forall p :: p in slot ==> p in s.cmds && Waiting(s.cmds[p])
  {
    match a
    case LookResident(t, cid, push) =>
      if t !in s.threads && Submits(s, Resident(cid)) && !push then {Resident(cid)} else {}
    case LookConflict(t) =>
      if t in s.threads && s.threads[t].Missed? && !s.threads[t].push && Submits(s, Conflict)
         && s.cmds[Conflict].cid == s.threads[t].cid then {Conflict} else {}
    case LookExpired(t, cid) => if t !in s.threads && Submits(s, Resident(cid)) then {Resident(cid)} else {}
    case LookCancel(t, slot) => if t !in s.threads && slot in s.cmds && Waiting(s.cmds[slot]) then {slot} else {}
    case Cas(t) =>
      if t in s.threads && s.threads[t].Pushing? && Submits(s, s.threads[t].slot) then {s.threads[t].slot} else {}
    case _ => {}
  }

  /** The command an issuer allocates, posts, consumes or frees. */
  function Handled(s: Sys, a: Action): set<Slot> {
    if (a.Alloc? || a.Post? || a.Consume? || a.Free?) && a.slot in s.cmds then {a.slot} else {}
  }

  /** No thread claims a command on which somebody's window is open, and no issuer touches it. */
  ghost predicate Unclaimed(s: Sys, a: Action) {
    forall p :: p in Claim(s, a) ==> !Window(s, p)
  }

  ghost predicate HandsOff(s: Sys, a: Action) {
    forall p :: p in Handled(s, a) ==> !Window(s, p)
  }

  ghost predicate Exclusive(s: Sys, a: Action) {
    Unclaimed(s, a) && HandsOff(s, a)
  }

  ghost predicate AllExclusive(s: Sys, actions: seq<Action>)
    decreases |actions|
  {
    actions != [] ==>
      var before := actions[..|actions| - 1];
      AllExclusive(s, before) && Exclusive(Run(s, before), actions[|actions| - 1])
  }

  ghost predicate AllHandsOff(s: Sys, actions: seq<Action>)
    decreases |actions|
  {
    actions != [] ==>
      var before := actions[..|actions| - 1];
      AllHandsOff(s, before) && HandsOff(Run(s, before), actions[|actions| - 1])
  }

  /** No use of any command is completed more than once. */
  ghost predicate AtMostOnce(s: Sys) {
    forall x :: s.done[x] <= 1
  }

  // ----- exclusive schedules are sound -----

  /** The ticket was issued to the slot and not completed yet. */
  predicate Due(s: Sys, p: Slot, ticket: nat) {
    p in s.cmds && ticket < |s.issued| && s.issued[ticket] == p && s.done[ticket] == 0
  }

  ghost predicate Inv(s: Sys) {
    && (forall x :: s.done[x] <= 1 && (s.done[x] > 0 ==> x < |s.issued|))
    && (forall p :: p in s.cmds && Waiting(s.cmds[p]) ==> Due(s, p, s.cmds[p].ticket))
    && (forall t :: t in s.threads && s.threads[t].Holding? ==> Intact(s, t))
    && (forall t, u, p :: Holds(s, t, p) && Holds(s, u, p) ==> t == u)
  }

  /** A change to one command disturbs no window on another. */
  lemma WindowsElsewhere(s: Sys, r: Sys, slot: Slot)
    requires Inv(s) && !Window(s, slot) && r.threads == s.threads
    requires forall p :: p in s.cmds && p != slot ==> p in r.cmds && r.cmds[p] == s.cmds[p]
    ensures forall t :: t in r.threads && r.threads[t].Holding? ==> Intact(r, t)
    ensures forall t, p :: Holds(r, t, p) <==> Holds(s, t, p)
  {
    forall t | t in r.threads && r.threads[t].Holding? ensures Intact(r, t) {
      assert Intact(s, t) && Holds(s, t, s.threads[t].slot);
    }
  }

  lemma IssueKeeps(s: Sys, slot: Slot, st: CmdState, cid: nat)
    requires Inv(s) && !Window(s, slot)
    ensures Inv(Issue(s, slot, st, cid))
  {
    var r := Issue(s, slot, st, cid);
    forall p, x | Due(s, p, x) ensures Due(r, p, x) {
    }
    WindowsElsewhere(s, r, slot);
  }

  lemma SetStateKeeps(s: Sys, slot: Slot, st: CmdState)
    requires Inv(s) && st != Submitted && st != Allocated && !Window(s, slot)
    ensures Inv(SetState(s, slot, st))
  {
    var r := SetState(s, slot, st);
    forall p, x | Due(s, p, x) ensures Due(r, p, x) {
    }
    WindowsElsewhere(s, r, slot);
  }

  /** A thread may stop, or go on to something other than a store. */
  lemma ThreadKeeps(s: Sys, t: nat, next: Thread)
    requires Inv(s) && !next.Holding?
    ensures Inv(Idle(s, t)) && Inv(s.(threads := s.threads[t := next]))
  {
    var r, q := Idle(s, t), s.(threads := s.threads[t := next]);
    forall p, x | Due(s, p, x) ensures Due(r, p, x) && Due(q, p, x) {
    }
    forall u, p ensures (Holds(r, u, p) ==> Holds(s, u, p)) && (Holds(q, u, p) ==> Holds(s, u, p)) {
    }
  }

  lemma OpenKeeps(s: Sys, t: nat, slot: Slot)
    requires Inv(s) && slot in s.cmds && Waiting(s.cmds[slot]) && !Window(s, slot)
    ensures Inv(Open(s, t, slot))
  {
    var r := Open(s, t, slot);
    forall p, x | Due(s, p, x) ensures Due(r, p, x) {
    }
    forall u, p ensures Holds(r, u, p) ==> (u == t && p == slot) || (u != t && Holds(s, u, p) && p != slot) {
      assert Holds(s, u, slot) ==> Window(s, slot);
    }
  }

  /** Completing a command that waits and that nobody else is about to complete. */
  lemma FinishKeeps(s: Sys, slot: Slot, st: CmdState)
    requires Inv(s) && slot in s.cmds && Waiting(s.cmds[slot]) && st != Submitted && st != Allocated && !Window(s, slot)
    ensures Inv(Finish(s, slot, st))
  {
    var r, x := Finish(s, slot, st), s.cmds[slot].ticket;
    assert Due(s, slot, x);
    forall p, y | Due(s, p, y) && y != x ensures Due(r, p, y) {
    }
    forall p | p in r.cmds && Waiting(r.cmds[p]) ensures Due(r, p, r.cmds[p].ticket) {
      assert Due(s, p, s.cmds[p].ticket);
    }
    WindowsElsewhere(s, r, slot);
  }

  lemma StepKeeps(s: Sys, a: Action)
    requires Inv(s) && Exclusive(s, a)
    ensures Inv(Step(s, a))
  {
    match a
    case Alloc(slot, cid) => if slot in s.cmds { IssueKeeps(s, slot, Allocated, cid); }
    case Post(slot) => if slot in s.cmds { IssueKeeps(s, slot, Submitted, s.cmds[slot].cid); }
    case Consume(slot) => if slot in s.cmds { SetStateKeeps(s, slot, Completed); }
    case Free(slot) => if slot in s.cmds { SetStateKeeps(s, slot, Init); }
    case LookResident(t, cid, push) => LookKeeps(s, t, Resident(cid), a);
    case LookConflict(t) => LookKeeps(s, t, Conflict, a);
    case LookExpired(t, cid) => LookKeeps(s, t, Resident(cid), a);
    case LookCancel(t, slot) => LookKeeps(s, t, slot, a);
    case Store(t, wakeup) => StoreKeeps(s, t, wakeup);
    case Cas(t) => CasKeeps(s, t);
  }

  function PushedTicket(s: Sys, slot: Slot): nat {
    if slot in s.cmds then s.cmds[slot].ticket else 0
  }

  lemma LookKeeps(s: Sys, t: nat, slot: Slot, a: Action)
    requires Inv(s) && Exclusive(s, a)
    requires
      || (a.LookResident? && a.t == t && slot == Resident(a.cid))
      || (a.LookConflict? && a.t == t && slot == Conflict)
      || (a.LookExpired? && a.t == t && slot == Resident(a.cid))
      || (a.LookCancel? && a.t == t && slot == a.slot)
    ensures Inv(Step(s, a))
  {
    if slot in Claim(s, a) {
      OpenKeeps(s, t, slot);
    } else {
      ThreadKeeps(s, t, Pushing(slot, PushedTicket(s, slot)));
      if a.LookResident? {
        ThreadKeeps(s, t, Missed(a.cid, a.push));
      }
    }
  }

  lemma InvIgnoresStrays(s: Sys, n: nat)
    requires Inv(s)
    ensures Inv(s.(strays := n))
  {
    var r := s.(strays := n);
    assert forall t, p :: Holds(r, t, p) <==> Holds(s, t, p);
    forall p, x | Due(s, p, x) ensures Due(r, p, x) {
    }
    forall t | t in r.threads && r.threads[t].Holding? ensures Intact(r, t) {
      assert Intact(s, t);
    }
  }

  lemma StoreKeeps(s: Sys, t: nat, wakeup: bool)
    requires Inv(s)
    ensures Inv(Step(s, Store(t, wakeup)))
  {
    if t in s.threads && s.threads[t].Holding? {
      var p, m := s.threads[t].slot, Idle(s, t);
      ThreadKeeps(s, t, Missed(0, false));
      assert Intact(s, t);
      forall u ensures !Holds(m, u, p) {
        assert Holds(s, t, p) && (Holds(m, u, p) ==> Holds(s, u, p));
      }
      FinishKeeps(m, p, AfterStore(wakeup));
      InvIgnoresStrays(Finish(m, p, AfterStore(wakeup)), Step(s, Store(t, wakeup)).strays);
    }
  }

  lemma CasKeeps(s: Sys, t: nat)
    requires Inv(s) && Exclusive(s, Cas(t))
    ensures Inv(Step(s, Cas(t)))
  {
    if t in s.threads && s.threads[t].Pushing? {
      var slot, m := s.threads[t].slot, Idle(s, t);
      ThreadKeeps(s, t, Pushing(slot, PushedTicket(s, slot)));
      if Submits(s, slot) {
        assert slot in Claim(s, Cas(t));
        forall u ensures !Holds(m, u, slot) {
          assert Holds(m, u, slot) ==> Holds(s, u, slot);
        }
        FinishKeeps(m, slot, ToBeCompleted);
        InvIgnoresStrays(Finish(m, slot, ToBeCompleted), Step(s, Cas(t)).strays);
      }
    }
  }

  lemma {:induction false} RunKeeps(s: Sys, actions: seq<Action>)
    requires Initial(s) && AllExclusive(s, actions)
    ensures Inv(Run(s, actions))
    decreases |actions|
  {
    if actions != [] {
      RunKeeps(s, actions[..|actions| - 1]);
      StepKeeps(Run(s, actions[..|actions| - 1]), actions[|actions| - 1]);
    }
  }

  /**
   * Whatever ids the device reports and however often: in a run in which nobody claims, posts, re-issues, consumes or
   * frees a command on which a window is open, no use of a command is completed twice.
   */
  lemma ExclusiveRunsCompleteOnce(s: Sys, actions: seq<Action>)
    requires Initial(s) && AllExclusive(s, actions)
    ensures AtMostOnce(Run(s, actions))
  {
    RunKeeps(s, actions);
  }

  /** No successful swap of a push is on a use other than the one looked at. */
  ghost predicate NoStaleSwap(s: Sys, actions: seq<Action>)
    decreases |actions|
  {
    actions != [] ==>
      var before := actions[..|actions| - 1];
      NoStaleSwap(s, before) && !StaleSwap(Run(s, before), actions[|actions| - 1])
  }

  /** Outside windows only a stale swap goes astray. */
  lemma StrayStep(s: Sys, a: Action)
    requires Inv(s)
    ensures Step(s, a).strays == s.strays + if StaleSwap(s, a) then 1 else 0
  {
  }

  lemma StraysGrow(s: Sys, a: Action)
    ensures Step(s, a).strays >= s.strays
    ensures StaleSwap(s, a) ==> Step(s, a).strays > s.strays
  {
  }

  lemma {:induction false} RunStraysNot(s: Sys, actions: seq<Action>)
    requires Initial(s) && AllExclusive(s, actions) && NoStaleSwap(s, actions)
    ensures Run(s, actions).strays == 0
    decreases |actions|
  {
    if actions != [] {
      var before := actions[..|actions| - 1];
      RunStraysNot(s, before);
      RunKeeps(s, before);
      StrayStep(Run(s, before), actions[|actions| - 1]);
    }
  }

  lemma {:induction false} StaleSwapStrays(s: Sys, actions: seq<Action>)
    requires !NoStaleSwap(s, actions)
    ensures Run(s, actions).strays > 0
    decreases |actions|
  {
    var before, a := actions[..|actions| - 1], actions[|actions| - 1];
    StraysGrow(Run(s, before), a);
    if !NoStaleSwap(s, before) {
      StaleSwapStrays(s, before);
    }
  }

  // ----- and only those -----

  /** Every ticket seen was issued before. */
  ghost predicate TicketsOk(s: Sys) {
    && (forall t :: t in s.threads && s.threads[t].Holding? ==>
        s.threads[t].ticket < |s.issued| && s.threads[t].slot in s.cmds)
    && (forall p :: p in s.cmds && Waiting(s.cmds[p]) ==> s.cmds[p].ticket < |s.issued|)
  }

  lemma StepTickets(s: Sys, a: Action)
    requires TicketsOk(s)
    ensures TicketsOk(Step(s, a))
  {
  }

  lemma {:induction false} RunTickets(s: Sys, actions: seq<Action>)
    requires Initial(s)
    ensures TicketsOk(Run(s, actions))
    decreases |actions|
  {
    if actions != [] {
      RunTickets(s, actions[..|actions| - 1]);
      StepTickets(Run(s, actions[..|actions| - 1]), actions[|actions| - 1]);
    }
  }

  /** A completion has gone astray, or is bound to. */
  ghost predicate Spoiled(s: Sys) {
    || s.strays > 0
    || (exists t :: t in s.threads && s.threads[t].Holding? && !Intact(s, t))
    || (exists t, u, p :: t != u && Holds(s, t, p) && Holds(s, u, p))
  }

  /** A thread whose window was disturbed stores into something else, unless it has not stored yet. */
  lemma DisturbedStays(s: Sys, a: Action, t: nat)
    requires TicketsOk(s) && t in s.threads && s.threads[t].Holding? && !Intact(s, t)
    ensures Spoiled(Step(s, a))
  {
    var r := Step(s, a);
    if !(a.Store? && a.t == t) {
      assert t in r.threads && r.threads[t] == s.threads[t] && !Intact(r, t);
    }
  }

  /** Two windows on one command: the first store disturbs the second. */
  lemma PairStays(s: Sys, a: Action, t: nat, u: nat, p: Slot)
    requires TicketsOk(s) && t != u && Holds(s, t, p) && Holds(s, u, p)
    ensures Spoiled(Step(s, a))
  {
    var r := Step(s, a);
    if a.Store? && (a.t == t || a.t == u) {
      var other := if a.t == t then u else t;
      assert other in r.threads && r.threads[other] == s.threads[other] && !Intact(r, other);
    } else {
      assert Holds(r, t, p) && Holds(r, u, p);
    }
  }

  lemma SpoiledStays(s: Sys, a: Action)
    requires TicketsOk(s) && Spoiled(s)
    ensures Spoiled(Step(s, a))
  {
    if s.strays > 0 {
      assert Step(s, a).strays >= s.strays;
    } else if t :| t in s.threads && s.threads[t].Holding? && !Intact(s, t) {
      DisturbedStays(s, a, t);
    } else {
      var t, u, p :| t != u && Holds(s, t, p) && Holds(s, u, p);
      PairStays(s, a, t, u, p);
    }
  }

  /** A step that enters a window spoils it. */
  lemma IntrusionSpoils(s: Sys, a: Action)
    requires TicketsOk(s) && !Exclusive(s, a)
    ensures Spoiled(Step(s, a))
  {
    var r := Step(s, a);
    if !HandsOff(s, a) {
      var p :| p in Handled(s, a) && Window(s, p);
      var u :| Holds(s, u, p);
      assert u in r.threads && r.threads[u] == s.threads[u] && !Intact(r, u);
    } else {
      var p :| p in Claim(s, a) && Window(s, p);
      var u :| Holds(s, u, p);
      if a.Cas? {
        assert u in r.threads && r.threads[u] == s.threads[u] && !Intact(r, u);
      } else {
        assert u != a.t && Holds(r, u, p) && Holds(r, a.t, p);
      }
    }
  }

  lemma {:induction false} RunSpoils(s: Sys, actions: seq<Action>)
    requires Initial(s) && !AllExclusive(s, actions)
    ensures Spoiled(Run(s, actions))
    decreases |actions|
  {
    var before, a := actions[..|actions| - 1], actions[|actions| - 1];
    RunTickets(s, before);
    if AllExclusive(s, before) {
      IntrusionSpoils(Run(s, before), a);
    } else {
      RunSpoils(s, before);
      SpoiledStays(Run(s, before), a);
    }
  }

  /** Every look has been followed by its store. */
  predicate Closed(s: Sys) {
    forall t :: t in s.threads ==> !s.threads[t].Holding?
  }

  /**
   * Every completion finds the command waiting in the use it was decided for, exactly in the schedules in which nobody
   * enters an open window and no push swaps on a later use than the one it looked at.
   */
  lemma SoundIff(s: Sys, actions: seq<Action>)
    requires Initial(s) && Closed(Run(s, actions))
    ensures Run(s, actions).strays == 0 <==> AllExclusive(s, actions) && NoStaleSwap(s, actions)
  {
    if !AllExclusive(s, actions) {
      RunSpoils(s, actions);
    } else if !NoStaleSwap(s, actions) {
      StaleSwapStrays(s, actions);
    } else {
      RunStraysNot(s, actions);
    }
  }

  // ----- a discipline for issuers under which pushes are never stale -----

  predicate Pushes(s: Sys, t: nat, p: Slot) {
    t in s.threads && s.threads[t].Pushing? && s.threads[t].slot == p
  }

  /** Nobody allocates or posts a command that a push has looked up. */
  ghost predicate Steady(s: Sys, a: Action) {
    a.Alloc? || a.Post? ==> forall t :: !Pushes(s, t, a.slot)
  }

  ghost predicate AllSteady(s: Sys, actions: seq<Action>)
    decreases |actions|
  {
    actions != [] ==>
      var before := actions[..|actions| - 1];
      AllSteady(s, before) && Steady(Run(s, before), actions[|actions| - 1])
  }

  /** What pushes have looked up is still in the use they saw. */
  ghost predicate PushesCurrent(s: Sys) {
    forall t, p :: Pushes(s, t, p) ==> p in s.cmds && s.cmds[p].ticket == s.threads[t].ticket
  }

  lemma SteadyStep(s: Sys, a: Action)
    requires PushesCurrent(s) && Steady(s, a)
    ensures PushesCurrent(Step(s, a)) && !StaleSwap(s, a)
  {
    var r := Step(s, a);
    forall t, p | Pushes(r, t, p) ensures p in r.cmds && r.cmds[p].ticket == r.threads[t].ticket {
      assert t in s.threads && s.threads[t] == r.threads[t] ==> Pushes(s, t, p);
    }
    if a.Cas? && a.t in s.threads && s.threads[a.t].Pushing? {
      assert Pushes(s, a.t, s.threads[a.t].slot);
    }
  }

  /** It suffices that nobody allocates or posts a command while a push has it looked up. */
  lemma {:induction false} SteadyRunsSwapFresh(s: Sys, actions: seq<Action>)
    requires Initial(s) && AllSteady(s, actions)
    ensures NoStaleSwap(s, actions) && PushesCurrent(Run(s, actions))
    decreases |actions|
  {
    if actions != [] {
      SteadyRunsSwapFresh(s, actions[..|actions| - 1]);
      SteadyStep(Run(s, actions[..|actions| - 1]), actions[|actions| - 1]);
    }
  }

  // ----- as long as issuers keep off, the same decides whether a use is completed twice -----

  /** One use of a command has been, or is bound to be, completed twice. */
  ghost predicate Doomed(s: Sys) {
    || (exists x :: s.done[x] >= 2)
    || (exists t, p :: Holds(s, t, p) && p in s.cmds && s.done[s.cmds[p].ticket] >= 1)
    || (exists t, u, p :: t != u && Holds(s, t, p) && Holds(s, u, p))
  }

  lemma HeldUseStays(s: Sys, a: Action, t: nat, p: Slot)
    requires TicketsOk(s) && HandsOff(s, a) && Holds(s, t, p) && !(a.Store? && a.t == t)
    ensures Holds(Step(s, a), t, p) && p in Step(s, a).cmds && Step(s, a).cmds[p].ticket == s.cmds[p].ticket
  {
    assert Window(s, p);
  }

  lemma DoneGrows(s: Sys, a: Action, x: nat)
    ensures Step(s, a).done[x] >= s.done[x]
  {
  }

  lemma DoomStays(s: Sys, a: Action)
    requires TicketsOk(s) && HandsOff(s, a) && Doomed(s)
    ensures Doomed(Step(s, a))
  {
    var r := Step(s, a);
    if x :| s.done[x] >= 2 {
      DoneGrows(s, a, x);
    } else if t, p :| Holds(s, t, p) && p in s.cmds && s.done[s.cmds[p].ticket] >= 1 {
      DoneGrows(s, a, s.cmds[p].ticket);
      if a.Store? && a.t == t {
        assert r.done[s.cmds[p].ticket] >= 2;
      } else {
        HeldUseStays(s, a, t, p);
      }
    } else {
      var t, u, p :| t != u && Holds(s, t, p) && Holds(s, u, p);
      if a.Store? && (a.t == t || a.t == u) {
        var other := if a.t == t then u else t;
        HeldUseStays(s, a, other, p);
        assert r.done[s.cmds[p].ticket] >= 1;
      } else {
        HeldUseStays(s, a, t, p);
        HeldUseStays(s, a, u, p);
      }
    }
  }

  lemma OverlapDooms(s: Sys, a: Action)
    requires TicketsOk(s) && HandsOff(s, a) && !Unclaimed(s, a)
    ensures Doomed(Step(s, a))
  {
    var p :| p in Claim(s, a) && Window(s, p);
    var u :| Holds(s, u, p);
    HeldUseStays(s, a, u, p);
    var r := Step(s, a);
    if a.Cas? {
      assert r.done[s.cmds[p].ticket] >= 1;
    } else {
      assert u != a.t && Holds(r, a.t, p);
    }
  }

  lemma {:induction false} RunDooms(s: Sys, actions: seq<Action>)
    requires Initial(s) && AllHandsOff(s, actions) && !AllExclusive(s, actions)
    ensures Doomed(Run(s, actions))
    decreases |actions|
  {
    var before, a := actions[..|actions| - 1], actions[|actions| - 1];
    RunTickets(s, before);
    if AllExclusive(s, before) {
      OverlapDooms(Run(s, before), a);
    } else {
      RunDooms(s, before);
      DoomStays(Run(s, before), a);
    }
  }

  /** With issuers keeping off open windows, no use is completed twice exactly if no claim enters one. */
  lemma CompletesOnceIff(s: Sys, actions: seq<Action>)
    requires Initial(s) && Closed(Run(s, actions)) && AllHandsOff(s, actions)
    ensures AtMostOnce(Run(s, actions)) <==> AllExclusive(s, actions)
  {
    if AllExclusive(s, actions) {
      RunKeeps(s, actions);
    } else {
      RunDooms(s, actions);
    }
  }

  /** No window is open when anybody else claims or handles a command: look and store are in effect one step. */
  ghost predicate AllAtomic(s: Sys, actions: seq<Action>)
    decreases |actions|
  {
    actions != [] ==>
      var before, a := actions[..|actions| - 1], actions[|actions| - 1];
      && AllAtomic(s, before)
      && (Claim(Run(s, before), a) + Handled(Run(s, before), a) != {} ==> Closed(Run(s, before)))
  }

  /** Completion in atomic steps completes at most once, whatever issuers do in between. */
  lemma {:induction false} AtomicRunsAreExclusive(s: Sys, actions: seq<Action>)
    requires AllAtomic(s, actions)
    ensures AllExclusive(s, actions)
    decreases |actions|
  {
    if actions != [] {
      AtomicRunsAreExclusive(s, actions[..|actions| - 1]);
    }
  }

  lemma RunOn(s: Sys, actions: seq<Action>, a: Action)
    ensures Run(s, actions + [a]) == Step(Run(s, actions), a)
  {
    assert (actions + [a])[..|actions|] == actions;
  }

  /** Two threads hold windows on one command, in whatever use each saw it: both complete the current one. */
  lemma BothStore(s: Sys, first: nat, second: nat)
    requires s.threads == map[1 := Holding(Resident(0), first), 2 := Holding(Resident(0), second)]
    requires Resident(0) in s.cmds && s.cmds[Resident(0)].ticket == 1 && s.done == multiset{}
    ensures var r := Step(Step(s, Store(1, false)), Store(2, false)); r.done == multiset{1, 1} && r.issued == s.issued
  {
  }

  /** A command is allocated and posted; a reaper and the timeout sweep both see it submitted. */
  function BothLook(): seq<Action> {
    [] + [Alloc(Resident(0), 0)] + [Post(Resident(0))] + [LookResident(1, 0, false)] + [LookExpired(2, 0)]
  }

  lemma BothLookHold(s: Sys)
    requires Initial(s) && Resident(0) in s.cmds
    ensures var r := Run(s, BothLook());
            && r.threads == map[1 := Holding(Resident(0), 1), 2 := Holding(Resident(0), 1)]
            && r.cmds == s.cmds[Resident(0) := Cmd(Submitted, 0, 1)]
            && r.issued == [Resident(0), Resident(0)] && r.done == multiset{}
  {
    RunOn(s, [], Alloc(Resident(0), 0));
    RunOn(s, [Alloc(Resident(0), 0)], Post(Resident(0)));
    RunOn(s, [Alloc(Resident(0), 0)] + [Post(Resident(0))], LookResident(1, 0, false));
    RunOn(s, [Alloc(Resident(0), 0)] + [Post(Resident(0))] + [LookResident(1, 0, false)], LookExpired(2, 0));
  }

  /** The timeout sweep does not take the completion queue's lock, so it can complete what the reaper completes. */
  lemma TimeoutRaceCompletesTwice(s: Sys)
    requires Initial(s) && Resident(0) in s.cmds
    ensures var r := Run(s, BothLook() + [Store(1, false)] + [Store(2, false)]);
            r.issued == [Resident(0), Resident(0)] && r.done == multiset{1, 1}
  {
    BothLookHold(s);
    BothStore(Run(s, BothLook()), 1, 1);
    RunOn(s, BothLook(), Store(1, false));
    RunOn(s, BothLook() + [Store(1, false)], Store(2, false));
  }

  /** A reset sees a command allocated; its issuer posts it; the timeout sweep sees it submitted. */
  function PostBetween(): seq<Action> {
    [] + [Alloc(Resident(0), 0)] + [LookCancel(1, Resident(0))] + [Post(Resident(0))] + [LookExpired(2, 0)]
  }

  lemma PostBetweenHold(s: Sys)
    requires Initial(s) && Resident(0) in s.cmds
    ensures var r := Run(s, PostBetween());
            && r.threads == map[1 := Holding(Resident(0), 0), 2 := Holding(Resident(0), 1)]
            && r.cmds == s.cmds[Resident(0) := Cmd(Submitted, 0, 1)]
            && r.issued == [Resident(0), Resident(0)] && r.done == multiset{}
  {
    RunOn(s, [], Alloc(Resident(0), 0));
    RunOn(s, [Alloc(Resident(0), 0)], LookCancel(1, Resident(0)));
    RunOn(s, [Alloc(Resident(0), 0)] + [LookCancel(1, Resident(0))], Post(Resident(0)));
    RunOn(s, [Alloc(Resident(0), 0)] + [LookCancel(1, Resident(0))] + [Post(Resident(0))], LookExpired(2, 0));
  }

  /** The one post gets both the abort and the timeout entry, although the two looks saw different uses. */
  lemma PostInsideCancelCompletesTwice(s: Sys)
    requires Initial(s) && Resident(0) in s.cmds
    ensures var all := PostBetween() + [Store(1, false)] + [Store(2, false)];
            && Run(s, all).issued == [Resident(0), Resident(0)] && Run(s, all).done == multiset{1, 1}
            && !AllExclusive(s, all)
  {
    PostBetweenHold(s);
    BothStore(Run(s, PostBetween()), 0, 1);
    RunOn(s, PostBetween(), Store(1, false));
    RunOn(s, PostBetween() + [Store(1, false)], Store(2, false));
    var all := PostBetween() + [Store(1, false)] + [Store(2, false)];
    assert Run(s, all).done[1] == 2;
    if AllExclusive(s, all) {
      ExclusiveRunsCompleteOnce(s, all);
    }
  }

  // ----- a push across two uses -----

  /** The queue with its first command, the threads and the counts as given. */
  function With(s: Sys, c: Cmd, threads: map<nat, Thread>, n: nat, done: multiset<nat>): Sys {
    Sys(s.cmds[Resident(0) := c], threads, seq(n, i => Resident(0)), done, 0)
  }

  ghost predicate Goes(s: Sys, actions: seq<Action>, r: Sys) {
    Run(s, actions) == r && AllExclusive(s, actions)
  }

  lemma GoesOn(s: Sys, actions: seq<Action>, r: Sys, a: Action)
    requires Goes(s, actions, r) && Exclusive(r, a)
    ensures Goes(s, actions + [a], Step(r, a))
  {
    RunOn(s, actions, a);
    assert (actions + [a])[..|actions|] == actions;
  }

  /** A command is allocated and posted; a push and a reaper look at it; the reaper completes it. */
  function PushLooks(): seq<Action> {
    [] + [Alloc(Resident(0), 0)] + [Post(Resident(0))] + [LookResident(1, 0, true)] + [LookResident(2, 0, false)]
    + [Store(2, false)]
  }

  lemma Posted(s: Sys)
    requires Initial(s) && Resident(0) in s.cmds
    ensures Goes(s, [] + [Alloc(Resident(0), 0)] + [Post(Resident(0))],
        With(s, Cmd(Submitted, 0, 1), map[], 2, multiset{}))
  {
    GoesOn(s, [], s, Alloc(Resident(0), 0));
    var m := With(s, Cmd(Allocated, 0, 0), map[], 1, multiset{});
    assert Step(s, Alloc(Resident(0), 0)) == m;
    GoesOn(s, [] + [Alloc(Resident(0), 0)], m, Post(Resident(0)));
    assert Step(m, Post(Resident(0))).issued == seq(2, i => Resident(0));
    assert Step(m, Post(Resident(0))).cmds == s.cmds[Resident(0) := Cmd(Submitted, 0, 1)];
  }

  lemma PushLooked(s: Sys)
    requires Initial(s) && Resident(0) in s.cmds
    ensures Goes(s, PushLooks(), With(s, Cmd(ToBeCompleted, 0, 1), map[1 := Pushing(Resident(0), 1)], 2, multiset{1}))
  {
    Posted(s);
    var c := Cmd(Submitted, 0, 1);
    var posted := [] + [Alloc(Resident(0), 0)] + [Post(Resident(0))];
    var p, look := With(s, c, map[], 2, multiset{}), LookResident(1, 0, true);
    GoesOn(s, posted, p, look);
    var q := With(s, c, map[1 := Pushing(Resident(0), 1)], 2, multiset{});
    assert Step(p, look) == q;
    GoesOn(s, posted + [look], q, LookResident(2, 0, false));
    var r := With(s, c, map[1 := Pushing(Resident(0), 1), 2 := Holding(Resident(0), 1)], 2, multiset{});
    assert Step(q, LookResident(2, 0, false)) == r;
    GoesOn(s, posted + [look] + [LookResident(2, 0, false)], r, Store(2, false));
    assert r.threads - {2} == map[1 := Pushing(Resident(0), 1)];
    assert Step(r, Store(2, false)).cmds == s.cmds[Resident(0) := Cmd(ToBeCompleted, 0, 1)];
  }

  /** Then it is freed, allocated and posted again, and the push swaps. */
  function PushAcross(): seq<Action> {
    PushLooks() + [Free(Resident(0))] + [Alloc(Resident(0), 0)] + [Post(Resident(0))] + [Cas(1)]
  }

  lemma PostedAgain(s: Sys)
    requires Initial(s) && Resident(0) in s.cmds
    ensures Goes(s, PushLooks() + [Free(Resident(0))] + [Alloc(Resident(0), 0)] + [Post(Resident(0))],
                 With(s, Cmd(Submitted, 0, 3), map[1 := Pushing(Resident(0), 1)], 4, multiset{1}))
  {
    PushLooked(s);
    var threads := map[1 := Pushing(Resident(0), 1)];
    var p := With(s, Cmd(ToBeCompleted, 0, 1), threads, 2, multiset{1});
    NoWindow(p);
    GoesOn(s, PushLooks(), p, Free(Resident(0)));
    var q := With(s, Cmd(Init, 0, 1), threads, 2, multiset{1});
    assert Step(p, Free(Resident(0))).cmds == q.cmds;
    NoWindow(q);
    GoesOn(s, PushLooks() + [Free(Resident(0))], q, Alloc(Resident(0), 0));
    var r := With(s, Cmd(Allocated, 0, 2), threads, 3, multiset{1});
    assert Step(q, Alloc(Resident(0), 0)).issued == r.issued && Step(q, Alloc(Resident(0), 0)).cmds == r.cmds;
    NoWindow(r);
    GoesOn(s, PushLooks() + [Free(Resident(0))] + [Alloc(Resident(0), 0)], r, Post(Resident(0)));
    var e := With(s, Cmd(Submitted, 0, 3), threads, 4, multiset{1});
    assert Step(r, Post(Resident(0))).issued == e.issued && Step(r, Post(Resident(0))).cmds == e.cmds;
  }

  lemma NoWindow(s: Sys)
    requires s.threads == map[1 := Pushing(Resident(0), 1)]
    ensures forall p :: !Window(s, p)
  {
  }

  /** The push that looked at the first post completes the second: exclusive and finished, but astray. */
  lemma PushAcrossStrays(s: Sys)
    requires Initial(s) && Resident(0) in s.cmds
    ensures var r := Run(s, PushAcross());
            && AllExclusive(s, PushAcross()) && Closed(r) && !NoStaleSwap(s, PushAcross())
            && r.done == multiset{1, 3} && r.strays == 1
  {
    PostedAgain(s);
    var p := With(s, Cmd(Submitted, 0, 3), map[1 := Pushing(Resident(0), 1)], 4, multiset{1});
    NoWindow(p);
    var before := PushLooks() + [Free(Resident(0))] + [Alloc(Resident(0), 0)] + [Post(Resident(0))];
    GoesOn(s, before, p, Cas(1));
    assert StaleSwap(p, Cas(1));
    assert (before + [Cas(1)])[..|before|] == before;
  }
}
