/**
 * Reference counts of the queue instances behind one queue id, at the granularity of single loads, swaps and
 * locked sections. Readers of the queue table hold its lock shared; publishing and clearing an entry need it
 * exclusively. A put does not take the lock until the count has reached zero.
 */
module QueueRefs {
  import opened Options

  /** `claims` are references kept by the driver itself, from creation to deletion; `freed` counts calls of free(). */
  datatype Instance = Instance(refcnt: int, claims: nat, freed: nat)

  /**
   * Where a thread is. `Entered` and `Trying` hold the table's lock shared; `Deleting` has found an instance that it
   * will put, without a reference of its own.
   */
  datatype Thread =
    | Entered(i: nat)
    | Trying(i: nat, seen: int)
    | Deleting(i: nat)
    | Unlinking(i: nat)
    | Releasing(i: nat)

  /** All instances ever created for the id, the table entry, and the references held outside the driver. */
  datatype Sys = Sys(objs: seq<Instance>, entry: Option<nat>, threads: map<nat, Thread>, refs: multiset<nat>)

  /**
   * A lookup locks the table shared and reads the entry (`Enter`), loads the count, and tries to raise it. A create
   * whose lookup found nothing publishes a new instance; one that found a disabled instance keeps the reference it
   * got as the driver's claim (`Adopt`). A deletion finds the instance and puts it (`Find`, `Drop`): it is meant to
   * drop the driver's claim, and does not ask whether there is one.
   */
  datatype Action =
    | Enter(t: nat)
    | Load(t: nat)
    | TryCas(t: nat)
    | Put(t: nat, i: nat)
    | Unlink(t: nat)
    | Release(t: nat)
    | Publish
    | Adopt(i: nat)
    | Find(t: nat)
    | Drop(t: nat)

  predicate Reads(th: Thread) {
    th.Entered? || th.Trying?
  }

  /** The thread is on its way to free its instance. */
  predicate Freeing(th: Thread) {
    th.Unlinking? || th.Releasing?
  }

  predicate NoReader(s: Sys) {
    forall t :: t in s.threads ==> !Reads(s.threads[t])
  }

  function At(s: Sys, t: nat, th: Thread): Sys {
    s.(threads := s.threads[t := th])
  }

  function Leave(s: Sys, t: nat): Sys {
    s.(threads := s.threads - {t})
  }

  function SetObj(s: Sys, i: nat, o: Instance): Sys
    requires i < |s.objs|
  {
    s.(objs := s.objs[i := o])
  }

  /** atomic_dec_fetch, and the way into the free path when it returns zero. */
  function Dropped(s: Sys, t: nat, i: nat, o: Instance): Sys
    requires i < |s.objs|
  {
    var m := SetObj(s, i, o.(refcnt := o.refcnt - 1));
    if o.refcnt - 1 == 0 then At(m, t, Unlinking(i)) else m
  }

  /** A step that is not enabled changes nothing. */
  function Step(s: Sys, a: Action): Sys {
    match a
    case Enter(t) =>
      if t !in s.threads && s.entry.Some? then At(s, t, Entered(s.entry.value)) else s
    case Load(t) =>
      if t in s.threads && s.threads[t].Entered? && s.threads[t].i < |s.objs|
      then At(s, t, Trying(s.threads[t].i, s.objs[s.threads[t].i].refcnt)) else s
    case TryCas(t) =>
      if t !in s.threads || !s.threads[t].Trying? || s.threads[t].i >= |s.objs| then s
      else
        var i, seen := s.threads[t].i, s.threads[t].seen;
        if seen <= 0 then Leave(s, t)
        else if s.objs[i].refcnt == seen
        then SetObj(Leave(s, t), i, s.objs[i].(refcnt := seen + 1)).(refs := s.refs + multiset{i})
        else At(s, t, Entered(i))
    case Put(t, i) =>
      if t !in s.threads && s.refs[i] > 0 && i < |s.objs|
      then Dropped(s.(refs := s.refs - multiset{i}), t, i, s.objs[i]) else s
    case Unlink(t) =>
      if t in s.threads && s.threads[t].Unlinking? && NoReader(s)
      then At(s, t, Releasing(s.threads[t].i)).(entry := None) else s
    case Release(t) =>
      if t in s.threads && s.threads[t].Releasing? && s.threads[t].i < |s.objs|
      then var i := s.threads[t].i; SetObj(Leave(s, t), i, s.objs[i].(freed := s.objs[i].freed + 1)) else s
    case Publish =>
      if NoReader(s) then s.(objs := s.objs + [Instance(1, 1, 0)], entry := Some(|s.objs|)) else s
    case Adopt(i) =>
      if s.refs[i] > 0 && i < |s.objs|
      then SetObj(s, i, s.objs[i].(claims := s.objs[i].claims + 1)).(refs := s.refs - multiset{i}) else s
    case Find(t) =>
      if t !in s.threads && s.entry.Some? && s.entry.value < |s.objs| && s.objs[s.entry.value].refcnt != 0
      then At(s, t, Deleting(s.entry.value)) else s
    case Drop(t) =>
      if t in s.threads && s.threads[t].Deleting? && s.threads[t].i < |s.objs|
      then
        var i := s.threads[t].i;
        var o := s.objs[i];
        Dropped(Leave(s, t), t, i, o.(claims := if o.claims > 0 then o.claims - 1 else 0))
      else s
  }

  function Run(s: Sys, actions: seq<Action>): Sys
    decreases |actions|
  {
    if actions == [] then s
    else Step(Run(s, actions[..|actions| - 1]), actions[|actions| - 1])
  }

  const INITIAL := Sys([], None, map[], multiset{})

  // ----- lifetimes -----

  /** Thread t is on its way to free instance i. */
  predicate Frees(s: Sys, t: nat, i: nat) {
    t in s.threads && Freeing(s.threads[t]) && s.threads[t].i == i
  }

  ghost predicate Dying(s: Sys, i: nat) {
    exists t :: Frees(s, t, i)
  }

  /** The count is the driver's claims plus the references held; an instance at zero is freed or about to be, once. */
  ghost predicate Counted(s: Sys, i: nat)
    requires i < |s.objs|
  {
    var o := s.objs[i];
    && o.refcnt == o.claims + s.refs[i]
    && o.freed == (if o.refcnt > 0 || Dying(s, i) then 0 else 1)
    && (Dying(s, i) ==> o.refcnt == 0)
  }

  /** Whoever reads or frees an instance is at one that was not freed; past the unlinking nobody else is. */
  ghost predicate ThreadOk(s: Sys, t: nat)
    requires t in s.threads
  {
    var i := s.threads[t].i;
    && i < |s.objs| && (s.threads[t].Deleting? || s.objs[i].freed == 0)
    && (s.threads[t].Releasing? ==>
          s.entry != Some(i) && forall u :: u in s.threads && u != t && !s.threads[u].Deleting? ==> s.threads[u].i != i)
  }

  ghost predicate Inv(s: Sys) {
    && (forall i :: 0 <= i < |s.objs| ==> Counted(s, i))
    && (forall i :: s.refs[i] > 0 ==> i < |s.objs|)
    && (s.entry.Some? ==> s.entry.value < |s.objs| && s.objs[s.entry.value].freed == 0)
    && (forall t :: t in s.threads ==> ThreadOk(s, t))
    && (forall t, u, i :: Frees(s, t, i) && Frees(s, u, i) ==> t == u)
  }

  /** Starting, reloading or ending a lookup, and starting or ending a deletion. */
  lemma ReaderKeeps(s: Sys, t: nat, th: Thread)
    requires Inv(s) && (t in s.threads ==> !Freeing(s.threads[t])) && !Freeing(th) && th.i < |s.objs|
    requires th.Deleting? || s.entry == Some(th.i) || (t in s.threads && Reads(s.threads[t]) && s.threads[t].i == th.i)
    ensures Inv(At(s, t, th)) && Inv(Leave(s, t))
  {
    var r, q := At(s, t, th), Leave(s, t);
    assert forall u, i :: Frees(s, u, i) <==> Frees(r, u, i);
    assert forall u, i :: Frees(s, u, i) <==> Frees(q, u, i);
    forall i | 0 <= i < |s.objs| ensures Counted(r, i) && Counted(q, i) {
      assert Counted(s, i);
      assert Dying(s, i) <==> Dying(r, i);
      assert Dying(s, i) <==> Dying(q, i);
    }
    assert t in s.threads ==> ThreadOk(s, t);
    forall u | u in s.threads ensures u in r.threads ==> ThreadOk(r, u) {
      assert ThreadOk(s, u);
    }
    forall u | u in q.threads ensures ThreadOk(q, u) {
      assert ThreadOk(s, u);
    }
  }

  /** A count, its claims and its references moving together above zero. */
  lemma CountKeeps(s: Sys, i: nat, o: Instance, refs: multiset<nat>)
    requires Inv(s) && i < |s.objs| && s.objs[i].refcnt > 0
    requires o.refcnt > 0 && o.freed == s.objs[i].freed && o.refcnt == o.claims + refs[i]
    requires forall j :: j != i ==> refs[j] == s.refs[j]
    ensures Inv(SetObj(s, i, o).(refs := refs))
  {
    var r := SetObj(s, i, o).(refs := refs);
    assert forall u, j :: Frees(s, u, j) <==> Frees(r, u, j);
    forall j | 0 <= j < |s.objs| ensures Counted(r, j) {
      assert Counted(s, j);
      assert Dying(s, j) <==> Dying(r, j);
    }
    forall u | u in r.threads ensures ThreadOk(r, u) {
      assert ThreadOk(s, u);
    }
  }

  /** The last reference goes: its thread, and no other, is now to free the instance. */
  lemma LastDropKeeps(s: Sys, t: nat, i: nat, o: Instance, refs: multiset<nat>)
    requires Inv(s) && i < |s.objs| && s.objs[i].refcnt == 1 && t !in s.threads
    requires o.refcnt == 0 && o.freed == s.objs[i].freed && o.claims == refs[i] == 0
    requires forall j :: j != i ==> refs[j] == s.refs[j]
    ensures Inv(At(SetObj(s, i, o), t, Unlinking(i)).(refs := refs))
  {
    var r := At(SetObj(s, i, o), t, Unlinking(i)).(refs := refs);
    assert Counted(s, i);
    assert forall u, j :: Frees(r, u, j) <==> Frees(s, u, j) || (u == t && j == i);
    assert Frees(r, t, i);
    forall j | 0 <= j < |s.objs| ensures Counted(r, j) {
      assert Counted(s, j);
      assert j != i ==> (Dying(s, j) <==> Dying(r, j));
    }
    forall u | u in r.threads ensures ThreadOk(r, u) {
      assert u != t ==> ThreadOk(s, u) && !Frees(s, u, i);
    }
  }

  lemma DroppedKeeps(s: Sys, t: nat, i: nat, claims: nat, refs: multiset<nat>)
    requires Inv(s) && i < |s.objs| && t !in s.threads
    requires s.objs[i].refcnt - 1 == claims + refs[i]
    requires forall j :: j != i ==> refs[j] == s.refs[j]
    ensures Inv(Dropped(s.(refs := refs), t, i, s.objs[i].(claims := claims)))
  {
    var o := s.objs[i].(claims := claims, refcnt := s.objs[i].refcnt - 1);
    assert Counted(s, i);
    if o.refcnt == 0 {
      LastDropKeeps(s, t, i, o, refs);
    } else {
      CountKeeps(s, i, o, refs);
    }
  }

  /** Under the exclusive lock there is no reader left to see the instance. */
  lemma UnlinkKeeps(s: Sys, t: nat)
    requires Inv(s)
    ensures Inv(Step(s, Unlink(t)))
  {
    var r := Step(s, Unlink(t));
    assert forall u, j :: Frees(s, u, j) <==> Frees(r, u, j);
    forall j | 0 <= j < |s.objs| ensures Counted(r, j) {
      assert Counted(s, j);
      assert Dying(s, j) <==> Dying(r, j);
    }
    forall u | u in r.threads ensures ThreadOk(r, u) {
      assert ThreadOk(s, u);
      if u == t && r != s {
        assert Frees(s, t, s.threads[t].i);
        forall v | v in r.threads && v != t && !r.threads[v].Deleting? ensures r.threads[v].i != r.threads[t].i {
          assert Frees(s, v, s.threads[v].i);
        }
      }
    }
  }

  lemma ReleaseKeeps(s: Sys, t: nat)
    requires Inv(s)
    ensures Inv(Step(s, Release(t)))
  {
    if t in s.threads && s.threads[t].Releasing? {
      var r, i := Step(s, Release(t)), s.threads[t].i;
      assert ThreadOk(s, t) && Frees(s, t, i) && Counted(s, i);
      assert forall u, j :: Frees(r, u, j) <==> Frees(s, u, j) && u != t;
      forall j | 0 <= j < |s.objs| ensures Counted(r, j) {
        assert Counted(s, j);
        assert j != i ==> (Dying(s, j) <==> Dying(r, j));
      }
      forall u | u in r.threads ensures ThreadOk(r, u) {
        assert ThreadOk(s, u);
      }
    }
  }

  lemma PublishKeeps(s: Sys)
    requires Inv(s)
    ensures Inv(Step(s, Publish))
  {
    var r := Step(s, Publish);
    assert forall u, j :: Frees(s, u, j) <==> Frees(r, u, j);
    forall j | 0 <= j < |r.objs| ensures Counted(r, j) {
      if j < |s.objs| {
        assert Counted(s, j);
      } else {
        forall u ensures !Frees(s, u, j) {
          assert u in s.threads ==> ThreadOk(s, u);
        }
      }
      assert Dying(s, j) <==> Dying(r, j);
    }
    forall u | u in r.threads ensures ThreadOk(r, u) {
      assert ThreadOk(s, u);
    }
  }

  lemma TryCasKeeps(s: Sys, t: nat)
    requires Inv(s)
    ensures Inv(Step(s, TryCas(t)))
  {
    if t in s.threads && s.threads[t].Trying? {
      assert ThreadOk(s, t);
      var i, m := s.threads[t].i, Leave(s, t);
      ReaderKeeps(s, t, Entered(i));
      if 0 < s.threads[t].seen == s.objs[i].refcnt {
        assert Counted(s, i);
        CountKeeps(m, i, s.objs[i].(refcnt := s.objs[i].refcnt + 1), s.refs + multiset{i});
      }
    }
  }

  /** The step puts an instance on the driver's behalf although the driver has no claim on it. */
  predicate Unclaimed(s: Sys, a: Action) {
    && a.Drop? && a.t in s.threads && s.threads[a.t].Deleting?
    && s.threads[a.t].i < |s.objs| && s.objs[s.threads[a.t].i].claims == 0
  }

  lemma DropKeepsIff(s: Sys, t: nat)
    requires Inv(s)
    ensures Inv(Step(s, Drop(t))) <==> !Unclaimed(s, Drop(t))
  {
    if t in s.threads && s.threads[t].Deleting? {
      assert ThreadOk(s, t);
      var i, m, r := s.threads[t].i, Leave(s, t), Step(s, Drop(t));
      assert Counted(s, i);
      if s.objs[i].claims > 0 {
        ReaderKeeps(s, t, s.threads[t]);
        DroppedKeeps(m, t, i, s.objs[i].claims - 1, s.refs);
      } else {
        assert r.objs[i].refcnt == r.objs[i].claims + r.refs[i] - 1;
        assert !Counted(r, i);
      }
    }
  }

  lemma PutKeeps(s: Sys, t: nat, i: nat)
    requires Inv(s)
    ensures Inv(Step(s, Put(t, i)))
  {
    if t !in s.threads && s.refs[i] > 0 {
      assert Counted(s, i);
      DroppedKeeps(s, t, i, s.objs[i].claims, s.refs - multiset{i});
    }
  }

  lemma AdoptKeeps(s: Sys, i: nat)
    requires Inv(s)
    ensures Inv(Step(s, Adopt(i)))
  {
    if s.refs[i] > 0 {
      assert Counted(s, i);
      CountKeeps(s, i, s.objs[i].(claims := s.objs[i].claims + 1), s.refs - multiset{i});
    }
  }

  /** Every step keeps the counts right, except a deletion that finds no claim of the driver's to drop. */
  lemma StepKeepsIff(s: Sys, a: Action)
    requires Inv(s)
    ensures Inv(Step(s, a)) <==> !Unclaimed(s, a)
  {
    match a
    case Enter(t) =>
      if t !in s.threads && s.entry.Some? {
        ReaderKeeps(s, t, Entered(s.entry.value));
      }
    case Load(t) =>
      if t in s.threads && s.threads[t].Entered? {
        assert ThreadOk(s, t);
        ReaderKeeps(s, t, Trying(s.threads[t].i, s.objs[s.threads[t].i].refcnt));
      }
    case TryCas(t) => TryCasKeeps(s, t);
    case Put(t, i) => PutKeeps(s, t, i);
    case Unlink(t) => UnlinkKeeps(s, t);
    case Release(t) => ReleaseKeeps(s, t);
    case Publish => PublishKeeps(s);
    case Adopt(i) => AdoptKeeps(s, i);
    case Find(t) =>
      if t !in s.threads && s.entry.Some? {
        ReaderKeeps(s, t, Deleting(s.entry.value));
      }
    case Drop(t) => DropKeepsIff(s, t);
  }

  lemma DropClaims(s: Sys, t: nat, i: nat)
    requires i < |s.objs|
    ensures var r := Step(s, Drop(t));
            && i < |r.objs|
            && r.objs[i].claims == (
              if t in s.threads && s.threads[t] == Deleting(i) && s.objs[i].claims > 0
              then s.objs[i].claims - 1 else s.objs[i].claims)
  {
  }

  lemma AdoptClaims(s: Sys, k: nat, i: nat)
    requires i < |s.objs|
    ensures var r := Step(s, Adopt(k));
            && i < |r.objs|
            && r.objs[i].claims == if k == i && s.refs[i] > 0 then s.objs[i].claims + 1 else s.objs[i].claims
  {
  }

  lemma OthersClaimNothing(s: Sys, a: Action, i: nat)
    requires i < |s.objs| && !a.Drop? && !a.Adopt?
    ensures var r := Step(s, a); i < |r.objs| && r.objs[i].claims == s.objs[i].claims
  {
  }

  /** The claims on an instance count its creation and adoptions, less the deletions that found one. */
  lemma ClaimsCount(s: Sys, a: Action, i: nat)
    requires i < |s.objs|
    ensures var r := Step(s, a);
            && i < |r.objs|
            && (r.objs[i].claims > s.objs[i].claims <==> a == Adopt(i) && s.refs[i] > 0)
            && (r.objs[i].claims < s.objs[i].claims <==>
                  a.Drop? && a.t in s.threads && s.threads[a.t] == Deleting(i) && s.objs[i].claims > 0)
            && s.objs[i].claims - 1 <= r.objs[i].claims <= s.objs[i].claims + 1
  {
    if a.Drop? {
      DropClaims(s, a.t, i);
    } else if a.Adopt? {
      AdoptClaims(s, a.i, i);
    } else {
      OthersClaimNothing(s, a, i);
    }
  }

  lemma RunOn(actions: seq<Action>, n: nat)
    requires n < |actions|
    ensures Run(INITIAL, actions[..n + 1]) == Step(Run(INITIAL, actions[..n]), actions[n])
  {
    assert actions[..n + 1][..n] == actions[..n];
  }

  ghost predicate AlwaysCounted(actions: seq<Action>) {
    forall n :: 0 <= n <= |actions| ==> Inv(Run(INITIAL, actions[..n]))
  }

  /** Every deletion finds a claim: a creation or an adoption that no deletion has used up since. */
  predicate AlwaysClaimed(actions: seq<Action>) {
    forall n :: 0 <= n < |actions| ==> !Unclaimed(Run(INITIAL, actions[..n]), actions[n])
  }

  lemma {:induction false} CountedUpTo(actions: seq<Action>, n: nat)
    requires n <= |actions| && AlwaysClaimed(actions)
    ensures Inv(Run(INITIAL, actions[..n]))
    decreases n
  {
    if n > 0 {
      CountedUpTo(actions, n - 1);
      RunOn(actions, n - 1);
      StepKeepsIff(Run(INITIAL, actions[..n - 1]), actions[n - 1]);
    }
  }

  /**
   * In any interleaving of lookups, puts, creations and deletions the counts are right throughout, and no lookup or
   * final put is at a freed instance, if and only if every deletion finds a claim.
   */
  lemma CountedIff(actions: seq<Action>)
    ensures AlwaysCounted(actions) <==> AlwaysClaimed(actions)
  {
    if AlwaysClaimed(actions) {
      forall n | 0 <= n <= |actions| ensures Inv(Run(INITIAL, actions[..n])) {
        CountedUpTo(actions, n);
      }
    }
    if AlwaysCounted(actions) {
      forall n | 0 <= n < |actions| ensures !Unclaimed(Run(INITIAL, actions[..n]), actions[n]) {
        RunOn(actions, n);
        assert Inv(Run(INITIAL, actions[..n])) && Inv(Run(INITIAL, actions[..n + 1]));
        StepKeepsIff(Run(INITIAL, actions[..n]), actions[n]);
      }
    }
  }

  // ----- deletions under way -----

  /** A deletion that has found an instance but not put it yet is at one that was not freed. */
  ghost predicate NoneDangles(s: Sys) {
    forall t :: t in s.threads && s.threads[t].Deleting? ==>
        s.threads[t].i < |s.objs| && s.objs[s.threads[t].i].freed == 0
  }

  /** The step frees an instance that a deletion has found and not put yet. */
  ghost predicate Strands(s: Sys, a: Action) {
    && a.Release? && a.t in s.threads && s.threads[a.t].Releasing?
    && exists t :: t in s.threads && s.threads[t] == Deleting(s.threads[a.t].i)
  }

  /** A deletion starts only at the instance in the table. */
  lemma DeletesTheEntry(s: Sys, a: Action, t: nat)
    requires t in Step(s, a).threads && Step(s, a).threads[t].Deleting?
    ensures (t in s.threads && s.threads[t] == Step(s, a).threads[t]) || s.entry == Some(Step(s, a).threads[t].i)
  {
  }

  lemma ReleaseDanglesIff(s: Sys, u: nat)
    requires Inv(s) && NoneDangles(s) && u in s.threads && s.threads[u].Releasing?
    ensures NoneDangles(Step(s, Release(u))) <==> !Strands(s, Release(u))
  {
    assert ThreadOk(s, u);
    var r, i := Step(s, Release(u)), s.threads[u].i;
    assert r.objs == s.objs[i := s.objs[i].(freed := 1)] && r.threads == s.threads - {u};
    if t :| t in s.threads && s.threads[t] == Deleting(i) {
      assert t in r.threads && r.threads[t] == Deleting(i);
    }
  }

  lemma StepDanglesIff(s: Sys, a: Action)
    requires Inv(s) && NoneDangles(s)
    ensures NoneDangles(Step(s, a)) <==> !Strands(s, a)
  {
    if a.Release? && a.t in s.threads && s.threads[a.t].Releasing? {
      ReleaseDanglesIff(s, a.t);
    } else {
      var r := Step(s, a);
      forall t | t in r.threads && r.threads[t].Deleting?
        ensures r.threads[t].i < |r.objs| && r.objs[r.threads[t].i].freed == 0
      {
        DeletesTheEntry(s, a, t);
        FreesOnlyOnRelease(s, a, r.threads[t].i);
      }
    }
  }

  /** Counts are right, and nobody at all is at a freed instance. */
  ghost predicate Safe(s: Sys) {
    Inv(s) && NoneDangles(s)
  }

  lemma SafeStepIff(s: Sys, a: Action)
    requires Safe(s)
    ensures Safe(Step(s, a)) <==> !Unclaimed(s, a) && !Strands(s, a)
  {
    StepKeepsIff(s, a);
    StepDanglesIff(s, a);
  }

  ghost predicate AlwaysSafe(actions: seq<Action>) {
    forall n :: 0 <= n <= |actions| ==> Safe(Run(INITIAL, actions[..n]))
  }

  ghost predicate NeverStrands(actions: seq<Action>) {
    forall n :: 0 <= n < |actions| ==> !Strands(Run(INITIAL, actions[..n]), actions[n])
  }

  lemma {:induction false} SafeUpTo(actions: seq<Action>, n: nat)
    requires n <= |actions| && AlwaysClaimed(actions) && NeverStrands(actions)
    ensures Safe(Run(INITIAL, actions[..n]))
    decreases n
  {
    if n > 0 {
      SafeUpTo(actions, n - 1);
      RunOn(actions, n - 1);
      SafeStepIff(Run(INITIAL, actions[..n - 1]), actions[n - 1]);
    }
  }

  /**
   * Nobody is ever at a freed instance, deletions under way included, if and only if every deletion finds a claim and
   * no instance is freed between a deletion's lookup and its put.
   */
  lemma SafeIff(actions: seq<Action>)
    ensures AlwaysSafe(actions) <==> AlwaysClaimed(actions) && NeverStrands(actions)
  {
    if AlwaysClaimed(actions) && NeverStrands(actions) {
      forall n | 0 <= n <= |actions| ensures Safe(Run(INITIAL, actions[..n])) {
        SafeUpTo(actions, n);
      }
    }
    if AlwaysSafe(actions) {
      forall n | 0 <= n < |actions|
        ensures !Unclaimed(Run(INITIAL, actions[..n]), actions[n]) && !Strands(Run(INITIAL, actions[..n]), actions[n])
      {
        RunOn(actions, n);
        assert Safe(Run(INITIAL, actions[..n])) && Safe(Run(INITIAL, actions[..n + 1]));
        SafeStepIff(Run(INITIAL, actions[..n]), actions[n]);
      }
    }
  }

  /** In claimed runs no deletion that was finished put a freed instance. */
  lemma FinishedDeletionsWereLive(actions: seq<Action>, n: nat)
    requires AlwaysClaimed(actions) && n < |actions| && actions[n].Drop?
    ensures var s, t := Run(INITIAL, actions[..n]), actions[n].t;
            t in s.threads && s.threads[t].Deleting? ==>
              s.threads[t].i < |s.objs| && s.objs[s.threads[t].i].freed == 0 && s.objs[s.threads[t].i].refcnt > 0
  {
    var s, t := Run(INITIAL, actions[..n]), actions[n].t;
    CountedUpTo(actions, n);
    if t in s.threads && s.threads[t].Deleting? {
      assert ThreadOk(s, t) && Counted(s, s.threads[t].i);
      assert !Unclaimed(s, actions[n]);
    }
  }

  /** What that means for one instance: counted right, freed at most once, and not while anybody refers to it. */
  lemma ClaimedRunsAreSafe(actions: seq<Action>, i: nat)
    requires AlwaysClaimed(actions) && i < |Run(INITIAL, actions).objs|
    ensures var r := Run(INITIAL, actions); var o := r.objs[i];
            o.refcnt == o.claims + r.refs[i] && o.freed <= 1 && (o.refcnt > 0 ==> o.freed == 0)
  {
    CountedUpTo(actions, |actions|);
    assert actions[..|actions|] == actions;
    assert Counted(Run(INITIAL, actions), i);
  }

  /** A count that has reached zero never rises above it again, whatever lookups were under way. */
  lemma NeverRevived(s: Sys, a: Action, i: nat)
    requires i < |s.objs| && s.objs[i].refcnt <= 0
    ensures i < |Step(s, a).objs| && Step(s, a).objs[i].refcnt <= 0
  {
  }

  // ----- lookups -----

  /** The thread gets a reference to instance i in this step. */
  predicate Gets(s: Sys, a: Action, t: nat, i: nat) {
    && a == TryCas(t) && t in s.threads && t !in Step(s, a).threads
    && i < |s.objs| && Step(s, a).refs == s.refs + multiset{i}
    && Step(s, a).objs[i].refcnt == s.objs[i].refcnt + 1
  }

  /**
   * What the swap of a lookup comes to: it ends without a reference exactly if the count it loaded was not positive,
   * with one exactly if the count is still the one loaded, and otherwise the lookup starts over at the same instance.
   */
  lemma SwapIsExact(s: Sys, t: nat)
    requires t in s.threads && s.threads[t].Trying? && s.threads[t].i < |s.objs|
    ensures var r, i, seen := Step(s, TryCas(t)), s.threads[t].i, s.threads[t].seen;
            && (t !in r.threads && r.refs == s.refs <==> seen <= 0)
            && (Gets(s, TryCas(t), t, i) <==> 0 < seen == s.objs[i].refcnt)
            && (t in r.threads <==> 0 < seen != s.objs[i].refcnt)
            && (t in r.threads ==> r == s.(threads := s.threads[t := Entered(i)]))
  {
    var r, i := Step(s, TryCas(t)), s.threads[t].i;
    assert (s.refs + multiset{i})[i] == s.refs[i] + 1;
  }

  /** A deletion finds exactly the instance that is in the table, unless its last reference is gone. */
  lemma FindIsExact(s: Sys, t: nat, i: nat)
    requires t !in s.threads && i < |s.objs|
    ensures var r := Step(s, Find(t));
            && (t in r.threads && r.threads[t] == Deleting(i) <==> s.entry == Some(i) && s.objs[i].refcnt != 0)
            && r == s.(threads := r.threads) && r.threads - {t} == s.threads
  {
    assert s.threads - {t} == s.threads;
  }

  /** The thread is inside a lookup of instance i and has not loaded a count that ends it. */
  predicate Looking(s: Sys, t: nat, i: nat) {
    && t in s.threads
    && (s.threads[t] == Entered(i) || (s.threads[t].Trying? && s.threads[t].i == i && s.threads[t].seen > 0))
  }

  predicate Live(s: Sys, i: nat) {
    i < |s.objs| && s.objs[i].refcnt > 0
  }

  lemma LookingStep(s: Sys, a: Action, t: nat, i: nat)
    requires Looking(s, t, i) && Live(s, i)
    ensures Looking(Step(s, a), t, i) || Gets(s, a, t, i)
  {
    if a == TryCas(t) && s.threads[t].Trying? {
      SwapIsExact(s, t);
    }
  }

  /** Thread t gets its reference in the k-th step. */
  ghost predicate GetsAt(s: Sys, actions: seq<Action>, k: nat, t: nat, i: nat) {
    k < |actions| && Gets(Run(s, actions[..k]), actions[k], t, i)
  }

  /** After n steps the lookup is under way, or one of them got it its reference. */
  ghost predicate Served(s: Sys, actions: seq<Action>, n: nat, t: nat, i: nat)
    requires n <= |actions|
  {
    Looking(Run(s, actions[..n]), t, i) || exists k: nat :: k < n && GetsAt(s, actions, k, t, i)
  }

  lemma RunFromOn(s: Sys, actions: seq<Action>, n: nat)
    requires n < |actions|
    ensures Run(s, actions[..n + 1]) == Step(Run(s, actions[..n]), actions[n])
  {
    assert actions[..n + 1][..n] == actions[..n];
  }

  lemma ServedOn(s: Sys, actions: seq<Action>, n: nat, m: Sys, t: nat, i: nat)
    requires n < |actions| && m == Run(s, actions[..n]) && Looking(m, t, i) && Live(m, i)
    ensures Served(s, actions, n + 1, t, i)
  {
    RunFromOn(s, actions, n);
    LookingStep(m, actions[n], t, i);
    assert Gets(m, actions[n], t, i) ==> GetsAt(s, actions, n, t, i);
  }

  /**
   * Whatever other threads do: a lookup that entered an instance whose count stays positive is still under way, or
   * got its reference to that instance. It ends empty-handed only if the count was zero in between.
   */
  lemma {:induction false} LookupOfLiveGets(s: Sys, actions: seq<Action>, n: nat, t: nat, i: nat)
    requires n <= |actions| && Looking(s, t, i) && forall m :: 0 <= m < n ==> Live(Run(s, actions[..m]), i)
    ensures Served(s, actions, n, t, i)
    decreases n
  {
    if n > 0 {
      LookupOfLiveGets(s, actions, n - 1, t, i);
      var m := Run(s, actions[..n - 1]);
      if Looking(m, t, i) {
        ServedOn(s, actions, n - 1, m, t, i);
      }
    }
  }

  /** A lookup that is left alone for a load and a swap gets its reference, however often it lost before. */
  lemma UndisturbedRetryGets(s: Sys, t: nat, i: nat)
    requires Live(s, i) && t in s.threads && s.threads[t] == Entered(i)
    ensures Gets(Step(s, Load(t)), TryCas(t), t, i)
  {
    SwapIsExact(Step(s, Load(t)), t);
  }

  lemma DropsFreeNothing(s: Sys, a: Action, i: nat)
    requires i < |s.objs| && (a.Put? || a.Drop?)
    ensures var r := Step(s, a); i < |r.objs| && r.objs[i].freed == s.objs[i].freed
  {
  }

  lemma OthersFreeNothing(s: Sys, a: Action, i: nat)
    requires i < |s.objs| && !a.Release? && !a.Put? && !a.Drop?
    ensures var r := Step(s, a); i < |r.objs| && r.objs[i].freed == s.objs[i].freed
  {
  }

  lemma FreesOnlyOnRelease(s: Sys, a: Action, i: nat)
    requires i < |s.objs|
    ensures var r := Step(s, a);
            && i < |r.objs| && s.objs[i].freed <= r.objs[i].freed
            && r.objs[i].freed <= s.objs[i].freed + 1
            && (r.objs[i].freed > s.objs[i].freed ==> a.Release? && Frees(s, a.t, i))
  {
    if a.Put? || a.Drop? {
      DropsFreeNothing(s, a, i);
    } else if !a.Release? {
      OthersFreeNothing(s, a, i);
    }
  }

  /** The number of frees of an instance never falls nor passes one, and rises only when nobody refers to it. */
  lemma FreedOnce(s: Sys, a: Action, i: nat)
    requires Inv(s) && i < |s.objs|
    ensures var r := Step(s, a);
            && i < |r.objs| && s.objs[i].freed <= r.objs[i].freed <= 1
            && (r.objs[i].freed > s.objs[i].freed ==>
                a.Release? && s.objs[i].refcnt == s.refs[i] == s.objs[i].claims == 0)
  {
    FreesOnlyOnRelease(s, a, i);
    assert Counted(s, i);
    if a.Release? && Frees(s, a.t, i) {
      assert ThreadOk(s, a.t) && Dying(s, i);
    }
  }

  // ----- reachability -----

  /** Every instance that somebody refers to is the one that lookups find. */
  ghost predicate Reachable(s: Sys) {
    forall i :: 0 <= i < |s.objs| && s.objs[i].refcnt > 0 ==> s.entry == Some(i)
  }

  /** The step clears or overwrites an entry that names a live instance: the instance is lost. */
  predicate Loses(s: Sys, a: Action) {
    && s.entry.Some? && s.entry.value < |s.objs| && s.objs[s.entry.value].refcnt > 0
    && NoReader(s)
    && (a.Publish? || (a.Unlink? && a.t in s.threads && s.threads[a.t].Unlinking?))
  }

  /** Only publishing and unlinking touch the entry, and only a drop to zero starts an unlinking. */
  lemma OthersLeaveEntry(s: Sys, a: Action)
    requires !a.Publish? && !a.Unlink?
    ensures var r := Step(s, a); r.entry == s.entry && |r.objs| == |s.objs|
  {
  }

  lemma StepReaches(s: Sys, a: Action)
    requires Reachable(s)
    ensures Reachable(Step(s, a)) <==> !Loses(s, a)
  {
    var r := Step(s, a);
    if Loses(s, a) {
      assert r.objs[s.entry.value].refcnt > 0;
    } else if a.Publish? || a.Unlink? {
      assert forall i :: 0 <= i < |s.objs| ==> r.objs[i] == s.objs[i];
    } else {
      OthersLeaveEntry(s, a);
      forall i | 0 <= i < |r.objs| && r.objs[i].refcnt > 0 ensures r.entry == Some(i) {
        if s.objs[i].refcnt <= 0 {
          NeverRevived(s, a, i);
        }
      }
    }
  }

  ghost predicate AlwaysReachable(actions: seq<Action>) {
    forall n :: 0 <= n <= |actions| ==> Reachable(Run(INITIAL, actions[..n]))
  }

  ghost predicate NeverLoses(actions: seq<Action>) {
    forall n :: 0 <= n < |actions| ==> !Loses(Run(INITIAL, actions[..n]), actions[n])
  }

  lemma {:induction false} ReachesUpTo(actions: seq<Action>, n: nat)
    requires n <= |actions| && NeverLoses(actions)
    ensures Reachable(Run(INITIAL, actions[..n]))
    decreases n
  {
    if n > 0 {
      ReachesUpTo(actions, n - 1);
      RunOn(actions, n - 1);
      StepReaches(Run(INITIAL, actions[..n - 1]), actions[n - 1]);
    }
  }

  /** Exactly the runs without a losing step keep every live queue findable throughout. */
  lemma ReachableIff(actions: seq<Action>)
    ensures AlwaysReachable(actions) <==> NeverLoses(actions)
  {
    if NeverLoses(actions) {
      forall n | 0 <= n <= |actions| ensures Reachable(Run(INITIAL, actions[..n])) {
        ReachesUpTo(actions, n);
      }
    }
    if AlwaysReachable(actions) {
      forall n | 0 <= n < |actions| ensures !Loses(Run(INITIAL, actions[..n]), actions[n]) {
        RunOn(actions, n);
        assert Reachable(Run(INITIAL, actions[..n])) && Reachable(Run(INITIAL, actions[..n + 1]));
        StepReaches(Run(INITIAL, actions[..n]), actions[n]);
      }
    }
  }

  /** A create publishes only when the id is free and no final put on it is still to clear the entry. */
  ghost predicate Orderly(actions: seq<Action>) {
    forall n :: 0 <= n < |actions| ==> OrderlyStep(Run(INITIAL, actions[..n]), actions[n])
  }

  predicate NoUnlinking(s: Sys) {
    forall t :: t in s.threads ==> !s.threads[t].Unlinking?
  }

  /** While creates are orderly, an instance being unlinked is the one in the table, and one thread unlinks it. */
  ghost predicate Linked(s: Sys) {
    && (forall t :: t in s.threads && s.threads[t].Unlinking? ==>
         s.entry == Some(s.threads[t].i) && s.threads[t].i < |s.objs| && s.objs[s.threads[t].i].refcnt <= 0)
    && (forall t, u :: t in s.threads && u in s.threads && s.threads[t].Unlinking? && s.threads[u].Unlinking? ==>
        t == u)
  }

  /** A thread starts unlinking only an instance that was live and no longer is. */
  lemma UnlinksTheLive(s: Sys, a: Action, t: nat)
    requires t in Step(s, a).threads && Step(s, a).threads[t].Unlinking?
    ensures var r, i := Step(s, a), Step(s, a).threads[t].i;
            || (t in s.threads && s.threads[t] == r.threads[t])
            || (i < |s.objs| && |r.objs| == |s.objs| && s.objs[i].refcnt > 0 && r.objs[i].refcnt == 0
                && (forall u :: u in s.threads && u != t ==> u in r.threads && r.threads[u] == s.threads[u])
                && (forall u :: u in r.threads && u != t ==> u in s.threads && r.threads[u] == s.threads[u]))
  {
  }

  lemma LinkedEntry(s: Sys, a: Action, t: nat)
    requires Reachable(s) && Linked(s) && !a.Publish? && !a.Unlink?
    requires t in Step(s, a).threads && Step(s, a).threads[t].Unlinking?
    ensures var r, i := Step(s, a), Step(s, a).threads[t].i;
            && r.entry == Some(i) && i < |r.objs| && r.objs[i].refcnt <= 0
            && (forall u :: u in r.threads && r.threads[u].Unlinking? ==> u == t)
  {
    var r := Step(s, a);
    OthersLeaveEntry(s, a);
    UnlinksTheLive(s, a, t);
    if t in s.threads && s.threads[t] == r.threads[t] {
      NeverRevived(s, a, s.threads[t].i);
    }
    forall u | u in r.threads && r.threads[u].Unlinking? ensures u == t {
      UnlinksTheLive(s, a, u);
    }
  }

  lemma StepLinks(s: Sys, a: Action)
    requires Reachable(s) && Linked(s) && (a.Publish? ==> s.entry == None && NoUnlinking(s))
    ensures !Loses(s, a) && Linked(Step(s, a))
  {
    var r := Step(s, a);
    if !a.Publish? && !a.Unlink? {
      forall t | t in r.threads && r.threads[t].Unlinking?
        ensures r.entry == Some(r.threads[t].i) && r.threads[t].i < |r.objs| && r.objs[r.threads[t].i].refcnt <= 0
        ensures forall u :: u in r.threads && r.threads[u].Unlinking? ==> u == t
      {
        LinkedEntry(s, a, t);
      }
    }
  }

  ghost predicate Tidy(s: Sys) {
    Reachable(s) && Linked(s)
  }

  predicate OrderlyStep(s: Sys, a: Action) {
    a.Publish? ==> s.entry == None && NoUnlinking(s)
  }

  lemma TidyStep(s: Sys, a: Action)
    requires Tidy(s) && OrderlyStep(s, a)
    ensures Tidy(Step(s, a))
  {
    StepLinks(s, a);
    StepReaches(s, a);
  }

  lemma {:induction false} OrderlyUpTo(actions: seq<Action>, n: nat)
    requires n <= |actions| && Orderly(actions)
    ensures Tidy(Run(INITIAL, actions[..n]))
    decreases n
  {
    if n > 0 {
      OrderlyUpTo(actions, n - 1);
      RunOn(actions, n - 1);
      var s := Run(INITIAL, actions[..n - 1]);
      assert OrderlyStep(s, actions[n - 1]);
      TidyStep(s, actions[n - 1]);
    }
  }

  /** Creation after deletion, not overlapping a final put, loses no queue. */
  lemma OrderlyRunsReach(actions: seq<Action>)
    requires Orderly(actions)
    ensures AlwaysReachable(actions)
  {
    forall n | 0 <= n <= |actions| ensures Reachable(Run(INITIAL, actions[..n])) {
      OrderlyUpTo(actions, n);
    }
  }

  const LIVE := Instance(1, 1, 0)
  const DEAD := Instance(0, 0, 0)

  /** One instance, one thread, and some references. */
  function One(o: Instance, entry: Option<nat>, threads: map<nat, Thread>, refs: multiset<nat>): Sys {
    Sys([o], entry, threads, refs)
  }

  lemma DeletionEnds(t: nat)
    ensures Step(INITIAL, Publish) == One(LIVE, Some(0), map[], multiset{})
    ensures Step(Step(One(LIVE, Some(0), map[], multiset{}), Find(t)), Drop(t))
         == One(DEAD, Some(0), map[t := Unlinking(0)], multiset{})
  {
    assert Step(One(LIVE, Some(0), map[], multiset{}), Find(t))
        == One(LIVE, Some(0), map[t := Deleting(0)], multiset{});
    assert map[t := Deleting(0)] - {t} == map[];
  }

  lemma CreateDuringFinalPut()
    ensures Step(One(DEAD, Some(0), map[1 := Unlinking(0)], multiset{}), Publish)
         == Sys([DEAD, LIVE], Some(1), map[1 := Unlinking(0)], multiset{})
    ensures Step(Sys([DEAD, LIVE], Some(1), map[1 := Unlinking(0)], multiset{}), Unlink(1))
         == Sys([DEAD, LIVE], None, map[1 := Releasing(0)], multiset{})
  {
  }

  /** A create that overlaps a final put: the put clears the entry of the instance just created. */
  lemma OverlappingCreateIsLost()
    ensures Run(INITIAL, [Publish, Find(1), Drop(1), Publish, Unlink(1)])
         == Sys([DEAD, LIVE], None, map[1 := Releasing(0)], multiset{})
  {
    var all := [Publish, Find(1), Drop(1), Publish, Unlink(1)];
    DeletionEnds(1);
    CreateDuringFinalPut();
    RunOn(all, 0);
    RunOn(all, 1);
    RunOn(all, 2);
    RunOn(all, 3);
    RunOn(all, 4);
    assert all[..0] == [] && all[..5] == all;
  }

  /** A get by somebody outside the driver. */
  lemma OutsideGet(s: Sys, t: nat)
    requires s == One(LIVE, Some(0), map[], multiset{})
    ensures Step(s, Enter(t)) == One(LIVE, Some(0), map[t := Entered(0)], multiset{})
    ensures Step(Step(One(LIVE, Some(0), map[t := Entered(0)], multiset{}), Load(t)), TryCas(t))
         == One(Instance(2, 1, 0), Some(0), map[], multiset{0})
  {
    assert Step(One(LIVE, Some(0), map[t := Entered(0)], multiset{}), Load(t))
        == One(LIVE, Some(0), map[t := Trying(0, 1)], multiset{});
    assert map[t := Trying(0, 1)] - {t} == map[];
  }

  lemma DeleteHeld(t: nat)
    ensures Step(Step(One(Instance(2, 1, 0), Some(0), map[], multiset{0}), Find(t)), Drop(t))
         == One(Instance(1, 0, 0), Some(0), map[], multiset{0})
    ensures Step(Step(One(Instance(1, 0, 0), Some(0), map[], multiset{0}), Find(t)), Drop(t))
         == One(DEAD, Some(0), map[t := Unlinking(0)], multiset{0})
  {
    assert Step(One(Instance(2, 1, 0), Some(0), map[], multiset{0}), Find(t))
        == One(Instance(2, 1, 0), Some(0), map[t := Deleting(0)], multiset{0});
    assert Step(One(Instance(1, 0, 0), Some(0), map[], multiset{0}), Find(t))
        == One(Instance(1, 0, 0), Some(0), map[t := Deleting(0)], multiset{0});
    assert map[t := Deleting(0)] - {t} == map[];
  }

  lemma FreeHeld(t: nat)
    ensures Step(Step(One(DEAD, Some(0), map[t := Unlinking(0)], multiset{0}), Unlink(t)), Release(t))
         == One(Instance(0, 0, 1), None, map[], multiset{0})
  {
    assert Step(One(DEAD, Some(0), map[t := Unlinking(0)], multiset{0}), Unlink(t))
        == One(DEAD, None, map[t := Releasing(0)], multiset{0});
    assert map[t := Releasing(0)] - {t} == map[];
  }

  /** A queue is created, taken by somebody outside, deleted, and found again by a reset that deletes all queues. */
  function DeletedTwice(): seq<Action> {
    [Publish, Enter(1), Load(1), TryCas(1), Find(2), Drop(2), Find(2), Drop(2), Unlink(2), Release(2)]
  }

  lemma RunTwo(all: seq<Action>, n: nat, x: Sys)
    requires n + 2 <= |all| && Run(INITIAL, all[..n]) == x
    ensures Run(INITIAL, all[..n + 2]) == Step(Step(x, all[n]), all[n + 1])
  {
    RunOn(all, n);
    RunOn(all, n + 1);
  }

  lemma FirstPublish()
    ensures Step(INITIAL, Publish) == One(LIVE, Some(0), map[], multiset{})
  {
  }

  lemma EnteredOutside()
    ensures Run(INITIAL, DeletedTwice()[..2]) == One(LIVE, Some(0), map[1 := Entered(0)], multiset{})
  {
    var all := DeletedTwice();
    FirstPublish();
    EnterLive(1);
    assert all[..0] == [];
    RunTwo(all, 0, INITIAL);
  }

  lemma EnterLive(t: nat)
    ensures Step(One(LIVE, Some(0), map[], multiset{}), Enter(t))
         == One(LIVE, Some(0), map[t := Entered(0)], multiset{})
  {
  }

  lemma HeldOutside()
    ensures Run(INITIAL, DeletedTwice()[..4]) == One(Instance(2, 1, 0), Some(0), map[], multiset{0})
  {
    EnteredOutside();
    OutsideGet(One(LIVE, Some(0), map[], multiset{}), 1);
    RunTwo(DeletedTwice(), 2, One(LIVE, Some(0), map[1 := Entered(0)], multiset{}));
  }

  lemma HeldThenDeleted()
    ensures Run(INITIAL, DeletedTwice()[..6]) == One(Instance(1, 0, 0), Some(0), map[], multiset{0})
  {
    HeldOutside();
    DeleteHeld(2);
    RunTwo(DeletedTwice(), 4, One(Instance(2, 1, 0), Some(0), map[], multiset{0}));
  }

  /** The second deletion drops the reference of the holder outside: the instance is freed while it is held. */
  lemma SecondDeletionFreesHeld()
    ensures Run(INITIAL, DeletedTwice()) == One(Instance(0, 0, 1), None, map[], multiset{0})
  {
    var all := DeletedTwice();
    HeldThenDeleted();
    DeleteHeld(2);
    FreeHeld(2);
    RunTwo(all, 6, One(Instance(1, 0, 0), Some(0), map[], multiset{0}));
    RunTwo(all, 8, One(DEAD, Some(0), map[2 := Unlinking(0)], multiset{0}));
    assert all[..10] == all;
  }

  /** Two deletions find one queue, and one of them finishes. */
  function TwoDeletions(): seq<Action> {
    [Publish, Find(2), Find(3), Drop(3), Unlink(3), Release(3)]
  }

  lemma OneFinds()
    ensures Run(INITIAL, TwoDeletions()[..2]) == One(LIVE, Some(0), map[2 := Deleting(0)], multiset{})
  {
    var all := TwoDeletions();
    FirstPublish();
    assert all[..0] == [];
    assert Step(One(LIVE, Some(0), map[], multiset{}), Find(2))
        == One(LIVE, Some(0), map[2 := Deleting(0)], multiset{});
    RunTwo(all, 0, INITIAL);
  }

  lemma OtherFinds()
    ensures Step(Step(One(LIVE, Some(0), map[2 := Deleting(0)], multiset{}), Find(3)), Drop(3))
        == One(DEAD, Some(0), map[2 := Deleting(0), 3 := Unlinking(0)], multiset{})
  {
    assert Step(One(LIVE, Some(0), map[2 := Deleting(0)], multiset{}), Find(3))
        == One(LIVE, Some(0), map[2 := Deleting(0), 3 := Deleting(0)], multiset{});
    assert map[2 := Deleting(0), 3 := Deleting(0)] - {3} == map[2 := Deleting(0)];
  }

  lemma BothFind()
    ensures Run(INITIAL, TwoDeletions()[..2]) == One(LIVE, Some(0), map[2 := Deleting(0)], multiset{})
    ensures Run(INITIAL, TwoDeletions()[..4])
        == One(DEAD, Some(0), map[2 := Deleting(0), 3 := Unlinking(0)], multiset{})
  {
    OneFinds();
    OtherFinds();
    RunTwo(TwoDeletions(), 2, One(LIVE, Some(0), map[2 := Deleting(0)], multiset{}));
  }

  lemma OneFinishes()
    ensures var p := One(DEAD, Some(0), map[2 := Deleting(0), 3 := Unlinking(0)], multiset{});
            && Step(p, Unlink(3)) == One(DEAD, None, map[2 := Deleting(0), 3 := Releasing(0)], multiset{})
            && Step(Step(p, Unlink(3)), Release(3)) == One(Instance(0, 0, 1), None, map[2 := Deleting(0)], multiset{})
  {
    var p := One(DEAD, Some(0), map[2 := Deleting(0), 3 := Unlinking(0)], multiset{});
    assert Step(p, Unlink(3)) == One(DEAD, None, map[2 := Deleting(0), 3 := Releasing(0)], multiset{});
    assert map[2 := Deleting(0), 3 := Releasing(0)] - {3} == map[2 := Deleting(0)];
  }

  /** Every deletion so far found a claim, yet the other one is left at a freed instance. */
  lemma SecondDeletionDangles()
    ensures Run(INITIAL, TwoDeletions()) == One(Instance(0, 0, 1), None, map[2 := Deleting(0)], multiset{})
  {
    BothFind();
    OneFinishes();
    RunTwo(TwoDeletions(), 4, One(DEAD, Some(0), map[2 := Deleting(0), 3 := Unlinking(0)], multiset{}));
    assert TwoDeletions()[..6] == TwoDeletions();
  }
}
