/**
 * The pool of virtual-queue ids: a lock-free stack of free slots. An acquire loads the top, reads that slot's link
 * and swaps the top for it; a release links its slot to the top and swaps it in. Each of these is one step.
 */
module IdPool {
  import opened Options

  datatype Owner = Free | Held | Linking(t: nat)

  /** Where a thread is. `Ready` has read the link of the slot it saw on top. */
  datatype Thread = Loaded(i: nat) | Ready(i: nat, link: Option<nat>) | Pushing(i: nat)

  /** The links and the top; and, for the proof, who owns each id and which ids should be on the stack, top first. */
  datatype Pool = Pool(
    next: map<nat, Option<nat>>, top: Option<nat>, threads: map<nat, Thread>, owner: map<nat, Owner>, free: seq<nat>)

  datatype Action = LoadTop(t: nat) | ReadLink(t: nat) | CasPop(t: nat) | Link(t: nat, i: nat) | CasPush(t: nat)

  function At(s: Pool, t: nat, th: Thread): Pool {
    s.(threads := s.threads[t := th])
  }

  function Leave(s: Pool, t: nat): Pool {
    s.(threads := s.threads - {t})
  }

  /** An acquire that has seen the top: an empty stack ends it. */
  function SawTop(s: Pool, t: nat): Pool {
    if s.top.Some? then At(s, t, Loaded(s.top.value)) else Leave(s, t)
  }

  function Popped(s: Pool, t: nat, i: nat, link: Option<nat>): Pool {
    Leave(s, t).(top := link, owner := s.owner[i := Held], free := if s.free == [] then [] else s.free[1..])
  }

  function Pushed(s: Pool, t: nat, i: nat): Pool {
    Leave(s, t).(top := Some(i), owner := s.owner[i := Free], free := [i] + s.free)
  }

  /** A step that is not enabled changes nothing. */
  function Step(s: Pool, a: Action): Pool {
    match a
    case LoadTop(t) => if t in s.threads then s else SawTop(s, t)
    case ReadLink(t) =>
      if t in s.threads && s.threads[t].Loaded? && s.threads[t].i in s.next
      then At(s, t, Ready(s.threads[t].i, s.next[s.threads[t].i])) else s
    case CasPop(t) =>
      if t !in s.threads || !s.threads[t].Ready? then s
      else if s.top == Some(s.threads[t].i) then Popped(s, t, s.threads[t].i, s.threads[t].link)
      else SawTop(s, t)
    case Link(t, i) =>
      // Only the holder of an id releases it.
      if t !in s.threads && i in s.owner && s.owner[i] == Held
      then At(s, t, Pushing(i)).(next := s.next[i := s.top], owner := s.owner[i := Linking(t)]) else s
    case CasPush(t) =>
      if t !in s.threads || !s.threads[t].Pushing? || s.threads[t].i !in s.next then s
      else if s.next[s.threads[t].i] == s.top then Pushed(s, t, s.threads[t].i)
      else s.(next := s.next[s.threads[t].i := s.top])
  }

  function Run(s: Pool, actions: seq<Action>): Pool
    decreases |actions|
  {
    if actions == [] then s else Step(Run(s, actions[..|actions| - 1]), actions[|actions| - 1])
  }

  // ----- when acquire and release end -----

  predicate Acquiring(s: Pool, t: nat) {
    t in s.threads && !s.threads[t].Pushing?
  }

  /** The acquire by t ends with the id that was on top. */
  predicate Acquires(s: Pool, a: Action, t: nat) {
    && a == CasPop(t) && t !in Step(s, a).threads && s.top.Some?
    && Step(s, a).owner == s.owner[s.top.value := Held]
  }

  predicate Releasing(s: Pool, t: nat, i: nat) {
    t in s.threads && s.threads[t] == Pushing(i)
  }

  /** The release of i by t ends with i on top, linked to what was there before. */
  predicate Releases(s: Pool, a: Action, t: nat, i: nat) {
    && a == CasPush(t) && t !in Step(s, a).threads
    && Step(s, a).top == Some(i) && i in s.next && s.next[i] == s.top
  }

  lemma AcquiringStep(s: Pool, a: Action, t: nat)
    requires Acquiring(s, t) && s.top.Some?
    ensures Acquiring(Step(s, a), t) || Acquires(s, a, t)
  {
  }

  lemma ReleasingStep(s: Pool, a: Action, t: nat, i: nat)
    requires Releasing(s, t, i)
    ensures Releasing(Step(s, a), t, i) || Releases(s, a, t, i)
  {
  }

  /** After n steps the acquire is under way, or one of them ended it with an id. */
  ghost predicate Served(s: Pool, actions: seq<Action>, n: nat, t: nat)
    requires n <= |actions|
  {
    || Acquiring(Run(s, actions[..n]), t)
    || exists k: nat :: k < n && Acquires(Run(s, actions[..k]), actions[k], t)
  }

  lemma ServedOn(s: Pool, actions: seq<Action>, n: nat, m: Pool, t: nat)
    requires n < |actions| && m == Run(s, actions[..n]) && Acquiring(m, t) && m.top.Some?
    ensures Served(s, actions, n + 1, t)
  {
    RunOn(s, actions, n);
    AcquiringStep(m, actions[n], t);
  }

  /** Whatever others do, an acquire reports that no id is left only if the stack was empty at some time. */
  lemma {:induction false} AcquireEndsWithId(s: Pool, actions: seq<Action>, n: nat, t: nat)
    requires n <= |actions| && Acquiring(s, t) && forall m :: 0 <= m < n ==> Run(s, actions[..m]).top.Some?
    ensures Served(s, actions, n, t)
    decreases n
  {
    if n > 0 {
      AcquireEndsWithId(s, actions, n - 1, t);
      var m := Run(s, actions[..n - 1]);
      if Acquiring(m, t) {
        ServedOn(s, actions, n - 1, m, t);
      }
    }
  }

  /** After n steps the release is under way, or one of them ended it with its id on top. */
  ghost predicate PutBack(s: Pool, actions: seq<Action>, n: nat, t: nat, i: nat)
    requires n <= |actions|
  {
    || Releasing(Run(s, actions[..n]), t, i)
    || exists k: nat :: k < n && Releases(Run(s, actions[..k]), actions[k], t, i)
  }

  /** And a release ends only by putting its id on the stack. */
  lemma {:induction false} ReleaseEndsOnTop(s: Pool, actions: seq<Action>, n: nat, t: nat, i: nat)
    requires n <= |actions| && Releasing(s, t, i)
    ensures PutBack(s, actions, n, t, i)
    decreases n
  {
    if n > 0 {
      ReleaseEndsOnTop(s, actions, n - 1, t, i);
      var m := Run(s, actions[..n - 1]);
      if Releasing(m, t, i) {
        PutBackOn(s, actions, n - 1, m, t, i);
      }
    }
  }

  lemma PutBackOn(s: Pool, actions: seq<Action>, n: nat, m: Pool, t: nat, i: nat)
    requires n < |actions| && m == Run(s, actions[..n]) && Releasing(m, t, i)
    ensures PutBack(s, actions, n + 1, t, i)
  {
    RunOn(s, actions, n);
    ReleasingStep(m, actions[n], t, i);
  }

  // ----- the links spell out the free ids -----

  function First(free: seq<nat>): Option<nat> {
    if free == [] then None else Some(free[0])
  }

  /** What the link of the k-th free id should be. */
  function After(free: seq<nat>, k: nat): Option<nat> {
    if k + 1 < |free| then Some(free[k + 1]) else None
  }

  ghost predicate Linked(s: Pool) {
    && s.top == First(s.free)
    && forall k: nat :: k < |s.free| ==> s.free[k] in s.next && s.next[s.free[k]] == After(s.free, k)
  }

  ghost predicate Owned(s: Pool) {
    && s.next.Keys == s.owner.Keys
    && (forall k: nat, m: nat :: k < m < |s.free| ==> s.free[k] != s.free[m])
    && (forall i :: i in s.owner ==> (s.owner[i] == Free <==> i in s.free))
    && (forall i :: i in s.free ==> i in s.owner)
    && (forall t :: t in s.threads ==> s.threads[t].i in s.owner)
    && (forall t :: t in s.threads && s.threads[t].Pushing? ==> s.owner[s.threads[t].i] == Linking(t))
    && (forall i :: i in s.owner && s.owner[i].Linking? ==>
         s.owner[i].t in s.threads && s.threads[s.owner[i].t] == Pushing(i))
  }

  /** Each id is free, held or on its way back, never two of these; the free ones are all on the stack, in order. */
  ghost predicate Inv(s: Pool) {
    Linked(s) && Owned(s)
  }

  /** The swap succeeds although the slot's link has changed since it was read. */
  predicate Stale(s: Pool, a: Action) {
    && a.CasPop? && a.t in s.threads && s.threads[a.t].Ready?
    && s.top == Some(s.threads[a.t].i)
    && s.threads[a.t].i in s.next && s.next[s.threads[a.t].i] != s.threads[a.t].link
  }

  lemma LeaveKeeps(s: Pool, t: nat)
    requires Inv(s) && (t in s.threads ==> !s.threads[t].Pushing?)
    ensures Inv(SawTop(s, t)) && Inv(Leave(s, t))
  {
    if s.top.Some? {
      assert s.free[0] in s.free;
    }
  }

  lemma PopKeepsIff(s: Pool, t: nat)
    requires Inv(s) && t in s.threads && s.threads[t].Ready? && s.top == Some(s.threads[t].i)
    ensures s.free != [] && s.owner[s.threads[t].i] == Free
    ensures Inv(Step(s, CasPop(t))) <==> !Stale(s, CasPop(t))
  {
    var i, r := s.threads[t].i, Step(s, CasPop(t));
    assert s.free[0] == i && i in s.free && s.next[i] == After(s.free, 0) == First(s.free[1..]);
    if !Stale(s, CasPop(t)) {
      forall k: nat | k < |r.free| ensures r.free[k] in r.next && r.next[r.free[k]] == After(r.free, k) {
        assert s.free[k + 1] in s.next && s.next[s.free[k + 1]] == After(s.free, k + 1);
      }
      assert Linked(r);
      PopOwned(s, t, i);
    }
  }

  lemma PopOwned(s: Pool, t: nat, i: nat)
    requires Owned(s) && s.free != [] && s.free[0] == i && t in s.threads && s.threads[t].Ready?
    ensures Owned(Popped(s, t, i, s.threads[t].link))
  {
    forall j ensures j in s.free <==> j == i || j in s.free[1..] {
    }
  }

  lemma LinkKeeps(s: Pool, t: nat, i: nat)
    requires Inv(s)
    ensures Inv(Step(s, Link(t, i)))
  {
    var r := Step(s, Link(t, i));
    forall k: nat | k < |r.free| ensures r.free[k] in r.next && r.next[r.free[k]] == After(r.free, k) {
      assert s.free[k] in s.free;
    }
    assert Linked(r);
    assert Owned(r);
  }

  lemma RelinkKeeps(s: Pool, i: nat, link: Option<nat>)
    requires Inv(s) && i in s.owner && i !in s.free
    ensures Inv(s.(next := s.next[i := link]))
  {
    var r := s.(next := s.next[i := link]);
    forall k: nat | k < |r.free| ensures r.free[k] in r.next && r.next[r.free[k]] == After(r.free, k) {
      assert s.free[k] in s.free;
    }
    assert Linked(r);
    assert Owned(r);
  }

  lemma PushedLinked(s: Pool, t: nat, i: nat)
    requires Linked(s) && i in s.next && s.next[i] == s.top && i !in s.free
    ensures Linked(Pushed(s, t, i))
  {
    var r := Pushed(s, t, i);
    forall k: nat | k < |r.free| ensures r.free[k] in r.next && r.next[r.free[k]] == After(r.free, k) {
      if k > 0 {
        assert s.free[k - 1] in s.next && s.next[s.free[k - 1]] == After(s.free, k - 1);
      }
    }
  }

  lemma PushedOwned(s: Pool, t: nat, i: nat)
    requires Owned(s) && t in s.threads && s.threads[t] == Pushing(i) && i !in s.free
    ensures Owned(Pushed(s, t, i))
  {
    var r := Pushed(s, t, i);
    forall k: nat, m: nat | k < m < |r.free| ensures r.free[k] != r.free[m] {
      assert r.free[m] == s.free[m - 1] && s.free[m - 1] in s.free;
      assert k > 0 ==> r.free[k] == s.free[k - 1];
    }
    assert forall j :: j in r.free <==> j == i || j in s.free;
  }

  lemma PushKeeps(s: Pool, t: nat)
    requires Inv(s)
    ensures Inv(Step(s, CasPush(t)))
  {
    if t in s.threads && s.threads[t].Pushing? {
      var i := s.threads[t].i;
      assert s.owner[i] == Linking(t) && i !in s.free;
      if s.next[i] == s.top {
        PushedLinked(s, t, i);
        PushedOwned(s, t, i);
      } else {
        RelinkKeeps(s, i, s.top);
      }
    }
  }

  /** Exactly the pops with a stale link break the pool. */
  lemma StepKeepsIff(s: Pool, a: Action)
    requires Inv(s)
    ensures Inv(Step(s, a)) <==> !Stale(s, a)
  {
    match a
    case LoadTop(t) => if t !in s.threads { LeaveKeeps(s, t); }
    case ReadLink(t) =>
      assert Linked(Step(s, a));
    case CasPop(t) =>
      if t in s.threads && s.threads[t].Ready? {
        if s.top == Some(s.threads[t].i) { PopKeepsIff(s, t); } else { LeaveKeeps(s, t); }
      }
    case Link(t, i) => LinkKeeps(s, t, i);
    case CasPush(t) => PushKeeps(s, t);
  }

  function Ids(n: nat): seq<nat> {
    if n > 1 then seq(n - 1, k => k + 1) else []
  }

  /** The pool as it starts: all ids from 1 to n - 1, linked in ascending order. */
  function Initial(n: nat): Pool {
    Pool(map i | i in Ids(n) :: if i + 1 < n then Some(i + 1) else None,
         if n > 1 then Some(1) else None, map[], map i | i in Ids(n) :: Free, Ids(n))
  }

  lemma IdsAre(n: nat)
    ensures |Ids(n)| == (if n > 1 then n - 1 else 0) && forall k :: 0 <= k < |Ids(n)| ==> Ids(n)[k] == k + 1
    ensures forall i :: i in Ids(n) <==> 1 <= i < n
  {
    forall i | 1 <= i < n ensures i in Ids(n) {
      assert Ids(n)[i - 1] == i;
    }
  }

  lemma InitialLinked(n: nat)
    ensures Linked(Initial(n))
  {
    IdsAre(n);
  }

  lemma InitialOwned(n: nat)
    ensures Owned(Initial(n))
  {
    IdsAre(n);
    var s := Initial(n);
    assert s.next.Keys == s.owner.Keys;
  }

  lemma InitialInv(n: nat)
    ensures Inv(Initial(n))
  {
    InitialLinked(n);
    InitialOwned(n);
  }

  // ----- whole runs -----

  lemma RunOn(s: Pool, actions: seq<Action>, n: nat)
    requires n < |actions|
    ensures Run(s, actions[..n + 1]) == Step(Run(s, actions[..n]), actions[n])
  {
    assert actions[..n + 1][..n] == actions[..n];
  }

  ghost predicate AlwaysSound(s: Pool, actions: seq<Action>) {
    forall n :: 0 <= n <= |actions| ==> Inv(Run(s, actions[..n]))
  }

  ghost predicate NeverStale(s: Pool, actions: seq<Action>) {
    forall n :: 0 <= n < |actions| ==> !Stale(Run(s, actions[..n]), actions[n])
  }

  lemma {:induction false} SoundUpTo(s: Pool, actions: seq<Action>, n: nat)
    requires Inv(s) && n <= |actions| && NeverStale(s, actions)
    ensures Inv(Run(s, actions[..n]))
    decreases n
  {
    if n > 0 {
      SoundUpTo(s, actions, n - 1);
      RunOn(s, actions, n - 1);
      StepKeepsIff(Run(s, actions[..n - 1]), actions[n - 1]);
    }
  }

  /** An interleaving keeps every id in one place throughout if and only if none of its pops is stale. */
  lemma SoundIff(s: Pool, actions: seq<Action>)
    requires Inv(s)
    ensures AlwaysSound(s, actions) <==> NeverStale(s, actions)
  {
    if NeverStale(s, actions) {
      forall n | 0 <= n <= |actions| ensures Inv(Run(s, actions[..n])) {
        SoundUpTo(s, actions, n);
      }
    }
    if AlwaysSound(s, actions) {
      forall n | 0 <= n < |actions| ensures !Stale(Run(s, actions[..n]), actions[n]) {
        RunOn(s, actions, n);
        assert Inv(Run(s, actions[..n])) && Inv(Run(s, actions[..n + 1]));
        StepKeepsIff(Run(s, actions[..n]), actions[n]);
      }
    }
  }

  // ----- a discipline that suffices -----

  /** No id is released while another thread's acquire has it loaded. */
  predicate Undisturbed(s: Pool, a: Action) {
    a.Link? ==> forall t :: t in s.threads && !s.threads[t].Pushing? ==> s.threads[t].i != a.i
  }

  /** What an acquire has loaded is not being relinked, and the link it read is still the slot's. */
  ghost predicate Current(s: Pool) {
    forall t :: t in s.threads && !s.threads[t].Pushing? ==>
      && s.threads[t].i in s.owner && s.threads[t].i in s.next && !s.owner[s.threads[t].i].Linking?
      && (s.threads[t].Ready? ==> s.next[s.threads[t].i] == s.threads[t].link)
  }

  lemma CurrentStep(s: Pool, a: Action)
    requires Inv(s) && Current(s) && Undisturbed(s, a)
    ensures !Stale(s, a) && Current(Step(s, a))
  {
    if s.top.Some? {
      assert s.free[0] in s.free;
    }
    match a
    case LoadTop(t) =>
    case ReadLink(t) =>
    case CasPop(t) => PopIsCurrent(s, t);
    case Link(t, i) => LinkIsCurrent(s, t, i);
    case CasPush(t) => PushIsCurrent(s, t);
  }

  lemma PopIsCurrent(s: Pool, t: nat)
    requires Inv(s) && Current(s) && (s.top.Some? ==> s.top.value in s.free)
    ensures Current(Step(s, CasPop(t)))
  {
  }

  lemma LinkIsCurrent(s: Pool, t: nat, i: nat)
    requires Inv(s) && Current(s) && Undisturbed(s, Link(t, i))
    ensures Current(Step(s, Link(t, i)))
  {
  }

  lemma PushIsCurrent(s: Pool, t: nat)
    requires Inv(s) && Current(s)
    ensures Current(Step(s, CasPush(t)))
  {
  }

  ghost predicate AlwaysUndisturbed(s: Pool, actions: seq<Action>) {
    forall n :: 0 <= n < |actions| ==> Undisturbed(Run(s, actions[..n]), actions[n])
  }

  lemma {:induction false} UndisturbedUpTo(s: Pool, actions: seq<Action>, n: nat)
    requires Inv(s) && Current(s) && n <= |actions| && AlwaysUndisturbed(s, actions)
    ensures Inv(Run(s, actions[..n])) && Current(Run(s, actions[..n]))
    decreases n
  {
    if n > 0 {
      UndisturbedUpTo(s, actions, n - 1);
      RunOn(s, actions, n - 1);
      CurrentStep(Run(s, actions[..n - 1]), actions[n - 1]);
      StepKeepsIff(Run(s, actions[..n - 1]), actions[n - 1]);
    }
  }

  lemma UndisturbedRunsAreSound(n: nat, actions: seq<Action>)
    requires AlwaysUndisturbed(Initial(n), actions)
    ensures AlwaysSound(Initial(n), actions)
  {
    InitialInv(n);
    forall k | 0 <= k <= |actions| ensures Inv(Run(Initial(n), actions[..k])) {
      UndisturbedUpTo(Initial(n), actions, k);
    }
  }

  // ----- why the discipline is needed -----

  /** An acquire and a release that nobody interrupts. */
  function Acquire(s: Pool, t: nat): Pool {
    Step(Step(Step(s, LoadTop(t)), ReadLink(t)), CasPop(t))
  }

  function Release(s: Pool, t: nat, i: nat): Pool {
    Step(Step(s, Link(t, i)), CasPush(t))
  }

  lemma AcquireTakesTop(s: Pool, t: nat)
    requires Inv(s) && t !in s.threads && s.free != []
    ensures Acquire(s, t) == s.(top := First(s.free[1..]), owner := s.owner[s.free[0] := Held], free := s.free[1..])
  {
    var i := s.free[0];
    assert i in s.next && s.next[i] == After(s.free, 0) == First(s.free[1..]);
    assert Step(s, LoadTop(t)) == At(s, t, Loaded(i));
    var m := At(s, t, Ready(i, s.next[i]));
    assert Step(At(s, t, Loaded(i)), ReadLink(t)) == m by {
      assert s.threads[t := Loaded(i)][t := Ready(i, s.next[i])] == m.threads;
    }
    assert m.threads - {t} == s.threads;
  }

  lemma AcquireKeeps(s: Pool, t: nat)
    requires Inv(s) && t !in s.threads && s.free != []
    ensures Inv(Acquire(s, t))
  {
    var l := Step(s, LoadTop(t));
    var m := Step(l, ReadLink(t));
    StepKeepsIff(s, LoadTop(t));
    StepKeepsIff(l, ReadLink(t));
    StepKeepsIff(m, CasPop(t));
  }

  lemma ReleasePushes(s: Pool, t: nat, i: nat)
    requires Inv(s) && t !in s.threads && i in s.owner && s.owner[i] == Held
    ensures Release(s, t, i)
         == s.(top := Some(i), next := s.next[i := s.top], owner := s.owner[i := Free], free := [i] + s.free)
  {
    assert Release(s, t, i).threads == s.threads;
    assert s.owner[i := Linking(t)][i := Free] == s.owner[i := Free];
  }

  /**
   * Thread 1 has loaded the top id x and its link y. Thread 2 acquires x and y and releases x. Thread 1's swap then
   * succeeds and puts y, which thread 2 holds, on top of the stack for the next acquire.
   */
  lemma StaleSwapExposesHeldId(s: Pool, x: nat, y: nat)
    requires Inv(s) && s.threads == map[1 := Ready(x, Some(y))] && |s.free| >= 2 && s.free[0] == x && s.free[1] == y
    ensures var r := Release(Acquire(Acquire(s, 2), 2), 2, x);
            && Stale(r, CasPop(1)) && Step(r, CasPop(1)).top == Some(y)
            && y in Step(r, CasPop(1)).owner && Step(r, CasPop(1)).owner[y] == Held
  {
    AcquireTakesTop(s, 2);
    AcquireKeeps(s, 2);
    var m := Acquire(s, 2);
    assert m.free[0] == y;
    AcquireTakesTop(m, 2);
    AcquireKeeps(m, 2);
    ReleasePushes(Acquire(m, 2), 2, x);
  }

  /** Thread 1 loads the top and its link. */
  lemma LooksAtTop(p: Pool, x: nat, y: nat)
    requires Inv(p) && p.threads == map[] && |p.free| >= 2 && p.free[0] == x && p.free[1] == y
    ensures var s := Step(Step(p, LoadTop(1)), ReadLink(1));
            Inv(s) && s.threads == map[1 := Ready(x, Some(y))] && s.free == p.free
  {
    assert p.free[0] in p.next && p.next[p.free[0]] == After(p.free, 0);
    var l := Step(p, LoadTop(1));
    assert l == At(p, 1, Loaded(x));
    StepKeepsIff(p, LoadTop(1));
    StepKeepsIff(l, ReadLink(1));
  }

  /** So from the start: what thread 2 does inside thread 1's window exposes id 2, which it holds. */
  lemma StaleSwapFromStart(n: nat)
    requires n >= 3
    ensures var s := Step(Step(Initial(n), LoadTop(1)), ReadLink(1));
            var r := Step(Release(Acquire(Acquire(s, 2), 2), 2, 1), CasPop(1));
            r.top == Some(2) && 2 in r.owner && r.owner[2] == Held
  {
    InitialInv(n);
    IdsAre(n);
    LooksAtTop(Initial(n), 1, 2);
    StaleSwapExposesHeldId(Step(Step(Initial(n), LoadTop(1)), ReadLink(1)), 1, 2);
  }
}
