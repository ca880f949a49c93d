/**
 * Reference counts of one command structure, at the granularity of single loads and swaps: a get loads the count and
 * raises it if it has not changed, a put lowers it and frees the structure at zero, and an allocation starts a new use.
 */
module CmdRefs {

  /** A get that has loaded the count; `use` is the use of the structure at that time. */
  datatype Loaded = Loaded(seen: nat, use: nat)

  /**
   * `use` numbers the allocations of the structure, `refs` counts the references that were handed out and not put, per
   * use, and `strays` the gets that returned another use than the one they had loaded.
   */
  datatype Cmd = Cmd(refcnt: nat, use: nat, gets: map<nat, Loaded>, refs: multiset<nat>, strays: nat)

  datatype Action = Alloc | Load(t: nat) | Swap(t: nat) | Put(use: nat)

  predicate Succeeds(s: Cmd, a: Action) {
    a.Swap? && a.t in s.gets && 0 < s.gets[a.t].seen == s.refcnt
  }

  /** The swap succeeds on a use other than the one whose count was loaded. */
  predicate Stale(s: Cmd, a: Action) {
    Succeeds(s, a) && s.gets[a.t].use != s.use
  }

  /** A step that is not enabled changes nothing; a holder puts what it holds. */
  function Step(s: Cmd, a: Action): Cmd {
    match a
    case Alloc =>
      if s.refcnt == 0 then s.(refcnt := 1, use := s.use + 1, refs := s.refs + multiset{s.use + 1}) else s
    case Load(t) => if t in s.gets then s else s.(gets := s.gets[t := Loaded(s.refcnt, s.use)])
    case Swap(t) =>
      if t !in s.gets then s
      else if Succeeds(s, a) then
        s.(refcnt := s.refcnt + 1, gets := s.gets - {t}, refs := s.refs + multiset{s.use},
           strays := s.strays + if Stale(s, a) then 1 else 0)
      else if s.gets[t].seen == 0 then s.(gets := s.gets - {t})
      else s.(gets := s.gets[t := Loaded(s.refcnt, s.use)])
    case Put(use) =>
      if s.refs[use] > 0 && s.refcnt > 0 then s.(refcnt := s.refcnt - 1, refs := s.refs - multiset{use}) else s
  }

  function Run(s: Cmd, actions: seq<Action>): Cmd
    decreases |actions|
  {
    if actions == [] then s else Step(Run(s, actions[..|actions| - 1]), actions[|actions| - 1])
  }

  const FREE := Cmd(0, 0, map[], multiset{}, 0)

  // ----- the count -----

  /** The count is the number of references to the current use, and nobody refers to an earlier one. */
  ghost predicate Inv(s: Cmd) {
    s.refcnt == s.refs[s.use] && forall u :: u != s.use ==> s.refs[u] == 0
  }

  lemma StepKeeps(s: Cmd, a: Action)
    requires Inv(s)
    ensures Inv(Step(s, a))
  {
  }

  /** In every interleaving: counted right, so that no structure is freed or allocated again while it is held. */
  lemma {:induction false} EveryRunCounts(actions: seq<Action>)
    ensures Inv(Run(FREE, actions))
    decreases |actions|
  {
    if actions != [] {
      EveryRunCounts(actions[..|actions| - 1]);
      StepKeeps(Run(FREE, actions[..|actions| - 1]), actions[|actions| - 1]);
    }
  }

  // ----- when a get fails -----

  /** The get by t hands out a reference in this step. */
  predicate Gets(s: Cmd, a: Action, t: nat) {
    && a == Swap(t) && t in s.gets && t !in Step(s, a).gets
    && Step(s, a).refcnt == s.refcnt + 1 && Step(s, a).refs == s.refs + multiset{s.use}
  }

  /** A get returns nothing exactly if the count it loaded was zero; a lost swap loads the count again. */
  lemma SwapIsExact(s: Cmd, t: nat)
    requires t in s.gets
    ensures var r := Step(s, Swap(t));
            && (t !in r.gets && r.refs == s.refs <==> s.gets[t].seen == 0)
            && (Gets(s, Swap(t), t) <==> 0 < s.gets[t].seen == s.refcnt)
            && (t in r.gets ==> r == s.(gets := s.gets[t := Loaded(s.refcnt, s.use)]))
  {
    assert (s.refs + multiset{s.use})[s.use] == s.refs[s.use] + 1;
  }

  /** The get by t is under way and has not seen a count that ends it. */
  predicate Getting(s: Cmd, t: nat) {
    t in s.gets && s.gets[t].seen > 0
  }

  ghost predicate AlwaysHeld(s: Cmd, actions: seq<Action>)
    decreases |actions|
  {
    s.refcnt > 0 && (actions != [] ==> AlwaysHeld(Step(s, actions[0]), actions[1..]))
  }

  /** Some step of a run hands out a reference to the get by t. */
  predicate GetsIn(s: Cmd, actions: seq<Action>, t: nat)
    decreases |actions|
  {
    actions != [] && (Gets(s, actions[0], t) || GetsIn(Step(s, actions[0]), actions[1..], t))
  }

  /** Whatever others do, a get of a command that stays held is still under way or has returned it. */
  lemma {:induction false} GetOfHeldGets(s: Cmd, actions: seq<Action>, t: nat)
    requires Getting(s, t) && AlwaysHeld(s, actions)
    ensures Getting(After(s, actions), t) || GetsIn(s, actions, t)
    decreases |actions|
  {
    if actions != [] && !Gets(s, actions[0], t) {
      SwapIsExact(s, t);
      GetOfHeldGets(Step(s, actions[0]), actions[1..], t);
    }
  }

  // ----- the use a get returns -----

  /** The allocation takes effect. */
  predicate Renews(s: Cmd, a: Action) {
    a.Alloc? && s.refcnt == 0
  }

  function After(s: Cmd, actions: seq<Action>): Cmd
    decreases |actions|
  {
    if actions == [] then s else After(Step(s, actions[0]), actions[1..])
  }

  /** Some step of a run allocates the structure. */
  predicate Reallocates(s: Cmd, actions: seq<Action>)
    decreases |actions|
  {
    actions != [] && (Renews(s, actions[0]) || Reallocates(Step(s, actions[0]), actions[1..]))
  }

  lemma {:induction false} UsesGrow(s: Cmd, actions: seq<Action>)
    ensures After(s, actions).use >= s.use
    ensures After(s, actions).use == s.use <==> !Reallocates(s, actions)
    decreases |actions|
  {
    if actions != [] {
      UsesGrow(Step(s, actions[0]), actions[1..]);
    }
  }

  lemma {:induction false} OthersLeaveLoaded(s: Cmd, t: nat, between: seq<Action>)
    requires t in s.gets && forall i :: 0 <= i < |between| ==> between[i] != Load(t) && between[i] != Swap(t)
    ensures t in After(s, between).gets && After(s, between).gets[t] == s.gets[t]
    decreases |between|
  {
    if between != [] {
      OthersLeaveLoaded(Step(s, between[0]), t, between[1..]);
    }
  }

  /**
   * Whatever others do between the load and the successful swap of a get: it returns the use it loaded if and only if
   * the structure was not freed and allocated again in between.
   */
  lemma GetReturnsItsUseIff(s: Cmd, t: nat, between: seq<Action>)
    requires t !in s.gets && forall i :: 0 <= i < |between| ==> between[i] != Load(t) && between[i] != Swap(t)
    requires Succeeds(After(Step(s, Load(t)), between), Swap(t))
    ensures var m := After(Step(s, Load(t)), between);
            && Step(m, Swap(t)).refs == m.refs + multiset{m.use}
            && (m.use == s.use <==> !Reallocates(Step(s, Load(t)), between))
            && (Step(m, Swap(t)).strays == m.strays <==> !Reallocates(Step(s, Load(t)), between))
  {
    OthersLeaveLoaded(Step(s, Load(t)), t, between);
    UsesGrow(Step(s, Load(t)), between);
  }

  /** A command is held once; a get loads its count; it is put, allocated again, and the swap sees the same count. */
  lemma GetAcrossAllocation(s: Cmd, t: nat)
    requires Inv(s) && s.refcnt == 1 && s.gets == map[]
    ensures var m := After(Step(s, Load(t)), [Put(s.use), Alloc]);
            Succeeds(m, Swap(t)) && Step(m, Swap(t)).strays == s.strays + 1
  {
    var l := Step(s, Load(t));
    var p := Step(l, Put(s.use));
    assert [Put(s.use), Alloc][1..] == [Alloc] && [Alloc][1..] == [];
    assert After(l, [Put(s.use), Alloc]) == After(p, [Alloc]) == After(Step(p, Alloc), []);
  }
}
