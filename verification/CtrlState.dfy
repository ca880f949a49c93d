/**
 * The controller's state: one bit of a word, changed only through guarded setters that run under the controller's
 * lock, so each call of a setter is one atomic step.
 */
module CtrlState {
  type State = bv32

  const DISABLED: State := 0x1
  const ENABLING: State := 0x2
  const ENABLED: State := 0x4
  const RESETTING: State := 0x8
  const TEARDOWN: State := 0x10
  const FATAL: State := 0x20
  const VF_INVALIDATING: State := 0x40
  const VF_INVALIDATED: State := 0x80
  const VF_RECOVERING: State := 0x100
  const VF_RECOVERED: State := 0x200
  const VF_ENABLED: State := 0x400

  datatype Errno = Unset | EALREADY | EINVAL | EAGAIN | ENODEV | EBUSY

  /** The states a controller can go to from a given one. */
  function Successors(s: State): set<State> {
    if s == DISABLED then {ENABLING, TEARDOWN, VF_INVALIDATING, VF_INVALIDATED, VF_ENABLED}
    else if s == ENABLING then {ENABLED, FATAL, VF_INVALIDATING}
    else if s == ENABLED then {RESETTING, TEARDOWN, FATAL, VF_INVALIDATING, VF_INVALIDATED}
    else if s == RESETTING then {DISABLED, TEARDOWN, FATAL, VF_INVALIDATING, VF_INVALIDATED}
    else if s == TEARDOWN then {VF_RECOVERING}
    else if s == FATAL then {RESETTING, TEARDOWN, VF_INVALIDATING, VF_INVALIDATED}
    else if s == VF_INVALIDATING then {FATAL, VF_INVALIDATED}
    else if s == VF_INVALIDATED then {TEARDOWN}
    else if s == VF_RECOVERING then {TEARDOWN, VF_RECOVERED}
    else if s == VF_RECOVERED then {VF_ENABLED}
    else if s == VF_ENABLED then {ENABLED, VF_INVALIDATING, VF_INVALIDATED}
    else {}
  }

  predicate Edge(s: State, r: State) {
    r in Successors(s)
  }

  /** Exactly one bit is set: the word is a power of two. */
  predicate OneBit(s: State) {
    s != 0 && s & (s - 1) == 0
  }

  predicate In(s: State, mask: State) {
    s & mask != 0
  }

  // ----- setters -----

  datatype Outcome = Outcome(state: State, ok: bool, errno: Errno)

  function Set(s: State, to: State): (o: Outcome)
    ensures o.ok || o.errno == EALREADY ==> o.state == to
    ensures !o.ok ==> o.state == s && o.errno != Unset
  {
    if s == to then Outcome(s, false, EALREADY)
    else if Edge(s, to) then Outcome(to, true, Unset)
    else Outcome(s, false, EINVAL)
  }

  function CmpSet(s: State, mask: State, to: State): Outcome {
    if In(s, mask) then Set(s, to) else Outcome(s, false, EAGAIN)
  }

  function SetFallback(s: State, to: State, mask: State, fallback: State): Outcome {
    FirstOrElse(Set(s, to), In(s, mask), Set(s, fallback))
  }

  /** The second setter's outcome stands in for a first that failed, when it may; it is reported as a failure. */
  function FirstOrElse(first: Outcome, may: bool, second: Outcome): Outcome {
    if first.ok || first.errno == EALREADY then first.(ok := true)
    else if !may then first
    else if second.ok || second.errno == EALREADY then Outcome(second.state, false, ENODEV)
    else second
  }

  datatype Action =
    | Plain(to: State)
    | Compare(mask: State, to: State)
    | Fallback(to: State, mask: State, fallback: State)

  function Step(s: State, a: Action): State {
    match a
    case Plain(to) => Set(s, to).state
    case Compare(mask, to) => CmpSet(s, mask, to).state
    case Fallback(to, mask, fallback) => SetFallback(s, to, mask, fallback).state
  }

  // ----- every run is a walk along edges -----

  /** The states a run passes through, each change once. */
  function Trace(s: State, actions: seq<Action>): (w: seq<State>)
    ensures w != [] && w[0] == s
    decreases |actions|
  {
    if actions == [] then [s]
    else
      var r := Step(s, actions[0]);
      if r == s then Trace(s, actions[1..]) else [s] + Trace(r, actions[1..])
  }

  predicate Walk(w: seq<State>) {
    forall i :: 0 <= i < |w| - 1 ==> Edge(w[i], w[i + 1])
  }

  lemma EdgesStayOneBit(s: State, r: State)
    requires Edge(s, r)
    ensures OneBit(s) && OneBit(r) && s != r
  {
  }

  lemma {:induction false} EveryRunIsAWalk(s: State, actions: seq<Action>)
    ensures Walk(Trace(s, actions))
    decreases |actions|
  {
    if actions != [] {
      EveryRunIsAWalk(Step(s, actions[0]), actions[1..]);
    }
  }

  /** From the initial state on, the word always holds one bit. */
  lemma EveryRunKeepsOneBit(s: State, actions: seq<Action>, i: nat)
    requires OneBit(s) && i < |Trace(s, actions)|
    ensures OneBit(Trace(s, actions)[i])
  {
    EveryRunIsAWalk(s, actions);
    if i > 0 {
      EdgesStayOneBit(Trace(s, actions)[i - 1], Trace(s, actions)[i]);
    }
  }

  /** The plain setters that ask for one state after another. */
  function Requests(w: seq<State>): (actions: seq<Action>)
    ensures |actions| == |w|
    decreases |w|
  {
    if w == [] then [] else [Plain(w[0])] + Requests(w[1..])
  }

  lemma TraceHead(s: State, a: Action, rest: seq<Action>)
    requires Step(s, a) != s
    ensures Trace(s, [a] + rest) == [s] + Trace(Step(s, a), rest)
  {
    assert ([a] + rest)[1..] == rest;
  }

  /** And every walk is a run: asking for its states one after another passes through exactly those. */
  lemma {:induction false} EveryWalkIsARun(w: seq<State>)
    requires w != [] && Walk(w)
    ensures Trace(w[0], Requests(w[1..])) == w
    decreases |w|
  {
    if |w| > 1 {
      var v := w[1..];
      assert Edge(w[0], w[0 + 1]) && forall i :: 0 <= i < |v| - 1 ==> Edge(v[i], w[i + 1 + 1]);
      EdgesStayOneBit(w[0], v[0]);
      EveryWalkIsARun(v);
      TraceHead(w[0], Plain(v[0]), Requests(v[1..]));
    }
  }

  /** The life of a controller: enabled, reset, enabled again, failed, reset and torn down. */
  lemma OrdinaryLife()
    ensures Walk([DISABLED, ENABLING, ENABLED, RESETTING, DISABLED, ENABLING, FATAL, RESETTING, TEARDOWN])
  {
    var w := [DISABLED, ENABLING, ENABLED, RESETTING, DISABLED, ENABLING, FATAL, RESETTING, TEARDOWN];
    forall i | 0 <= i < |w| - 1 ensures Edge(w[i], w[i + 1]) {
    }
  }

  /** The life of a VF that is invalidated, torn down, recovered and enabled again. */
  lemma VfLife()
    ensures Walk([DISABLED, VF_ENABLED, ENABLED, VF_INVALIDATING, VF_INVALIDATED, TEARDOWN, VF_RECOVERING, VF_RECOVERED,
                  VF_ENABLED, ENABLED])
  {
    var w := [DISABLED, VF_ENABLED, ENABLED, VF_INVALIDATING, VF_INVALIDATED, TEARDOWN, VF_RECOVERING, VF_RECOVERED,
              VF_ENABLED, ENABLED];
    forall i | 0 <= i < |w| - 1 ensures Edge(w[i], w[i + 1]) {
    }
  }

  /** The states from which each state can be entered. */
  lemma EntersIff(s: State)
    ensures Edge(s, DISABLED) <==> s == RESETTING
    ensures Edge(s, ENABLING) <==> s == DISABLED
    ensures Edge(s, ENABLED) <==> s in {ENABLING, VF_ENABLED}
    ensures Edge(s, RESETTING) <==> s in {ENABLED, FATAL}
    ensures Edge(s, TEARDOWN) <==> s in {DISABLED, ENABLED, RESETTING, FATAL, VF_INVALIDATED, VF_RECOVERING}
    ensures Edge(s, FATAL) <==> s in {ENABLING, ENABLED, RESETTING, VF_INVALIDATING}
    ensures Edge(s, VF_INVALIDATING) <==> s in {DISABLED, ENABLING, ENABLED, RESETTING, FATAL, VF_ENABLED}
    ensures Edge(s, VF_INVALIDATED) <==> s in {DISABLED, ENABLED, RESETTING, FATAL, VF_INVALIDATING, VF_ENABLED}
    ensures Edge(s, VF_RECOVERING) <==> s == TEARDOWN
    ensures Edge(s, VF_RECOVERED) <==> s == VF_RECOVERING
    ensures Edge(s, VF_ENABLED) <==> s in {DISABLED, VF_RECOVERED}
  {
  }

  /** When the guarded setters change the state, and to what. */
  lemma SettersAreExact(s: State, mask: State, to: State, fallback: State)
    ensures CmpSet(s, mask, to).ok <==> In(s, mask) && Edge(s, to)
    ensures CmpSet(s, mask, to).errno == EAGAIN <==> !In(s, mask)
    ensures CmpSet(s, mask, to).state == if In(s, mask) && Edge(s, to) then to else s
    ensures var o := SetFallback(s, to, mask, fallback);
            var own, back := s == to || Edge(s, to), In(s, mask) && (s == fallback || Edge(s, fallback));
            && (o.ok <==> own)
            && o.state == (if own then to else if back then fallback else s)
            && (o.errno == ENODEV <==> !own && back)
  {
    if Edge(s, to) {
      EdgesStayOneBit(s, to);
    }
    if Edge(s, fallback) {
      EdgesStayOneBit(s, fallback);
    }
  }

  // ----- the way back from invalidation -----

  /** Invalidated, and not yet brought back. */
  predicate Quarantined(s: State) {
    s == VF_INVALIDATED || s == TEARDOWN || s == VF_RECOVERING || s == VF_RECOVERED
  }

  /** The first state outside quarantine after i. */
  lemma {:induction false} FirstExit(w: seq<State>, i: nat, j: nat) returns (k: nat)
    requires Walk(w) && i < j < |w| && Quarantined(w[i]) && !Quarantined(w[j])
    ensures i < k <= j && !Quarantined(w[k]) && forall m :: i <= m < k ==> Quarantined(w[m])
    decreases j - i
  {
    if Quarantined(w[i + 1]) {
      k := FirstExit(w, i + 1, j);
    } else {
      k := i + 1;
    }
  }

  lemma RecoverySteps(w: seq<State>, k: nat)
    requires Walk(w) && 0 < k < |w|
    ensures Quarantined(w[k - 1]) && !Quarantined(w[k]) ==> w[k - 1] == VF_RECOVERED && w[k] == VF_ENABLED
    ensures w[k] == VF_RECOVERED ==> w[k - 1] == VF_RECOVERING
    ensures w[k] == VF_RECOVERING ==> w[k - 1] == TEARDOWN
  {
    assert Edge(w[k - 1], w[k - 1 + 1]);
  }

  lemma FourStates(w: seq<State>, k: nat)
    requires 3 <= k < |w| && w[k - 3] == TEARDOWN && w[k - 2] == VF_RECOVERING && w[k - 1] == VF_RECOVERED
    requires w[k] == VF_ENABLED
    ensures w[k - 3..k + 1] == [TEARDOWN, VF_RECOVERING, VF_RECOVERED, VF_ENABLED]
  {
    var q := w[k - 3..k + 1];
    assert |q| == 4 && q[0] == w[k - 3] && q[1] == w[k - 2] && q[2] == w[k - 1] && q[3] == w[k];
  }

  /**
   * After VF_INVALIDATED no state outside quarantine, in particular none of DISABLED, ENABLING, ENABLED and
   * RESETTING, recurs before TEARDOWN, VF_RECOVERING, VF_RECOVERED and VF_ENABLED have come one right after another.
   */
  lemma InvalidatedComesBackOnlyByRecovery(s: State, actions: seq<Action>, i: nat, j: nat) returns (k: nat)
    requires i < j < |Trace(s, actions)| && Trace(s, actions)[i] == VF_INVALIDATED && !Quarantined(Trace(s, actions)[j])
    ensures i + 4 <= k <= j
    ensures Trace(s, actions)[k - 3..k + 1] == [TEARDOWN, VF_RECOVERING, VF_RECOVERED, VF_ENABLED]
    ensures Trace(s, actions)[j] != VF_ENABLED ==> k < j
  {
    var w := Trace(s, actions);
    EveryRunIsAWalk(s, actions);
    k := FirstExit(w, i, j);
    RecoverySteps(w, k);
    assert k - 1 > i;
    RecoverySteps(w, k - 1);
    assert k - 2 > i;
    RecoverySteps(w, k - 2);
    assert k - 3 > i;
    FourStates(w, k);
  }

  // ----- invalidation -----

  /** Every state bit but those of VF_ENABLED and RESETTING. */
  const ALLOWED: State := 0x3F7

  /** One attempt of unvmed_vf_start_invalidating. */
  function Attempt(s: State): Outcome {
    CmpSet(s, ALLOWED, VF_INVALIDATING)
  }

  predicate IsState(s: State) {
    Successors(s) != {}
  }

  lemma StateBits(s: State)
    requires IsState(s)
    ensures In(s, ALLOWED) <==> s != RESETTING && s != VF_ENABLED
  {
  }

  /**
   * An attempt commits from four states only; it waits exactly in RESETTING and VF_ENABLED, although both have an
   * edge to VF_INVALIDATING; everywhere else it gives up.
   */
  lemma AttemptIsExact(s: State)
    requires IsState(s)
    ensures Attempt(s).ok <==> s == DISABLED || s == ENABLING || s == ENABLED || s == FATAL
    ensures Attempt(s).errno == EAGAIN <==> s == RESETTING || s == VF_ENABLED
    ensures Attempt(s).errno == EALREADY <==> s == VF_INVALIDATING
    ensures Attempt(s).errno == EINVAL <==> Quarantined(s)
    ensures Attempt(s).state == if Attempt(s).ok then VF_INVALIDATING else s
  {
    StateBits(s);
  }

  /** The states that an attempt waits out, and those that it replaces. */
  predicate Waits(s: State) {
    s == RESETTING || s == VF_ENABLED
  }

  predicate Commits(s: State) {
    s == DISABLED || s == ENABLING || s == ENABLED || s == FATAL
  }

  datatype Start = Committed(previous: State) | Refused(errno: Errno) | Spinning

  class Ctrl {
    var state: State
    var errno: Errno
    const isVf: bool

    constructor (vf: bool)
      ensures state == DISABLED && errno == Unset && isVf == vf
    {
      state, errno, isVf := DISABLED, Unset, vf;
    }

    /** What a setter did, in terms of what it should do; errno is written only on failure or fallback. */
    ghost predicate Did(was: Errno, o: Outcome)
      reads this
    {
      state == o.state && errno == if o.errno == Unset then was else o.errno
    }

    /** ____unvmed_ctrl_set_state, which decides by the requested state. */
    method SetLocked(to: State) returns (change: bool)
      modifies this
      ensures Did(old(errno), Set(old(state), to)) && change == Set(old(state), to).ok
    {
      var s := state;
      if s == to {
        errno := EALREADY;
        return false;
      }
      change := false;
      if to == DISABLED {
        change := s == RESETTING;
      } else if to == ENABLING {
        change := s == DISABLED;
      } else if to == ENABLED {
        change := s == ENABLING || s == VF_ENABLED;
      } else if to == RESETTING {
        change := s == ENABLED || s == FATAL;
      } else if to == TEARDOWN {
        change := s == DISABLED || s == ENABLED || s == RESETTING || s == FATAL || s == VF_INVALIDATED
            || s == VF_RECOVERING;
      } else if to == FATAL {
        change := s == ENABLING || s == RESETTING || s == VF_INVALIDATING || s == ENABLED;
      } else if to == VF_INVALIDATING {
        change := s == ENABLED || s == DISABLED || s == RESETTING || s == ENABLING || s == FATAL || s == VF_ENABLED;
      } else if to == VF_INVALIDATED {
        change := s == ENABLED || s == FATAL || s == DISABLED || s == RESETTING || s == VF_INVALIDATING
            || s == VF_ENABLED;
      } else if to == VF_RECOVERING {
        change := s == TEARDOWN;
      } else if to == VF_RECOVERED {
        change := s == VF_RECOVERING;
      } else if to == VF_ENABLED {
        change := s == DISABLED || s == VF_RECOVERED;
      }
      if change {
        state := to;
      } else {
        errno := EINVAL;
      }
    }

    /** __unvmed_ctrl_cmp_set_state. */
    method CompareSet(mask: State, to: State) returns (change: bool)
      modifies this
      ensures Did(old(errno), CmpSet(old(state), mask, to)) && change == CmpSet(old(state), mask, to).ok
    {
      if state & mask == 0 {
        errno := EAGAIN;
        return false;
      }
      change := SetLocked(to);
    }

    /**
     * unvmed_ctrl_set_state_fallback. True means that the controller is in the requested state, whether or not it
     * was before.
     */
    method SetOrFallback(to: State, mask: State, fallback: State) returns (change: bool)
      modifies this
      ensures var o := SetFallback(old(state), to, mask, fallback);
              state == o.state && change == o.ok && (!change ==> errno == o.errno) && (change ==> state == to)
    {
      ghost var first := Set(state, to);
      var done := SetLocked(to);
      if done || errno == EALREADY {
        return true;
      }
      FallBack(mask, fallback, first);
      change := false;
    }

    /** What follows a setter that failed with neither change nor EALREADY. */
    method FallBack(mask: State, fallback: State, ghost first: Outcome)
      requires !first.ok && first.errno != EALREADY && state == first.state && errno == first.errno
      modifies this
      ensures var o := FirstOrElse(first, In(old(state), mask), Set(old(state), fallback));
              state == o.state && errno == o.errno && !o.ok
    {
      if state & mask == 0 {
        return;
      }
      var done := SetLocked(fallback);
      if done || errno == EALREADY {
        errno := ENODEV;
      }
    }

    /** unvmed_vf_check_reset_allowed: a VF that is being invalidated, or has failed, is finalised on the way. */
    method CheckResetAllowed() returns (ok: bool)
      modifies this
      ensures ok <==> isVf && old(state) == ENABLED
      ensures var final := isVf && (old(state) == VF_INVALIDATING || old(state) == FATAL);
              state == if final then VF_INVALIDATED else old(state)
      ensures !ok ==> errno == if isVf then EBUSY else ENODEV
    {
      if !isVf {
        errno := ENODEV;
        return false;
      }
      if state == ENABLED {
        return true;
      }
      var _ := CompareSet(VF_INVALIDATING | FATAL, VF_INVALIDATED);
      errno := EBUSY;
      ok := false;
    }

    /** Other threads make their changes, which lead to state s, then an attempt is made. */
    method AttemptAfter(moves: seq<Action>, ghost s: State) returns (done: bool)
      requires IsState(s) && s == Steps(state, moves)
      modifies this
      ensures done <==> Commits(s)
      ensures state == if done then VF_INVALIDATING else s
      ensures !done ==> errno == if Waits(s) then EAGAIN else if s == VF_INVALIDATING then EALREADY else EINVAL
      ensures Commits(s) || Waits(s) || s == VF_INVALIDATING || Quarantined(s)
    {
      state := Steps(state, moves);
      AttemptIsExact(state);
      done := CompareSet(ALLOWED, VF_INVALIDATING);
    }

    /** The loop of attempts; `states[i]` is what the first i groups of changes make of the state. */
    method AttemptAll(moves: seq<seq<Action>>, ghost states: seq<State>) returns (r: Start, ghost n: nat)
      requires MovesThrough(moves, states) && states[0] == state
      modifies this
      ensures n <= |moves| && (r.Spinning? <==> n == |moves|)
      ensures forall k :: 0 < k <= n ==> Waits(states[k])
      ensures n < |moves| ==> Decided(states[n + 1], old(state), r, state)
      ensures n < |moves| ==> !Waits(states[n + 1])
      ensures n == |moves| ==> state == states[n]
    {
      var cur := state;
      n := 0;
      for i := 0 to |moves|
        invariant n == i && state == states[i]
        invariant forall k :: 0 < k <= i ==> Waits(states[k])
      {
        var done := AttemptAfter(moves[i], states[i + 1]);
        if done {
          return Committed(cur), n;
        }
        if errno != EAGAIN {
          return Refused(errno), n;
        }
        n := n + 1;
      }
      r := Spinning;
    }

    /**
     * unvmed_vf_start_invalidating among other threads: `moves[i]` is what they do before attempt i, and attempt n is
     * the first that finds a state which is not waited out. The state `from` that it finds decides the result; the
     * value returned is the state read at the start.
     */
    method StartInvalidating(moves: seq<seq<Action>>) returns (r: Start, ghost from: State, ghost n: nat)
      requires IsState(state)
      modifies this
      ensures !isVf ==> r == Refused(ENODEV) && state == old(state)
      ensures isVf ==> n <= |moves| && forall k :: 0 < k <= n ==> Waits(MovedBy(old(state), moves, k))
      ensures isVf ==> (r.Spinning? <==> n == |moves|)
      ensures isVf && n < |moves| ==> from == MovedBy(old(state), moves, n + 1) && !Waits(from)
      ensures isVf && n < |moves| ==> Decided(from, old(state), r, state)
      ensures isVf && n == |moves| ==> state == MovedBy(old(state), moves, n)
      ensures r.Committed? && moves[0] == [] ==> (r.previous == from <==> !Waits(old(state)))
    {
      from, n := state, 0;
      if !isVf {
        errno := ENODEV;
        return Refused(ENODEV), from, n;
      }
      ghost var states := StatesOf(state, moves);
      r, n := AttemptAll(moves, states);
      if n < |moves| {
        from := states[n + 1];
        assert n > 0 ==> Waits(states[1]);
      }
    }
  }

  /** The result and the state left, given the state that the deciding attempt found. */
  predicate Decided(from: State, first: State, r: Start, left: State) {
    && (Commits(from) || from == VF_INVALIDATING || Quarantined(from))
    && (r == Committed(first) && left == VF_INVALIDATING <==> Commits(from))
    && (r == Refused(EALREADY) && left == from <==> from == VF_INVALIDATING)
    && (r == Refused(EINVAL) && left == from <==> Quarantined(from))
  }

  /** The state before the first group of changes and after each. */
  ghost predicate MovesThrough(moves: seq<seq<Action>>, states: seq<State>) {
    && |states| == |moves| + 1
    && (forall i :: 0 <= i < |states| ==> IsState(states[i]))
    && (forall i :: 0 <= i < |moves| ==> states[i + 1] == Steps(states[i], moves[i]))
  }

  lemma StatesOf(s: State, moves: seq<seq<Action>>) returns (states: seq<State>)
    requires IsState(s)
    ensures MovesThrough(moves, states) && states[0] == s
    ensures forall i :: 0 <= i < |states| ==> states[i] == MovedBy(s, moves, i)
    ensures moves != [] && moves[0] == [] ==> states[1] == s
  {
    states := seq(|moves| + 1, i requires 0 <= i <= |moves| => MovedBy(s, moves, i));
    assert moves[..0] == [];
    if moves != [] {
      MovedOn(s, moves, 0);
    }
    forall i | 0 <= i < |states| ensures IsState(states[i]) {
      StepsKeepState(s, Joined(moves[..i]));
    }
    forall i | 0 <= i < |moves| ensures states[i + 1] == Steps(states[i], moves[i]) {
      MovedOn(s, moves, i);
    }
  }

  function Joined(moves: seq<seq<Action>>): seq<Action>
    decreases |moves|
  {
    if moves == [] then [] else Joined(moves[..|moves| - 1]) + moves[|moves| - 1]
  }

  lemma {:induction false} StepsConcat(s: State, a: seq<Action>, b: seq<Action>)
    ensures Steps(s, a + b) == Steps(Steps(s, a), b)
    decreases |a|
  {
    if a == [] {
      assert a + b == b;
    } else {
      StepsConcat(Step(s, a[0]), a[1..], b);
      assert (a + b)[1..] == a[1..] + b;
    }
  }

  /** The state after the first n groups of other threads' changes. */
  function MovedBy(s: State, moves: seq<seq<Action>>, n: nat): State
    requires n <= |moves|
  {
    Steps(s, Joined(moves[..n]))
  }

  lemma MovedOn(s: State, moves: seq<seq<Action>>, i: nat)
    requires i < |moves|
    ensures MovedBy(s, moves, i + 1) == Steps(MovedBy(s, moves, i), moves[i])
  {
    assert moves[..i + 1][..i] == moves[..i];
    StepsConcat(s, Joined(moves[..i]), moves[i]);
  }

  /** The state that a series of setters leaves. */
  function Steps(s: State, actions: seq<Action>): State
    decreases |actions|
  {
    if actions == [] then s else Steps(Step(s, actions[0]), actions[1..])
  }

  lemma {:induction false} StepsKeepState(s: State, actions: seq<Action>)
    requires IsState(s)
    ensures IsState(Steps(s, actions))
    decreases |actions|
  {
    if actions != [] {
      StepKeepsState(s, actions[0]);
      StepsKeepState(Step(s, actions[0]), actions[1..]);
    }
  }

  lemma SetKeepsState(s: State, to: State)
    requires IsState(s)
    ensures var r := Set(s, to).state; IsState(r) && (r == s || Edge(s, r))
  {
  }

  lemma StepKeepsState(s: State, a: Action)
    requires IsState(s)
    ensures IsState(Step(s, a)) && (Step(s, a) == s || Edge(s, Step(s, a)))
  {
    SetKeepsState(s, a.to);
    if a.Fallback? {
      SetKeepsState(s, a.fallback);
    }
  }

  /** The returned state can be stale: a reset seen at the start is over when the commit comes. */
  lemma ReturnedStateCanBeStale()
    ensures Attempt(RESETTING).errno == EAGAIN && Step(RESETTING, Plain(DISABLED)) == DISABLED && Attempt(DISABLED).ok
  {
    AttemptIsExact(RESETTING);
    AttemptIsExact(DISABLED);
  }
}
