/**
 * The device handle across initialisation, partial teardown of a VF, re-initialisation and release. Every path
 * that opens or closes the handle is here; other code only changes the controller's state.
 */
module DeviceHandle {
  import opened Options
  import opened CtrlState

  /** The controller instance, if there is one, by its state; and how often the handle was opened and closed. */
  datatype Device = Device(ctrl: Option<State>, opens: nat, closes: nat)

  /** How the foreign calls of one initialisation turn out. */
  datatype Luck = Luck(isVf: bool, ctrlInit: bool, irqs: bool, callbacks: bool, address: bool)

  datatype Call = InitCtrl(luck: Luck) | FreeVfCtrl | FreeCtrl | Other(a: Action)

  function Opened(d: Device): Device {
    d.(opens := d.opens + 1)
  }

  function Closed(d: Device): Device {
    d.(closes := d.closes + 1)
  }

  /** __unvmed_reinit_ctrl. */
  function Reinit(d: Device, s: State, luck: Luck): Device {
    if !luck.isVf || !luck.ctrlInit then d
    else if !luck.irqs then Closed(Opened(d))
    else
      var recovering := Set(s, VF_RECOVERING).state;
      if !luck.callbacks then Closed(Opened(d)).(ctrl := Some(Set(recovering, TEARDOWN).state))
      else Opened(d).(ctrl := Some(Set(recovering, VF_RECOVERED).state))
  }

  function After(d: Device, call: Call): Device {
    match (call, d.ctrl)
    case (InitCtrl(luck), Some(s)) => if s == TEARDOWN then Reinit(d, s, luck) else d
    case (InitCtrl(luck), None) =>
      if !luck.ctrlInit then d
      else if !luck.irqs || !luck.address then Closed(Opened(d))
      else Opened(d).(ctrl := Some(DISABLED))
    case (FreeVfCtrl, Some(s)) => Closed(d).(ctrl := Some(Set(s, TEARDOWN).state))
    case (FreeCtrl, Some(s)) => (if Set(s, TEARDOWN).ok then Closed(d) else d).(ctrl := None)
    case (Other(a), Some(s)) => d.(ctrl := Some(CtrlState.Step(s, a)))
    case (_, None) => d
  }

  /** The handle is open exactly when there is an instance that is not in TEARDOWN; it was never closed twice. */
  predicate Consistent(d: Device) {
    && (d.ctrl.Some? ==> IsState(d.ctrl.value))
    && d.opens == d.closes + if d.ctrl.Some? && d.ctrl.value != TEARDOWN then 1 else 0
  }

  /**
   * Teardown of a VF starts from a state with an edge to TEARDOWN, release from such a state or from TEARDOWN
   * itself, and nothing else moves the controller into or out of TEARDOWN.
   */
  predicate Orderly(d: Device, call: Call) {
    d.ctrl.Some? ==>
      var s := d.ctrl.value;
      match call
      case InitCtrl(_) => true
      case FreeVfCtrl => Edge(s, TEARDOWN)
      case FreeCtrl => s == TEARDOWN || Edge(s, TEARDOWN)
      case Other(a) => CtrlState.Step(s, a) == TEARDOWN <==> s == TEARDOWN
  }

  /** Exactly the orderly calls keep the handle consistent, whatever fails on the way. */
  lemma CallIsConsistentIff(d: Device, call: Call)
    requires Consistent(d)
    ensures Consistent(After(d, call)) <==> Orderly(d, call)
  {
    if d.ctrl.Some? {
      SetKeepsState(d.ctrl.value, TEARDOWN);
      match call
      case Other(a) => StepKeepsState(d.ctrl.value, a);
      case _ =>
    }
  }

  function Run(d: Device, calls: seq<Call>): Device
    decreases |calls|
  {
    if calls == [] then d else After(Run(d, calls[..|calls| - 1]), calls[|calls| - 1])
  }

  const ABSENT := Device(None, 0, 0)

  predicate AlwaysConsistent(calls: seq<Call>) {
    forall n :: 0 <= n <= |calls| ==> Consistent(Run(ABSENT, calls[..n]))
  }

  predicate AlwaysOrderly(calls: seq<Call>) {
    forall n :: 0 <= n < |calls| ==> Orderly(Run(ABSENT, calls[..n]), calls[n])
  }

  lemma RunOn(calls: seq<Call>, n: nat)
    requires n < |calls|
    ensures Run(ABSENT, calls[..n + 1]) == After(Run(ABSENT, calls[..n]), calls[n])
  {
    assert calls[..n + 1][..n] == calls[..n];
  }

  lemma {:induction false} ConsistentUpTo(calls: seq<Call>, n: nat)
    requires n <= |calls| && AlwaysOrderly(calls)
    ensures Consistent(Run(ABSENT, calls[..n]))
    decreases n
  {
    if n > 0 {
      ConsistentUpTo(calls, n - 1);
      RunOn(calls, n - 1);
      CallIsConsistentIff(Run(ABSENT, calls[..n - 1]), calls[n - 1]);
    }
  }

  /** Over whole runs: open exactly outside TEARDOWN and never closed twice, if and only if every call is orderly. */
  lemma ConsistentIff(calls: seq<Call>)
    ensures AlwaysConsistent(calls) <==> AlwaysOrderly(calls)
  {
    if AlwaysOrderly(calls) {
      forall n | 0 <= n <= |calls| ensures Consistent(Run(ABSENT, calls[..n])) {
        ConsistentUpTo(calls, n);
      }
    }
    if AlwaysConsistent(calls) {
      forall n | 0 <= n < |calls| ensures Orderly(Run(ABSENT, calls[..n]), calls[n]) {
        RunOn(calls, n);
        assert Consistent(Run(ABSENT, calls[..n])) && Consistent(Run(ABSENT, calls[..n + 1]));
        CallIsConsistentIff(Run(ABSENT, calls[..n]), calls[n]);
      }
    }
  }

  /** Tearing a VF down partially twice in a row closes the handle twice. */
  lemma SecondTeardownClosesAgain(d: Device)
    requires Consistent(d) && d.ctrl.Some? && Edge(d.ctrl.value, TEARDOWN)
    ensures var r := After(After(d, FreeVfCtrl), FreeVfCtrl); r.ctrl == Some(TEARDOWN) && r.closes == r.opens + 1
  {
  }

  /** Releasing a controller that is ENABLING, VF_INVALIDATING, VF_RECOVERED or VF_ENABLED leaves the handle open. */
  lemma ReleaseCanLeak(d: Device)
    requires Consistent(d) && d.ctrl.Some?
    ensures After(d, FreeCtrl).ctrl == None
    ensures After(d, FreeCtrl).opens == After(d, FreeCtrl).closes + 1 <==>
            d.ctrl.value in {ENABLING, VF_INVALIDATING, VF_RECOVERED, VF_ENABLED}
  {
  }

  /** The same calls, changing a controller in place. */
  class Controller {
    var ctrl: Option<State>
    var opens: nat
    var closes: nat

    constructor ()
      ensures State() == ABSENT
    {
      ctrl, opens, closes := None, 0, 0;
    }

    ghost function State(): Device
      reads this
    {
      Device(ctrl, opens, closes)
    }

    method NvmeCtrlInit(ok: bool)
      modifies this`opens
      ensures opens == old(opens) + if ok then 1 else 0
    {
      if ok {
        opens := opens + 1;
      }
    }

    method NvmeClose()
      modifies this`closes
      ensures closes == old(closes) + 1
    {
      closes := closes + 1;
    }

    method SetState(to: State) returns (change: bool)
      requires ctrl.Some?
      modifies this`ctrl
      ensures ctrl == Some(Set(old(ctrl).value, to).state) && change == Set(old(ctrl).value, to).ok
    {
      change := Set(ctrl.value, to).ok;
      ctrl := Some(Set(ctrl.value, to).state);
    }

    /** unvmed_init_ctrl; the result says whether the caller gets an instance. */
    method Init(luck: Luck) returns (ok: bool)
      modifies this
      ensures State() == After(old(State()), InitCtrl(luck))
      ensures old(ctrl) == None ==>
                && (ok <==> luck.ctrlInit && luck.irqs && luck.address)
                && ctrl == (if ok then Some(DISABLED) else None)
      ensures old(ctrl) == Some(TEARDOWN) ==>
                && (ok <==> luck.isVf && luck.ctrlInit && luck.irqs && luck.callbacks)
                && ctrl == Some(if ok then VF_RECOVERED else TEARDOWN)
      ensures old(ctrl).Some? && old(ctrl) != Some(TEARDOWN) ==> ok && State() == old(State())
      ensures ctrl != old(ctrl) <==> ok && (old(ctrl) == None || old(ctrl) == Some(TEARDOWN))
      ensures opens - closes == old(opens) - old(closes) + if ctrl != old(ctrl) then 1 else 0
    {
      if ctrl.Some? {
        if ctrl.value == TEARDOWN {
          ok := ReinitCtrl(luck);
          return;
        }
        return true;
      }
      NvmeCtrlInit(luck.ctrlInit);
      if !luck.ctrlInit {
        return false;
      }
      if !luck.irqs {
        NvmeClose();
        return false;
      }
      ctrl := Some(DISABLED);
      if !luck.address {
        Free();
        return false;
      }
      ok := true;
    }

    method ReinitCtrl(luck: Luck) returns (ok: bool)
      requires ctrl == Some(TEARDOWN)
      modifies this
      ensures State() == Reinit(old(State()), TEARDOWN, luck)
      ensures ok <==> luck.isVf && luck.ctrlInit && luck.irqs && luck.callbacks
      ensures ctrl == Some(if ok then VF_RECOVERED else TEARDOWN)
      ensures opens - closes == old(opens) - old(closes) + if ok then 1 else 0
    {
      ok := false;
      if !luck.isVf {
        return;
      }
      NvmeCtrlInit(luck.ctrlInit);
      if !luck.ctrlInit {
        return;
      }
      if !luck.irqs {
        NvmeClose();
        return;
      }
      var _ := SetState(VF_RECOVERING);
      if !luck.callbacks {
        NvmeClose();
        var _ := SetState(TEARDOWN);
        return;
      }
      ok := SetState(VF_RECOVERED);
    }

    /** unvmed_free_vf_ctrl closes the handle whether or not the state could be changed. */
    method FreeVf()
      requires ctrl.Some?
      modifies this
      ensures State() == After(old(State()), FreeVfCtrl)
      ensures closes == old(closes) + 1 && opens == old(opens)
      ensures ctrl == if Edge(old(ctrl).value, TEARDOWN) then Some(TEARDOWN) else old(ctrl)
    {
      var _ := SetState(TEARDOWN);
      NvmeClose();
    }

    /** unvmed_free_ctrl. */
    method Free()
      requires ctrl.Some?
      modifies this
      ensures State() == After(old(State()), FreeCtrl)
      ensures ctrl == None && opens == old(opens)
      ensures closes == old(closes) + if Edge(old(ctrl).value, TEARDOWN) then 1 else 0
    {
      var change := SetState(TEARDOWN);
      if change {
        NvmeClose();
      }
      ctrl := None;
    }
  }
}
