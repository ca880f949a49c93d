/** The driver's context list and the loops that fill it and replay it. */
module CtxRestore {
  import opened CtrlState
  import opened CtxSpec

  class Context {
    var driver: Driver
    var list: seq<Ctx>

    constructor (d: Driver)
      ensures driver == d && list == []
    {
      driver, list := d, [];
    }

    /** unvmed_ctx_init: a second snapshot is refused until the first has been used up. */
    method Init() returns (ok: bool)
      modifies this`list
      ensures ok <==> old(list) == []
      ensures list == if ok then Snapshot(driver) else old(list)
    {
      if list != [] {
        return false;
      }
      list := [CtrlEntry(driver)];
      AddNss();
      AddCqs();
      AddSqs();
      ok := true;
    }

    method AddNss()
      modifies this`list
      ensures list == old(list) + NsEntries(driver.nss)
    {
      ghost var nss := driver.nss;
      for i := 0 to |driver.nss|
        invariant list == old(list) + NsEntries(nss[..i])
      {
        assert nss[..i + 1][..i] == nss[..i];
        list := list + [CtxNs(driver.nss[i])];
      }
      assert nss[..|nss|] == nss;
    }

    method AddCqs()
      modifies this`list
      ensures list == old(list) + CqEntries(driver.cqs, driver.nrCqs)
    {
      var q := 1;
      while q < driver.nrCqs
        invariant q >= 1 && (q <= driver.nrCqs || q == 1) && list == old(list) + CqEntries(driver.cqs, q)
      {
        if q in driver.cqs {
          list := list + [CqEntry(q, driver.cqs[q])];
        }
        q := q + 1;
      }
    }

    method AddSqs()
      modifies this`list
      ensures list == old(list) + SqEntries(driver.sqs, driver.nrSqs)
    {
      var q := 1;
      while q < driver.nrSqs
        invariant q >= 1 && (q <= driver.nrSqs || q == 1) && list == old(list) + SqEntries(driver.sqs, q)
      {
        if q in driver.sqs {
          list := list + [SqEntry(q, driver.sqs[q])];
        }
        q := q + 1;
      }
    }

    /** unvmed_ctx_restore: the list is used up whether or not restoration succeeds. */
    method Restore() returns (ok: bool)
      modifies this
      ensures Tried(driver, ok) == RestoreAll(old(driver), old(list)) && list == []
    {
      ghost var d := driver;
      ok := true;
      var i := 0;
      while i < |list| && ok
        invariant i <= |list| && list == old(list) && Tried(driver, ok) == RestoreAll(d, list[..i])
        decreases |list| - i
      {
        var t := RestoreOne(driver, list[i]);
        RestoreSnoc(d, list[..i], list[i]);
        assert list[..i + 1] == list[..i] + [list[i]];
        driver, ok, i := t.d, t.ok, i + 1;
      }
      if !ok {
        FailureStays(d, list, i);
      }
      assert list[..|list|] == list;
      list := [];
    }
  }

  lemma {:induction false} FailureStays(d: Driver, cs: seq<Ctx>, i: nat)
    requires i <= |cs| && !RestoreAll(d, cs[..i]).ok
    ensures RestoreAll(d, cs) == RestoreAll(d, cs[..i])
    decreases |cs|
  {
    if i < |cs| {
      var before := cs[..|cs| - 1];
      assert before[..i] == cs[..i];
      FailureStays(d, before, i);
    } else {
      assert cs[..i] == cs;
    }
  }
}
