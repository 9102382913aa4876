/** The shutdown sweeps: each walks the VM table while its handler, finding slots by id, changes it. */
module Shutdown {
  import opened Counting
  import opened Segments
  import opened PoolModel
  import opened VmModel
  import opened Refinement

  /** From slot `i` on, stop what is initialised and running. */
  function StopFrom(s: State, i: nat): State
    requires i <= |s.vms|
    decreases |s.vms| - i
  {
    if i == |s.vms| then s
    else if s.vms[i].initialized && s.vms[i].running then StopFrom(Stop(s, s.vms[i].vmId).0, i + 1)
    else StopFrom(s, i + 1)
  }

  /** From slot `i` on, destroy what is initialised. */
  function DestroyFrom(s: State, i: nat): State
    requires i <= |s.vms|
    decreases |s.vms| - i
  {
    if i == |s.vms| then s
    else if s.vms[i].initialized then DestroyFrom(Destroy(s, s.vms[i].vmId).0, i + 1)
    else DestroyFrom(s, i + 1)
  }

  /** Both sweeps do nothing when no VM is counted. */
  function StopAll(s: State): State {
    if s.count == 0 then s else StopFrom(s, 0)
  }

  function DestroyAll(s: State): State {
    if s.count == 0 then s else DestroyFrom(s, 0)
  }

  predicate NoneRunning(s: State, upTo: nat) {
    upTo <= |s.vms| && forall j :: 0 <= j < upTo ==> !s.vms[j].running
  }

  predicate NoneLeft(s: State, upTo: nat) {
    upTo <= |s.vms| && forall j :: 0 <= j < upTo ==> !s.vms[j].initialized
  }

  /** Lookup by id comes back to the slot being visited, so exactly that slot stops. */
  lemma StopHere(s: State, i: nat)
    requires Inv(s) && i < |s.vms| && s.vms[i].initialized && s.vms[i].running
    ensures var t := Stop(s, s.vms[i].vmId).0;
            && Inv(t) && t.vms == s.vms[i := s.vms[i].(running := false)] && t.pool == s.pool && t.count == s.count
  {
    FindVmHits(s.vms, i);
    assert VmOk(s.vms[i], s.pool);
    StopAgrees(s, s.vms[i].vmId);
  }

  lemma {:induction false} StopSweep(s: State, i: nat)
    requires Inv(s) && NoneRunning(s, i)
    ensures var t := StopFrom(s, i);
            && Inv(t) && |t.vms| == |s.vms| && NoneRunning(t, |t.vms|)
            && t.pool == s.pool && t.count == s.count
            && forall j :: 0 <= j < |s.vms| ==> t.vms[j] == s.vms[j].(running := t.vms[j].running)
    decreases |s.vms| - i
  {
    if i < |s.vms| {
      if s.vms[i].initialized && s.vms[i].running {
        StopHere(s, i);
        StopSweep(Stop(s, s.vms[i].vmId).0, i + 1);
      } else {
        assert VmOk(s.vms[i], s.pool);
        StopSweep(s, i + 1);
      }
    }
  }

  lemma DestroyHere(s: State, i: nat)
    requires Inv(s) && i < |s.vms| && s.vms[i].initialized && !s.vms[i].running
    ensures var t := Destroy(s, s.vms[i].vmId).0;
            && Inv(t) && !t.vms[i].initialized && |t.vms| == |s.vms|
            && (forall j :: 0 <= j < |s.vms| && j != i ==> t.vms[j] == s.vms[j])
            && t.vms[i].running == s.vms[i].running
  {
    FindVmHits(s.vms, i);
    assert VmOk(s.vms[i], s.pool);
    DestroyAgrees(s, s.vms[i].vmId);
  }

  lemma {:induction false} DestroySweep(s: State, i: nat)
    requires Inv(s) && NoneRunning(s, |s.vms|) && NoneLeft(s, i)
    ensures var t := DestroyFrom(s, i); Inv(t) && NoneRunning(t, |t.vms|) && NoneLeft(t, |t.vms|)
    decreases |s.vms| - i
  {
    if i < |s.vms| {
      if s.vms[i].initialized {
        DestroyHere(s, i);
        DestroySweep(Destroy(s, s.vms[i].vmId).0, i + 1);
      } else {
        DestroySweep(s, i + 1);
      }
    }
  }

  /** An empty ledger leaves nothing taken anywhere and no agent live. */
  lemma EmptyTable(s: State)
    requires Inv(s) && NoneLeft(s, |s.vms|)
    ensures s.count == 0 && TheBook(s) == map[] && Unused(s.pool)
    ensures s.agents.count == 0 && forall v :: 0 <= v < MAX_NUM_VM ==> !s.agents.live[v]
    ensures forall i :: 0 <= i < |s.pool.devs| ==> CountTaken(s.pool.devs[i].segs) == 0
  {
    CountTrueExtremes(Flags(s.vms));
    BookIs(s.vms, s.pool.segMb, map[]);
    forall v | 0 <= v < MAX_NUM_VM ensures !s.agents.live[v] {
      assert forall j :: 0 <= j < |s.vms| ==> VmOk(s.vms[j], s.pool);
    }
    CountTrueExtremes(s.agents.live);
    forall i | 0 <= i < |s.pool.devs| ensures CountTaken(s.pool.devs[i].segs) == 0 {
      CountTakenZero(s.pool.devs[i].segs);
    }
  }

  lemma NoneCounted(s: State)
    requires Inv(s) && s.count == 0
    ensures NoneLeft(s, |s.vms|)
  {
    CountTrueExtremes(Flags(s.vms));
    assert forall j :: 0 <= j < |s.vms| ==> Flags(s.vms)[j] == s.vms[j].initialized;
  }

  /** Shutdown drains everything, from any reachable state. */
  lemma ShutdownDrains(s: State)
    requires Inv(s)
    ensures var t := DestroyAll(StopAll(s));
            && Inv(t)
            && t.count == 0 && TheBook(t) == map[]
            && (forall j :: 0 <= j < |t.vms| ==> !t.vms[j].initialized && !t.vms[j].running)
            && t.agents.count == 0 && (forall v :: 0 <= v < MAX_NUM_VM ==> !t.agents.live[v])
            && Unused(t.pool) && forall i :: 0 <= i < |t.pool.devs| ==> CountTaken(t.pool.devs[i].segs) == 0
  {
    var t := DestroyAll(StopAll(s));
    if s.count == 0 {
      NoneCounted(s);
      EmptyTable(s);
    } else {
      StopSweep(s, 0);
      DestroySweep(StopAll(s), 0);
      EmptyTable(t);
    }
    assert forall j :: 0 <= j < |t.vms| ==> VmOk(t.vms[j], t.pool);
  }
}
