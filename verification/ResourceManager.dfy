/**
 The command layer on the running server: one handler per command with its argument
 guard, the serving loop, the shutdown sweeps, and the client's multi-node attach.
 */
module ResourceManager {
  import opened Wrappers
  import opened PoolModel
  import opened VmModel
  import opened Refinement
  import opened Runs
  import opened Transactions
  import opened Shutdown
  import opened VmInstances
  import opened VmManager

  /** Opening an event never fails; a failure would abort the server. */
  ghost predicate Opens(open: EventOpener) {
    forall k: nat, core, event: nat, group :: open(k, core, event, group) >= 0
  }

  class Server {
    const mngr: VmManager

    constructor (manager: VmManager)
      ensures mngr == manager
    {
      mngr := manager;
    }

    /** All the manager may change. */
    ghost function Footprint(): set<object>
      reads mngr
    {
      {mngr as object, mngr.agents, mngr.agents.agents}
      + (set i | 0 <= i < |mngr.vms| :: mngr.vms[i] as object)
      + (set i | 0 <= i < |mngr.vms| :: mngr.vms[i].attachedDevs as object)
      + (set d | d in mngr.devices :: d as object)
      + (set i | 0 <= i < |mngr.pool.devs| :: mngr.pool.devs[i] as object)
      + (set i | 0 <= i < |mngr.pool.devs| :: mngr.pool.devs[i].segments as object)
    }

    // ---------- one handler per command: guard, call, reply ----------

    method HandleCreateVm(vid: int, coreSet: string) returns (reply: Reply)
      requires mngr.Valid() && Legal(mngr.Abs(), CreateVm(vid, coreSet))
      modifies mngr`count, mngr.vms, set i | 0 <= i < |mngr.vms| :: mngr.vms[i].attachedDevs
      ensures mngr.Valid()
      ensures (mngr.Abs(), reply) == Step(old(mngr.Abs()), CreateVm(vid, coreSet))
      ensures mngr.devices == old(mngr.devices)
    {
      if vid < 0 {
        return InvalidArgs;
      }
      var ok := mngr.Create(vid, coreSet);
      reply := Answer(ok);
    }

    method HandleDestroyVm(vid: int) returns (reply: Reply)
      requires mngr.Valid()
      modifies mngr`count, mngr.vms
      modifies mngr.pool.devs, set k | 0 <= k < |mngr.pool.devs| :: mngr.pool.devs[k].segments
      ensures mngr.Valid()
      ensures (mngr.Abs(), reply) == Step(old(mngr.Abs()), DestroyVm(vid))
      ensures mngr.devices == old(mngr.devices)
    {
      if vid < 0 {
        return InvalidArgs;
      }
      var ok := mngr.Destroy(vid);
      reply := Answer(ok);
    }

    method HandleStartVm(vid: int, connected: bool, open: EventOpener) returns (reply: Reply)
      requires mngr.Valid() && Legal(mngr.Abs(), StartVm(vid, connected)) && Opens(open)
      modifies mngr.vms, mngr.agents, mngr.agents.agents
      ensures mngr.Valid()
      ensures (mngr.Abs(), reply) == Step(old(mngr.Abs()), StartVm(vid, connected))
      ensures mngr.devices == old(mngr.devices)
    {
      if vid < 0 {
        return InvalidArgs;
      }
      var ok := mngr.Start(vid, open, if connected then 0 else -1);
      reply := Answer(ok);
    }

    method HandleStopVm(vid: int) returns (reply: Reply)
      requires mngr.Valid()
      modifies mngr.vms, mngr.agents, mngr.agents.agents
      ensures mngr.Valid()
      ensures (mngr.Abs(), reply) == Step(old(mngr.Abs()), StopVm(vid))
      ensures mngr.devices == old(mngr.devices)
    {
      if vid < 0 {
        return InvalidArgs;
      }
      StepOfStop(mngr.Abs(), vid);
      var ok := mngr.Stop(vid);
      reply := Answer(ok);
    }

    method HandleAllocMem(nid: int, vid: int, sizeMb: int) returns (reply: Reply)
      requires mngr.Valid()
      modifies mngr.vms, set i | 0 <= i < |mngr.vms| :: mngr.vms[i].attachedDevs
      modifies mngr`devices, mngr.devices
      modifies mngr.pool.devs, set k | 0 <= k < |mngr.pool.devs| :: mngr.pool.devs[k].segments
      ensures mngr.Valid() && (forall d :: d in mngr.devices ==> d in old(mngr.devices) || fresh(d))
      ensures (mngr.Abs(), reply) == Step(old(mngr.Abs()), AllocateMem(nid, vid, sizeMb))
    {
      if nid < 0 || vid < 0 || sizeMb <= 0 {
        return InvalidArgs;
      }
      StepOfAlloc(mngr.Abs(), nid, vid, sizeMb);
      var dev := mngr.AllocMem(nid, vid, sizeMb);
      reply := if dev.Some? then Allocated(dev.value) else Failed;
    }

    method HandleFreeMem(vid: int, memid: int) returns (reply: Reply)
      requires mngr.Valid()
      modifies mngr.vms, set i | 0 <= i < |mngr.vms| :: mngr.vms[i].attachedDevs
      modifies mngr.devices, mngr.pool.devs, set k | 0 <= k < |mngr.pool.devs| :: mngr.pool.devs[k].segments
      ensures mngr.Valid()
      ensures (mngr.Abs(), reply) == Step(old(mngr.Abs()), ReleaseMem(vid, memid))
      ensures mngr.devices == old(mngr.devices)
    {
      if vid < 0 || memid < 0 {
        return InvalidArgs;
      }
      var ok := mngr.FreeMem(vid, memid);
      reply := Answer(ok);
    }

    method HandleAttachMem(memid: int, vid: int, plugged: bool) returns (reply: Reply)
      requires mngr.Valid()
      ensures mngr.Valid() && mngr.Abs() == old(mngr.Abs())
      ensures reply == Step(mngr.Abs(), AttachMem(memid, vid, plugged)).1
      ensures mngr.devices == old(mngr.devices)
    {
      if memid < 0 || vid < 0 {
        return InvalidArgs;
      }
      var req := mngr.GetMem(vid, memid);
      reply := if req == None then NoSuchMemory else Answer(plugged);
    }

    method HandleDetachMem(memid: int, vid: int, unplugged: bool) returns (reply: Reply)
      requires mngr.Valid()
      ensures mngr.Valid() && mngr.Abs() == old(mngr.Abs())
      ensures reply == Step(mngr.Abs(), DetachMem(memid, vid, unplugged)).1
      ensures mngr.devices == old(mngr.devices)
    {
      if memid < 0 || vid < 0 {
        return InvalidArgs;
      }
      var req := mngr.GetMem(vid, memid);
      reply := if req == None then NoSuchMemory else Answer(unplugged);
    }

    /** Dispatch on the command word. */
    method Handle(c: Command, open: EventOpener) returns (reply: Reply)
      requires mngr.Valid() && Legal(mngr.Abs(), c) && Opens(open)
      modifies Footprint()
      ensures mngr.Valid() && (forall d :: d in mngr.devices ==> d in old(mngr.devices) || fresh(d))
      ensures (mngr.Abs(), reply) == Step(old(mngr.Abs()), c)
    {
      match c {
        case CreateVm(vid, coreSet) => reply := HandleCreateVm(vid, coreSet);
        case DestroyVm(vid) => reply := HandleDestroyVm(vid);
        case StartVm(vid, connected) => reply := HandleStartVm(vid, connected, open);
        case StopVm(vid) => reply := HandleStopVm(vid);
        case AllocateMem(nid, vid, sizeMb) => reply := HandleAllocMem(nid, vid, sizeMb);
        case ReleaseMem(vid, memid) => reply := HandleFreeMem(vid, memid);
        case AttachMem(memid, vid, plugged) => reply := HandleAttachMem(memid, vid, plugged);
        case DetachMem(memid, vid, unplugged) => reply := HandleDetachMem(memid, vid, unplugged);
      }
    }

    // ---------- serving ----------

    /** Handle commands one after the other: the replies and the final state are those of the run. */
    method Serve(cmds: seq<Command>, open: EventOpener) returns (replies: seq<Reply>)
      requires mngr.Valid() && LegalRun(mngr.Abs(), cmds) && Opens(open)
      modifies Footprint()
      ensures mngr.Valid() && (forall d :: d in mngr.devices ==> d in old(mngr.devices) || fresh(d))
      ensures (mngr.Abs(), replies) == Run(old(mngr.Abs()), cmds)
    {
      ghost var whole := Run(mngr.Abs(), cmds);
      replies := [];
      assert cmds[0..] == cmds && [] + whole.1 == whole.1;
      for n := 0 to |cmds|
        invariant mngr.Valid() && (forall d :: d in mngr.devices ==> d in old(mngr.devices) || fresh(d))
        invariant LegalRun(mngr.Abs(), cmds[n..])
        invariant whole == Ahead(replies, Run(mngr.Abs(), cmds[n..]))
      {
        RunNext(mngr.Abs(), cmds, n, replies);
        var reply := Handle(cmds[n], open);
        replies := replies + [reply];
      }
      assert replies + [] == replies;
    }

    // ---------- shutdown ----------

    /** Walk the table and stop each VM found running, by its id. */
    method StopRunning()
      requires mngr.Valid()
      modifies mngr.vms, mngr.agents, mngr.agents.agents
      ensures mngr.Valid()
      ensures mngr.Abs() == StopAll(old(mngr.Abs()))
      ensures mngr.devices == old(mngr.devices)
    {
      if mngr.count == 0 {
        return;
      }
      for i := 0 to MAX_NUM_VM
        invariant mngr.Valid()
        invariant mngr.devices == old(mngr.devices)
        invariant StopFrom(mngr.Abs(), i) == StopFrom(old(mngr.Abs()), 0)
      {
        var vm := mngr.vms[i];
        assert mngr.Abs().vms[i] == vm.Abs() && VmOk(mngr.Abs().vms[i], mngr.Abs().pool);
        if !vm.initialized || !vm.running {
          continue;
        }
        var _ := mngr.Stop(vm.vmId);
      }
    }

    /** Walk the table and destroy each VM found, by its id. */
    method DestroyEach()
      requires mngr.Valid()
      modifies mngr`count, mngr.vms
      modifies mngr.pool.devs, set k | 0 <= k < |mngr.pool.devs| :: mngr.pool.devs[k].segments
      ensures mngr.Valid()
      ensures mngr.Abs() == DestroyAll(old(mngr.Abs()))
      ensures mngr.devices == old(mngr.devices)
    {
      if mngr.count == 0 {
        return;
      }
      for i := 0 to MAX_NUM_VM
        invariant mngr.Valid()
        invariant mngr.devices == old(mngr.devices)
        invariant DestroyFrom(mngr.Abs(), i) == DestroyFrom(old(mngr.Abs()), 0)
      {
        var vm := mngr.vms[i];
        assert mngr.Abs().vms[i] == vm.Abs() && VmOk(mngr.Abs().vms[i], mngr.Abs().pool);
        if !vm.initialized {
          continue;
        }
        var _ := mngr.Destroy(vm.vmId);
      }
    }

    /** On the signal: stop what runs, destroy what exists; nothing is left. */
    method HandleSignal()
      requires mngr.Valid()
      modifies mngr`count, mngr.vms, mngr.agents, mngr.agents.agents
      modifies mngr.pool.devs, set k | 0 <= k < |mngr.pool.devs| :: mngr.pool.devs[k].segments
      ensures mngr.Valid()
      ensures mngr.Abs() == DestroyAll(StopAll(old(mngr.Abs())))
      ensures mngr.Abs().count == 0 && TheBook(mngr.Abs()) == map[] && Unused(mngr.Abs().pool)
      ensures forall j :: 0 <= j < |mngr.Abs().vms| ==> !mngr.Abs().vms[j].initialized && !mngr.Abs().vms[j].running
      ensures mngr.Abs().agents.count == 0 && forall v :: 0 <= v < MAX_NUM_VM ==> !mngr.Abs().agents.live[v]
      ensures forall i :: 0 <= i < |mngr.vms| ==> mngr.vms[i].openFds == map[]
    {
      ShutdownDrains(mngr.Abs());
      StopRunning();
      DestroyEach();
      forall i | 0 <= i < |mngr.vms| ensures mngr.vms[i].openFds == map[] {
        assert mngr.Abs().vms[i] == mngr.vms[i].Abs();
        assert mngr.Events()[i].Settled();
      }
    }

    // ---------- the client's multi-node attach ----------

    /** Free, one after the other, what an attempt got. */
    method FreeAll(vmid: int, memids: seq<int>, open: EventOpener)
      requires mngr.Valid() && Opens(open)
      modifies Footprint()
      ensures mngr.Valid() && (forall d :: d in mngr.devices ==> d in old(mngr.devices) || fresh(d))
      ensures mngr.Abs() == Undo(old(mngr.Abs()), vmid, memids)
    {
      assert memids[0..] == memids;
      for n := 0 to |memids|
        invariant mngr.Valid() && (forall d :: d in mngr.devices ==> d in old(mngr.devices) || fresh(d))
        invariant Undo(mngr.Abs(), vmid, memids[n..]) == Undo(old(mngr.Abs()), vmid, memids)
      {
        UndoNext(mngr.Abs(), vmid, memids, n);
        var _ := Handle(ReleaseMem(vmid, memids[n]), open);
      }
    }

    /** One part of a plan: allocate, then plug. */
    method AttachOne(vmid: int, part: (int, int), plug: bool, open: EventOpener) returns (got: seq<int>, ok: bool)
      requires mngr.Valid() && Opens(open)
      modifies Footprint()
      ensures mngr.Valid() && (forall d :: d in mngr.devices ==> d in old(mngr.devices) || fresh(d))
      ensures (mngr.Abs(), got, ok) == AttachPart(old(mngr.Abs()), vmid, part, plug)
    {
      var out := Handle(AllocateMem(part.0, vmid, part.1), open);
      if !out.Allocated? {
        return [], false;
      }
      var plugged := Handle(AttachMem(out.dev.idx, vmid, plug), open);
      got, ok := [out.dev.idx], plugged == Succeeded;
    }

    /** Allocate and plug part after part; the first failure frees everything the attempt got. */
    method HandleMultiAttach(vmid: int, plan: seq<(int, int)>, plugs: seq<bool>, open: EventOpener)
      returns (memids: Option<seq<int>>)
      requires mngr.Valid() && |plugs| == |plan| && Opens(open)
      modifies Footprint()
      ensures mngr.Valid() && (forall d :: d in mngr.devices ==> d in old(mngr.devices) || fresh(d))
      ensures (mngr.Abs(), memids) == AttachAll(old(mngr.Abs()), vmid, plan, plugs, [])
    {
      ghost var outcome := AttachAll(mngr.Abs(), vmid, plan, plugs, []);
      var given: seq<int> := [];
      assert plan[0..] == plan && plugs[0..] == plugs;
      for n := 0 to |plan|
        invariant mngr.Valid() && (forall d :: d in mngr.devices ==> d in old(mngr.devices) || fresh(d))
        invariant AttachAll(mngr.Abs(), vmid, plan[n..], plugs[n..], given) == outcome
      {
        AttachNext(mngr.Abs(), vmid, plan, plugs, n, given);
        var got, ok := AttachOne(vmid, plan[n], plugs[n], open);
        given := given + got;
        if !ok {
          FreeAll(vmid, given, open);
          return None;
        }
      }
      memids := Some(given);
    }
  }

  lemma {:induction false} AttachNext(
      s: State, v: int, plan: seq<(int, int)>, plugs: seq<bool>, n: nat, given: seq<int>)
    requires s.pool.segMb > 0 && |plugs| == |plan| && n < |plan|
    ensures var (t, got, ok) := AttachPart(s, v, plan[n], plugs[n]);
            AttachAll(s, v, plan[n..], plugs[n..], given)
            == if ok then AttachAll(t, v, plan[n + 1..], plugs[n + 1..], given + got)
               else (Undo(t, v, given + got), None)
  {
    assert plan[n..][0] == plan[n] && plan[n..][1..] == plan[n + 1..];
    assert plugs[n..][0] == plugs[n] && plugs[n..][1..] == plugs[n + 1..];
  }

  lemma {:induction false} UndoNext(s: State, v: int, ids: seq<int>, n: nat)
    requires s.pool.segMb > 0 && n < |ids|
    ensures Undo(s, v, ids[n..]) == Undo(Step(s, ReleaseMem(v, ids[n])).0, v, ids[n + 1..])
  {
    assert ids[n..][0] == ids[n] && ids[n..][1..] == ids[n + 1..];
  }

  /** A run's outcome with replies already given put in front. */
  ghost function Ahead(done: seq<Reply>, r: (State, seq<Reply>)): (State, seq<Reply>) {
    (r.0, done + r.1)
  }

  lemma {:induction false} RunNext(s: State, cmds: seq<Command>, n: nat, done: seq<Reply>)
    requires s.pool.segMb > 0 && n < |cmds| && LegalRun(s, cmds[n..])
    ensures Legal(s, cmds[n])
    ensures var (t, reply) := Step(s, cmds[n]);
            && LegalRun(t, cmds[n + 1..])
            && Ahead(done, Run(s, cmds[n..])) == Ahead(done + [reply], Run(t, cmds[n + 1..]))
  {
    assert cmds[n..][0] == cmds[n] && cmds[n..][1..] == cmds[n + 1..];
    var (t, reply) := Step(s, cmds[n]);
    var (u, replies) := Run(t, cmds[n + 1..]);
    assert done + ([reply] + replies) == (done + [reply]) + replies;
  }
}
