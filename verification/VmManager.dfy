/**
 The VM manager as the program keeps it: a table of 16 slots updated in place, a count,
 the agents and the pool. Each method is tied to the corresponding function of `VmModel`.
 */
module VmManager {
  import opened Wrappers
  import opened PoolModel
  import opened CpuList
  import opened TailQueue
  import opened VmModel
  import opened Refinement
  import opened Runs
  import opened VmInstances
  import MemoryPool
  import GuestAgents

  class VmManager {
    var count: int
    const vms: seq<VmInstance>
    const agents: GuestAgents.GuestAgentTable
    const pool: MemoryPool.MemoryPool
    /** All devices ever put on a list. */
    ghost var devices: set<MemoryDev>

    // ---------- footprints ----------

    /** Every device on a queue is among `devices`. */
    ghost predicate Listed()
      reads this, set i | 0 <= i < |vms| :: vms[i].attachedDevs
    {
      forall i, d :: 0 <= i < |vms| && d in vms[i].attachedDevs.members ==> d in devices
    }

    /** Slots are different objects with different queues; so no device, having one home, is on two lists. */
    ghost predicate Apart() {
      forall i, j :: 0 <= i < j < |vms| ==> vms[i] != vms[j] && vms[i].attachedDevs != vms[j].attachedDevs
    }

    /** The heap is well shaped: nothing is shared, every part is valid by itself. */
    ghost predicate Sound()
      reads this, vms, set i | 0 <= i < |vms| :: vms[i].attachedDevs
      reads devices
      reads agents, agents.agents
      reads pool.devs, set i | 0 <= i < |pool.devs| :: pool.devs[i].segments
    {
      && |vms| == MAX_NUM_VM
      && Apart() && Listed()
      && (forall i :: 0 <= i < |vms| ==> vms[i].Valid())
      && agents.Valid() && pool.Valid()
    }

    /** The descriptors of every slot. */
    ghost function Events(): (r: seq<Perf>)
      reads vms
      ensures |r| == |vms| && forall i :: 0 <= i < |vms| ==> r[i] == vms[i].Events()
    {
      seq(|vms|, i requires 0 <= i < |vms| reads vms => vms[i].Events())
    }

    /** The descriptors open are exactly those in the tables of the VMs that run. */
    ghost predicate Balanced()
      reads vms
    {
      forall i :: 0 <= i < |vms| ==> Events()[i].Settled()
    }

    ghost predicate Valid()
      reads this, vms, set i | 0 <= i < |vms| :: vms[i].attachedDevs
      reads devices
      reads agents, agents.agents
      reads pool.devs, set i | 0 <= i < |pool.devs| :: pool.devs[i].segments
    {
      Sound() && Inv(Abs()) && CoresCounted(Abs().vms) && Balanced()
    }

    ghost function AbsVms(): (r: seq<Vm>)
      requires Listed()
      reads this, vms, set i | 0 <= i < |vms| :: vms[i].attachedDevs
      reads devices
      ensures |r| == |vms|
      ensures forall i :: 0 <= i < |vms| ==> r[i] == vms[i].Abs()
    {
      seq(|vms|, i requires 0 <= i < |vms| && Listed()
                   reads this, vms, set j | 0 <= j < |vms| :: vms[j].attachedDevs
                   reads devices
                 => vms[i].Abs())
    }

    ghost function Abs(): State
      reads this, vms, set i | 0 <= i < |vms| :: vms[i].attachedDevs
      reads devices
      reads agents, agents.agents
      reads pool.devs, set i | 0 <= i < |pool.devs| :: pool.devs[i].segments
      requires agents.Valid() && pool.Valid() && Listed()
    {
      State(pool.Abs(), AbsVms(), count, agents.Abs())
    }

    // ---------- start-up ----------

    static method NewTable() returns (list: seq<VmInstance>)
      ensures |list| == MAX_NUM_VM
      ensures forall i :: 0 <= i < |list| ==>
                && fresh(list[i]) && fresh(list[i].attachedDevs)
                && list[i].attachedDevs.members == [] && list[i].Valid() && list[i].Abs() == EMPTY_SLOT
                && list[i].Events().Settled()
      ensures forall i, j :: 0 <= i < j < |list| ==> list[i] != list[j] && list[i].attachedDevs != list[j].attachedDevs
    {
      list := [];
      for n := 0 to MAX_NUM_VM
        invariant |list| == n
        invariant forall i :: 0 <= i < n ==>
                    && fresh(list[i]) && fresh(list[i].attachedDevs)
                    && list[i].attachedDevs.members == [] && list[i].Valid() && list[i].Abs() == EMPTY_SLOT
                    && list[i].Events().Settled()
        invariant forall i, j :: 0 <= i < j < n ==>
                    list[i] != list[j] && list[i].attachedDevs != list[j].attachedDevs
      {
        var vm := new VmInstance();
        list := list + [vm];
      }
    }

    /** Zeroed tables beside a freshly configured pool. */
    constructor (memory: MemoryPool.MemoryPool)
      requires memory.Valid() && Unused(memory.Abs())
      ensures Valid() && pool == memory && fresh(agents) && fresh(agents.agents) && devices == {}
      ensures Abs() == Initial(memory.Abs())
    {
      var table := NewTable();
      count, vms, devices := 0, table, {};
      agents := new GuestAgents.GuestAgentTable();
      pool := memory;
      new;
      pool.Untouched();
      TableIsInitial();
    }

    lemma TableIsInitial()
      requires |vms| == MAX_NUM_VM && count == 0 && devices == {} && agents.Valid() && pool.Valid()
      requires forall i :: 0 <= i < |vms| ==>
                 && vms[i].attachedDevs.members == [] && vms[i].Valid() && vms[i].Abs() == EMPTY_SLOT
                 && vms[i].Events().Settled()
      requires forall i, j :: 0 <= i < j < |vms| ==> vms[i] != vms[j] && vms[i].attachedDevs != vms[j].attachedDevs
      requires agents.Abs() == Initial(pool.Abs()).agents && Unused(pool.Abs())
      ensures Valid() && Abs() == Initial(pool.Abs())
    {
      InitialOk(pool.Abs());
      assert AbsVms() == Initial(pool.Abs()).vms;
      assert Abs() == Initial(pool.Abs());
    }

    // ---------- lookup ----------

    /** First initialised slot with this id. */
    method GetInstance(v: int) returns (r: VmInstance?, ghost j: int)
      requires Sound()
      ensures Sound() && Abs() == old(Abs())
      ensures j == FindVm(Abs().vms, v)
      ensures r == null <==> j == -1
      ensures r != null ==> 0 <= j < |vms| && r == vms[j] && r.initialized && r.vmId == v
      ensures devices == old(devices)
    {
      for i := 0 to MAX_NUM_VM
        invariant FindVm(Abs().vms, v) == FindVmFrom(Abs().vms, v, i)
      {
        var vm := vms[i];
        assert Abs().vms[i] == vm.Abs();
        if vm.vmId == v && vm.initialized {
          return vm, i;
        }
      }
      return null, -1;
    }

    // ---------- framing ----------

    /** A change confined to slot `i` is a change to that entry of the table. */
    twostate lemma OneSlotChanged(i: nat)
      requires i < |vms| && old(Listed()) && Listed() && forall k :: 0 <= k < |vms| ==> old(vms[k].Valid())
      requires forall k :: 0 <= k < |vms| && k != i ==> vms[k].Same()
      ensures forall k :: 0 <= k < |vms| && k != i ==> vms[k].Valid()
      ensures AbsVms() == old(AbsVms())[i := vms[i].Abs()]
    {
      forall k | 0 <= k < |vms| && k != i ensures vms[k].Valid() && vms[k].Abs() == old(vms[k].Abs()) {
        vms[k].Untouched();
      }
    }

    /** Where only slot `i` and devices on its list changed, the other slots are as they were. */
    twostate lemma OthersSame(i: nat)
      requires i < |vms| && old(Sound()) && old(vms[i].initialized)
      requires forall k :: 0 <= k < |vms| && k != i ==> unchanged(vms[k])
      requires forall k :: 0 <= k < |vms| && k != i ==> unchanged(vms[k].attachedDevs)
      requires forall d :: d in old(devices) && d !in old(vms[i].attachedDevs.members) ==> unchanged(d)
      ensures forall k :: 0 <= k < |vms| && k != i ==> vms[k].Same()
    {
      forall k | 0 <= k < |vms| && k != i ensures vms[k].Same() {
        forall d | old(vms[k].initialized) && d in old(vms[k].attachedDevs.members) ensures unchanged(d) {
          assert old(d in devices);
          assert old(vms[k].Valid()) && d.home == vms[k].attachedDevs != vms[i].attachedDevs;
          assert old(vms[i].Valid());
        }
      }
    }

    /** A sound table stays sound when slot `i` is valid again. */
    twostate lemma StillSound(i: nat)
      requires i < |vms| && old(Sound())
      requires forall k :: 0 <= k < |vms| && k != i ==> vms[k].Same()
      requires vms[i].Valid() && Listed() && agents.Valid() && pool.Valid()
      ensures Sound()
      ensures AbsVms() == old(AbsVms())[i := vms[i].Abs()]
    {
      OneSlotChanged(i);
    }

    /** A change to slot `i`'s list alone. */
    twostate lemma ListChanged(i: nat)
      requires i < |vms| && old(Sound())
      requires forall k :: 0 <= k < |vms| && k != i ==> vms[k].Same()
      requires old(devices) <= devices && forall d :: d in vms[i].attachedDevs.members ==> d in devices
      requires vms[i].Valid() && unchanged(agents) && unchanged(agents.agents)
      requires forall k :: 0 <= k < |pool.devs| ==> unchanged(pool.devs[k]) && unchanged(pool.devs[k].segments)
      ensures Sound() && AbsVms() == old(AbsVms())[i := vms[i].Abs()]
      ensures agents.Abs() == old(agents.Abs()) && pool.Abs() == old(pool.Abs())
    {
      forall k, d | 0 <= k < |vms| && d in vms[k].attachedDevs.members ensures d in devices {
        assert k != i ==> vms[k].Same();
      }
      agents.Untouched();
      pool.Untouched();
      StillSound(i);
    }

    /** The same, told by what did not change. */
    twostate lemma OnlyListChanged(i: nat)
      requires i < |vms| && old(Sound()) && old(vms[i].initialized)
      requires forall k :: 0 <= k < |vms| && k != i ==> unchanged(vms[k]) && unchanged(vms[k].attachedDevs)
      requires forall d :: d in old(devices) && d !in old(vms[i].attachedDevs.members) ==> unchanged(d)
      requires old(devices) <= devices && forall d :: d in vms[i].attachedDevs.members ==> d in devices
      requires vms[i].Valid() && unchanged(agents) && unchanged(agents.agents)
      requires forall k :: 0 <= k < |pool.devs| ==> unchanged(pool.devs[k]) && unchanged(pool.devs[k].segments)
      ensures Sound() && AbsVms() == old(AbsVms())[i := vms[i].Abs()]
      ensures agents.Abs() == old(agents.Abs()) && pool.Abs() == old(pool.Abs())
    {
      OthersSame(i);
      ListChanged(i);
    }

    /** A change to slot `i`'s own fields alone, its list untouched. */
    twostate lemma FieldsChanged(i: nat)
      requires i < |vms| && old(Sound())
      requires forall k :: 0 <= k < |vms| && k != i ==> unchanged(vms[k])
      requires forall k :: 0 <= k < |vms| ==> unchanged(vms[k].attachedDevs)
      requires devices == old(devices) && forall d :: d in devices ==> unchanged(d)
      requires vms[i].Valid() && (vms[i].initialized ==> old(vms[i].initialized)) && agents.Valid()
      requires forall k :: 0 <= k < |pool.devs| ==> unchanged(pool.devs[k]) && unchanged(pool.devs[k].segments)
      ensures Sound() && AbsVms() == old(AbsVms())[i := vms[i].Abs()] && pool.Abs() == old(pool.Abs())
      ensures Events() == old(Events())[i := vms[i].Events()]
    {
      forall k | 0 <= k < |vms| && k != i ensures vms[k].Same() {
        assert forall d :: d in old(vms[k].attachedDevs.members) ==> d in old(devices);
      }
      pool.Untouched();
      StillSound(i);
      forall k | 0 <= k < |vms| && k != i ensures vms[k].Events() == old(vms[k].Events()) {
        assert unchanged(vms[k]);
      }
    }

    /** With only slot `i` changed, and settled, all is balanced. */
    twostate lemma StillBalanced(i: nat)
      requires i < |vms| && old(Balanced()) && vms[i].Events().Settled()
      requires forall k :: 0 <= k < |vms| && k != i ==> Events()[k] == old(Events())[k]
      ensures Balanced()
    {
    }

    /** A change to the pool alone leaves the table sound and as it was. */
    twostate lemma TableUntouched()
      requires old(Sound()) && pool.Valid() && unchanged(agents) && unchanged(agents.agents) && unchanged(`devices)
      requires forall k :: 0 <= k < |vms| ==> vms[k].Same()
      ensures Sound() && AbsVms() == old(AbsVms()) && agents.Abs() == old(agents.Abs())
    {
      agents.Untouched();
      vms[0].Untouched();
      forall k, d | 0 <= k < |vms| && d in vms[k].attachedDevs.members ensures d in devices {
        assert vms[k].Same();
      }
      StillSound(0);
    }

    // ---------- life cycle ----------

    /** The first slot that is not initialised; if all are, the last one, as the loop leaves it. */
    method FindFreeSlot() returns (i: nat)
      requires Sound()
      ensures Sound() && Abs() == old(Abs())
      ensures i < MAX_NUM_VM
      ensures FindFreeFrom(AbsVms(), 0) != -1 ==> i == FindFreeFrom(AbsVms(), 0)
    {
      i := 0;
      while i < MAX_NUM_VM - 1 && vms[i].initialized
        invariant 0 <= i < MAX_NUM_VM
        invariant FindFreeFrom(AbsVms(), 0) == FindFreeFrom(AbsVms(), i)
      {
        assert AbsVms()[i] == vms[i].Abs();
        i := i + 1;
      }
      assert AbsVms()[i] == vms[i].Abs();
    }

    method OccupySlot(i: nat, v: int, coreSet: string)
      requires Sound() && i < |vms| && !vms[i].initialized && !vms[i].running && coreSet != ""
      modifies this`count, vms[i], vms[i].attachedDevs
      ensures Sound() && count == old(count) + 1
      ensures AbsVms() == old(AbsVms())[i := Vm(v, Clip(coreSet), |VisitCores(Clip(coreSet))|, true, false, 0, [])]
      ensures agents.Abs() == old(agents.Abs()) && pool.Abs() == old(pool.Abs())
      ensures vms[i].Events() == old(vms[i].Events()).(numCores := |VisitCores(Clip(coreSet))|)
      ensures forall k :: 0 <= k < |vms| && k != i ==> Events()[k] == old(Events())[k]
      ensures devices == old(devices)
    {
      vms[i].Occupy(v, coreSet);
      count := count + 1;
      pool.Untouched();
      StillSound(i);
    }

    /** Look the id up, take the first free slot; on any heap that is well shaped. */
    method CreateOnHeap(v: int, coreSet: string) returns (ok: bool)
      requires Sound() && Balanced() && coreSet != ""
      requires count < MAX_NUM_VM ==>
                 FindFreeFrom(AbsVms(), 0) != -1 && !AbsVms()[FindFreeFrom(AbsVms(), 0)].running
      modifies this`count, vms, set i | 0 <= i < |vms| :: vms[i].attachedDevs
      ensures Sound() && Balanced() && devices == old(devices)
      ensures (Abs(), ok) == VmModel.Create(old(Abs()), v, coreSet)
    {
      ghost var before := Abs();
      if count >= MAX_NUM_VM {
        return false;
      }
      var existing, _ := GetInstance(v);
      if existing != null {
        return false;
      }
      var i := FindFreeSlot();
      assert before.vms[i] == vms[i].Abs();
      assert Events()[i].Settled();
      OccupySlot(i, v, coreSet);
      CreateIs(before, v, coreSet, i, Abs());
      StillBalanced(i);
      ok := true;
    }

    /** Create a VM in the first free slot; the free slot is there whenever the count says so. */
    method Create(v: int, coreSet: string) returns (ok: bool)
      requires Valid() && v >= 0 && coreSet != ""
      modifies this`count, vms, set i | 0 <= i < |vms| :: vms[i].attachedDevs
      ensures Valid()
      ensures (Abs(), ok) == VmModel.Create(old(Abs()), v, coreSet)
      ensures devices == old(devices)
    {
      ghost var before := Abs();
      if count < MAX_NUM_VM {
        SlotForCreate(before);
      }
      ok := CreateOnHeap(v, coreSet);
      CreateAgrees(before, v, coreSet);
      StepKeepsCores(before, CreateVm(v, coreSet));
    }

    /** Set up event counting for a VM that is about to start. */
    method ArmSlot(vm: VmInstance, ghost i: nat, open: EventOpener)
      requires Sound() && i < |vms| && vm == vms[i] && !vm.running && vm.openFds == map[]
      requires vm.numCores == |VisitCores(vm.coreSet)| > 0
      requires forall k :: 0 <= k < vm.numCores ==> VisitCores(vm.coreSet)[k] >= 0
      requires forall k: nat, core, event: nat, group :: open(k, core, event, group) >= 0
      modifies vm`coreIndex, vm`perfEventFds, vm`openFds
      ensures Sound() && Abs() == old(Abs())
      ensures vm.Events().HoldsOpen() && Events() == old(Events())[i := vm.Events()]
      ensures devices == old(devices)
    {
      vm.PerfCounterSetup(open);
      agents.Untouched();
      FieldsChanged(i);
      assert AbsVms() == old(AbsVms());
    }

    /** Connect a VM's agent; on success the VM runs, on failure its events are closed again. */
    method ConnectVm(vm: VmInstance, fd: int) returns (ok: bool)
      requires vm.Valid() && agents.Valid() && !vm.running && vm.Events().HoldsOpen() && 0 <= vm.vmId < MAX_NUM_VM
      modifies vm`running, vm`openFds, agents, agents.agents
      ensures vm.Valid() && agents.Valid() && vm.Events().Settled()
      ensures vm.Abs() == if ok then old(vm.Abs()).(running := true) else old(vm.Abs())
      ensures (agents.Abs(), ok) == AgentInit(old(agents.Abs()), vm.vmId, fd >= 0)
    {
      ok := agents.Init(vm.vmId, fd);
      vm.Conclude(ok);
    }

    /** The same for slot `i`. */
    method ConnectSlot(vm: VmInstance, ghost i: nat, fd: int) returns (ok: bool)
      requires Sound() && i < |vms| && vm == vms[i] && vm.initialized && !vm.running && vm.Events().HoldsOpen()
      requires 0 <= vm.vmId < MAX_NUM_VM
      modifies vm`running, vm`openFds, agents, agents.agents
      ensures Sound() && count == old(count)
      ensures AbsVms() == if ok then old(AbsVms())[i := old(vm.Abs()).(running := true)] else old(AbsVms())
      ensures (agents.Abs(), ok) == AgentInit(old(agents.Abs()), vm.vmId, fd >= 0)
      ensures pool.Abs() == old(pool.Abs())
      ensures vm.Events().Settled() && Events() == old(Events())[i := vm.Events()]
      ensures devices == old(devices)
    {
      ok := ConnectVm(vm, fd);
      FieldsChanged(i);
    }

    /** Set up event counting, then connect. */
    method RunSlot(vm: VmInstance, ghost i: nat, open: EventOpener, fd: int) returns (ok: bool)
      requires Sound() && i < |vms| && vm == vms[i] && vm.initialized && !vm.running && vm.openFds == map[]
      requires 0 <= vm.vmId < MAX_NUM_VM && vm.numCores == |VisitCores(vm.coreSet)| > 0
      requires forall k :: 0 <= k < vm.numCores ==> VisitCores(vm.coreSet)[k] >= 0
      requires forall k: nat, core, event: nat, group :: open(k, core, event, group) >= 0
      modifies vm`coreIndex, vm`perfEventFds, vm`running, vm`openFds, agents, agents.agents
      ensures Sound() && count == old(count)
      ensures AbsVms() == if ok then old(AbsVms())[i := old(vm.Abs()).(running := true)] else old(AbsVms())
      ensures (agents.Abs(), ok) == AgentInit(old(agents.Abs()), vm.vmId, fd >= 0)
      ensures pool.Abs() == old(pool.Abs())
      ensures vm.Events().Settled()
      ensures forall k :: 0 <= k < |vms| && k != i ==> Events()[k] == old(Events())[k]
      ensures devices == old(devices)
    {
      ArmSlot(vm, i, open);
      assert AbsVms()[i] == vm.Abs();
      ok := ConnectSlot(vm, i, fd);
    }

    /** Look the VM up and run it; on any heap that is well shaped. */
    method StartOnHeap(v: int, open: EventOpener, fd: int) returns (ok: bool)
      requires Sound() && Balanced() && Startable(Abs(), v) && CoresCounted(AbsVms())
      requires forall k: nat, core, event: nat, group :: open(k, core, event, group) >= 0
      modifies vms, agents, agents.agents
      ensures Sound() && Balanced() && devices == old(devices)
      ensures (Abs(), ok) == VmModel.Start(old(Abs()), v, fd >= 0)
    {
      ghost var before := Abs();
      var vm, j := GetInstance(v);
      if vm == null {
        return false;
      }
      assert before.vms[j] == vms[j].Abs();
      if vm.running {
        return true;
      }
      Armable(v, j);
      ok := RunSlot(vm, j, open, fd);
      StartIs(before, v, j, fd >= 0);
      StillBalanced(j);
    }

    /** A stopped VM that may be started has its cores counted, none negative, an agent entry, and nothing open. */
    lemma Armable(v: int, j: int)
      requires Sound() && Balanced() && Startable(Abs(), v) && CoresCounted(AbsVms())
      requires j == FindVm(AbsVms(), v) && j != -1 && !vms[j].running
      ensures 0 <= v < MAX_NUM_VM && vms[j].openFds == map[]
      ensures vms[j].numCores == |VisitCores(vms[j].coreSet)| > 0
      ensures forall k :: 0 <= k < vms[j].numCores ==> VisitCores(vms[j].coreSet)[k] >= 0
    {
      assert AbsVms()[j] == vms[j].Abs();
      assert Events()[j].Settled();
    }

    /** Start a VM; starting a running one succeeds at once. */
    method Start(v: int, open: EventOpener, fd: int) returns (ok: bool)
      requires Valid() && v >= 0 && Startable(Abs(), v)
      requires forall k: nat, core, event: nat, group :: open(k, core, event, group) >= 0
      modifies vms, agents, agents.agents
      ensures Valid()
      ensures (Abs(), ok) == VmModel.Start(old(Abs()), v, fd >= 0)
      ensures devices == old(devices)
    {
      ghost var before := Abs();
      ok := StartOnHeap(v, open, fd);
      StartAgrees(before, v, fd >= 0);
      StepKeepsCores(before, StartVm(v, fd >= 0));
    }

    /** Halt a running VM: flag first, then its agent, then its events. */
    method HaltVm(vm: VmInstance)
      requires vm.Valid() && agents.Valid() && vm.running && vm.Events().HoldsOpen() && 0 <= vm.vmId < MAX_NUM_VM
      modifies vm`running, vm`openFds, agents, agents.agents
      ensures vm.Valid() && agents.Valid() && vm.Events().Settled()
      ensures vm.Abs() == old(vm.Abs()).(running := false)
      ensures agents.Abs() == AgentCleanup(old(agents.Abs()), vm.vmId)
    {
      vm.MarkStopped();
      ghost var stopped := vm.Abs();
      agents.Cleanup(vm.vmId);
      assert vm.Abs() == stopped;
      vm.PerfCounterTeardown();
    }

    /** The same for slot `i`. */
    method HaltSlot(vm: VmInstance, ghost i: nat)
      requires Sound() && i < |vms| && vm == vms[i] && vm.initialized && vm.running && vm.Events().HoldsOpen()
      requires 0 <= vm.vmId < MAX_NUM_VM
      modifies vm`running, vm`openFds, agents, agents.agents
      ensures Sound() && count == old(count)
      ensures AbsVms() == old(AbsVms())[i := old(vm.Abs()).(running := false)]
      ensures agents.Abs() == AgentCleanup(old(agents.Abs()), vm.vmId)
      ensures pool.Abs() == old(pool.Abs())
      ensures devices == old(devices)
      ensures old(Balanced()) ==> Balanced()
    {
      HaltVm(vm);
      FieldsChanged(i);
    }

    /** Look the VM up and halt it if it runs; on any heap that is well shaped. */
    method StopOnHeap(v: int) returns (ok: bool)
      requires Sound() && Balanced()
      requires forall k :: 0 <= k < |vms| && vms[k].running ==> 0 <= vms[k].vmId < MAX_NUM_VM
      modifies vms, agents, agents.agents
      ensures Sound() && Balanced() && devices == old(devices)
      ensures (Abs(), ok) == VmModel.Stop(old(Abs()), v)
    {
      ghost var before := Abs();
      var vm, j := GetInstance(v);
      if vm == null {
        return false;
      }
      assert before.vms[j] == vms[j].Abs();
      if !vm.running {
        return true;
      }
      assert Events()[j].Settled();
      StopIs(before, v, j);
      HaltSlot(vm, j);
      ok := true;
    }

    /** A running VM has an entry in the agent table. */
    lemma RunningInRange()
      requires Valid()
      ensures forall k :: 0 <= k < |vms| && vms[k].running ==> 0 <= vms[k].vmId < MAX_NUM_VM
    {
      forall k | 0 <= k < |vms| && vms[k].running ensures 0 <= vms[k].vmId < MAX_NUM_VM {
        assert Abs().vms[k] == vms[k].Abs() && VmOk(Abs().vms[k], Abs().pool);
      }
    }

    /** Stop a VM; stopping a stopped one succeeds at once. */
    method Stop(v: int) returns (ok: bool)
      requires Valid() && v >= 0
      modifies vms, agents, agents.agents
      ensures Valid()
      ensures (Abs(), ok) == VmModel.Stop(old(Abs()), v)
      ensures devices == old(devices)
    {
      ghost var before := Abs();
      RunningInRange();
      ok := StopOnHeap(v);
      StopAgrees(before, v);
      StepKeepsCores(before, StopVm(v));
    }

    /** Give back all segments of a VM; the table is not touched. */
    method ReturnAll(v: int)
      requires Sound()
      modifies pool.devs, set k | 0 <= k < |pool.devs| :: pool.devs[k].segments
      ensures Sound() && count == old(count) && AbsVms() == old(AbsVms()) && agents.Abs() == old(agents.Abs())
      ensures pool.Abs() == PoolReleaseVm(old(pool.Abs()), v)
      ensures devices == old(devices)
    {
      pool.ReleaseVmMemory(v);
      TableUntouched();
    }

    /** Give slot `i` up; the pool is not touched. */
    method EmptySlot(vm: VmInstance, ghost i: nat)
      requires Sound() && i < |vms| && vm == vms[i] && vm.initialized && !vm.running
      modifies this`count, vm`coreSet, vm`initialized
      ensures Sound() && count == old(count) - 1
      ensures AbsVms() == old(AbsVms())[i := old(vm.Abs()).(coreSet := "", initialized := false, devs := [])]
      ensures agents.Abs() == old(agents.Abs()) && pool.Abs() == old(pool.Abs())
      ensures devices == old(devices) && Events() == old(Events())
    {
      vm.Vacate();
      count := count - 1;
      agents.Untouched();
      FieldsChanged(i);
    }

    /** Release the memory of slot `i`'s VM and give the slot up. */
    method VacateSlot(vm: VmInstance, ghost i: nat)
      requires Sound() && i < |vms| && vm == vms[i] && vm.initialized && !vm.running
      modifies this`count, vm`coreSet, vm`initialized
      modifies pool.devs, set k | 0 <= k < |pool.devs| :: pool.devs[k].segments
      ensures Sound() && count == old(count) - 1
      ensures AbsVms() == old(AbsVms())[i := old(vm.Abs()).(coreSet := "", initialized := false, devs := [])]
      ensures agents.Abs() == old(agents.Abs())
      ensures pool.Abs() == PoolReleaseVm(old(pool.Abs()), old(vm.vmId))
      ensures devices == old(devices) && Events() == old(Events())
    {
      ghost var slot := vm.Abs();
      ReturnAll(vm.vmId);
      assert AbsVms()[i] == vm.Abs() == slot;
      EmptySlot(vm, i);
    }

    /** Look the VM up and vacate its slot unless it runs; on any heap that is well shaped. */
    method DestroyOnHeap(v: int) returns (ok: bool)
      requires Sound()
      modifies this`count, vms, pool.devs, set k | 0 <= k < |pool.devs| :: pool.devs[k].segments
      ensures Sound() && devices == old(devices) && Events() == old(Events())
      ensures (Abs(), ok) == VmModel.Destroy(old(Abs()), v)
    {
      ghost var before := Abs();
      var vm, j := GetInstance(v);
      if vm == null {
        return false;
      }
      assert before.vms[j] == vms[j].Abs();
      if vm.running {
        return false;
      }
      VacateSlot(vm, j);
      DestroyIs(before, v, j, Abs());
      ok := true;
    }

    /** Destroy a stopped VM. */
    method Destroy(v: int) returns (ok: bool)
      requires Valid() && v >= 0
      modifies this`count, vms, pool.devs, set k | 0 <= k < |pool.devs| :: pool.devs[k].segments
      ensures Valid()
      ensures (Abs(), ok) == VmModel.Destroy(old(Abs()), v)
      ensures devices == old(devices)
    {
      ghost var before := Abs();
      ok := DestroyOnHeap(v);
      DestroyAgrees(before, v);
      StepKeepsCores(before, DestroyVm(v));
    }

    // ---------- memory ----------

    /** Take segments from the pool; the table is not touched. */
    method TakeSegments(node: int, v: int, sizeMb: int) returns (out: Option<MemoryRequest>)
      requires Sound() && sizeMb != 0
      modifies pool.devs, set k | 0 <= k < |pool.devs| :: pool.devs[k].segments
      ensures Sound() && count == old(count) && AbsVms() == old(AbsVms()) && agents.Abs() == old(agents.Abs())
      ensures (pool.Abs(), out) == PoolAllocate(old(pool.Abs()), node, v, sizeMb)
      ensures devices == old(devices)
    {
      out := pool.AllocateSegments(node, v, sizeMb);
      TableUntouched();
    }

    /** Slots whose descriptors are as before. */
    twostate lemma EventsKept()
      requires forall k :: 0 <= k < |vms| ==> vms[k].Events() == old(vms[k].Events())
      ensures Events() == old(Events())
    {
    }

    /** Put a new device on slot `i`'s list. */
    method AttachToSlot(vm: VmInstance, ghost i: nat, req: MemoryRequest) returns (idx: int)
      requires Sound() && i < |vms| && vm == vms[i] && vm.initialized
      modifies this`devices, vm`memdevCounter, vm.attachedDevs, vm.attachedDevs.members`tqeNext
      ensures Sound() && count == old(count) && agents.Abs() == old(agents.Abs()) && pool.Abs() == old(pool.Abs())
      ensures idx == old(vm.memdevCounter)
      ensures forall d :: d in devices ==> d in old(devices) || fresh(d)
      ensures AbsVms() == old(AbsVms())[i := WithDev(old(AbsVms())[i], req)] && Events() == old(Events())
    {
      ghost var elm;
      idx, elm := vm.Attach(req);
      EventsKept();
      devices := devices + {elm};
      OnlyListChanged(i);
    }

    /** Take segments for slot `i`'s VM and list them. */
    method GiveDevice(vm: VmInstance, ghost i: nat, node: int, sizeMb: int) returns (out: Option<MemDev>)
      requires Sound() && i < |vms| && vm == vms[i] && vm.initialized && sizeMb > 0
      modifies this`devices, vm`memdevCounter, vm.attachedDevs, vm.attachedDevs.members`tqeNext
      modifies pool.devs, set k | 0 <= k < |pool.devs| :: pool.devs[k].segments
      ensures Sound() && count == old(count) && agents.Abs() == old(agents.Abs()) && Events() == old(Events())
      ensures var (p, req) := PoolAllocate(old(pool.Abs()), node, old(vm.vmId), sizeMb);
              && pool.Abs() == p
              && AbsVms() == (if req == None then old(AbsVms())
                              else old(AbsVms())[i := WithDev(old(AbsVms())[i], req.value)])
              && out == if req == None then None else Some(MemDev(old(vm.memdevCounter), req.value))
      ensures forall d :: d in devices ==> d in old(devices) || fresh(d)
    {
      var req := TakeSegments(node, vm.vmId, sizeMb);
      if req == None {
        return None;
      }
      var idx := AttachToSlot(vm, i, req.value);
      out := Some(MemDev(idx, req.value));
    }

    /** Look the VM up and give it memory; on any heap that is well shaped. */
    method AllocOnHeap(node: int, v: int, sizeMb: int) returns (out: Option<MemDev>)
      requires Sound() && sizeMb > 0
      modifies vms, set i | 0 <= i < |vms| :: vms[i].attachedDevs
      modifies this`devices, devices, pool.devs, set k | 0 <= k < |pool.devs| :: pool.devs[k].segments
      ensures Sound() && Events() == old(Events())
      ensures (Abs(), out) == VmModel.AllocMem(old(Abs()), node, v, sizeMb)
      ensures forall d :: d in devices ==> d in old(devices) || fresh(d)
    {
      ghost var before := Abs();
      var vm, j := GetInstance(v);
      if vm == null {
        return None;
      }
      assert before.vms[j] == vms[j].Abs();
      AllocIs(before, node, v, sizeMb, j);
      out := GiveDevice(vm, j, node, sizeMb);
    }

    /** Allocate memory for a VM and record it on the VM's list. */
    method AllocMem(node: int, v: int, sizeMb: int) returns (out: Option<MemDev>)
      requires Valid() && node >= 0 && v >= 0 && sizeMb > 0
      modifies vms, set i | 0 <= i < |vms| :: vms[i].attachedDevs
      modifies this`devices, devices, pool.devs, set k | 0 <= k < |pool.devs| :: pool.devs[k].segments
      ensures Valid()
      ensures (Abs(), out) == VmModel.AllocMem(old(Abs()), node, v, sizeMb)
      ensures forall d :: d in devices ==> d in old(devices) || fresh(d)
    {
      ghost var before := Abs();
      out := AllocOnHeap(node, v, sizeMb);
      AllocAgrees(before, node, v, sizeMb);
      StepKeepsCores(before, AllocateMem(node, v, sizeMb));
    }

    /** Give a range back to the pool; the table is not touched. */
    method ReturnSegments(node: int, v: int, offsetMb: int, sizeMb: int) returns (ok: bool)
      requires Sound()
      modifies pool.devs, set k | 0 <= k < |pool.devs| :: pool.devs[k].segments
      ensures Sound() && count == old(count) && AbsVms() == old(AbsVms()) && agents.Abs() == old(agents.Abs())
      ensures (pool.Abs(), ok) == PoolRelease(old(pool.Abs()), node, v, offsetMb, sizeMb)
      ensures devices == old(devices)
    {
      ok := pool.ReleaseSegments(node, v, offsetMb, sizeMb);
      TableUntouched();
    }

    /** Take a device off slot `i`'s list. */
    method DetachFromSlot(vm: VmInstance, ghost i: nat, dev: MemoryDev, ghost m: nat)
      requires Sound() && i < |vms| && vm == vms[i] && vm.initialized
      requires m < |vm.attachedDevs.members| && vm.attachedDevs.members[m] == dev
      modifies vm.attachedDevs, vm.attachedDevs.members`tqeNext, vm.attachedDevs.members`tqePrev
      ensures Sound() && count == old(count) && agents.Abs() == old(agents.Abs()) && pool.Abs() == old(pool.Abs())
      ensures AbsVms() == old(AbsVms())[i := WithoutDev(old(AbsVms())[i], m)] && Events() == old(Events())
      ensures devices == old(devices)
    {
      vm.Detach(dev, m);
      OnlyListChanged(i);
    }

    /** First device of slot `i` with this id. */
    method FindInSlot(vm: VmInstance, ghost i: nat, id: int) returns (dev: MemoryDev?, ghost m: nat)
      requires Sound() && i < |vms| && vm == vms[i] && vm.initialized
      ensures Sound() && Abs() == old(Abs())
      ensures dev == null <==> FindDev(Abs().vms[i].devs, id) == -1
      ensures dev != null ==>
                && m == FindDev(Abs().vms[i].devs, id)
                && m < |vm.attachedDevs.members| && vm.attachedDevs.members[m] == dev
                && Abs().vms[i].devs[m] == MemDev(id, dev.req)
      ensures devices == old(devices)
    {
      dev, m := vm.FindDevice(id);
      pool.Untouched();
      TableUntouched();
      assert AbsVms()[i] == vm.Abs();
    }

    /** Look a VM's device up, for attaching or detaching it; nothing changes. */
    method GetMem(v: int, id: int) returns (out: Option<MemoryRequest>)
      requires Valid()
      ensures Valid() && Abs() == old(Abs())
      ensures out == VmModel.GetMem(Abs(), v, id)
      ensures devices == old(devices)
    {
      var vm, j := GetInstance(v);
      if vm == null {
        return None;
      }
      var dev, m := FindInSlot(vm, j, id);
      out := if dev == null then None else Some(dev.req);
    }

    /** Return the segments of a device of slot `i`'s VM, and its record on success. */
    method DropDevice(vm: VmInstance, ghost i: nat, dev: MemoryDev, ghost m: nat) returns (ok: bool)
      requires Sound() && i < |vms| && vm == vms[i] && vm.initialized
      requires m < |vm.attachedDevs.members| && vm.attachedDevs.members[m] == dev
      modifies vm.attachedDevs, vm.attachedDevs.members`tqeNext, vm.attachedDevs.members`tqePrev
      modifies pool.devs, set k | 0 <= k < |pool.devs| :: pool.devs[k].segments
      ensures Sound() && count == old(count) && agents.Abs() == old(agents.Abs()) && Events() == old(Events())
      ensures var req := old(dev.req);
              && (pool.Abs(), ok) == PoolRelease(old(pool.Abs()), req.nodeId, vm.vmId, req.offsetMb, req.sizeMb)
              && AbsVms() == if ok then old(AbsVms())[i := WithoutDev(old(AbsVms())[i], m)] else old(AbsVms())
      ensures devices == old(devices)
    {
      var req := dev.req;
      ok := ReturnSegments(req.nodeId, vm.vmId, req.offsetMb, req.sizeMb);
      if ok {
        DetachFromSlot(vm, i, dev, m);
      }
    }

    /** Look VM and device up and drop the device; on any heap that is well shaped. */
    method FreeOnHeap(v: int, id: int) returns (ok: bool)
      requires Sound()
      modifies vms, set i | 0 <= i < |vms| :: vms[i].attachedDevs
      modifies devices, pool.devs, set k | 0 <= k < |pool.devs| :: pool.devs[k].segments
      ensures Sound() && Events() == old(Events())
      ensures (Abs(), ok) == VmModel.FreeMem(old(Abs()), v, id)
      ensures devices == old(devices)
    {
      ghost var before := Abs();
      var vm, j := GetInstance(v);
      if vm == null {
        return false;
      }
      var dev, m := FindInSlot(vm, j, id);
      if dev == null {
        return false;
      }
      assert before.vms[j] == vms[j].Abs();
      FreeIs(before, v, id, j, m);
      ok := DropDevice(vm, j, dev, m);
    }

    /** Free a VM's device: its segments first, then its record. */
    method FreeMem(v: int, id: int) returns (ok: bool)
      requires Valid() && v >= 0 && id >= 0
      modifies vms, set i | 0 <= i < |vms| :: vms[i].attachedDevs
      modifies devices, pool.devs, set k | 0 <= k < |pool.devs| :: pool.devs[k].segments
      ensures Valid()
      ensures (Abs(), ok) == VmModel.FreeMem(old(Abs()), v, id)
      ensures devices == old(devices)
    {
      ghost var before := Abs();
      ok := FreeOnHeap(v, id);
      FreeAgrees(before, v, id);
      StepKeepsCores(before, ReleaseMem(v, id));
    }
  }
}
