/**
 The server's state as a value, and what each command does to it: the pool, the 16-slot VM table with its
 counters and memory-device lists, and the guest agents. Every command has the program's branches, in the
 program's order, refusals included, and answers with the reply its handler gives.
 */
module VmModel {
  import opened Wrappers
  import opened PoolModel
  import opened CpuList

  const MAX_NUM_VM := 16

  /** A memory device on a VM's list. */
  datatype MemDev = MemDev(idx: int, req: MemoryRequest)

  /** One slot of the VM table. Of a slot that is not initialised, `devs` is empty here. */
  datatype Vm = Vm(vmId: int, coreSet: string, numCores: nat, initialized: bool, running: bool,
                   counter: int, devs: seq<MemDev>)

  datatype Agents = Agents(live: seq<bool>, count: int)

  datatype State = State(pool: Pool, vms: seq<Vm>, count: int, agents: Agents)

  // ---------- lookups ----------

  /** First initialised slot with this id, or -1. */
  function FindVmFrom(vms: seq<Vm>, v: int, j: nat): (r: int)
    requires j <= |vms|
    ensures r == -1 || (j <= r < |vms| && vms[r].initialized && vms[r].vmId == v)
    ensures r == -1 ==> forall k :: j <= k < |vms| && vms[k].initialized ==> vms[k].vmId != v
    decreases |vms| - j
  {
    if j == |vms| then -1
    else if vms[j].vmId == v && vms[j].initialized then j
    else FindVmFrom(vms, v, j + 1)
  }

  function FindVm(vms: seq<Vm>, v: int): (r: int)
    ensures r == -1 || (0 <= r < |vms| && vms[r].initialized && vms[r].vmId == v)
    ensures r == -1 ==> forall k :: 0 <= k < |vms| && vms[k].initialized ==> vms[k].vmId != v
  {
    FindVmFrom(vms, v, 0)
  }

  /** First slot that is not initialised, or -1. */
  function FindFreeFrom(vms: seq<Vm>, j: nat): (r: int)
    requires j <= |vms|
    ensures r == -1 || (j <= r < |vms| && !vms[r].initialized)
    ensures r == -1 ==> forall k :: j <= k < |vms| ==> vms[k].initialized
    decreases |vms| - j
  {
    if j == |vms| then -1 else if !vms[j].initialized then j else FindFreeFrom(vms, j + 1)
  }

  /** First device on the list with this index, or -1. */
  function FindDevFrom(devs: seq<MemDev>, id: int, i: nat): (r: int)
    requires i <= |devs|
    ensures r == -1 || (i <= r < |devs| && devs[r].idx == id)
    ensures r == -1 ==> forall k :: i <= k < |devs| ==> devs[k].idx != id
    ensures forall k :: i <= k < r ==> devs[k].idx != id
    decreases |devs| - i
  {
    if i == |devs| then -1 else if devs[i].idx == id then i else FindDevFrom(devs, id, i + 1)
  }

  function FindDev(devs: seq<MemDev>, id: int): (r: int)
    ensures r == -1 || (0 <= r < |devs| && devs[r].idx == id)
    ensures r == -1 ==> forall k :: 0 <= k < |devs| ==> devs[k].idx != id
    ensures forall k :: 0 <= k < r ==> devs[k].idx != id
  {
    FindDevFrom(devs, id, 0)
  }

  /** The first match is the first match. */
  lemma FindDevIs(devs: seq<MemDev>, id: int, k: nat)
    requires k < |devs| && devs[k].idx == id && forall i :: 0 <= i < k ==> devs[i].idx != id
    ensures FindDev(devs, id) == k
  {
    var r := FindDev(devs, id);
    assert r != -1 && !(r < k) && !(k < r);
  }

  function SetVm(s: State, j: int, vm: Vm): State
    requires 0 <= j < |s.vms|
  {
    s.(vms := s.vms[j := vm])
  }

  // ---------- the guest agents ----------

  function AgentInit(a: Agents, v: int, connected: bool): (Agents, bool)
    requires 0 <= v < |a.live|
  {
    if a.live[v] then (a, true)
    else if a.count >= MAX_NUM_VM || !connected then (a, false)
    else (Agents(a.live[v := true], a.count + 1), true)
  }

  function AgentCleanup(a: Agents, v: int): Agents {
    if 0 <= v < |a.live| && a.live[v] then Agents(a.live[v := false], a.count - 1) else a
  }

  // ---------- VM life cycle ----------

  /** A new VM takes the first free slot. That there is one is `Refinement.SlotForCreate`. */
  function Create(s: State, v: int, coreSet: string): (State, bool) {
    if s.count >= MAX_NUM_VM || FindVm(s.vms, v) != -1 then (s, false)
    else
      var j := FindFreeFrom(s.vms, 0);
      if j == -1 then (s, false)
      else
        var vm := Vm(v, Clip(coreSet), |VisitCores(Clip(coreSet))|, true, s.vms[j].running, 0, []);
        (SetVm(s, j, vm).(count := s.count + 1), true)
  }

  /** What start takes for granted about a stopped VM: an agent entry, and cores to count events on. */
  predicate Startable(s: State, v: int) {
    |s.agents.live| == MAX_NUM_VM
    && var j := FindVm(s.vms, v);
       j != -1 && !s.vms[j].running ==>
         && 0 <= v < MAX_NUM_VM
         && s.vms[j].numCores > 0
         && forall i :: 0 <= i < |VisitCores(s.vms[j].coreSet)| ==> VisitCores(s.vms[j].coreSet)[i] >= 0
  }

  function Start(s: State, v: int, connected: bool): (State, bool)
    requires Startable(s, v)
  {
    var j := FindVm(s.vms, v);
    if j == -1 then (s, false)
    else if s.vms[j].running then (s, true)
    else
      var (agents, ok) := AgentInit(s.agents, v, connected);
      if !ok then (s.(agents := agents), false)
      else (SetVm(s, j, s.vms[j].(running := true)).(agents := agents), true)
  }

  function Stop(s: State, v: int): (State, bool) {
    var j := FindVm(s.vms, v);
    if j == -1 then (s, false)
    else if !s.vms[j].running then (s, true)
    else (SetVm(s, j, s.vms[j].(running := false)).(agents := AgentCleanup(s.agents, v)), true)
  }

  function Destroy(s: State, v: int): (State, bool) {
    var j := FindVm(s.vms, v);
    if j == -1 || s.vms[j].running then (s, false)
    else
      var vm := s.vms[j].(coreSet := "", initialized := false, devs := []);
      (SetVm(s, j, vm).(pool := PoolReleaseVm(s.pool, v), count := s.count - 1), true)
  }

  // ---------- memory ----------

  /** The slot after its VM was given `req` under the next id. */
  function WithDev(vm: Vm, req: MemoryRequest): Vm {
    vm.(counter := vm.counter + 1, devs := vm.devs + [MemDev(vm.counter, req)])
  }

  function AllocMem(s: State, node: int, v: int, sizeMb: int): (State, Option<MemDev>)
    requires s.pool.segMb > 0
  {
    var j := FindVm(s.vms, v);
    if j == -1 then (s, None)
    else
      var (pool, out) := PoolAllocate(s.pool, node, v, sizeMb);
      match out
      case None => (s.(pool := pool), None)
      case Some(req) =>
        (SetVm(s, j, WithDev(s.vms[j], req)).(pool := pool), Some(MemDev(s.vms[j].counter, req)))
  }

  /** The slot after the device at position `m` left its list. The id counter stays. */
  function WithoutDev(vm: Vm, m: nat): Vm
    requires m < |vm.devs|
  {
    vm.(devs := vm.devs[..m] + vm.devs[m + 1..])
  }

  function FreeMem(s: State, v: int, id: int): (State, bool)
    requires s.pool.segMb > 0
  {
    var j := FindVm(s.vms, v);
    if j == -1 then (s, false)
    else
      var vm := s.vms[j];
      var m := FindDev(vm.devs, id);
      if m == -1 then (s, false)
      else
        var req := vm.devs[m].req;
        var (pool, ok) := PoolRelease(s.pool, req.nodeId, v, req.offsetMb, req.sizeMb);
        if !ok then (s.(pool := pool), false)
        else (SetVm(s, j, WithoutDev(vm, m)).(pool := pool), true)
  }

  function GetMem(s: State, v: int, id: int): Option<MemoryRequest> {
    var j := FindVm(s.vms, v);
    if j == -1 then None
    else
      var m := FindDev(s.vms[j].devs, id);
      if m == -1 then None else Some(s.vms[j].devs[m].req)
  }

  // ---------- commands ----------

  /** A parsed command; what the outside world answers (connect, plug) is part of it. */
  datatype Command =
    | CreateVm(vid: int, coreSet: string)
    | DestroyVm(vid: int)
    | StartVm(vid: int, connected: bool)
    | StopVm(vid: int)
    | AllocateMem(nid: int, vid: int, sizeMb: int)
    | ReleaseMem(vid: int, memid: int)
    | AttachMem(memid: int, vid: int, plugged: bool)
    | DetachMem(memid: int, vid: int, unplugged: bool)

  datatype Reply = InvalidArgs | Failed | Succeeded | Allocated(dev: MemDev) | NoSuchMemory

  function Answer(ok: bool): Reply {
    if ok then Succeeded else Failed
  }

  /** The argument guard of each handler. */
  predicate ArgsOk(c: Command) {
    match c
    case CreateVm(vid, _) => vid >= 0
    case DestroyVm(vid) => vid >= 0
    case StartVm(vid, _) => vid >= 0
    case StopVm(vid) => vid >= 0
    case AllocateMem(nid, vid, sizeMb) => nid >= 0 && vid >= 0 && sizeMb > 0
    case ReleaseMem(vid, memid) => vid >= 0 && memid >= 0
    case AttachMem(memid, vid, _) => memid >= 0 && vid >= 0
    case DetachMem(memid, vid, _) => memid >= 0 && vid >= 0
  }

  /** What the server takes for granted and would otherwise abort on. */
  predicate Legal(s: State, c: Command) {
    ArgsOk(c) ==>
      match c
      case CreateVm(_, coreSet) => coreSet != ""
      case StartVm(vid, _) => Startable(s, vid)
      case _ => true
  }

  function Step(s: State, c: Command): (State, Reply)
    requires s.pool.segMb > 0 && Legal(s, c)
  {
    if !ArgsOk(c) then (s, InvalidArgs)
    else
      match c
      case CreateVm(vid, coreSet) => var (t, ok) := Create(s, vid, coreSet); (t, Answer(ok))
      case DestroyVm(vid) => var (t, ok) := Destroy(s, vid); (t, Answer(ok))
      case StartVm(vid, connected) => var (t, ok) := Start(s, vid, connected); (t, Answer(ok))
      case StopVm(vid) => var (t, ok) := Stop(s, vid); (t, Answer(ok))
      case AllocateMem(nid, vid, sizeMb) =>
        var (t, dev) := AllocMem(s, nid, vid, sizeMb);
        (t, if dev.Some? then Allocated(dev.value) else Failed)
      case ReleaseMem(vid, memid) => var (t, ok) := FreeMem(s, vid, memid); (t, Answer(ok))
      case AttachMem(memid, vid, plugged) =>
        (s, if GetMem(s, vid, memid) == None then NoSuchMemory else Answer(plugged))
      case DetachMem(memid, vid, unplugged) =>
        (s, if GetMem(s, vid, memid) == None then NoSuchMemory else Answer(unplugged))
  }

  /** An allocation command that passes its guard is the allocation, and its reply says what was obtained. */
  lemma StepOfAlloc(s: State, nid: int, vid: int, sizeMb: int)
    requires s.pool.segMb > 0 && nid >= 0 && vid >= 0 && sizeMb > 0
    ensures var (t, dev) := AllocMem(s, nid, vid, sizeMb);
            Step(s, AllocateMem(nid, vid, sizeMb)) == (t, if dev.Some? then Allocated(dev.value) else Failed)
  {
  }

  /** A stop command that passes its guard is the stop. */
  lemma StepOfStop(s: State, vid: int)
    requires s.pool.segMb > 0 && vid >= 0
    ensures var (t, ok) := Stop(s, vid); Step(s, StopVm(vid)) == (t, Answer(ok))
  {
  }

  /** Starting a VM that is found and does not run is connecting its agent, and running it on success. */
  lemma StartIs(s: State, v: int, j: int, connected: bool)
    requires Startable(s, v) && j == FindVm(s.vms, v) && j != -1 && !s.vms[j].running
    ensures var (agents, ok) := AgentInit(s.agents, v, connected);
            Start(s, v, connected)
            == (if ok then SetVm(s, j, s.vms[j].(running := true)).(agents := agents) else s.(agents := agents), ok)
  {
  }

  /** Creating a VM whose id is new, with a free slot at `j`, is filling that slot. */
  lemma CreateIs(s: State, v: int, coreSet: string, j: int, t: State)
    requires s.count < MAX_NUM_VM && FindVm(s.vms, v) == -1
    requires j == FindFreeFrom(s.vms, 0) && j != -1 && !s.vms[j].running
    requires t.vms == s.vms[j := Vm(v, Clip(coreSet), |VisitCores(Clip(coreSet))|, true, false, 0, [])]
    requires t.pool == s.pool && t.agents == s.agents && t.count == s.count + 1
    ensures Create(s, v, coreSet) == (t, true)
  {
  }

  lemma StopIs(s: State, v: int, j: int)
    requires j == FindVm(s.vms, v) && j != -1 && s.vms[j].running
    ensures Stop(s, v) == (SetVm(s, j, s.vms[j].(running := false)).(agents := AgentCleanup(s.agents, v)), true)
  {
  }

  /** Destroying a VM that is found and does not run is vacating its slot and releasing its memory. */
  lemma DestroyIs(s: State, v: int, j: int, t: State)
    requires j == FindVm(s.vms, v) && j != -1 && !s.vms[j].running
    requires t.vms == s.vms[j := s.vms[j].(coreSet := "", initialized := false, devs := [])]
    requires t.pool == PoolReleaseVm(s.pool, v) && t.agents == s.agents && t.count == s.count - 1
    ensures Destroy(s, v) == (t, true)
  {
  }

  /** Allocating for a VM that is found is what the pool says, and listing what it gave. */
  lemma AllocIs(s: State, node: int, v: int, sizeMb: int, j: int)
    requires s.pool.segMb > 0 && j == FindVm(s.vms, v) && j != -1
    ensures var (pool, out) := PoolAllocate(s.pool, node, v, sizeMb);
            AllocMem(s, node, v, sizeMb)
            == if out == None then (s.(pool := pool), None)
               else (SetVm(s, j, WithDev(s.vms[j], out.value)).(pool := pool),
                     Some(MemDev(s.vms[j].counter, out.value)))
  {
  }

  /** Freeing a listed device is what the pool says of its range, and dropping the record on success. */
  lemma FreeIs(s: State, v: int, id: int, j: int, m: int)
    requires s.pool.segMb > 0 && j == FindVm(s.vms, v) && j != -1 && m == FindDev(s.vms[j].devs, id) && m != -1
    ensures var req := s.vms[j].devs[m].req;
            var (pool, ok) := PoolRelease(s.pool, req.nodeId, v, req.offsetMb, req.sizeMb);
            FreeMem(s, v, id)
            == (if ok then SetVm(s, j, WithoutDev(s.vms[j], m)).(pool := pool) else s.(pool := pool), ok)
  {
  }
}
