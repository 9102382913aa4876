/**
 One slot of the VM table on the heap: its flags, its queue of memory devices and its
 performance-event descriptors, one array per event with one entry per core.
 */
module VmInstances {
  import opened PoolModel
  import opened CpuList
  import opened TailQueue
  import opened VmModel

  const PERF_EVENT_TYPE_MAX := 5

  /** Every event leads its own group. */
  const IS_LEADER := [true, true, true, true, true]

  /** What opening an event gives: the descriptor for core number `k` of the traversal, core id, event, group. */
  type EventOpener = (nat, int, nat, int) -> int

  /** The devices of a queue, by value. */
  ghost function Records(ms: seq<MemoryDev>): (r: seq<MemDev>)
    reads ms
    ensures |r| == |ms|
    ensures forall i :: 0 <= i < |ms| ==> r[i] == MemDev(ms[i].memdevIdx, ms[i].req)
  {
    seq(|ms|, i requires 0 <= i < |ms| reads ms => MemDev(ms[i].memdevIdx, ms[i].req))
  }

  /** What a slot holds of performance events: its descriptor tables, and the descriptors that are open. */
  datatype Perf = Perf(running: bool, numCores: nat, fds: seq<seq<int>>, open: map<(int, int), int>) {
    /** One table per event, one entry per core. */
    ghost predicate Ready() {
      |fds| == PERF_EVENT_TYPE_MAX && forall j :: 0 <= j < |fds| ==> |fds[j]| == numCores
    }

    /** The columns of the first `c` cores are open, and those only. */
    ghost predicate OpenUpTo(c: int)
      requires Ready() && c <= numCores
    {
      && (forall j, k :: (j, k) in open <==> 0 <= j < PERF_EVENT_TYPE_MAX && 0 <= k < c)
      && (forall j, k :: 0 <= j < PERF_EVENT_TYPE_MAX && 0 <= k < c ==> open[(j, k)] == fds[j][k])
    }

    /** The tables hold exactly the descriptors that are open. */
    ghost predicate HoldsOpen() {
      Ready() && OpenUpTo(numCores)
    }

    /** A running VM's descriptors are open and in its tables; a VM that does not run has none open. */
    ghost predicate Settled() {
      if running then HoldsOpen() else open == map[]
    }
  }

  lemma RecordsOfBoth(ms: seq<MemoryDev>, dev: MemoryDev)
    ensures Records(ms + [dev]) == Records(ms) + [MemDev(dev.memdevIdx, dev.req)]
  {
  }

  class VmInstance {
    var vmId: int
    var numCores: nat
    var coreSet: string
    var coreIndex: nat
    var initialized: bool
    var running: bool
    var memdevCounter: int
    var perfEventFds: seq<seq<int>>
    /** What is open: for an event and the number of a core, the descriptor that opening it gave. */
    ghost var openFds: map<(int, int), int>
    const attachedDevs: DeviceQueue

    ghost predicate Valid()
      reads this, attachedDevs, attachedDevs.members
    {
      && (initialized ==> attachedDevs.Valid())
      && (running ==> Events().Ready())
    }

    ghost function Events(): Perf
      reads this
    {
      Perf(running, numCores, perfEventFds, openFds)
    }

    /** A slot that is not initialised lists nothing, whatever its queue still holds. */
    ghost function Abs(): Vm
      reads this, attachedDevs, attachedDevs.members
    {
      Vm(vmId, coreSet, numCores, initialized, running, memdevCounter,
         if initialized then Records(attachedDevs.members) else [])
    }

    constructor ()
      ensures Valid() && fresh(attachedDevs) && attachedDevs.members == []
      ensures Abs() == Vm(0, "", 0, false, false, 0, []) && Events().Settled()
    {
      vmId, numCores, coreSet, coreIndex := 0, 0, "", 0;
      initialized, running, memdevCounter := false, false, 0;
      perfEventFds, openFds := [], map[];
      attachedDevs := new DeviceQueue();
    }

    /** This slot and all it owns are as in the old state. */
    twostate predicate Same()
      reads this, attachedDevs, attachedDevs.members
    {
      && unchanged(this) && unchanged(attachedDevs)
      && (initialized ==> forall d :: d in old(attachedDevs.members) ==> unchanged(d))
    }

    twostate lemma Untouched()
      requires old(Valid()) && Same()
      ensures Valid() && Abs() == old(Abs())
    {
      if initialized {
        ghost var ms := attachedDevs.members;
        forall i | 0 <= i < |ms| ensures unchanged(ms[i]) {
          assert ms[i] in old(attachedDevs.members);
        }
        assert Records(ms) == old(Records(attachedDevs.members));
      }
    }

    /** One callback per core visited, each counting itself. */
    method CountCores()
      requires coreSet != ""
      modifies this`numCores
      ensures numCores == |VisitCores(coreSet)|
    {
      numCores := 0;
      var visited := ForEachCore(coreSet);
      for k := 0 to |visited|
        invariant numCores == k
      {
        numCores := numCores + 1;
      }
    }

    /** Take the slot for a new VM: no devices, ids from zero, cores counted. `running` is left as it was. */
    method Occupy(v: int, cores: string)
      requires cores != "" && !initialized && !running
      modifies this`vmId, this`numCores, this`memdevCounter, this`coreSet, this`initialized, attachedDevs
      ensures Valid() && attachedDevs.members == []
      ensures Abs() == Vm(v, Clip(cores), |VisitCores(Clip(cores))|, true, running, 0, [])
    {
      vmId := v;
      numCores := 0;
      memdevCounter := 0;
      coreSet := Clip(cores);
      CountCores();
      attachedDevs.Init();
      initialized := true;
    }

    /** One descriptor table per event, with room for every core. Nothing is open in the tables given up. */
    method PerfAllocate()
      requires Valid() && !running && openFds == map[]
      modifies this`perfEventFds
      ensures Valid() && Abs() == old(Abs()) && Events().Ready()
    {
      perfEventFds := [];
      for j := 0 to PERF_EVENT_TYPE_MAX
        invariant |perfEventFds| == j
        invariant forall i :: 0 <= i < j ==> |perfEventFds[i]| == numCores
      {
        perfEventFds := perfEventFds + [seq(numCores, _ => 0)];
      }
    }

    /** Allocate the descriptor tables, then fill them core by core. Every entry is written exactly once. */
    method PerfCounterSetup(open: EventOpener)
      requires Valid() && !running && openFds == map[]
      requires numCores > 0 && numCores == |VisitCores(coreSet)|
      requires forall k :: 0 <= k < numCores ==> VisitCores(coreSet)[k] >= 0
      requires forall k: nat, core, event: nat, group :: open(k, core, event, group) >= 0
      modifies this`coreIndex, this`perfEventFds, this`openFds
      ensures Valid() && Abs() == old(Abs())
      ensures Events().HoldsOpen() && coreIndex == numCores
      ensures forall j, k :: 0 <= j < PERF_EVENT_TYPE_MAX && 0 <= k < numCores ==>
                perfEventFds[j][k] == open(k, VisitCores(coreSet)[k], j, -1)
    {
      PerfAllocate();
      PerfFill(open);
    }

    /** One callback per core visited; `coreIndex` never leaves the tables and ends at their length. */
    method PerfFill(open: EventOpener)
      requires Events().Ready() && numCores > 0 && numCores == |VisitCores(coreSet)| && openFds == map[]
      requires forall k :: 0 <= k < numCores ==> VisitCores(coreSet)[k] >= 0
      requires forall k: nat, core, event: nat, group :: open(k, core, event, group) >= 0
      modifies this`coreIndex, this`openFds, this`perfEventFds
      ensures coreIndex == numCores && Events().HoldsOpen()
      ensures forall j, k :: 0 <= j < PERF_EVENT_TYPE_MAX && 0 <= k < numCores ==>
                perfEventFds[j][k] == open(k, VisitCores(coreSet)[k], j, -1)
    {
      coreIndex := 0;
      EmptySetVisitsNothing();
      var visited := ForEachCore(coreSet);
      for c := 0 to |visited|
        modifies this`coreIndex, this`openFds, this`perfEventFds
        invariant Events().Ready() && coreIndex == c && Events().OpenUpTo(c)
        invariant forall j, k :: 0 <= j < PERF_EVENT_TYPE_MAX && 0 <= k < c ==>
                    perfEventFds[j][k] == open(k, visited[k], j, -1)
      {
        SetupCore(visited[c], open);
      }
    }

    /** The callback of one core: open each event and store its descriptor in the next free column. */
    method SetupCore(coreId: int, open: EventOpener)
      requires Events().Ready() && coreIndex < numCores && coreId >= 0 && Events().OpenUpTo(coreIndex)
      requires forall k: nat, core, event: nat, group :: open(k, core, event, group) >= 0
      modifies this`coreIndex, this`openFds, this`perfEventFds
      ensures Events().Ready() && coreIndex == old(coreIndex) + 1 && Events().OpenUpTo(coreIndex)
      ensures forall j, k :: 0 <= j < PERF_EVENT_TYPE_MAX && 0 <= k < numCores ==>
                perfEventFds[j][k] == if k == old(coreIndex) then open(k, coreId, j, -1) else old(perfEventFds[j][k])
    {
      var leaderFd := -1;
      for j := 0 to PERF_EVENT_TYPE_MAX
        modifies this`openFds, this`perfEventFds
        invariant Events().Ready()
        invariant forall i, k :: (i, k) in openFds <==> (i, k) in old(openFds) || (0 <= i < j && k == coreIndex)
        invariant forall i, k :: (i, k) in openFds ==> openFds[(i, k)] == perfEventFds[i][k]
        invariant forall i, k :: 0 <= i < PERF_EVENT_TYPE_MAX && 0 <= k < numCores ==>
                    perfEventFds[i][k] == if i < j && k == coreIndex then open(k, coreId, i, -1)
                                          else old(perfEventFds[i][k])
      {
        if IS_LEADER[j] {
          leaderFd := -1;
        }
        var fd := Open(j, coreId, leaderFd, open);
        perfEventFds := perfEventFds[j := perfEventFds[j][coreIndex := fd]];
        if leaderFd == -1 {
          leaderFd := perfEventFds[j][coreIndex];
        }
      }
      coreIndex := coreIndex + 1;
    }

    /** Open one event on a core whose entry has nothing open, so that no descriptor is lost. */
    method Open(j: nat, coreId: int, leaderFd: int, open: EventOpener) returns (fd: int)
      requires (j, coreIndex) !in openFds
      modifies this`openFds
      ensures fd == open(coreIndex, coreId, j, leaderFd) && openFds == old(openFds)[(j, coreIndex) := fd]
    {
      fd := open(coreIndex, coreId, j, leaderFd);
      openFds := openFds[(j, coreIndex) := fd];
    }

    /** The end of a start: the VM runs, or its descriptors are closed again. */
    method Conclude(ok: bool)
      requires Valid() && !running && Events().HoldsOpen()
      modifies this`running, this`openFds
      ensures Valid() && running == ok && Events().Settled()
      ensures Abs() == if ok then old(Abs()).(running := true) else old(Abs())
    {
      if ok {
        running := true;
      } else {
        PerfCounterTeardown();
      }
    }

    /** The VM no longer runs; its descriptors are still to be closed. */
    method MarkStopped()
      requires Valid() && running && Events().HoldsOpen()
      modifies this`running
      ensures Valid() && !running && Events().HoldsOpen()
      ensures Abs() == old(Abs()).(running := false)
    {
      running := false;
    }

    /** Give the slot up: the core set is wiped, the queue is left as it is. */
    method Vacate()
      requires Valid() && !running
      modifies this`coreSet, this`initialized
      ensures Valid() && !initialized
      ensures Abs() == old(Abs()).(coreSet := "", initialized := false, devs := [])
    {
      coreSet := "";
      initialized := false;
    }

    /** Append a device for `req` under the next id. */
    method Attach(req: MemoryRequest) returns (idx: int, ghost elm: MemoryDev)
      requires Valid() && initialized
      modifies this`memdevCounter, attachedDevs, attachedDevs.members`tqeNext
      ensures Valid() && idx == old(memdevCounter)
      ensures fresh(elm) && forall d :: d in attachedDevs.members ==> d in old(attachedDevs.members) || d == elm
      ensures Abs() == WithDev(old(Abs()), req)
    {
      idx := memdevCounter;
      memdevCounter := memdevCounter + 1;
      var dev := new MemoryDev(idx, req, attachedDevs);
      elm := dev;
      ghost var before := Records(attachedDevs.members);
      attachedDevs.InsertTail(dev);
      RecordsOfBoth(old(attachedDevs.members), dev);
      assert Records(old(attachedDevs.members)) == before;
    }

    /** Walk the list for the first device with this id. */
    method FindDevice(id: int) returns (dev: MemoryDev?, ghost k: nat)
      requires Valid() && initialized
      ensures Valid() && Abs() == old(Abs())
      ensures dev == null <==> FindDev(Abs().devs, id) == -1
      ensures dev != null ==>
                && k == FindDev(Abs().devs, id) && k < |attachedDevs.members| && attachedDevs.members[k] == dev
                && Abs().devs[k] == MemDev(id, dev.req)
    {
      dev, k := attachedDevs.Find(id);
      if dev != null {
        FindDevIs(Abs().devs, id, k);
      }
    }

    /** Take the device at position `k` off the list. */
    method Detach(dev: MemoryDev, ghost k: nat)
      requires Valid() && initialized && k < |attachedDevs.members| && attachedDevs.members[k] == dev
      modifies attachedDevs, attachedDevs.members`tqeNext, attachedDevs.members`tqePrev
      ensures Valid()
      ensures forall d :: d in attachedDevs.members ==> d in old(attachedDevs.members)
      ensures Abs() == WithoutDev(old(Abs()), k)
    {
      ghost var before := Records(attachedDevs.members);
      attachedDevs.Remove(dev, k);
      assert Records(attachedDevs.members) == before[..k] + before[k + 1..];
    }

    /** Close the descriptor in an entry: it is the one that was opened for it. */
    ghost method Close(j: int, k: int, fd: int)
      requires (j, k) in openFds && openFds[(j, k)] == fd
      modifies this`openFds
      ensures openFds == old(openFds) - {(j, k)}
    {
      openFds := openFds - {(j, k)};
    }

    /** Close every descriptor of every event, each once; none stays open. */
    method PerfCounterTeardown()
      requires Events().HoldsOpen()
      modifies this`openFds
      ensures openFds == map[] && Abs() == old(Abs())
    {
      for j := 0 to PERF_EVENT_TYPE_MAX
        invariant forall i, k :: (i, k) in openFds <==> j <= i < PERF_EVENT_TYPE_MAX && 0 <= k < numCores
        invariant (forall e :: e in openFds ==> e in old(openFds) && openFds[e] == old(openFds)[e])
      {
        for k := 0 to numCores
          invariant forall i, c :: (i, c) in openFds <==>
                      j <= i < PERF_EVENT_TYPE_MAX && 0 <= c < numCores && (i == j ==> k <= c)
          invariant (forall e :: e in openFds ==> e in old(openFds) && openFds[e] == old(openFds)[e])
        {
          Close(j, k, perfEventFds[j][k]);
        }
      }
      assert forall e :: e in openFds ==> e == (e.0, e.1);
      assert openFds.Keys == {};
    }
  }
}
