/**
 The client against the server: what the planner decides on the answers it read, and what the
 server then does with it.
 */
module EndToEnd {
  import opened Wrappers
  import opened Counting
  import opened Sorting
  import opened Segments
  import opened PoolModel
  import opened VmModel
  import opened Refinement
  import opened Transactions
  import opened Lines
  import opened Reports
  import opened Client
  import opened DumpRoundTrip
  import opened UsageRoundTrip
  import opened Planner
  import opened ReplyReader
  import CpuList
  import MemoryPool

  // ---------- the VM id ----------

  /**
   The id the client picks from a dump is free, at most the number of VMs, and so a legal
   table index whenever the server accepts it; the server accepts it exactly when it has room.
   */
  lemma SelectedIdIsLegal(s: State, id: int, coreSet: string)
    requires Inv(s) && Clean(s.vms) && |VmDump(s.count, s.vms)| < BUFFER_SIZE && coreSet != ""
    requires LeastUnused(id, UsedIds(SplitLines(Received(VmDump(s.count, s.vms)))))
    ensures 0 <= id <= s.count && id !in TheBook(s)
    ensures Step(s, CreateVm(id, coreSet)).1 == Succeeded <==> s.count < MAX_NUM_VM
    ensures Step(s, CreateVm(id, coreSet)).1 == Succeeded ==> id < MAX_NUM_VM
  {
    VmIdsRoundTrip(s);
    UsedPrefixIsShort(id, TheBook(s).Keys);
    Lookup(s, id);
    assert |TheBook(s).Keys| == |TheBook(s)|;
    StepAgrees(s, CreateVm(id, coreSet));
  }

  // ---------- refusals ----------

  lemma ScaledOrder(a: int, b: int, m: int)
    requires a <= b && m > 0
    ensures a * m <= b * m
  {
  }

  /** The window found is no longer than the free part of the device. */
  lemma WindowNeedsSpace(p: Pool, node: int, vm: int, sizeMb: int) returns (n: int)
    requires PoolOk(p) && sizeMb > 0 && PoolAllocate(p, node, vm, sizeMb).1.Some?
    ensures 0 <= node < |p.devs| && sizeMb == n * p.segMb
    ensures n <= |p.devs[node].segs| - CountTaken(p.devs[node].segs)
  {
    AllocationIsExact(p, node, vm, sizeMb);
    n := sizeMb / p.segMb;
    var segs := p.devs[node].segs;
    MemoryPool.FreeSpaceBoundsWindows(segs, FirstFit(Busy(segs), n), n);
  }

  /** An allocation is granted only where the client saw that much free memory. */
  lemma RoomIsNeeded(p: Pool, node: int, vm: int, sizeMb: int)
    requires PoolOk(p) && sizeMb > 0 && PoolAllocate(p, node, vm, sizeMb).1.Some?
    ensures 0 <= node < |p.devs| && PoolNodes(p)[node].nodeId == node && PoolNodes(p)[node].freeMb >= sizeMb
  {
    var n := WindowNeedsSpace(p, node, vm, sizeMb);
    ScaledOrder(n, |p.devs[node].segs| - CountTaken(p.devs[node].segs), p.segMb);
  }

  /** The server would grant every part, each taken alone, on a node of the tier of its own. */
  predicate EachGranted(p: Pool, tier: int, vm: int, sel: seq<Part>) {
    && p.segMb > 0 && Distinct(Targets(sel))
    && forall i :: 0 <= i < |sel| ==>
         && PoolAllocate(p, sel[i].0, vm, sel[i].1).1.Some?
         && 0 <= sel[i].0 < |p.devs| && p.devs[sel[i].0].tierId == tier
  }

  /** When the planner refuses to place the parts on a tier, no placement of them could be granted. */
  lemma RefusalIsRight(p: Pool, tier: int, sizes: seq<int>, vm: int, sel: seq<Part>)
    requires PoolOk(p) && forall i :: 0 <= i < |sizes| ==> sizes[i] > 0
    requires Choose(OfTier(PoolNodes(p), tier), sizes).Err?
    ensures !(EachGranted(p, tier, vm, sel) && multiset(Sizes(sel)) == multiset(sizes))
  {
    var nodes := OfTier(PoolNodes(p), tier);
    NodesAreDistinct(p);
    OfTierDistinct(PoolNodes(p), tier);
    GreedyIsComplete(nodes, sizes);
    if EachGranted(p, tier, vm, sel) && multiset(Sizes(sel)) == multiset(sizes) {
      forall i | 0 <= i < |sel| ensures HasRoom(nodes, sel[i]) {
        assert Sizes(sel)[i] in multiset(sizes);
        RoomIsNeeded(p, sel[i].0, vm, sel[i].1);
        var n := PoolNodes(p)[sel[i].0];
        assert n in nodes;
        var k :| 0 <= k < |nodes| && nodes[k] == n;
      }
      assert IsPlan(sel, nodes, sizes);
    }
  }

  // ---------- grants ----------

  const FRAGMENTED :=
    Pool(1, [Device("/dev/dax0.0", 0, 0, 0, 3, [FREE, Segment(true, 0), FREE])])

  lemma OneNode(n: MemPoolNode, sizeMb: int)
    requires sizeMb <= n.freeMb
    ensures Choose([n], [sizeMb]) == Ok([(n.nodeId, sizeMb)])
  {
    var sizes, nodes := [sizeMb], [n];
    assert LargestFirst(sizes) == sizes && RoomiestFirst(nodes) == nodes;
    assert sizes[1..] == [] && nodes[1..] == [];
    assert FirstMisfit(sizes, nodes) == 1 + FirstMisfit(sizes[1..], nodes[1..]) == 1;
    assert Pair(sizes, nodes) == [(n.nodeId, sizeMb)];
    assert ByNodeId([(n.nodeId, sizeMb)]) == [(n.nodeId, sizeMb)];
  }

  /** What the client plans may be refused: two free segments that are not adjacent are no window of two. */
  lemma PlanCanBeRefused(vm: int)
    ensures PoolOk(FRAGMENTED)
    ensures Choose(OfTier(PoolNodes(FRAGMENTED), 0), [2]) == Ok([(0, 2)])
    ensures !HasWindow(FRAGMENTED, 0, 2) && PoolAllocate(FRAGMENTED, 0, vm, 2).1 == None
  {
    var d := FRAGMENTED.devs[0];
    TwoOfThree(d.segs);
    assert PoolNodes(FRAGMENTED) == [MemPoolNode(0, 0, 2)];
    FilterOne(MemPoolNode(0, 0, 2), (n: MemPoolNode) => n.tierId == 0);
    assert OfTier(PoolNodes(FRAGMENTED), 0) == [MemPoolNode(0, 0, 2)];
    OneNode(MemPoolNode(0, 0, 2), 2);
    AllocateSucceedsExactly(FRAGMENTED, 0, vm, 2);
  }

  lemma TwoOfThree(segs: seq<Segment>)
    requires segs == [FREE, Segment(true, 0), FREE]
    ensures CountTaken(segs) == 1 && forall k :: !IsWindow(Busy(segs), k, 2)
  {
    var flags, two, one := [false, true, false], [false, true], [false];
    assert Busy(segs) == flags && flags[..2] == two && two[..1] == one && one[..0] == [];
    assert CountTrue(one) == 0 && CountTrue(two) == CountTrue(two[..1]) + 1;
    assert CountTrue(flags) == CountTrue(flags[..2]);
    assert Busy(segs)[1];
  }

  /**
   A plan the client makes for one attach is granted in full exactly when every part is whole segments
   with a free window on its node, and every device is plugged.
   */
  lemma {:induction false} PlannedAttachSucceeds(
      s: State, v: int, existing: seq<int>, localMb: int, localChannels: int, cxlMb: int, cxlChannels: int,
      plugs: seq<bool>)
    requires Inv(s)
    ensures var plan := AttachPlan(PoolNodes(s.pool), existing, localMb, localChannels, cxlMb, cxlChannels);
            plan.Ok? && |plugs| == |plan.value| ==>
              (AttachAll(s, v, plan.value, plugs, []).1.Some?
               <==> v >= 0 && FindVm(s.vms, v) != -1 && FitsPool(s.pool, plan.value) && AllPlugged(plugs))
  {
    var nodes := PoolNodes(s.pool);
    NodesAreDistinct(s.pool);
    var plan := AttachPlan(nodes, existing, localMb, localChannels, cxlMb, cxlChannels);
    if plan.Ok? && |plugs| == |plan.value| {
      AttachPlanTotal(nodes, existing, localMb, localChannels, cxlMb, cxlChannels);
      PlannedNodesExist(s.pool, plan.value);
      assert forall i :: 0 <= i < |plan.value| ==> Targets(plan.value)[i] == plan.value[i].0;
      AttachSucceedsExactly(s, v, plan.value, plugs);
    }
  }

  lemma PlannedNodesExist(p: Pool, sel: seq<Part>)
    requires PoolOk(p) && forall i :: 0 <= i < |sel| ==> HasRoom(PoolNodes(p), sel[i])
    ensures forall i :: 0 <= i < |sel| ==> 0 <= sel[i].0 < |p.devs|
  {
    forall i | 0 <= i < |sel| ensures 0 <= sel[i].0 < |p.devs| {
      var k :| 0 <= k < |p.devs| && PoolNodes(p)[k].nodeId == sel[i].0 && PoolNodes(p)[k].freeMb >= sel[i].1;
      assert p.devs[k].nodeId == k;
    }
  }

  // ---------- what the hypervisor is told ----------

  /** The range a reply names is whole segments that were free, and they are what the VM was given. */
  predicate NamesRange(p: Pool, q: Pool, node: int, v: int, b: Backend)
    requires p.segMb > 0
  {
    && 0 <= node < |p.devs| && b.path == p.devs[node].path && b.alignMb == p.segMb
    && var start, n := b.offsetMb / p.segMb, b.sizeMb / p.segMb;
       && n > 0 && b.offsetMb == start * p.segMb && b.sizeMb == n * p.segMb
       && IsWindow(Busy(p.devs[node].segs), start, n)
       && q == SetSegs(p, node, Fill(p.devs[node].segs, start, n, Segment(true, v)))
  }

  /**
   The reply to a granted allocation, read field by field as the hypervisor reads it, names exactly the
   segments that were taken for the VM: none that any VM had before.
   */
  lemma ReplyNamesTheRange(s: State, node: int, v: int, sizeMb: int)
    requires Inv(s)
    ensures var (t, reply) := Step(s, AllocateMem(node, v, sizeMb));
            reply.Allocated? && ',' !in reply.dev.req.devPath && |AllocReply(reply.dev)| < BUFFER_SIZE ==>
              match ReadReply(Received(AllocReply(reply.dev)))
              case Some(b) => b.idx == reply.dev.idx && b.sizeMb == sizeMb && NamesRange(s.pool, t.pool, node, v, b)
              case None => false
  {
    var (t, reply) := Step(s, AllocateMem(node, v, sizeMb));
    if reply.Allocated? && ',' !in reply.dev.req.devPath && |AllocReply(reply.dev)| < BUFFER_SIZE {
      ReplyRoundTrip(reply.dev);
      AllocationIsExact(s.pool, node, v, sizeMb);
      NodeIsPosition(s.pool, node);
    }
  }

  // ---------- attaching ----------

  function MemoryOf(devs: seq<MemDev>): int {
    Sum(Map(devs, (d: MemDev) => d.req.sizeMb))
  }

  lemma MemoryOfBoth(a: seq<MemDev>, b: seq<MemDev>)
    ensures MemoryOf(a + b) == MemoryOf(a) + MemoryOf(b)
  {
    var size := (d: MemDev) => d.req.sizeMb;
    assert Map(a + b, size) == Map(a, size) + Map(b, size);
    SumOfConcat(Map(a, size), Map(b, size));
  }

  lemma FulfilledMemory(devs: seq<MemDev>, plan: seq<Part>)
    requires Fulfils(devs, plan)
    ensures MemoryOf(devs) == Sum(Sizes(plan))
  {
    assert Map(devs, (d: MemDev) => d.req.sizeMb) == Sizes(plan);
  }

  /**
   An attach as the client runs it, planned on what it read of the pool and of the VM: either
   nothing changed but the VM's id counter, or the VM has exactly the megabytes asked for more.
   */
  lemma AttachEndToEnd(
      s: State, v: int, localMb: int, localChannels: int, cxlMb: int, cxlChannels: int, plugs: seq<bool>)
    requires Inv(s) && s.pool.devs != [] && CleanPaths(s.pool) && |UsageText(s.pool)| < BUFFER_SIZE
    requires Clean(s.vms) && |VmDump(s.count, s.vms)| < BUFFER_SIZE
    ensures var nodes := SortBy(NodesOfLines(SplitLines(Received(UsageText(s.pool)))), (n: MemPoolNode) => n.nodeId);
            var existing := SortedSet(Scan(UNSEEN, SplitLines(Received(VmDump(s.count, s.vms))), v).1);
            var plan := AttachPlan(nodes, existing, localMb, localChannels, cxlMb, cxlChannels);
            plan.Ok? && |plugs| == |plan.value| ==>
              var (t, r) := AttachAll(s, v, plan.value, plugs, []);
              var j := FindVm(s.vms, v);
              && Inv(t) && j != -1
              && (r == None ==> t == SetVm(s, j, s.vms[j].(counter := t.vms[j].counter)))
              && (r.Some? ==>
                    && SameBut(s, t, j)
                    && MemoryOf(t.vms[j].devs) == MemoryOf(s.vms[j].devs) + Asked(localMb) + Asked(cxlMb))
  {
    PoolRoundTrip(s.pool);
    VmNodesRoundTrip(s, v);
    var nodes := PoolNodes(s.pool);
    var existing := SortedSet(Scan(UNSEEN, SplitLines(Received(VmDump(s.count, s.vms))), v).1);
    var plan := AttachPlan(nodes, existing, localMb, localChannels, cxlMb, cxlChannels);
    var j := FindVm(s.vms, v);
    if plan.Ok? && |plugs| == |plan.value| {
      AttachPlanTotal(nodes, existing, localMb, localChannels, cxlMb, cxlChannels);
      AttachGrows(s, v, plan.value, plugs);
    }
  }

  lemma {:induction false} AttachGrows(s: State, v: int, plan: seq<Part>, plugs: seq<bool>)
    requires Inv(s) && plan != [] && |plugs| == |plan| && FindVm(s.vms, v) != -1
    ensures var (t, r) := AttachAll(s, v, plan, plugs, []);
            var j := FindVm(s.vms, v);
            && Inv(t)
            && (r == None ==> t == SetVm(s, j, s.vms[j].(counter := t.vms[j].counter)))
            && (r.Some? ==>
                  SameBut(s, t, j) && MemoryOf(t.vms[j].devs) == MemoryOf(s.vms[j].devs) + Sum(Sizes(plan)))
  {
    AttachIsAtomic(s, v, plan, plugs);
    var (t, r) := AttachAll(s, v, plan, plugs, []);
    var j := FindVm(s.vms, v);
    assert VmOk(s.vms[j], s.pool);
    if r.Some? {
      var added: seq<MemDev> :|
        t.vms[j].devs == s.vms[j].devs + added && r.value == IdsOf(added) && Fulfils(added, plan);
      MemoryOfBoth(s.vms[j].devs, added);
      FulfilledMemory(added, plan);
    }
  }

  // ---------- a new VM ----------

  /** A new VM starts with no device, and nothing else changes but its slot and the count. */
  lemma CreatedEmpty(s: State, v: int, coreSet: string)
    requires Inv(s) && coreSet != ""
    ensures var (t, reply) := Step(s, CreateVm(v, coreSet));
            reply == Succeeded ==>
              var j := FindVm(t.vms, v);
              && Inv(t) && v >= 0 && j != -1 && t.pool == s.pool
              && t.vms[j].devs == [] && t.vms[j].counter == 0 && !t.vms[j].running
              && t.vms[j].coreSet == CpuList.Clip(coreSet)
  {
    var (t, reply) := Step(s, CreateVm(v, coreSet));
    CreateAdds(s, v, coreSet);
    if reply == Succeeded {
      var j := FindFreeFrom(s.vms, 0);
      assert t.vms[j].initialized && t.vms[j].vmId == v;
      FindVmHits(t.vms, j);
      Lookup(t, v);
    }
  }

  /** All of a new VM's plan: both amounts, no node twice, each part a megabyte or more on a node there is. */
  lemma PlanTotal(pool: seq<MemPoolNode>, memoryMb: int, channels: int, cxlMb: int, cxlChannels: int)
    requires Distinct(NodeIds(pool))
    requires 0 < channels <= memoryMb && (if cxlChannels > 0 then cxlChannels <= cxlMb else cxlMb == 0)
    requires BuildPlan(pool, memoryMb, channels, cxlMb, cxlChannels).Ok?
    ensures var sel := BuildPlan(pool, memoryMb, channels, cxlMb, cxlChannels).value;
            && Distinct(Targets(sel)) && Sum(Sizes(sel)) == memoryMb + cxlMb
            && forall i :: 0 <= i < |sel| ==> HasRoom(pool, sel[i]) && sel[i].1 >= 1
  {
    PlanPlacesBothTiers(pool, memoryMb, channels, cxlMb, cxlChannels);
    var sel := BuildPlan(pool, memoryMb, channels, cxlMb, cxlChannels).value;
    SharesOf(pool, sel, channels, memoryMb, cxlMb, if cxlChannels > 0 then cxlChannels else 0);
  }

  lemma BothShares(pool: seq<MemPoolNode>, a: seq<Part>, b: seq<Part>, aMb: int, aLen: int, bMb: int, bLen: int)
    requires Distinct(NodeIds(pool)) && Share(pool, 0, a, aMb, aLen) && Share(pool, 1, b, bMb, bLen)
    ensures Sum(Sizes(a + b)) == aMb + bMb
    ensures forall i :: 0 <= i < |a + b| ==> HasRoom(pool, (a + b)[i]) && (a + b)[i].1 >= 1
  {
    TiersDoNotMix(a, b, pool);
    TierHasRoom(pool, 0, a);
    TierHasRoom(pool, 1, b);
    RoomInBoth(pool, a, b);
  }

  lemma SharesOf(pool: seq<MemPoolNode>, sel: seq<Part>, k: nat, aMb: int, bMb: int, bLen: int)
    requires Distinct(NodeIds(pool)) && k <= |sel|
    requires Share(pool, 0, sel[..k], aMb, k) && Share(pool, 1, sel[k..], bMb, bLen)
    ensures Sum(Sizes(sel)) == aMb + bMb
    ensures forall i :: 0 <= i < |sel| ==> HasRoom(pool, sel[i]) && sel[i].1 >= 1
  {
    BothShares(pool, sel[..k], sel[k..], aMb, k, bMb, bLen);
    PutTogether(sel, k);
  }

  lemma TierHasRoom(pool: seq<MemPoolNode>, tier: int, sel: seq<Part>)
    requires forall i :: 0 <= i < |sel| ==> OnTier(pool, tier, sel[i])
    ensures forall i :: 0 <= i < |sel| ==> HasRoom(pool, sel[i])
  {
    forall i | 0 <= i < |sel| ensures HasRoom(pool, sel[i]) {
      assert OnTier(pool, tier, sel[i]);
    }
  }

  /** Allocating for a VM that has nothing yet gives it the first parts of the plan, all exactly when they fit. */
  lemma {:induction false} FilledByPlan(t: State, v: int, j: int, plan: seq<Part>) returns (k: nat)
    requires Inv(t) && v >= 0 && j == FindVm(t.vms, v) && j != -1 && t.vms[j].devs == [] && Distinct(Targets(plan))
    requires forall i :: 0 <= i < |plan| ==> plan[i].0 >= 0 && plan[i].1 > 0
    ensures var u := AllocAll(t, v, plan);
            && Inv(u) && FindVm(u.vms, v) == j && k <= |plan| && Fulfils(u.vms[j].devs, plan[..k])
            && (k == |plan| <==> FitsPool(t.pool, plan))
  {
    assert forall i :: 0 <= i < |plan| ==> Targets(plan)[i] == plan[i].0;
    AllGrantedExactly(t, v, plan);
    k := AllocAllGrants(t, v, j, plan);
    var u := AllocAll(t, v, plan);
    var added: seq<MemDev> :| u.vms[j].devs == t.vms[j].devs + added && Fulfils(added, plan[..k]);
    assert u.vms[j].devs == added;
  }

  /** The VM lists the first `k` parts of the plan; all of them, the whole sum, exactly when they fit the pool. */
  ghost predicate HasFirst(p: Pool, u: State, v: int, plan: seq<Part>, k: nat)
    requires p.segMb > 0
  {
    var j := FindVm(u.vms, v);
    && Inv(u) && j != -1 && k <= |plan| && Fulfils(u.vms[j].devs, plan[..k])
    && (k == |plan| <==> FitsPool(p, plan))
    && (k == |plan| ==> MemoryOf(u.vms[j].devs) == Sum(Sizes(plan)))
  }

  lemma {:induction false} CreatedByPlan(s: State, v: int, coreSet: string, plan: seq<Part>) returns (k: nat)
    requires Inv(s) && coreSet != "" && Distinct(Targets(plan))
    requires forall i :: 0 <= i < |plan| ==> HasRoom(PoolNodes(s.pool), plan[i]) && plan[i].1 >= 1
    ensures var (t, reply) := Step(s, CreateVm(v, coreSet));
            reply == Succeeded ==> HasFirst(s.pool, AllocAll(t, v, plan), v, plan, k)
  {
    var (t, reply) := Step(s, CreateVm(v, coreSet));
    k := 0;
    if reply == Succeeded {
      CreatedEmpty(s, v, coreSet);
      PlannedNodesExist(s.pool, plan);
      var j := FindVm(t.vms, v);
      k := FilledByPlan(t, v, j, plan);
      if k == |plan| {
        assert plan[..k] == plan;
        FulfilledMemory(AllocAll(t, v, plan).vms[j].devs, plan);
      }
    }
  }

  /**
   A new VM, with the plan the client makes of what it read of the pool: the VM gets the first parts of the plan,
   one device each; all of them, and so exactly the memory asked for, if and only if each part is whole segments
   with a free window on its node.
   */
  lemma CreateEndToEnd(
      s: State, v: int, coreSet: string, memoryMb: int, channels: int, cxlMb: int, cxlChannels: int) returns (k: nat)
    requires Inv(s) && s.pool.devs != [] && CleanPaths(s.pool) && |UsageText(s.pool)| < BUFFER_SIZE && coreSet != ""
    requires 0 < channels <= memoryMb && (if cxlChannels > 0 then cxlChannels <= cxlMb else cxlMb == 0)
    ensures var nodes := SortBy(NodesOfLines(SplitLines(Received(UsageText(s.pool)))), (n: MemPoolNode) => n.nodeId);
            var plan := BuildPlan(nodes, memoryMb, channels, cxlMb, cxlChannels);
            var (t, reply) := Step(s, CreateVm(v, coreSet));
            plan.Ok? && reply == Succeeded ==>
              && HasFirst(s.pool, AllocAll(t, v, plan.value), v, plan.value, k)
              && Sum(Sizes(plan.value)) == memoryMb + cxlMb
  {
    PoolRoundTrip(s.pool);
    var nodes := PoolNodes(s.pool);
    var plan := BuildPlan(nodes, memoryMb, channels, cxlMb, cxlChannels);
    k := 0;
    if plan.Ok? {
      PlanTotal(nodes, memoryMb, channels, cxlMb, cxlChannels);
      k := CreatedByPlan(s, v, coreSet, plan.value);
    }
  }
}
