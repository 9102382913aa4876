/**
 The memory pool as a value: what each pool operation does to the devices'
 segment arrays, in the units its callers use (megabytes).
 */
module PoolModel {
  import opened Wrappers
  import opened Segments

  const MAX_DEVICES := 10
  const MAX_SEGMENTS := 4096
  const INT_MAX := 0x7fff_ffff

  /** One DAX device; `nodeId` is what callers name it by. */
  datatype Device = Device(path: string, nodeId: int, tierId: int, daxId: int, totalMb: int, segs: seq<Segment>)

  datatype Pool = Pool(segMb: int, devs: seq<Device>)

  /** What a successful allocation tells the caller. */
  datatype MemoryRequest = MemoryRequest(nodeId: int, devPath: string, offsetMb: int, sizeMb: int, alignMb: int)

  predicate DeviceOk(d: Device, segMb: int) {
    && 0 < segMb
    && 0 <= d.totalMb <= INT_MAX
    && |d.segs| == d.totalMb / segMb
    && |d.segs| <= MAX_SEGMENTS
    && forall k :: 0 <= k < |d.segs| && !d.segs[k].taken ==> d.segs[k] == FREE
  }

  /** A configured pool: devices are named by their position. */
  predicate PoolOk(p: Pool) {
    && 0 < p.segMb
    && |p.devs| <= MAX_DEVICES
    && forall i :: 0 <= i < |p.devs| ==> DeviceOk(p.devs[i], p.segMb) && p.devs[i].nodeId == i
  }

  /** No segment of any device is taken. */
  predicate Unused(p: Pool) {
    forall i, k :: 0 <= i < |p.devs| && 0 <= k < |p.devs[i].segs| ==> p.devs[i].segs[k] == FREE
  }

  /** Non-negative and a multiple; zero passes. */
  predicate IsAligned(value: int, alignment: int)
    requires alignment > 0
  {
    value >= 0 && value % alignment == 0
  }

  /** The first device with this node id, or -1. */
  function FindNode(devs: seq<Device>, node: int): (r: int)
    ensures r == -1 || (0 <= r < |devs| && devs[r].nodeId == node)
    ensures r == -1 ==> forall i :: 0 <= i < |devs| ==> devs[i].nodeId != node
    ensures forall i :: 0 <= i < r ==> devs[i].nodeId != node
  {
    FindNodeFrom(devs, node, 0)
  }

  function FindNodeFrom(devs: seq<Device>, node: int, i: nat): (r: int)
    requires i <= |devs|
    ensures r == -1 || (i <= r < |devs| && devs[r].nodeId == node)
    ensures r == -1 ==> forall k :: i <= k < |devs| ==> devs[k].nodeId != node
    ensures forall k :: i <= k < r ==> devs[k].nodeId != node
    decreases |devs| - i
  {
    if i == |devs| then -1 else if devs[i].nodeId == node then i else FindNodeFrom(devs, node, i + 1)
  }

  function SetSegs(p: Pool, i: int, segs: seq<Segment>): Pool
    requires 0 <= i < |p.devs|
  {
    p.(devs := p.devs[i := p.devs[i].(segs := segs)])
  }

  /** First-fit allocation of `sizeMb` on `node` for `vm`; a refusal changes nothing. */
  function PoolAllocate(p: Pool, node: int, vm: int, sizeMb: int): (Pool, Option<MemoryRequest>)
    requires p.segMb > 0
  {
    var i := FindNode(p.devs, node);
    if !IsAligned(sizeMb, p.segMb) || i == -1 then (p, None)
    else
      var n := sizeMb / p.segMb;
      var start := FirstFit(Busy(p.devs[i].segs), n);
      if start == -1 then (p, None)
      else (SetSegs(p, i, Fill(p.devs[i].segs, start, n, Segment(true, vm))),
            Some(MemoryRequest(node, p.devs[i].path, start * p.segMb, n * p.segMb, p.segMb)))
  }

  /** Release of a range: frees the prefix `vm` holds, and succeeds iff that is the whole range. */
  function PoolRelease(p: Pool, node: int, vm: int, offsetMb: int, sizeMb: int): (Pool, bool)
    requires p.segMb > 0
  {
    var i := FindNode(p.devs, node);
    if !IsAligned(sizeMb, p.segMb) || !IsAligned(offsetMb, p.segMb) || i == -1 then (p, false)
    else
      var start, n := offsetMb / p.segMb, sizeMb / p.segMb;
      var held := HeldPrefix(p.devs[i].segs, vm, start, n);
      (SetSegs(p, i, Fill(p.devs[i].segs, start, held, FREE)), held == n)
  }

  /** Everything `vm` holds, on every device, becomes free. */
  function PoolReleaseVm(p: Pool, vm: int): Pool {
    p.(devs := seq(|p.devs|, i requires 0 <= i < |p.devs| =>
                     p.devs[i].(segs := ReleaseOwner(p.devs[i].segs, vm))))
  }

  // ---------- every operation keeps the pool well formed ----------

  lemma AllocateKeepsOk(p: Pool, node: int, vm: int, sizeMb: int)
    requires PoolOk(p)
    ensures PoolOk(PoolAllocate(p, node, vm, sizeMb).0)
  {
  }

  lemma ReleaseVmKeepsOk(p: Pool, vm: int)
    requires PoolOk(p)
    ensures PoolOk(PoolReleaseVm(p, vm))
  {
  }

  // ---------- megabytes and segments ----------

  lemma MulSign(x: int, m: int)
    requires m > 0
    ensures x >= 1 ==> x * m >= m
    ensures x <= -1 ==> x * m <= -m
  {
  }

  lemma MulDiv(a: int, m: int)
    requires m > 0
    ensures (a * m) / m == a && (a * m) % m == 0
  {
    var q, r := (a * m) / m, (a * m) % m;
    assert a * m == q * m + r;
    assert (a - q) * m == r;
    MulSign(a - q, m);
  }

  lemma DivLower(a: int, total: int, m: int)
    requires m > 0 && a <= total / m
    ensures a * m <= total
  {
    assert a * m <= (total / m) * m;
  }

  /**
   The megabyte offset and size handed out name exactly the segments taken, end inside
   the device and so inside a C `int`, and the search found the least fitting start.
   */
  lemma AllocationIsExact(p: Pool, node: int, vm: int, sizeMb: int)
    requires PoolOk(p) && sizeMb > 0
    ensures var (p', out) := PoolAllocate(p, node, vm, sizeMb);
            out.Some? ==>
              var req := out.value;
              && 0 <= node < |p.devs|
              && req.nodeId == node && req.sizeMb == sizeMb && req.alignMb == p.segMb
              && IsAligned(req.offsetMb, p.segMb)
              && 0 <= req.offsetMb && req.offsetMb + req.sizeMb <= p.devs[node].totalMb <= INT_MAX
              && var start, n := req.offsetMb / p.segMb, req.sizeMb / p.segMb;
                 && n > 0 && req.offsetMb == start * p.segMb && req.sizeMb == n * p.segMb
                 && start == FirstFit(Busy(p.devs[node].segs), n)
                 && IsWindow(Busy(p.devs[node].segs), start, n)
                 && p' == SetSegs(p, node, Fill(p.devs[node].segs, start, n, Segment(true, vm)))
  {
    var (p', out) := PoolAllocate(p, node, vm, sizeMb);
    if out.Some? {
      var i := FindNode(p.devs, node);
      var n := sizeMb / p.segMb;
      var start := FirstFit(Busy(p.devs[i].segs), n);
      FirstFitIsLeast(Busy(p.devs[i].segs), n);
      MulDiv(start, p.segMb);
      MulDiv(n, p.segMb);
      DivLower(start + n, p.devs[i].totalMb, p.segMb);
      assert (start + n) * p.segMb == start * p.segMb + n * p.segMb;
    }
  }

  /** Releasing what an allocation handed out undoes it. */
  lemma AllocateThenRelease(p: Pool, node: int, vm: int, sizeMb: int)
    requires PoolOk(p) && sizeMb > 0
    ensures var (p', out) := PoolAllocate(p, node, vm, sizeMb);
            out.Some? ==> PoolRelease(p', node, vm, out.value.offsetMb, out.value.sizeMb) == (p, true)
  {
    var (p', out) := PoolAllocate(p, node, vm, sizeMb);
    if out.Some? {
      AllocationIsExact(p, node, vm, sizeMb);
      var req := out.value;
      var start, n := req.offsetMb / p.segMb, req.sizeMb / p.segMb;
      var before, after := p.devs[node].segs, p'.devs[node].segs;
      HeldPrefixStops(after, vm, start, n);
      assert Fill(after, start, n, FREE) == before;
      assert SetSegs(p', node, before).devs == p.devs;
    }
  }

  /** Devices are named by position, so a node id is found where it should be. */
  lemma NodeIsPosition(p: Pool, node: int)
    requires PoolOk(p)
    ensures FindNode(p.devs, node) == if 0 <= node < |p.devs| then node else -1
  {
    if 0 <= node < |p.devs| {
      assert p.devs[node].nodeId == node;
    }
  }

  // ---------- when an allocation and a release succeed ----------

  /** An aligned size, a node there is, and a free window of that length on it. */
  ghost predicate HasWindow(p: Pool, node: int, sizeMb: int)
    requires p.segMb > 0
  {
    && IsAligned(sizeMb, p.segMb) && 0 <= node < |p.devs|
    && exists k :: IsWindow(Busy(p.devs[node].segs), k, sizeMb / p.segMb)
  }

  lemma AllocateSucceedsExactly(p: Pool, node: int, vm: int, sizeMb: int)
    requires PoolOk(p) && sizeMb > 0
    ensures PoolAllocate(p, node, vm, sizeMb).1.Some? <==> HasWindow(p, node, sizeMb)
  {
    NodeIsPosition(p, node);
    if IsAligned(sizeMb, p.segMb) && 0 <= node < |p.devs| {
      FirstFitIsLeast(Busy(p.devs[node].segs), sizeMb / p.segMb);
    }
  }

  /** Both ends aligned, a node there is, and every segment of the range taken by the VM. */
  predicate HoldsRange(p: Pool, node: int, vm: int, offsetMb: int, sizeMb: int)
    requires p.segMb > 0
  {
    && IsAligned(sizeMb, p.segMb) && IsAligned(offsetMb, p.segMb) && 0 <= node < |p.devs|
    && var start := offsetMb / p.segMb;
       forall k :: start <= k < start + sizeMb / p.segMb ==> Releasable(p.devs[node].segs, vm, k)
  }

  /** A release succeeds if and only if the VM holds the whole range. */
  lemma ReleaseSucceedsExactly(p: Pool, node: int, vm: int, offsetMb: int, sizeMb: int)
    requires PoolOk(p)
    ensures PoolRelease(p, node, vm, offsetMb, sizeMb).1 <==> HoldsRange(p, node, vm, offsetMb, sizeMb)
  {
    NodeIsPosition(p, node);
    if IsAligned(sizeMb, p.segMb) && IsAligned(offsetMb, p.segMb) && 0 <= node < |p.devs| {
      HeldIsWhole(p.devs[node].segs, vm, offsetMb / p.segMb, sizeMb / p.segMb);
    }
  }

  /** With the first of two segments held and the second not, the first is freed and the call fails. */
  lemma ReleaseCanStopHalfway(p: Pool, node: int, vm: int, k: nat)
    requires PoolOk(p) && 0 <= node < |p.devs|
    requires Releasable(p.devs[node].segs, vm, k) && !Releasable(p.devs[node].segs, vm, k + 1)
    ensures PoolRelease(p, node, vm, k * p.segMb, 2 * p.segMb)
         == (SetSegs(p, node, p.devs[node].segs[k := FREE]), false)
  {
    var segs := p.devs[node].segs;
    NodeIsPosition(p, node);
    MulDiv(k, p.segMb);
    MulDiv(2, p.segMb);
    TwoSegments(segs, vm, k);
    assert k * p.segMb >= 0;
  }

  lemma TwoSegments(segs: seq<Segment>, vm: int, k: nat)
    requires Releasable(segs, vm, k) && !Releasable(segs, vm, k + 1)
    ensures HeldPrefix(segs, vm, k, 2) == 1 && Fill(segs, k, 1, FREE) == segs[k := FREE]
  {
    assert HeldPrefix(segs, vm, k + 1, 1) == 0;
  }

  /** The alignment check lets zero through, whatever its message says. */
  lemma ZeroIsAligned(segMb: int)
    requires segMb > 0
    ensures IsAligned(0, segMb)
  {
  }
}
