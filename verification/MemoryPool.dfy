/**
 The memory pool as the program keeps it: fixed segment arrays and a separate
 counter per device, all updated in place. Each method is tied to `PoolModel`.
 */
module MemoryPool {
  import opened Wrappers
  import opened Segments
  import opened PoolModel

  /** A C `int`. Assigning to one proves there is no overflow. */
  type int32 = x: int | -0x8000_0000 <= x <= INT_MAX

  datatype DeviceConfig = DeviceConfig(path: string, sizeMb: int, tierId: int, daxId: int)

  class DaxDevice {
    const devPath: string
    const tierId: int
    const daxId: int
    const totalSizeMb: int
    var nodeId: int
    var totalSegments: int
    var usedSegments: int
    const segments: array<Segment>

    ghost predicate Valid()
      reads this, segments
    {
      && segments.Length == MAX_SEGMENTS
      && 0 <= totalSegments <= MAX_SEGMENTS
      && usedSegments == CountTaken(Segs())
      && forall k :: 0 <= k < segments.Length && !segments[k].taken ==> segments[k] == FREE
    }

    /** The segments the device really has. */
    ghost function Segs(): (s: seq<Segment>)
      reads this, segments
      requires 0 <= totalSegments <= segments.Length
    {
      segments[..totalSegments]
    }

    ghost function Abs(): Device
      reads this, segments
      requires Valid()
    {
      Device(devPath, nodeId, tierId, daxId, totalSizeMb, Segs())
    }

    /** The unchanging part is what the configuration line says. */
    ghost predicate LoadedFrom(config: DeviceConfig) {
      && devPath == config.path && tierId == config.tierId && daxId == config.daxId
      && totalSizeMb == config.sizeMb && segments.Length == MAX_SEGMENTS
    }

    /** A device as read from the configuration file: everything else zeroed. */
    constructor (config: DeviceConfig)
      ensures LoadedFrom(config) && fresh(segments)
    {
      devPath, tierId, daxId, totalSizeMb := config.path, config.tierId, config.daxId, config.sizeMb;
      nodeId, totalSegments, usedSegments := 0, 0, 0;
      segments := new Segment[MAX_SEGMENTS](_ => Segment(false, 0));
    }

    ghost predicate AllFree(node: int, segMb: int)
      reads this, segments
      requires segMb > 0
    {
      && Valid() && nodeId == node && totalSegments == totalSizeMb / segMb && usedSegments == 0
      && forall k :: 0 <= k < totalSegments ==> segments[k] == FREE
    }

    /** Name the device, size it in segments and free all of them. */
    method Reset(node: int, segMb: int)
      requires segMb > 0 && totalSizeMb >= 0 && totalSizeMb / segMb <= MAX_SEGMENTS
      requires segments.Length == MAX_SEGMENTS
      modifies this, segments
      ensures AllFree(node, segMb)
    {
      nodeId := node;
      totalSegments := totalSizeMb / segMb;
      usedSegments := 0;
      for j := 0 to MAX_SEGMENTS
        modifies segments
        invariant forall k :: 0 <= k < j ==> segments[k] == FREE
      {
        segments[j] := FREE;
      }
      CountTakenZero(Segs());
    }

    /**
     The skip-ahead search: after a taken segment, resume just past it. It returns what
     trying every start returns, and looks at no more segments than the device has.
     */
    method FindFreeSegments(numSegments: nat) returns (r: int, ghost examined: nat)
      requires Valid() && numSegments > 0
      ensures r == FirstFit(Busy(Segs()), numSegments)
      ensures examined <= totalSegments
    {
      ghost var busy := Busy(Segs());
      var i := 0;
      examined := 0;
      while i <= totalSegments - numSegments
        invariant 0 <= i <= totalSegments && examined == i
        invariant FirstFit(busy, numSegments) == FirstFitFrom(busy, numSegments, i)
        decreases totalSegments - i
      {
        var j := 0;
        while j < numSegments
          invariant 0 <= j <= numSegments && examined == i + j
          invariant forall k :: i <= k < i + j ==> !busy[k]
        {
          examined := examined + 1;
          assert busy[i + j] == segments[i + j].taken;
          if segments[i + j].taken {
            break;
          }
          j := j + 1;
        }
        if j == numSegments {
          return i, examined;
        }
        SkipPastTaken(busy, numSegments, i, j);
        i := i + j + 1;
      }
      r := -1;
    }

    /** Take the first window that fits. The early free-space test only logs. */
    method AllocateSegments(numSegments: nat, vmId: int) returns (startIndex: int)
      requires Valid() && numSegments > 0
      modifies this`usedSegments, segments
      ensures Valid()
      ensures startIndex == FirstFit(Busy(old(Segs())), numSegments)
      ensures startIndex >= 0 || startIndex == -1
      ensures Segs() == if startIndex == -1 then old(Segs())
                        else Fill(old(Segs()), startIndex, numSegments, Segment(true, vmId))
      ensures old(totalSegments - usedSegments) < numSegments ==> startIndex == -1
    {
      ghost var before := Segs();
      ghost var examined;
      startIndex, examined := FindFreeSegments(numSegments);
      FirstFitIsLeast(Busy(before), numSegments);
      if startIndex == -1 {
        return;
      }
      var x := Segment(true, vmId);
      CountFill(before, startIndex, numSegments, x, false);
      for i := 0 to numSegments
        modifies segments
        invariant forall k :: 0 <= k < segments.Length ==>
                    segments[k] == if startIndex <= k < startIndex + i then x else old(segments[k])
      {
        segments[startIndex + i] := x;
      }
      assert Segs() == Fill(before, startIndex, numSegments, x);
      usedSegments := usedSegments + numSegments;
      FreeSpaceBoundsWindows(before, startIndex, numSegments);
    }

    /** Release segments one at a time, stopping at the first that is not the VM's. */
    method ReleaseSegments(vmId: int, startIndex: int, segmentCount: nat) returns (ok: bool)
      requires Valid()
      modifies this`usedSegments, segments
      ensures Valid()
      ensures var held := HeldPrefix(old(Segs()), vmId, startIndex, segmentCount);
              && Segs() == Fill(old(Segs()), startIndex, held, FREE)
              && usedSegments == old(usedSegments) - held
              && ok == (held == segmentCount)
    {
      ghost var before := Segs();
      ghost var held := HeldPrefix(before, vmId, startIndex, segmentCount);
      HeldPrefixStops(before, vmId, startIndex, segmentCount);
      CountReleased(before, vmId, startIndex, segmentCount);
      var i := 0;
      while i < segmentCount
        modifies this`usedSegments, segments
        invariant 0 <= i <= held
        invariant forall k :: 0 <= k < segments.Length ==>
                    segments[k] == if startIndex <= k < startIndex + i then FREE else old(segments[k])
        invariant usedSegments == old(usedSegments) - i
      {
        var idx := startIndex + i;
        assert i < held ==> Releasable(before, vmId, idx);
        if 0 <= idx < totalSegments && segments[idx].taken && segments[idx].usedVmId == vmId {
          assert Releasable(before, vmId, idx);
          segments[idx] := FREE;
          usedSegments := usedSegments - 1;
        } else {
          break;
        }
        i := i + 1;
      }
      assert i == held;
      assert Segs() == Fill(before, startIndex, held, FREE);
      ok := i == segmentCount;
    }

    /** Free one taken segment and take the counter down with it. */
    method FreeOne(idx: nat)
      requires segments.Length == MAX_SEGMENTS && idx < totalSegments <= MAX_SEGMENTS
      requires segments[idx].taken && usedSegments == CountTaken(Segs())
      modifies this`usedSegments, segments
      ensures segments[..] == old(segments[..])[idx := FREE]
      ensures usedSegments == CountTaken(Segs()) == old(usedSegments) - 1
    {
      ghost var before := Segs();
      CountTakenUpdate(before, idx, FREE);
      segments[idx] := FREE;
      usedSegments := usedSegments - 1;
      assert Segs() == before[idx := FREE];
    }

    /** Release whatever the VM holds on this device. */
    method ReleaseOwned(vmId: int)
      requires Valid()
      modifies this`usedSegments, segments
      ensures Valid()
      ensures Segs() == ReleaseOwner(old(Segs()), vmId)
    {
      ghost var before := Segs();
      ghost var after := ReleaseOwner(before, vmId);
      for j := 0 to totalSegments
        modifies this`usedSegments, segments
        invariant forall k :: 0 <= k < segments.Length ==>
                    segments[k] == if k < j then after[k] else old(segments[k])
        invariant usedSegments == CountTaken(Segs())
      {
        if segments[j].taken && segments[j].usedVmId == vmId {
          FreeOne(j);
        }
      }
      assert Segs() == after;
    }
  }

  /** A free window is no longer than the free space, so too little space means no window. */
  lemma FreeSpaceBoundsWindows(segs: seq<Segment>, start: int, n: nat)
    requires IsWindow(Busy(segs), start, n)
    ensures n <= |segs| - CountTaken(segs)
  {
    var busy := Busy(segs);
    forall k | start <= k < start + n ensures segs[k].taken == false {
      assert !busy[k];
    }
    CountFill(segs, start, n, Segment(true, 0), false);
  }

  class MemoryPool {
    const segmentSizeMb: int
    const devs: seq<DaxDevice>

    ghost function Footprint(): set<object> {
      {this as object} + (set d | d in devs :: d as object) + (set d | d in devs :: d.segments as object)
    }

    /** Devices and their arrays are separate objects. */
    ghost predicate Separate() {
      && (forall i, j :: 0 <= i < j < |devs| ==> devs[i] != devs[j])
      && (forall i, j :: 0 <= i < j < |devs| ==> devs[i].segments != devs[j].segments)
    }

    ghost predicate Valid()
      reads devs, set i | 0 <= i < |devs| :: devs[i].segments
    {
      && Separate()
      && (forall i :: 0 <= i < |devs| ==> devs[i].Valid())
      && PoolOk(Abs())
    }

    ghost function Abs(): Pool
      reads devs, set i | 0 <= i < |devs| :: devs[i].segments
      requires forall i :: 0 <= i < |devs| ==> devs[i].Valid()
    {
      Pool(segmentSizeMb,
           seq(|devs|, i requires 0 <= i < |devs| && devs[i].Valid()
                         reads devs, set j | 0 <= j < |devs| :: devs[j].segments
                       => devs[i].Abs()))
    }

    /** One device object per configuration line. */
    static method LoadConfig(configs: seq<DeviceConfig>) returns (list: seq<DaxDevice>)
      ensures |list| == |configs|
      ensures forall k :: 0 <= k < |list| ==> fresh(list[k]) && fresh(list[k].segments)
      ensures forall k :: 0 <= k < |list| ==> list[k].LoadedFrom(configs[k])
      ensures forall j, k :: 0 <= j < k < |list| ==> list[j] != list[k] && list[j].segments != list[k].segments
    {
      list := [];
      for i := 0 to |configs|
        invariant |list| == i
        invariant forall k :: 0 <= k < i ==> fresh(list[k]) && fresh(list[k].segments)
        invariant forall k :: 0 <= k < i ==> list[k].LoadedFrom(configs[k])
        invariant forall j, k :: 0 <= j < k < i ==> list[j] != list[k] && list[j].segments != list[k].segments
      {
        var d := new DaxDevice(configs[i]);
        list := list + [d];
      }
    }

    /** The configured pool with every segment free; the guards are those of the configuration reader. */
    constructor (segMb: int, configs: seq<DeviceConfig>)
      requires segMb > 0 && |configs| <= MAX_DEVICES
      requires forall i :: 0 <= i < |configs| ==>
                 0 < configs[i].sizeMb <= INT_MAX && configs[i].sizeMb / segMb <= MAX_SEGMENTS
      ensures Valid() && fresh(Footprint())
      ensures segmentSizeMb == segMb && |devs| == |configs|
      ensures forall i :: 0 <= i < |devs| ==> devs[i].LoadedFrom(configs[i])
      ensures Unused(Abs())
    {
      var list := LoadConfig(configs);
      segmentSizeMb, devs := segMb, list;
      new;
      forall o | o in Footprint() ensures fresh(o) {
        if o != this {
          var d :| d in devs && (o == d || o == d.segments);
          var k :| 0 <= k < |devs| && devs[k] == d;
        }
      }
      NameAndFree();
    }

    /** Give every device its position as node id, and free all its segments. */
    method NameAndFree()
      requires segmentSizeMb > 0 && |devs| <= MAX_DEVICES && Separate()
      requires forall i :: 0 <= i < |devs| ==>
                 && devs[i].segments.Length == MAX_SEGMENTS && 0 < devs[i].totalSizeMb <= INT_MAX
                 && devs[i].totalSizeMb / segmentSizeMb <= MAX_SEGMENTS
      modifies devs, set i | 0 <= i < |devs| :: devs[i].segments
      ensures Valid()
      ensures Unused(Abs())
    {
      for i := 0 to |devs|
        modifies devs, set j | 0 <= j < |devs| :: devs[j].segments
        invariant forall k :: 0 <= k < i ==> devs[k].AllFree(k, segmentSizeMb)
      {
        NameOne(i);
      }
      AllFreeIsUnused();
    }

    /** Name and free one more device. */
    method NameOne(i: nat)
      requires segmentSizeMb > 0 && i < |devs| && Separate() && devs[i].segments.Length == MAX_SEGMENTS
      requires 0 < devs[i].totalSizeMb && devs[i].totalSizeMb / segmentSizeMb <= MAX_SEGMENTS
      requires forall k :: 0 <= k < i ==> devs[k].AllFree(k, segmentSizeMb)
      modifies devs[i], devs[i].segments
      ensures forall k :: 0 <= k <= i ==> devs[k].AllFree(k, segmentSizeMb)
    {
      devs[i].Reset(i, segmentSizeMb);
      forall k | 0 <= k < i ensures devs[k].AllFree(k, segmentSizeMb) {
        assert unchanged(devs[k]) && unchanged(devs[k].segments);
      }
    }

    lemma AllFreeIsUnused()
      requires segmentSizeMb > 0 && |devs| <= MAX_DEVICES && Separate()
      requires forall k :: 0 <= k < |devs| ==>
                 devs[k].AllFree(k, segmentSizeMb) && 0 < devs[k].totalSizeMb <= INT_MAX
      ensures Valid() && Unused(Abs())
    {
      assert forall k :: 0 <= k < |devs| ==> devs[k].Valid();
      forall k | 0 <= k < |devs| ensures DeviceOk(Abs().devs[k], segmentSizeMb) && Abs().devs[k].nodeId == k {
        assert Abs().devs[k] == devs[k].Abs();
      }
      assert PoolOk(Abs());
    }

    /** A pool none of whose objects changed is the same pool. */
    twostate lemma Untouched()
      requires old(Valid())
      requires forall k :: 0 <= k < |devs| ==> unchanged(devs[k]) && unchanged(devs[k].segments)
      ensures Valid() && Abs() == old(Abs())
    {
      forall k | 0 <= k < |devs| ensures devs[k].Valid() && devs[k].Abs() == old(devs[k].Abs()) {
      }
      assert Abs().devs == old(Abs()).devs;
    }

    /** Linear search by node id; the first match wins. */
    method FindDevice(node: int) returns (r: int)
      requires Valid()
      ensures r == FindNode(Abs().devs, node)
    {
      for i := 0 to |devs|
        invariant FindNode(Abs().devs, node) == FindNodeFrom(Abs().devs, node, i)
      {
        assert Abs().devs[i].nodeId == devs[i].nodeId;
        if devs[i].nodeId == node {
          return i;
        }
      }
      r := -1;
    }

    /** Allocate on a node; the request records what was given in megabytes. */
    method AllocateSegments(node: int, vmId: int, sizeMb: int) returns (out: Option<MemoryRequest>)
      requires Valid() && sizeMb != 0
      modifies devs, set i | 0 <= i < |devs| :: devs[i].segments
      ensures Valid()
      ensures (Abs(), out) == PoolAllocate(old(Abs()), node, vmId, sizeMb)
    {
      if !IsAligned(sizeMb, segmentSizeMb) {
        return None;
      }
      var i := FindDevice(node);
      if i == -1 {
        return None;
      }
      var numSegments := sizeMb / segmentSizeMb;
      var startIndex := devs[i].AllocateSegments(numSegments, vmId);
      OneDeviceChanged(i);
      if startIndex < 0 {
        assert Abs().devs == old(Abs()).devs;
        return None;
      }
      AllocationIsExact(old(Abs()), node, vmId, sizeMb);
      MulDiv(startIndex, segmentSizeMb);
      MulDiv(numSegments, segmentSizeMb);
      var offset: int32 := startIndex * segmentSizeMb;
      var size: int32 := numSegments * segmentSizeMb;
      out := Some(MemoryRequest(node, devs[i].devPath, offset, size, segmentSizeMb));
    }

    /** Release a range given in megabytes. */
    method ReleaseSegments(node: int, vmId: int, offsetMb: int, sizeMb: int) returns (ok: bool)
      requires Valid()
      modifies devs, set i | 0 <= i < |devs| :: devs[i].segments
      ensures Valid()
      ensures (Abs(), ok) == PoolRelease(old(Abs()), node, vmId, offsetMb, sizeMb)
    {
      if !IsAligned(sizeMb, segmentSizeMb) || !IsAligned(offsetMb, segmentSizeMb) {
        return false;
      }
      var i := FindDevice(node);
      if i == -1 {
        return false;
      }
      var startIndex, segmentCount := offsetMb / segmentSizeMb, sizeMb / segmentSizeMb;
      ok := devs[i].ReleaseSegments(vmId, startIndex, segmentCount);
      OneDeviceChanged(i);
    }

    /** A change to one device's segments is a change to that entry of the pool. */
    twostate lemma OneDeviceChanged(i: nat)
      requires old(Valid()) && i < |devs|
      requires devs[i].Valid() && devs[i].nodeId == old(devs[i].nodeId)
      requires devs[i].totalSegments == old(devs[i].totalSegments)
      requires forall k :: 0 <= k < |devs| && k != i ==> unchanged(devs[k]) && unchanged(devs[k].segments)
      ensures Valid()
      ensures Abs() == SetSegs(old(Abs()), i, devs[i].Segs())
    {
      forall k | 0 <= k < |devs| ensures devs[k].Valid() && (k != i ==> devs[k].Abs() == old(devs[k].Abs())) {
      }
      assert Abs().devs == SetSegs(old(Abs()), i, devs[i].Segs()).devs;
    }

    /** Release what a VM holds on one device. */
    method ReleaseOne(i: nat, vmId: int)
      requires Separate() && i < |devs| && forall k :: 0 <= k < |devs| ==> devs[k].Valid()
      modifies devs[i], devs[i].segments
      ensures forall k :: 0 <= k < |devs| ==> devs[k].Valid()
      ensures devs[i].Abs() == old(devs[i].Abs()).(segs := ReleaseOwner(old(devs[i].Abs()).segs, vmId))
      ensures forall k :: 0 <= k < |devs| && k != i ==> devs[k].Abs() == old(devs[k].Abs())
    {
      devs[i].ReleaseOwned(vmId);
      forall k | 0 <= k < |devs| && k != i ensures devs[k].Valid() && devs[k].Abs() == old(devs[k].Abs()) {
        assert unchanged(devs[k]) && unchanged(devs[k].segments);
      }
    }

    /** Release everything a VM holds, device after device. */
    method ReleaseVmMemory(vmId: int)
      requires Valid()
      modifies devs, set i | 0 <= i < |devs| :: devs[i].segments
      ensures Valid()
      ensures Abs() == PoolReleaseVm(old(Abs()), vmId)
    {
      ghost var before, after := Abs().devs, PoolReleaseVm(Abs(), vmId).devs;
      for i := 0 to |devs|
        modifies devs, set j | 0 <= j < |devs| :: devs[j].segments
        invariant forall k :: 0 <= k < |devs| ==>
                    devs[k].Valid() && devs[k].Abs() == if k < i then after[k] else before[k]
      {
        ReleaseOne(i, vmId);
      }
      ReleaseVmKeepsOk(old(Abs()), vmId);
      assert Abs().devs == after;
    }
  }
}
