/** What holds over whole runs of the server, from start-up to shutdown. */
module Runs {
  import opened Wrappers
  import opened Counting
  import opened Segments
  import opened PoolModel
  import opened CpuList
  import opened VmModel
  import opened Ledger
  import opened Refinement

  // ---------- start-up ----------

  const EMPTY_SLOT := Vm(0, "", 0, false, false, 0, [])

  /** The zeroed tables beside a freshly configured pool. */
  function Initial(pool: Pool): State {
    State(pool, seq(MAX_NUM_VM, _ => EMPTY_SLOT), 0, Agents(seq(MAX_NUM_VM, _ => false), 0))
  }

  lemma InitialOk(pool: Pool)
    requires PoolOk(pool) && Unused(pool)
    ensures Inv(Initial(pool)) && TheBook(Initial(pool)) == map[] && CoresCounted(Initial(pool).vms)
  {
    var s := Initial(pool);
    CountTrueExtremes(Flags(s.vms));
    CountTrueExtremes(s.agents.live);
    BookIs(s.vms, pool.segMb, map[]);
  }

  /** The core count taken at create is what a later traversal of the stored core set visits. */
  predicate CoresCounted(vms: seq<Vm>) {
    forall j :: 0 <= j < |vms| && vms[j].initialized ==> vms[j].numCores == |VisitCores(vms[j].coreSet)|
  }

  lemma StepKeepsCores(s: State, c: Command)
    requires s.pool.segMb > 0 && Legal(s, c) && CoresCounted(s.vms)
    ensures CoresCounted(Step(s, c).0.vms)
  {
  }

  /** A VM that was there before a command and is there after it keeps its slot, id, core set and number of cores. */
  lemma StepKeepsVms(s: State, c: Command, j: int)
    requires Inv(s) && Legal(s, c) && 0 <= j < |s.vms|
    ensures var t := Step(s, c).0;
            && |t.vms| == |s.vms|
            && (s.vms[j].initialized && t.vms[j].initialized ==>
                  var a, b := s.vms[j], t.vms[j];
                  a.vmId == b.vmId && a.coreSet == b.coreSet && a.numCores == b.numCores)
  {
  }

  /** The numbers a command names. */
  function Numbers(c: Command): seq<int> {
    match c
    case CreateVm(v, _) => [v]
    case DestroyVm(v) => [v]
    case StartVm(v, _) => [v]
    case StopVm(v) => [v]
    case AllocateMem(node, v, sizeMb) => [node, v, sizeMb]
    case ReleaseMem(v, id) => [v, id]
    case AttachMem(id, v, _) => [id, v]
    case DetachMem(id, v, _) => [id, v]
  }

  /** A command is turned away for its arguments exactly when one is negative or a size is not positive. */
  lemma TurnedAwayExactly(s: State, c: Command)
    requires s.pool.segMb > 0 && Legal(s, c)
    ensures Step(s, c).1 == InvalidArgs
            <==> (exists i :: 0 <= i < |Numbers(c)| && Numbers(c)[i] < 0) || (c.AllocateMem? && c.sizeMb <= 0)
    ensures Step(s, c).1 == InvalidArgs ==> Step(s, c).0 == s
  {
    assert |Numbers(c)| > 0 && (ArgsOk(c) ==> Numbers(c)[0] >= 0);
    if !ArgsOk(c) && !(c.AllocateMem? && c.sizeMb <= 0) {
      assert Numbers(c)[0] < 0 || (|Numbers(c)| > 1 && Numbers(c)[1] < 0);
    }
  }

  // ---------- runs ----------

  predicate LegalRun(s: State, cmds: seq<Command>)
    requires s.pool.segMb > 0
    decreases |cmds|
  {
    cmds != [] ==>
      && Legal(s, cmds[0])
      && Step(s, cmds[0]).0.pool.segMb > 0
      && LegalRun(Step(s, cmds[0]).0, cmds[1..])
  }

  function Run(s: State, cmds: seq<Command>): (r: (State, seq<Reply>))
    requires s.pool.segMb > 0 && LegalRun(s, cmds)
    ensures |r.1| == |cmds|
    decreases |cmds|
  {
    if cmds == [] then (s, [])
    else
      var (t, reply) := Step(s, cmds[0]);
      var (u, replies) := Run(t, cmds[1..]);
      (u, [reply] + replies)
  }

  function BookRun(hw: Hardware, book: Book, cmds: seq<Command>): (r: (Book, seq<Reply>))
    requires hw.segMb > 0
    ensures |r.1| == |cmds|
    decreases |cmds|
  {
    if cmds == [] then (book, [])
    else
      var (b, reply) := BookStep(hw, book, cmds[0]);
      var (c, replies) := BookRun(hw, b, cmds[1..]);
      (c, [reply] + replies)
  }

  /** Over any run, every reply and the final state are what the ledger alone would give. */
  lemma {:induction false} RunRefines(s: State, cmds: seq<Command>)
    requires Inv(s) && LegalRun(s, cmds)
    ensures var (t, replies) := Run(s, cmds);
            && Inv(t)
            && (CoresCounted(s.vms) ==> CoresCounted(t.vms))
            && HardwareOf(t.pool) == HardwareOf(s.pool)
            && (TheBook(t), replies) == BookRun(HardwareOf(s.pool), TheBook(s), cmds)
    decreases |cmds|
  {
    if cmds != [] {
      StepAgrees(s, cmds[0]);
      if CoresCounted(s.vms) {
        StepKeepsCores(s, cmds[0]);
      }
      RunRefines(Step(s, cmds[0]).0, cmds[1..]);
    }
  }

  // ---------- what the invariant says about segments ----------

  /** The slot-level reading of ownership: an initialised VM lists a device whose range covers the segment. */
  predicate Lists(s: State, j: int, i: int, node: int, k: int)
    requires s.pool.segMb > 0
  {
    && 0 <= j < |s.vms| && s.vms[j].initialized && 0 <= i < |s.vms[j].devs|
    && Covers(GrantOf(s.vms[j].devs[i], s.pool.segMb), node, k)
  }

  /**
   In every reachable state: a segment is marked as a VM's exactly when that VM, initialised,
   lists a device covering it; no two listed devices cover the same segment; a segment that
   is not taken has owner -1.
   */
  lemma OwnershipIsExact(s: State, node: int, k: int)
    requires Inv(s) && 0 <= node < |s.pool.devs| && 0 <= k < |s.pool.devs[node].segs|
    ensures var seg := s.pool.devs[node].segs[k];
            && (forall v :: seg == Segment(true, v) <==> exists j, i :: Lists(s, j, i, node, k) && s.vms[j].vmId == v)
            && (forall j, i, j', i' :: Lists(s, j, i, node, k) && Lists(s, j', i', node, k) ==> j == j' && i == i')
            && (!seg.taken ==> seg.usedVmId == -1)
  {
    var seg := s.pool.devs[node].segs[k];
    forall j, i | Lists(s, j, i, node, k) ensures seg == Segment(true, s.vms[j].vmId) {
      ListedIsMarked(s, j, i);
    }
    if seg.taken {
      var j, i := TakenIsListed(s, node, k);
      assert Lists(s, j, i, node, k);
    }
    forall j, i, j', i' | Lists(s, j, i, node, k) && Lists(s, j', i', node, k) ensures j == j' && i == i' {
      ListedIsMarked(s, j, i);
      ListedIsMarked(s, j', i');
      assert s.vms[j].vmId == s.vms[j'].vmId;
      ListedOnce(s, j, i, i', node, k);
    }
  }

  /** A listed device's range is inside its node and marked throughout. */
  lemma ListedIsMarked(s: State, j: int, i: int)
    requires Inv(s) && 0 <= j < |s.vms| && s.vms[j].initialized && 0 <= i < |s.vms[j].devs|
    ensures Marked(s.pool, s.vms[j].vmId, GrantOf(s.vms[j].devs[i], s.pool.segMb))
  {
    BookEntries(s.vms, s.pool.segMb);
    var e := TheBook(s)[s.vms[j].vmId];
    assert EntryOk(s.pool, s.vms[j].vmId, e);
    assert e.grants[i] == GrantOf(s.vms[j].devs[i], s.pool.segMb);
  }

  lemma TakenIsListed(s: State, node: int, k: int) returns (j: int, i: int)
    requires Inv(s) && 0 <= node < |s.pool.devs| && 0 <= k < |s.pool.devs[node].segs|
    requires s.pool.devs[node].segs[k].taken
    ensures Lists(s, j, i, node, k) && s.vms[j].vmId == s.pool.devs[node].segs[k].usedVmId
  {
    var v := s.pool.devs[node].segs[k].usedVmId;
    Lookup(s, v);
    j := FindVm(s.vms, v);
    i :| 0 <= i < |TheBook(s)[v].grants| && Covers(TheBook(s)[v].grants[i], node, k);
  }

  lemma ListedOnce(s: State, j: int, i: int, i': int, node: int, k: int)
    requires Inv(s) && Lists(s, j, i, node, k) && Lists(s, j, i', node, k)
    ensures i == i'
  {
    BookEntries(s.vms, s.pool.segMb);
    var e := TheBook(s)[s.vms[j].vmId];
    assert EntryOk(s.pool, s.vms[j].vmId, e);
    var a, b := e.grants[i], e.grants[i'];
    assert Covers(a, node, k) && Covers(b, node, k);
    assert !Disjoint(a, b);
  }

  // ---------- the ledger determines the pool ----------

  /** Same devices, and the same grants for every VM, whether or not it runs and whatever id comes next. */
  predicate SameGrants(a: Book, b: Book) {
    a.Keys == b.Keys && forall v :: v in a ==> a[v].grants == b[v].grants
  }

  lemma SameSegment(p: Pool, q: Pool, a: Book, b: Book, node: int, k: int)
    requires Coupled(p, a) && Coupled(q, b) && SameGrants(a, b)
    requires |p.devs| == |q.devs| && 0 <= node < |p.devs| && |p.devs[node].segs| == |q.devs[node].segs|
    requires 0 <= k < |p.devs[node].segs| && p.devs[node].segs[k].taken
    ensures q.devs[node].segs[k] == p.devs[node].segs[k]
  {
    var v := p.devs[node].segs[k].usedVmId;
    var i :| 0 <= i < |a[v].grants| && Covers(a[v].grants[i], node, k);
    assert Marked(q, v, b[v].grants[i]);
  }

  /** What no command changes about a pool. */
  predicate SameDevices(p: Pool, q: Pool) {
    && p.segMb == q.segMb && |p.devs| == |q.devs|
    && forall i :: 0 <= i < |p.devs| ==>
         |p.devs[i].segs| == |q.devs[i].segs| && p.devs[i].(segs := []) == q.devs[i].(segs := [])
  }

  lemma LedgerDeterminesPool(p: Pool, q: Pool, a: Book, b: Book)
    requires Coupled(p, a) && Coupled(q, b) && SameGrants(a, b) && SameDevices(p, q)
    requires PoolOk(p) && PoolOk(q)
    ensures p == q
  {
    forall i | 0 <= i < |p.devs| ensures p.devs[i] == q.devs[i] {
      assert p.devs[i].segs == q.devs[i].segs by {
        forall k | 0 <= k < |p.devs[i].segs| ensures p.devs[i].segs[k] == q.devs[i].segs[k] {
          if p.devs[i].segs[k].taken {
            SameSegment(p, q, a, b, i, k);
          } else if q.devs[i].segs[k].taken {
            SameSegment(q, p, b, a, i, k);
          }
        }
      }
    }
  }

  /** Two states with the same grants have the same segment arrays: nothing else is remembered there. */
  lemma SameGrantsSamePool(s: State, t: State)
    requires Inv(s) && Inv(t) && SameDevices(s.pool, t.pool) && SameGrants(TheBook(s), TheBook(t))
    ensures s.pool == t.pool
  {
    LedgerDeterminesPool(s.pool, t.pool, TheBook(s), TheBook(t));
  }

  lemma StepKeepsDevices(s: State, c: Command)
    requires s.pool.segMb > 0 && Legal(s, c)
    ensures SameDevices(s.pool, Step(s, c).0.pool)
  {
  }

  // ---------- freeing what was recorded ----------

  lemma FreeClearsRange(s: State, v: int, id: int)
    requires Inv(s) && v >= 0 && id >= 0 && GetMem(s, v, id).Some?
    ensures var (t, ok) := FreeMem(s, v, id);
            var j := FindVm(s.vms, v);
            var w := GrantOf(s.vms[j].devs[FindDev(s.vms[j].devs, id)], s.pool.segMb);
            && Marked(s.pool, v, w)
            && (t.pool, ok) == (SetSegs(s.pool, w.node, Fill(s.pool.devs[w.node].segs, w.start, w.len, FREE)), true)
  {
    var j := FindVm(s.vms, v);
    var m := FindDev(s.vms[j].devs, id);
    ListedIsMarked(s, j, m);
    assert VmOk(s.vms[j], s.pool);
    FreeRecorded(s.pool, v, s.vms[j].devs[m].req);
  }

  /**
   In any reachable state, freeing a listed device succeeds, clears exactly its range, takes exactly
   its record off the list, and leaves every other slot, device and segment alone.
   */
  lemma FreeIsExact(s: State, v: int, id: int)
    requires Inv(s) && v >= 0 && id >= 0 && GetMem(s, v, id).Some?
    ensures var (t, ok) := FreeMem(s, v, id);
            var j := FindVm(s.vms, v);
            var m := FindDev(s.vms[j].devs, id);
            var w := GrantOf(s.vms[j].devs[m], s.pool.segMb);
            && ok
            && Marked(s.pool, v, w)
            && t.pool == SetSegs(s.pool, w.node, Fill(s.pool.devs[w.node].segs, w.start, w.len, FREE))
            && t == SetVm(s, j, s.vms[j].(devs := s.vms[j].devs[..m] + s.vms[j].devs[m + 1..])).(pool := t.pool)
            && GetMem(t, v, id) == None
  {
    FreeClearsRange(s, v, id);
    FreedIsGone(s, v, id);
  }

  /** Along a VM's list the ids strictly increase, and all are below the next id. */
  lemma ListedIdsIncrease(s: State, j: int)
    requires Inv(s) && 0 <= j < |s.vms| && s.vms[j].initialized
    ensures 0 <= s.vms[j].counter
    ensures forall i :: 0 <= i < |s.vms[j].devs| ==> 0 <= s.vms[j].devs[i].idx < s.vms[j].counter
    ensures forall i, k :: 0 <= i < k < |s.vms[j].devs| ==> s.vms[j].devs[i].idx < s.vms[j].devs[k].idx
  {
    BookEntries(s.vms, s.pool.segMb);
    var e := TheBook(s)[s.vms[j].vmId];
    assert EntryOk(s.pool, s.vms[j].vmId, e);
    assert forall i :: 0 <= i < |s.vms[j].devs| ==> e.grants[i].id == s.vms[j].devs[i].idx;
  }

  /** A VM's device is what its list says under the id: of all the listed requests, the one with that id. */
  lemma GetMemIsListed(s: State, v: int, id: int, req: MemoryRequest)
    requires Inv(s)
    ensures var j := FindVm(s.vms, v);
            GetMem(s, v, id) == Some(req) <==> j != -1 && MemDev(id, req) in s.vms[j].devs
  {
    var j := FindVm(s.vms, v);
    if j != -1 && MemDev(id, req) in s.vms[j].devs {
      var k :| 0 <= k < |s.vms[j].devs| && s.vms[j].devs[k] == MemDev(id, req);
      ListedIdsIncrease(s, j);
      FindDevIs(s.vms[j].devs, id, k);
    }
  }

  /** The id removed was on the list once, so it is gone. */
  lemma FreedIsGone(s: State, v: int, id: int)
    requires Inv(s) && v >= 0 && id >= 0 && GetMem(s, v, id).Some?
    ensures GetMem(FreeMem(s, v, id).0, v, id) == None
  {
    FreeSucceeds(s, v, id);
    var j := FindVm(s.vms, v);
    var m := FindDev(s.vms[j].devs, id);
    ListedIdsIncrease(s, j);
    FindVmHits(FreeMem(s, v, id).0.vms, j);
    RemovedOnce(s.vms[j].devs, m);
  }

  lemma RemovedOnce(devs: seq<MemDev>, m: nat)
    requires m < |devs| && forall i, k :: 0 <= i < k < |devs| ==> devs[i].idx < devs[k].idx
    ensures FindDev(devs[..m] + devs[m + 1..], devs[m].idx) == -1
  {
    var left := devs[..m] + devs[m + 1..];
    forall i | 0 <= i < |left| ensures left[i].idx != devs[m].idx {
      assert left[i] == devs[if i < m then i else i + 1];
    }
  }

  // ---------- memory-device ids ----------

  /** The ids handed to VM `v` along a run, in order. */
  function IdsGiven(cmds: seq<Command>, replies: seq<Reply>, v: int): seq<int>
    requires |cmds| == |replies|
  {
    if cmds == [] then []
    else
      var rest := IdsGiven(cmds[1..], replies[1..], v);
      if cmds[0].AllocateMem? && cmds[0].vid == v && replies[0].Allocated? then [replies[0].dev.idx] + rest else rest
  }

  /** No command of the run destroyed `v`. */
  predicate NotDestroyed(cmds: seq<Command>, replies: seq<Reply>, v: int)
    requires |cmds| == |replies|
  {
    forall i :: 0 <= i < |cmds| && cmds[i] == DestroyVm(v) ==> replies[i] != Succeeded
  }

  lemma BookStepNext(hw: Hardware, book: Book, c: Command, v: int)
    requires hw.segMb > 0 && v in book
    ensures var (b, reply) := BookStep(hw, book, c);
            (c == DestroyVm(v) && reply == Succeeded) ||
            (v in b && if c.AllocateMem? && c.vid == v && reply.Allocated?
                       then reply.dev.idx == book[v].next && b[v].next == book[v].next + 1
                       else b[v].next == book[v].next)
  {
  }

  /** Between a VM's create and destroy, its devices get consecutive ids, whatever is freed in between. */
  lemma {:induction false} IdsAreConsecutive(hw: Hardware, book: Book, cmds: seq<Command>, v: int)
    requires hw.segMb > 0 && v in book && NotDestroyed(cmds, BookRun(hw, book, cmds).1, v)
    ensures var (b, replies) := BookRun(hw, book, cmds);
            var ids := IdsGiven(cmds, replies, v);
            && v in b && b[v].next == book[v].next + |ids|
            && forall i :: 0 <= i < |ids| ==> ids[i] == book[v].next + i
    decreases |cmds|
  {
    if cmds != [] {
      var (b, reply) := BookStep(hw, book, cmds[0]);
      var (c, replies) := BookRun(hw, book, cmds);
      BookStepNext(hw, book, cmds[0], v);
      assert replies[0] == reply && replies[1..] == BookRun(hw, b, cmds[1..]).1;
      assert cmds[0] == DestroyVm(v) ==> replies[0] != Succeeded;
      assert NotDestroyed(cmds[1..], replies[1..], v) by {
        forall i | 0 <= i < |cmds[1..]| && cmds[1..][i] == DestroyVm(v) ensures replies[1..][i] != Succeeded {
          assert cmds[i + 1] == DestroyVm(v);
        }
      }
      IdsAreConsecutive(hw, b, cmds[1..], v);
    }
  }

  /** The same for the server itself, through the refinement. */
  lemma {:induction false} DeviceIdsNeverReused(s: State, cmds: seq<Command>, v: int)
    requires Inv(s) && LegalRun(s, cmds) && v in TheBook(s) && NotDestroyed(cmds, Run(s, cmds).1, v)
    ensures var ids := IdsGiven(cmds, Run(s, cmds).1, v);
            forall i :: 0 <= i < |ids| ==> ids[i] == TheBook(s)[v].next + i
    ensures forall i :: 0 <= i < |TheBook(s)[v].grants| ==> TheBook(s)[v].grants[i].id < TheBook(s)[v].next
  {
    RunRefines(s, cmds);
    IdsAreConsecutive(HardwareOf(s.pool), TheBook(s), cmds, v);
    assert EntryOk(s.pool, v, TheBook(s)[v]);
  }
}
