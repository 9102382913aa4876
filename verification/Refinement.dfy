/** The invariant every command keeps, and that the server behaves exactly like its `Ledger`. */
module Refinement {
  import opened Wrappers
  import opened Counting
  import opened Segments
  import opened PoolModel
  import opened VmModel
  import opened Ledger

  // ---------- the VM table ----------

  function Flags(vms: seq<Vm>): (f: seq<bool>)
    ensures |f| == |vms|
    ensures forall j :: 0 <= j < |vms| ==> f[j] == vms[j].initialized
  {
    seq(|vms|, j requires 0 <= j < |vms| => vms[j].initialized)
  }

  predicate DistinctIds(vms: seq<Vm>) {
    forall i, j :: 0 <= i < j < |vms| && vms[i].initialized && vms[j].initialized ==> vms[i].vmId != vms[j].vmId
  }

  /** A listed device's request names a node and whole segments. */
  predicate Exact(req: MemoryRequest, p: Pool)
    requires p.segMb > 0
  {
    && 0 <= req.nodeId < |p.devs|
    && req.devPath == p.devs[req.nodeId].path
    && req.alignMb == p.segMb
    && req.offsetMb == (req.offsetMb / p.segMb) * p.segMb
    && req.sizeMb == (req.sizeMb / p.segMb) * p.segMb
  }

  predicate VmOk(vm: Vm, p: Pool)
    requires p.segMb > 0
  {
    && (vm.initialized ==> vm.vmId >= 0)
    && (vm.running ==> vm.initialized && vm.vmId < MAX_NUM_VM)
    && (!vm.initialized ==> vm.devs == [])
    && forall i :: 0 <= i < |vm.devs| ==> Exact(vm.devs[i].req, p)
  }

  predicate TableOk(s: State)
    requires s.pool.segMb > 0
  {
    && |s.vms| == MAX_NUM_VM
    && DistinctIds(s.vms)
    && s.count == CountTrue(Flags(s.vms))
    && forall j :: 0 <= j < |s.vms| ==> VmOk(s.vms[j], s.pool)
  }

  predicate Running(vms: seq<Vm>, v: int) {
    exists j :: 0 <= j < |vms| && vms[j].running && vms[j].vmId == v
  }

  /** An agent is live exactly when its VM is running. */
  predicate AgentsOk(s: State) {
    && |s.agents.live| == MAX_NUM_VM
    && s.agents.count == CountTrue(s.agents.live)
    && forall v :: 0 <= v < MAX_NUM_VM ==> s.agents.live[v] == Running(s.vms, v)
  }

  // ---------- the ledger of a state ----------

  function GrantOf(dev: MemDev, segMb: int): Grant
    requires segMb > 0
  {
    Grant(dev.idx, dev.req.nodeId, dev.req.offsetMb / segMb, dev.req.sizeMb / segMb)
  }

  function GrantsOf(devs: seq<MemDev>, segMb: int): (g: seq<Grant>)
    requires segMb > 0
    ensures |g| == |devs|
    ensures forall i :: 0 <= i < |devs| ==> g[i] == GrantOf(devs[i], segMb)
  {
    seq(|devs|, i requires 0 <= i < |devs| => GrantOf(devs[i], segMb))
  }

  function EntryOf(vm: Vm, segMb: int): Entry
    requires segMb > 0
  {
    Entry(vm.running, vm.counter, GrantsOf(vm.devs, segMb))
  }

  function Ids(vms: seq<Vm>): (ids: set<int>)
    ensures forall v :: v in ids <==> exists j :: 0 <= j < |vms| && vms[j].initialized && vms[j].vmId == v
  {
    set j | 0 <= j < |vms| && vms[j].initialized :: vms[j].vmId
  }

  /** One entry per initialised slot. */
  function BookOf(vms: seq<Vm>, segMb: int): (b: Book)
    requires segMb > 0
  {
    if vms == [] then map[]
    else
      var rest, last := BookOf(vms[..|vms| - 1], segMb), vms[|vms| - 1];
      if last.initialized then rest[last.vmId := EntryOf(last, segMb)] else rest
  }

  function HardwareOf(p: Pool): (hw: Hardware) {
    Hardware(p.segMb, seq(|p.devs|, i requires 0 <= i < |p.devs| => Node(p.devs[i].path, |p.devs[i].segs|)))
  }

  // ---------- segments and ledger agree ----------

  /** The whole range of a grant exists and is marked as this VM's. */
  predicate Marked(p: Pool, v: int, g: Grant) {
    && 0 <= g.node < |p.devs|
    && 0 <= g.start && 0 < g.len && g.start + g.len <= |p.devs[g.node].segs|
    && forall k :: g.start <= k < g.start + g.len ==> p.devs[g.node].segs[k] == Segment(true, v)
  }

  predicate Disjoint(a: Grant, b: Grant) {
    a.node != b.node || a.start + a.len <= b.start || b.start + b.len <= a.start
  }

  /** One VM's grants: marked, pairwise disjoint, ids increasing and below the next one. */
  predicate EntryOk(p: Pool, v: int, e: Entry) {
    && 0 <= e.next
    && (forall i :: 0 <= i < |e.grants| ==> Marked(p, v, e.grants[i]) && 0 <= e.grants[i].id < e.next)
    && (forall i, j :: 0 <= i < j < |e.grants| ==>
          Disjoint(e.grants[i], e.grants[j]) && e.grants[i].id < e.grants[j].id)
  }

  /** Every taken segment is accounted for by a grant of its owner. */
  predicate Accounted(p: Pool, book: Book) {
    forall node, k :: 0 <= node < |p.devs| && 0 <= k < |p.devs[node].segs| && p.devs[node].segs[k].taken ==>
      var owner := p.devs[node].segs[k].usedVmId;
      owner in book && Holds(book[owner], node, k)
  }

  predicate Coupled(p: Pool, book: Book) {
    && Accounted(p, book)
    && forall v :: v in book ==> EntryOk(p, v, book[v])
  }

  predicate Inv(s: State) {
    && PoolOk(s.pool)
    && TableOk(s)
    && AgentsOk(s)
    && Coupled(s.pool, BookOf(s.vms, s.pool.segMb))
  }

  // ---------- table lemmas ----------

  lemma {:induction false} FindVmFromHits(vms: seq<Vm>, j: nat, i: nat)
    requires DistinctIds(vms) && i <= j < |vms| && vms[j].initialized
    ensures FindVmFrom(vms, vms[j].vmId, i) == j
    decreases j - i
  {
    if i < j {
      FindVmFromHits(vms, j, i + 1);
    }
  }

  /** Lookup by id finds the one slot that has it. */
  lemma FindVmHits(vms: seq<Vm>, j: nat)
    requires DistinctIds(vms) && j < |vms| && vms[j].initialized
    ensures FindVm(vms, vms[j].vmId) == j
  {
    FindVmFromHits(vms, j, 0);
  }

  /** The ledger has exactly the ids of the initialised slots, each with its slot's entry. */
  lemma {:induction false} BookEntries(vms: seq<Vm>, segMb: int)
    requires segMb > 0 && DistinctIds(vms)
    ensures BookOf(vms, segMb).Keys == Ids(vms)
    ensures forall j :: 0 <= j < |vms| && vms[j].initialized ==>
              vms[j].vmId in BookOf(vms, segMb) && BookOf(vms, segMb)[vms[j].vmId] == EntryOf(vms[j], segMb)
  {
    if vms == [] {
      assert Ids(vms) == {};
    } else {
      var init, last := vms[..|vms| - 1], vms[|vms| - 1];
      BookEntries(init, segMb);
      IdsOfLast(vms);
      assert forall j :: 0 <= j < |init| ==> init[j] == vms[j];
    }
  }

  lemma IdsOfLast(vms: seq<Vm>)
    requires vms != []
    ensures Ids(vms) == Ids(vms[..|vms| - 1]) + if vms[|vms| - 1].initialized then {vms[|vms| - 1].vmId} else {}
  {
    var init, last := vms[..|vms| - 1], vms[|vms| - 1];
    forall v ensures v in Ids(vms) <==> v in Ids(init) || (last.initialized && v == last.vmId) {
      if v in Ids(init) {
        var i :| 0 <= i < |init| && init[i].initialized && init[i].vmId == v;
        assert vms[i].initialized && vms[i].vmId == v;
      }
      if v in Ids(vms) {
        var i :| 0 <= i < |vms| && vms[i].initialized && vms[i].vmId == v;
        assert i < |init| ==> init[i].initialized && init[i].vmId == v;
      }
    }
  }

  /** ... and is the only map that does. */
  lemma {:induction false} BookIs(vms: seq<Vm>, segMb: int, book: Book)
    requires segMb > 0 && DistinctIds(vms)
    requires book.Keys == Ids(vms)
    requires forall j :: 0 <= j < |vms| && vms[j].initialized ==> book[vms[j].vmId] == EntryOf(vms[j], segMb)
    ensures BookOf(vms, segMb) == book
  {
    BookEntries(vms, segMb);
    forall v | v in book ensures BookOf(vms, segMb)[v] == book[v] {
      assert v in Ids(vms);
    }
  }

  lemma IdsKept(vms: seq<Vm>, j: nat, vm: Vm)
    requires DistinctIds(vms) && j < |vms|
    requires vms[j].initialized && vm.initialized && vm.vmId == vms[j].vmId
    ensures DistinctIds(vms[j := vm])
    ensures Ids(vms[j := vm]) == Ids(vms) && vm.vmId in Ids(vms)
  {
    var vms' := vms[j := vm];
    forall v ensures v in Ids(vms') <==> v in Ids(vms) {
      if v in Ids(vms) {
        var i :| 0 <= i < |vms| && vms[i].initialized && vms[i].vmId == v;
        assert vms'[i].initialized && vms'[i].vmId == v;
      }
      if v in Ids(vms') {
        var i :| 0 <= i < |vms| && vms'[i].initialized && vms'[i].vmId == v;
        assert vms[i].initialized && vms[i].vmId == v;
      }
    }
  }

  /** Updating an initialised slot in place updates its one entry. */
  lemma BookUpdate(vms: seq<Vm>, segMb: int, j: nat, vm: Vm)
    requires segMb > 0 && DistinctIds(vms) && j < |vms|
    requires vms[j].initialized && vm.initialized && vm.vmId == vms[j].vmId
    ensures DistinctIds(vms[j := vm]) && Flags(vms[j := vm]) == Flags(vms)
    ensures BookOf(vms[j := vm], segMb) == BookOf(vms, segMb)[vm.vmId := EntryOf(vm, segMb)]
  {
    BookEntries(vms, segMb);
    IdsKept(vms, j, vm);
    BookIs(vms[j := vm], segMb, BookOf(vms, segMb)[vm.vmId := EntryOf(vm, segMb)]);
  }

  lemma IdsAdd(vms: seq<Vm>, j: nat, vm: Vm)
    requires DistinctIds(vms) && j < |vms|
    requires !vms[j].initialized && vm.initialized && vm.vmId !in Ids(vms)
    ensures DistinctIds(vms[j := vm])
    ensures Ids(vms[j := vm]) == Ids(vms) + {vm.vmId}
  {
    var vms' := vms[j := vm];
    assert forall i :: 0 <= i < |vms| && vms[i].initialized ==> vms[i].vmId in Ids(vms);
    forall v ensures v in Ids(vms') <==> v in Ids(vms) || v == vm.vmId {
      if v in Ids(vms) {
        var i :| 0 <= i < |vms| && vms[i].initialized && vms[i].vmId == v;
        assert vms'[i].initialized && vms'[i].vmId == v;
      }
      if v == vm.vmId {
        assert vms'[j].initialized && vms'[j].vmId == v;
      }
    }
  }

  /** Filling a free slot with a new id adds an entry. */
  lemma BookAdd(vms: seq<Vm>, segMb: int, j: nat, vm: Vm)
    requires segMb > 0 && DistinctIds(vms) && j < |vms|
    requires !vms[j].initialized && vm.initialized && vm.vmId !in Ids(vms)
    ensures DistinctIds(vms[j := vm]) && Flags(vms[j := vm]) == Flags(vms)[j := true]
    ensures BookOf(vms[j := vm], segMb) == BookOf(vms, segMb)[vm.vmId := EntryOf(vm, segMb)]
  {
    BookEntries(vms, segMb);
    IdsAdd(vms, j, vm);
    BookIs(vms[j := vm], segMb, BookOf(vms, segMb)[vm.vmId := EntryOf(vm, segMb)]);
  }

  lemma IdsRemove(vms: seq<Vm>, j: nat, vm: Vm)
    requires DistinctIds(vms) && j < |vms| && vms[j].initialized && !vm.initialized
    ensures DistinctIds(vms[j := vm])
    ensures Ids(vms[j := vm]) == Ids(vms) - {vms[j].vmId}
  {
    var vms' := vms[j := vm];
    forall v ensures v in Ids(vms') <==> v in Ids(vms) && v != vms[j].vmId {
      if v in Ids(vms) && v != vms[j].vmId {
        var i :| 0 <= i < |vms| && vms[i].initialized && vms[i].vmId == v;
        assert vms'[i].initialized && vms'[i].vmId == v;
      }
      if v in Ids(vms') {
        var i :| 0 <= i < |vms| && vms'[i].initialized && vms'[i].vmId == v;
        assert vms[i].initialized && vms[i].vmId == v;
      }
    }
  }

  /** Giving up a slot removes its entry. */
  lemma BookRemove(vms: seq<Vm>, segMb: int, j: nat, vm: Vm)
    requires segMb > 0 && DistinctIds(vms) && j < |vms|
    requires vms[j].initialized && !vm.initialized
    ensures DistinctIds(vms[j := vm]) && Flags(vms[j := vm]) == Flags(vms)[j := false]
    ensures BookOf(vms[j := vm], segMb) == BookOf(vms, segMb) - {vms[j].vmId}
  {
    BookEntries(vms, segMb);
    IdsRemove(vms, j, vm);
    BookIs(vms[j := vm], segMb, BookOf(vms, segMb) - {vms[j].vmId});
  }

  /** The ledger has as many entries as the table has initialised slots. */
  lemma {:induction false} IdsCounted(vms: seq<Vm>)
    requires DistinctIds(vms)
    ensures |Ids(vms)| == CountTrue(Flags(vms))
  {
    if vms == [] {
      assert Ids(vms) == {};
    } else {
      IdsCounted(vms[..|vms| - 1]);
      IdsOfLast(vms);
      assert Flags(vms)[..|vms| - 1] == Flags(vms[..|vms| - 1]);
      if vms[|vms| - 1].initialized {
        LastIdIsNew(vms);
      }
    }
  }

  lemma LastIdIsNew(vms: seq<Vm>)
    requires DistinctIds(vms) && vms != [] && vms[|vms| - 1].initialized
    ensures vms[|vms| - 1].vmId !in Ids(vms[..|vms| - 1])
  {
  }

  // ---------- pool operations keep the coupling ----------

  /** The bitmap of a device is what the ledger says is taken. */
  lemma BusyIsOccupancy(p: Pool, book: Book, node: int)
    requires Coupled(p, book) && 0 <= node < |p.devs|
    ensures Busy(p.devs[node].segs) == Occupancy(book, node, |p.devs[node].segs|)
  {
    var segs := p.devs[node].segs;
    forall k | 0 <= k < |segs| ensures segs[k].taken == Taken(book, node, k) {
      if Taken(book, node, k) {
        var v :| v in book && Holds(book[v], node, k);
        var i :| 0 <= i < |book[v].grants| && Covers(book[v].grants[i], node, k);
        assert Marked(p, v, book[v].grants[i]);
      }
    }
  }

  lemma MarkedKept(p: Pool, p': Pool, v: int, g: Grant)
    requires Marked(p, v, g)
    requires |p'.devs| == |p.devs| && |p'.devs[g.node].segs| == |p.devs[g.node].segs|
    requires forall k :: g.start <= k < g.start + g.len ==>
               p'.devs[g.node].segs[k] == p.devs[g.node].segs[k]
    ensures Marked(p', v, g)
  {
  }

  lemma WindowIsFree(p: Pool, w: Grant, k: int)
    requires 0 <= w.node < |p.devs| && IsWindow(Busy(p.devs[w.node].segs), w.start, w.len)
    requires w.start <= k < w.start + w.len
    ensures !p.devs[w.node].segs[k].taken
  {
    assert !Busy(p.devs[w.node].segs)[k];
  }

  /** A range placed on a free window is disjoint from every grant already made. */
  lemma WindowIsDisjoint(p: Pool, v: int, g: Grant, w: Grant)
    requires Marked(p, v, g) && 0 <= w.node < |p.devs| && w.len > 0
    requires IsWindow(Busy(p.devs[w.node].segs), w.start, w.len)
    ensures Disjoint(g, w)
  {
    if !Disjoint(g, w) {
      WindowIsFree(p, w, if g.start < w.start then w.start else g.start);
    }
  }

  lemma AllocEntryOk(p: Pool, v: int, e: Entry, node: int, start: int, n: nat, x: Segment)
    requires EntryOk(p, v, e) && 0 <= node < |p.devs| && n > 0
    requires IsWindow(Busy(p.devs[node].segs), start, n)
    ensures EntryOk(SetSegs(p, node, Fill(p.devs[node].segs, start, n, x)), v, e)
  {
    var p' := SetSegs(p, node, Fill(p.devs[node].segs, start, n, x));
    forall i | 0 <= i < |e.grants| ensures Marked(p', v, e.grants[i]) {
      WindowIsDisjoint(p, v, e.grants[i], Grant(e.next, node, start, n));
      MarkedKept(p, p', v, e.grants[i]);
    }
  }

  /** A VM's entry after one more grant. */
  function Extended(e: Entry, node: int, start: int, n: int): Entry {
    Entry(e.running, e.next + 1, e.grants + [Grant(e.next, node, start, n)])
  }

  lemma AllocOwnEntryOk(p: Pool, v: int, e: Entry, node: int, start: int, n: nat)
    requires EntryOk(p, v, e) && 0 <= node < |p.devs| && n > 0
    requires IsWindow(Busy(p.devs[node].segs), start, n)
    ensures EntryOk(SetSegs(p, node, Fill(p.devs[node].segs, start, n, Segment(true, v))), v,
                    Extended(e, node, start, n))
  {
    AllocEntryOk(p, v, e, node, start, n, Segment(true, v));
    var g := Grant(e.next, node, start, n);
    var grants := e.grants + [g];
    forall i | 0 <= i < |e.grants| ensures Disjoint(grants[i], g) {
      WindowIsDisjoint(p, v, e.grants[i], Grant(e.next, node, start, n));
    }
  }

  lemma HoldsMore(e: Entry, g: Grant, node: int, k: int)
    ensures Holds(e.(grants := e.grants + [g]), node, k) <==> Holds(e, node, k) || Covers(g, node, k)
  {
    var grants := e.grants + [g];
    if Holds(e, node, k) {
      var i :| 0 <= i < |e.grants| && Covers(e.grants[i], node, k);
      assert Covers(grants[i], node, k);
    }
    if Covers(g, node, k) {
      assert Covers(grants[|e.grants|], node, k);
    }
  }

  /** Marking a free window and recording it keeps segments and ledger in agreement. */
  lemma CoupledAfterAlloc(p: Pool, book: Book, v: int, node: int, start: int, n: nat)
    requires Coupled(p, book) && v in book && 0 <= node < |p.devs| && n > 0
    requires IsWindow(Busy(p.devs[node].segs), start, n)
    ensures Coupled(SetSegs(p, node, Fill(p.devs[node].segs, start, n, Segment(true, v))),
                    book[v := Extended(book[v], node, start, n)])
  {
    var e := book[v];
    var g := Grant(e.next, node, start, n);
    var e' := Entry(e.running, e.next + 1, e.grants + [g]);
    var p' := SetSegs(p, node, Fill(p.devs[node].segs, start, n, Segment(true, v)));
    var book' := book[v := e'];
    AllocOwnEntryOk(p, v, e, node, start, n);
    forall u | u in book' && u != v ensures EntryOk(p', u, book'[u]) {
      AllocEntryOk(p, u, book[u], node, start, n, Segment(true, v));
    }
    forall nd, k | 0 <= nd < |p'.devs| && 0 <= k < |p'.devs[nd].segs| && p'.devs[nd].segs[k].taken
      ensures var owner := p'.devs[nd].segs[k].usedVmId; owner in book' && Holds(book'[owner], nd, k)
    {
      HoldsMore(e.(next := e.next + 1), g, nd, k);
      assert Holds(e.(next := e.next + 1), nd, k) == Holds(e, nd, k);
    }
  }

  /** Taking the `m`-th grant off a list, and its range off the device. */
  lemma HoldsLess(e: Entry, m: nat, node: int, k: int)
    requires m < |e.grants|
    ensures Holds(e.(grants := e.grants[..m] + e.grants[m + 1..]), node, k) ==> Holds(e, node, k)
    ensures Holds(e, node, k) && !Covers(e.grants[m], node, k) ==>
              Holds(e.(grants := e.grants[..m] + e.grants[m + 1..]), node, k)
  {
    var rest := e.grants[..m] + e.grants[m + 1..];
    if Holds(e.(grants := rest), node, k) {
      var i :| 0 <= i < |rest| && Covers(rest[i], node, k);
      assert rest[i] == e.grants[if i < m then i else i + 1];
    }
    if Holds(e, node, k) && !Covers(e.grants[m], node, k) {
      var i :| 0 <= i < |e.grants| && Covers(e.grants[i], node, k);
      assert rest[if i < m then i else i - 1] == e.grants[i];
    }
  }

  lemma FreeKeepsMarked(p: Pool, v: int, g: Grant, w: Grant)
    requires Marked(p, v, g) && 0 <= w.node < |p.devs| && Disjoint(g, w)
    ensures Marked(SetSegs(p, w.node, Fill(p.devs[w.node].segs, w.start, w.len, FREE)), v, g)
  {
    MarkedKept(p, SetSegs(p, w.node, Fill(p.devs[w.node].segs, w.start, w.len, FREE)), v, g);
  }

  /** Grants that overlap are of the same VM. */
  lemma OwnersAreDisjoint(p: Pool, v: int, g: Grant, u: int, w: Grant)
    requires Marked(p, v, g) && Marked(p, u, w)
    ensures Disjoint(g, w) || u == v
  {
    if !Disjoint(g, w) {
      var k := if g.start < w.start then w.start else g.start;
      assert p.devs[g.node].segs[k] == Segment(true, v);
    }
  }

  lemma FreeOwnEntryOk(p: Pool, v: int, e: Entry, m: nat)
    requires EntryOk(p, v, e) && m < |e.grants|
    ensures var w := e.grants[m];
            && 0 <= w.node < |p.devs|
            && EntryOk(SetSegs(p, w.node, Fill(p.devs[w.node].segs, w.start, w.len, FREE)), v,
                       e.(grants := e.grants[..m] + e.grants[m + 1..]))
  {
    var w := e.grants[m];
    assert Marked(p, v, w);
    var rest := e.grants[..m] + e.grants[m + 1..];
    var p' := SetSegs(p, w.node, Fill(p.devs[w.node].segs, w.start, w.len, FREE));
    forall i | 0 <= i < |rest| ensures Marked(p', v, rest[i]) && 0 <= rest[i].id < e.next {
      var o := if i < m then i else i + 1;
      assert rest[i] == e.grants[o];
      FreeKeepsMarked(p, v, e.grants[o], w);
    }
    forall i, j | 0 <= i < j < |rest| ensures Disjoint(rest[i], rest[j]) && rest[i].id < rest[j].id {
      assert rest[i] == e.grants[if i < m then i else i + 1];
      assert rest[j] == e.grants[if j < m then j else j + 1];
    }
  }

  /** Clearing a grant's range and dropping its record keeps segments and ledger in agreement. */
  lemma CoupledAfterFree(p: Pool, book: Book, v: int, m: nat)
    requires Coupled(p, book) && v in book && m < |book[v].grants|
    ensures var e, w := book[v], book[v].grants[m];
            && 0 <= w.node < |p.devs|
            && Coupled(SetSegs(p, w.node, Fill(p.devs[w.node].segs, w.start, w.len, FREE)),
                       book[v := e.(grants := e.grants[..m] + e.grants[m + 1..])])
  {
    var e := book[v];
    var w := e.grants[m];
    var e' := e.(grants := e.grants[..m] + e.grants[m + 1..]);
    var p' := SetSegs(p, w.node, Fill(p.devs[w.node].segs, w.start, w.len, FREE));
    var book' := book[v := e'];
    assert Marked(p, v, w);
    FreeOwnEntryOk(p, v, e, m);
    forall u | u in book' && u != v ensures EntryOk(p', u, book'[u]) {
      forall i | 0 <= i < |book[u].grants| ensures Marked(p', u, book[u].grants[i]) {
        OwnersAreDisjoint(p, u, book[u].grants[i], v, w);
        FreeKeepsMarked(p, u, book[u].grants[i], w);
      }
    }
    forall nd, k | 0 <= nd < |p'.devs| && 0 <= k < |p'.devs[nd].segs| && p'.devs[nd].segs[k].taken
      ensures var owner := p'.devs[nd].segs[k].usedVmId; owner in book' && Holds(book'[owner], nd, k)
    {
      assert p'.devs[nd].segs[k] == p.devs[nd].segs[k] && !Covers(w, nd, k);
      HoldsLess(e, m, nd, k);
    }
  }

  /** A recorded range is held in full, so its release never stops half way. */
  lemma {:induction false} RecordedIsHeld(p: Pool, v: int, g: Grant)
    requires Marked(p, v, g)
    ensures HeldPrefix(p.devs[g.node].segs, v, g.start, g.len) == g.len
  {
    HeldPrefixStops(p.devs[g.node].segs, v, g.start, g.len);
  }

  /** Clearing everything of one VM and dropping its entry keeps segments and ledger in agreement. */
  lemma CoupledAfterDestroy(p: Pool, book: Book, v: int)
    requires Coupled(p, book)
    ensures Coupled(PoolReleaseVm(p, v), book - {v})
  {
    var p', book' := PoolReleaseVm(p, v), book - {v};
    forall u | u in book' ensures EntryOk(p', u, book'[u]) {
      forall i | 0 <= i < |book[u].grants| ensures Marked(p', u, book[u].grants[i]) {
        MarkedKept(p, p', u, book[u].grants[i]);
      }
    }
    forall nd, k | 0 <= nd < |p'.devs| && 0 <= k < |p'.devs[nd].segs| && p'.devs[nd].segs[k].taken
      ensures var owner := p'.devs[nd].segs[k].usedVmId; owner in book' && Holds(book'[owner], nd, k)
    {
      assert p'.devs[nd].segs[k] == p.devs[nd].segs[k];
    }
  }

  /** Changing only whether a VM runs touches no grant. */
  lemma CoupledAfterSwitch(p: Pool, book: Book, v: int, running: bool)
    requires Coupled(p, book) && v in book
    ensures Coupled(p, book[v := book[v].(running := running)])
  {
    var book' := book[v := book[v].(running := running)];
    forall nd, k | 0 <= nd < |p.devs| && 0 <= k < |p.devs[nd].segs| && p.devs[nd].segs[k].taken
      ensures var owner := p.devs[nd].segs[k].usedVmId; owner in book' && Holds(book'[owner], nd, k)
    {
      assert Holds(book[v].(running := running), nd, k) == Holds(book[v], nd, k);
    }
  }

  lemma CoupledAfterCreate(p: Pool, book: Book, v: int)
    requires Coupled(p, book) && v !in book
    ensures Coupled(p, book[v := Entry(false, 0, [])])
  {
  }

  // ---------- the commands ----------

  function TheBook(s: State): Book
    requires s.pool.segMb > 0
  {
    BookOf(s.vms, s.pool.segMb)
  }

  /** What a command must achieve: the invariant, the same hardware, and the ledger's own step. */
  predicate Agrees(s: State, c: Command, t: State, reply: Reply)
    requires s.pool.segMb > 0
  {
    && Inv(t)
    && HardwareOf(t.pool) == HardwareOf(s.pool)
    && (TheBook(t), reply) == BookStep(HardwareOf(s.pool), TheBook(s), c)
  }

  /** Lookup in the table and in the ledger say the same. */
  lemma Lookup(s: State, v: int)
    requires PoolOk(s.pool) && TableOk(s)
    ensures var j := FindVm(s.vms, v);
            && (j == -1 <==> v !in TheBook(s))
            && (j != -1 ==> TheBook(s)[v] == EntryOf(s.vms[j], s.pool.segMb))
    ensures |TheBook(s)| == s.count
  {
    BookEntries(s.vms, s.pool.segMb);
    IdsCounted(s.vms);
    assert |TheBook(s)| == |TheBook(s).Keys|;
    assert v in TheBook(s) <==> v in Ids(s.vms);
  }

  /** A table with room has a free slot: the search in create cannot come back empty. */
  lemma SlotForCreate(s: State)
    requires Inv(s) && s.count < MAX_NUM_VM
    ensures FindFreeFrom(s.vms, 0) != -1
    ensures !s.vms[FindFreeFrom(s.vms, 0)].running
  {
    assert FindFreeFrom(s.vms, 0) != -1 ==> VmOk(s.vms[FindFreeFrom(s.vms, 0)], s.pool);
    CountTrueExtremes(Flags(s.vms));
    var k :| 0 <= k < |s.vms| && !Flags(s.vms)[k];
    assert !s.vms[k].initialized;
  }

  lemma CreateAgrees(s: State, v: int, coreSet: string)
    requires Inv(s) && v >= 0
    ensures var (t, ok) := Create(s, v, coreSet); Agrees(s, CreateVm(v, coreSet), t, Answer(ok))
  {
    Lookup(s, v);
    var (t, ok) := Create(s, v, coreSet);
    if ok {
      var j := FindFreeFrom(s.vms, 0);
      var vm := t.vms[j];
      BookAdd(s.vms, s.pool.segMb, j, vm);
      CountTrueUpdate(Flags(s.vms), j, true);
      CoupledAfterCreate(s.pool, TheBook(s), v);
      assert EntryOf(vm, s.pool.segMb) == Entry(false, 0, []);
      forall u ensures Running(t.vms, u) == Running(s.vms, u) {
        SameRunning(s.vms, j, vm, u);
      }
    } else if s.count < MAX_NUM_VM {
      SlotForCreate(s);
    }
  }

  lemma SameRunning(vms: seq<Vm>, j: nat, vm: Vm, u: int)
    requires j < |vms| && (vm.running || vms[j].running ==> vm.running && vms[j].running && vm.vmId == vms[j].vmId)
    ensures Running(vms[j := vm], u) == Running(vms, u)
  {
    var vms' := vms[j := vm];
    if Running(vms, u) {
      var i :| 0 <= i < |vms| && vms[i].running && vms[i].vmId == u;
      assert vms'[i].running && vms'[i].vmId == u;
    }
    if Running(vms', u) {
      var i :| 0 <= i < |vms'| && vms'[i].running && vms'[i].vmId == u;
      assert vms[i].running && vms[i].vmId == u;
    }
  }

  lemma DestroyAgrees(s: State, v: int)
    requires Inv(s) && v >= 0
    ensures var (t, ok) := Destroy(s, v); Agrees(s, DestroyVm(v), t, Answer(ok))
  {
    Lookup(s, v);
    var (t, ok) := Destroy(s, v);
    if ok {
      var j := FindVm(s.vms, v);
      BookRemove(s.vms, s.pool.segMb, j, t.vms[j]);
      CountTrueUpdate(Flags(s.vms), j, false);
      CoupledAfterDestroy(s.pool, TheBook(s), v);
      ReleaseVmKeepsOk(s.pool, v);
      forall u ensures Running(t.vms, u) == Running(s.vms, u) {
        SameRunning(s.vms, j, t.vms[j], u);
      }
      assert HardwareOf(t.pool).nodes == HardwareOf(s.pool).nodes;
    }
  }

  /** Switching a VM on or off changes whether that id runs, and no other. */
  lemma SwitchRunning(vms: seq<Vm>, j: nat, running: bool, u: int)
    requires DistinctIds(vms) && j < |vms| && vms[j].initialized
    requires forall i :: 0 <= i < |vms| && vms[i].running ==> vms[i].initialized
    ensures Running(vms[j := vms[j].(running := running)], u)
         == if u == vms[j].vmId then running else Running(vms, u)
  {
    var vms' := vms[j := vms[j].(running := running)];
    assert vms'[j].running == running && vms'[j].vmId == vms[j].vmId;
    if Running(vms, u) && u != vms[j].vmId {
      var i :| 0 <= i < |vms| && vms[i].running && vms[i].vmId == u;
      assert vms'[i].running && vms'[i].vmId == u;
    }
    if Running(vms', u) && u != vms[j].vmId {
      var i :| 0 <= i < |vms'| && vms'[i].running && vms'[i].vmId == u;
      assert vms[i].running && vms[i].vmId == u;
    }
  }

  /** What switching does to table and ledger, whatever happens to the agents. */
  lemma SwitchTable(s: State, j: nat, running: bool)
    requires Inv(s) && j < |s.vms| && s.vms[j].initialized
    requires running ==> 0 <= s.vms[j].vmId < MAX_NUM_VM
    ensures var t := SetVm(s, j, s.vms[j].(running := running));
            && TableOk(t)
            && s.vms[j].vmId in TheBook(s)
            && TheBook(t) == TheBook(s)[s.vms[j].vmId := TheBook(s)[s.vms[j].vmId].(running := running)]
            && Coupled(t.pool, TheBook(t))
  {
    var vm := s.vms[j].(running := running);
    BookUpdate(s.vms, s.pool.segMb, j, vm);
    BookEntries(s.vms, s.pool.segMb);
    CoupledAfterSwitch(s.pool, TheBook(s), vm.vmId, running);
  }

  lemma StartAgrees(s: State, v: int, connected: bool)
    requires Inv(s) && v >= 0 && Startable(s, v)
    ensures var (t, ok) := Start(s, v, connected); Agrees(s, StartVm(v, connected), t, Answer(ok))
  {
    Lookup(s, v);
    var (t, ok) := Start(s, v, connected);
    var j := FindVm(s.vms, v);
    if j != -1 && s.vms[j].running {
      assert TheBook(s)[v := TheBook(s)[v].(running := true)] == TheBook(s);
    } else if j != -1 {
      SwitchRunning(s.vms, j, false, v);
      assert s.vms[j := s.vms[j].(running := false)] == s.vms;
      AgentTableHasRoom(s, v);
      if connected {
        SwitchTable(s, j, true);
        CountTrueUpdate(s.agents.live, v, true);
        forall u ensures Running(t.vms, u) == (u == v || Running(s.vms, u)) {
          SwitchRunning(s.vms, j, true, u);
        }
      }
    }
  }

  /** While a legal id is not running, the agent table is not full and has no agent for it. */
  lemma AgentTableHasRoom(s: State, v: int)
    requires AgentsOk(s) && 0 <= v < MAX_NUM_VM && !Running(s.vms, v)
    ensures !s.agents.live[v] && s.agents.count < MAX_NUM_VM
  {
    CountTrueExtremes(s.agents.live);
  }

  lemma StopAgrees(s: State, v: int)
    requires Inv(s) && v >= 0
    ensures var (t, ok) := Stop(s, v); Agrees(s, StopVm(v), t, Answer(ok))
  {
    Lookup(s, v);
    var (t, ok) := Stop(s, v);
    var j := FindVm(s.vms, v);
    if j != -1 && !s.vms[j].running {
      assert TheBook(s)[v := TheBook(s)[v].(running := false)] == TheBook(s);
    } else if j != -1 {
      SwitchTable(s, j, false);
      assert Running(s.vms, v);
      CountTrueUpdate(s.agents.live, v, false);
      forall u ensures Running(t.vms, u) == (u != v && Running(s.vms, u)) {
        SwitchRunning(s.vms, j, false, u);
      }
    }
  }

  /** The megabytes of a recorded request name its grant's segments. */
  lemma ExactAlloc(s: State, node: int, v: int, sizeMb: int)
    requires Inv(s) && sizeMb > 0
    ensures var (p', out) := PoolAllocate(s.pool, node, v, sizeMb);
            var start := Grantable(HardwareOf(s.pool), TheBook(s), node, sizeMb);
            && (out == None <==> start == -1)
            && (out == None ==> p' == s.pool)
            && (out.Some? ==>
                  && 0 <= node < |s.pool.devs|
                  && var n := sizeMb / s.pool.segMb;
                     && n > 0 && IsWindow(Busy(s.pool.devs[node].segs), start, n)
                     && p' == SetSegs(s.pool, node, Fill(s.pool.devs[node].segs, start, n, Segment(true, v)))
                     && out.value
                        == MemoryRequest(node, s.pool.devs[node].path, start * s.pool.segMb, sizeMb, s.pool.segMb)
                     && Exact(out.value, s.pool)
                     && GrantOf(MemDev(0, out.value), s.pool.segMb) == Grant(0, node, start, n))
  {
    NodeIsPosition(s.pool, node);
    if 0 <= node < |s.pool.devs| {
      BusyIsOccupancy(s.pool, TheBook(s), node);
    }
    AllocationIsExact(s.pool, node, v, sizeMb);
    var (p', out) := PoolAllocate(s.pool, node, v, sizeMb);
    if out.Some? {
      MulDiv(out.value.offsetMb / s.pool.segMb, s.pool.segMb);
    }
  }

  /** What a change to one VM's list and to the pool does to the table and to the ledger. */
  lemma TableAfterMem(s: State, j: nat, vm: Vm, p: Pool)
    requires Inv(s) && j < |s.vms| && s.vms[j].initialized
    requires vm.(counter := s.vms[j].counter, devs := s.vms[j].devs) == s.vms[j]
    requires HardwareOf(p) == HardwareOf(s.pool) && VmOk(vm, p)
    ensures var t := SetVm(s, j, vm).(pool := p);
            && TableOk(t) && AgentsOk(t)
            && vm.vmId in TheBook(s)
            && TheBook(t) == TheBook(s)[vm.vmId := EntryOf(vm, p.segMb)]
  {
    var t := SetVm(s, j, vm).(pool := p);
    BookUpdate(s.vms, s.pool.segMb, j, vm);
    BookEntries(s.vms, s.pool.segMb);
    SamePaths(s.pool, p);
    forall i | 0 <= i < |t.vms| ensures VmOk(t.vms[i], p) {
      assert i != j ==> t.vms[i] == s.vms[i] && VmOk(s.vms[i], s.pool);
      if i != j {
        ExactKept(s.vms[i], s.pool, p);
      }
    }
    forall u ensures Running(t.vms, u) == Running(s.vms, u) {
      SameRunning(s.vms, j, vm, u);
    }
  }

  lemma SamePaths(p: Pool, p': Pool)
    requires HardwareOf(p') == HardwareOf(p)
    ensures p'.segMb == p.segMb && |p'.devs| == |p.devs|
    ensures forall i :: 0 <= i < |p.devs| ==>
              p'.devs[i].path == p.devs[i].path && |p'.devs[i].segs| == |p.devs[i].segs|
  {
    var a, b := HardwareOf(p).nodes, HardwareOf(p').nodes;
    assert |a| == |b| && forall i :: 0 <= i < |a| ==> a[i] == b[i];
    assert forall i :: 0 <= i < |p.devs| ==> a[i] == Node(p.devs[i].path, |p.devs[i].segs|);
    assert forall i :: 0 <= i < |p'.devs| ==> b[i] == Node(p'.devs[i].path, |p'.devs[i].segs|);
  }

  lemma SameHardware(p: Pool, i: nat, segs: seq<Segment>)
    requires i < |p.devs| && |segs| == |p.devs[i].segs|
    ensures HardwareOf(SetSegs(p, i, segs)) == HardwareOf(p)
  {
    assert HardwareOf(SetSegs(p, i, segs)).nodes == HardwareOf(p).nodes;
  }

  lemma AllocAgrees(s: State, node: int, v: int, sizeMb: int)
    requires Inv(s) && node >= 0 && v >= 0 && sizeMb > 0
    ensures var (t, dev) := AllocMem(s, node, v, sizeMb);
            Agrees(s, AllocateMem(node, v, sizeMb), t, if dev.Some? then Allocated(dev.value) else Failed)
  {
    Lookup(s, v);
    ExactAlloc(s, node, v, sizeMb);
    var (t, out) := AllocMem(s, node, v, sizeMb);
    if out.Some? {
      AllocSucceeds(s, node, v, sizeMb);
    }
  }

  /** Appending a device to a VM's list. */
  lemma AppendedVm(vm: Vm, p: Pool, p': Pool, req: MemoryRequest)
    requires p.segMb > 0 && VmOk(vm, p) && vm.initialized && Exact(req, p)
    requires HardwareOf(p') == HardwareOf(p)
    ensures var vm' := WithDev(vm, req);
            && VmOk(vm', p')
            && var g := GrantOf(MemDev(0, req), p.segMb);
               EntryOf(vm', p.segMb) == Extended(EntryOf(vm, p.segMb), g.node, g.start, g.len)
  {
    SamePaths(p, p');
    var devs' := vm.devs + [MemDev(vm.counter, req)];
    assert GrantsOf(devs', p.segMb) == GrantsOf(vm.devs, p.segMb) + [GrantOf(MemDev(vm.counter, req), p.segMb)];
  }

  /** Marking a free window and listing the exact request for it. */
  lemma AllocKeepsInv(s: State, j: nat, node: int, start: int, n: nat, req: MemoryRequest)
    requires Inv(s) && j < |s.vms| && s.vms[j].initialized
    requires 0 <= node < |s.pool.devs| && n > 0 && IsWindow(Busy(s.pool.devs[node].segs), start, n)
    requires Exact(req, s.pool) && GrantOf(MemDev(0, req), s.pool.segMb) == Grant(0, node, start, n)
    ensures var v := s.vms[j].vmId;
            var p' := SetSegs(s.pool, node, Fill(s.pool.devs[node].segs, start, n, Segment(true, v)));
            var t := SetVm(s, j, WithDev(s.vms[j], req)).(pool := p');
            && TableOk(t) && AgentsOk(t) && Coupled(p', TheBook(t))
            && HardwareOf(p') == HardwareOf(s.pool)
            && v in TheBook(s) && TheBook(s)[v].next == s.vms[j].counter
            && TheBook(t) == TheBook(s)[v := Extended(TheBook(s)[v], node, start, n)]
  {
    var v := s.vms[j].vmId;
    var p' := SetSegs(s.pool, node, Fill(s.pool.devs[node].segs, start, n, Segment(true, v)));
    SameHardware(s.pool, node, p'.devs[node].segs);
    assert VmOk(s.vms[j], s.pool);
    AppendedVm(s.vms[j], s.pool, p', req);
    BookEntries(s.vms, s.pool.segMb);
    CoupledAfterAlloc(s.pool, TheBook(s), v, node, start, n);
    TableAfterMem(s, j, WithDev(s.vms[j], req), p');
  }

  lemma AllocSucceeds(s: State, node: int, v: int, sizeMb: int)
    requires Inv(s) && node >= 0 && v >= 0 && sizeMb > 0
    requires AllocMem(s, node, v, sizeMb).1.Some?
    ensures var (t, dev) := AllocMem(s, node, v, sizeMb);
            Agrees(s, AllocateMem(node, v, sizeMb), t, Allocated(dev.value))
  {
    Lookup(s, v);
    ExactAlloc(s, node, v, sizeMb);
    var j := FindVm(s.vms, v);
    var (p', out) := PoolAllocate(s.pool, node, v, sizeMb);
    var start := Grantable(HardwareOf(s.pool), TheBook(s), node, sizeMb);
    AllocKeepsInv(s, j, node, start, sizeMb / s.pool.segMb, out.value);
    AllocateKeepsOk(s.pool, node, v, sizeMb);
    BookGrants(HardwareOf(s.pool), TheBook(s), node, v, sizeMb);
    assert AllocMem(s, node, v, sizeMb)
        == (SetVm(s, j, WithDev(s.vms[j], out.value)).(pool := p'), Some(MemDev(s.vms[j].counter, out.value)));
  }

  /** The ledger's own allocation, when there is room. */
  lemma BookGrants(hw: Hardware, book: Book, node: int, v: int, sizeMb: int)
    requires hw.segMb > 0 && node >= 0 && v >= 0 && sizeMb > 0
    requires v in book && Grantable(hw, book, node, sizeMb) != -1
    ensures var e, start := book[v], Grantable(hw, book, node, sizeMb);
            && node < |hw.nodes|
            && BookStep(hw, book, AllocateMem(node, v, sizeMb))
            == (book[v := Extended(e, node, start, sizeMb / hw.segMb)],
                Allocated(MemDev(e.next, MemoryRequest(node, hw.nodes[node].path, start * hw.segMb, sizeMb, hw.segMb))))
  {
  }

  /** Exactness of requests looks only at what never changes. */
  lemma ExactKept(vm: Vm, p: Pool, p': Pool)
    requires p.segMb > 0 && VmOk(vm, p) && p'.segMb == p.segMb && |p'.devs| == |p.devs|
    requires forall i :: 0 <= i < |p.devs| ==> p'.devs[i].path == p.devs[i].path
    ensures VmOk(vm, p')
  {
  }

  /** First match on the list and in the ledger's entry are at the same place. */
  lemma {:induction false} SamePosition(devs: seq<MemDev>, segMb: int, id: int)
    requires segMb > 0
    ensures FindDev(devs, id) == Position(GrantsOf(devs, segMb), id)
  {
    var grants := GrantsOf(devs, segMb);
    if devs != [] {
      assert grants[1..] == GrantsOf(devs[1..], segMb);
      SamePosition(devs[1..], segMb, id);
      FindDevShift(devs, id, 1);
    }
  }

  lemma {:induction false} FindDevShift(devs: seq<MemDev>, id: int, i: nat)
    requires 1 <= i <= |devs|
    ensures FindDevFrom(devs, id, i)
         == if FindDevFrom(devs[1..], id, i - 1) == -1 then -1 else FindDevFrom(devs[1..], id, i - 1) + 1
    decreases |devs| - i
  {
    if i < |devs| {
      FindDevShift(devs, id, i + 1);
    }
  }

  lemma FreeAgrees(s: State, v: int, id: int)
    requires Inv(s) && v >= 0 && id >= 0
    ensures var (t, ok) := FreeMem(s, v, id); Agrees(s, ReleaseMem(v, id), t, Answer(ok))
  {
    Lookup(s, v);
    var (t, ok) := FreeMem(s, v, id);
    var j := FindVm(s.vms, v);
    if j != -1 {
      var vm := s.vms[j];
      SamePosition(vm.devs, s.pool.segMb, id);
      var m := FindDev(vm.devs, id);
      if m != -1 {
        FreeSucceeds(s, v, id);
      }
    }
  }

  lemma ExactWithout(vm: Vm, m: nat, p: Pool)
    requires p.segMb > 0 && m < |vm.devs| && forall i :: 0 <= i < |vm.devs| ==> Exact(vm.devs[i].req, p)
    ensures forall i :: 0 <= i < |vm.devs| - 1 ==> Exact(WithoutDev(vm, m).devs[i].req, p)
  {
    forall i | 0 <= i < |vm.devs| - 1 ensures Exact(WithoutDev(vm, m).devs[i].req, p) {
      assert WithoutDev(vm, m).devs[i] == vm.devs[if i < m then i else i + 1];
    }
  }

  lemma GrantsWithout(devs: seq<MemDev>, segMb: int, m: nat)
    requires segMb > 0 && m < |devs|
    ensures GrantsOf(devs[..m] + devs[m + 1..], segMb)
         == GrantsOf(devs, segMb)[..m] + GrantsOf(devs, segMb)[m + 1..]
  {
  }

  lemma FreeSucceeds(s: State, v: int, id: int)
    requires Inv(s) && v >= 0 && id >= 0
    requires FindVm(s.vms, v) != -1 && FindDev(s.vms[FindVm(s.vms, v)].devs, id) != -1
    ensures FreeMem(s, v, id).1
    ensures Agrees(s, ReleaseMem(v, id), FreeMem(s, v, id).0, Succeeded)
  {
    Lookup(s, v);
    var j := FindVm(s.vms, v);
    var vm := s.vms[j];
    SamePosition(vm.devs, s.pool.segMb, id);
    var m := FindDev(vm.devs, id);
    var e := TheBook(s)[v];
    var w := e.grants[m];
    assert VmOk(vm, s.pool);
    assert w == GrantOf(vm.devs[m], s.pool.segMb) && Marked(s.pool, v, w);
    FreeRecorded(s.pool, v, vm.devs[m].req);
    CoupledAfterFree(s.pool, TheBook(s), v, m);
    var t := FreeMem(s, v, id).0;
    SameHardware(s.pool, w.node, t.pool.devs[w.node].segs);
    SamePaths(s.pool, t.pool);
    ExactKept(vm, s.pool, t.pool);
    ExactWithout(vm, m, t.pool);
    var vm' := t.vms[j];
    TableAfterMem(s, j, vm', t.pool);
    GrantsWithout(vm.devs, s.pool.segMb, m);
  }

  /** Releasing a recorded request frees exactly its range. */
  lemma FreeRecorded(p: Pool, v: int, req: MemoryRequest)
    requires PoolOk(p) && Exact(req, p)
    requires Marked(p, v, GrantOf(MemDev(0, req), p.segMb))
    ensures var w := GrantOf(MemDev(0, req), p.segMb);
            PoolRelease(p, req.nodeId, v, req.offsetMb, req.sizeMb)
            == (SetSegs(p, w.node, Fill(p.devs[w.node].segs, w.start, w.len, FREE)), true)
    ensures PoolOk(PoolRelease(p, req.nodeId, v, req.offsetMb, req.sizeMb).0)
  {
    var w := GrantOf(MemDev(0, req), p.segMb);
    NodeIsPosition(p, req.nodeId);
    RecordedIsHeld(p, v, w);
    MulDiv(w.start, p.segMb);
    MulDiv(w.len, p.segMb);
    MulSignNonNeg(w.start, p.segMb);
    MulSignNonNeg(w.len, p.segMb);
  }

  lemma MulSignNonNeg(a: int, m: int)
    requires a >= 0 && m > 0
    ensures a * m >= 0
  {
  }

  /** An exact request is its grant in megabytes. */
  lemma RequestOfGrant(p: Pool, dev: MemDev)
    requires p.segMb > 0 && Exact(dev.req, p)
    ensures RequestOf(HardwareOf(p), GrantOf(dev, p.segMb)) == Some(dev.req)
  {
  }

  /** Asking for a VM's device gives what the ledger says was granted under that id, or nothing. */
  lemma {:induction false} GetMemAgrees(s: State, v: int, id: int)
    requires Inv(s)
    ensures GetMem(s, v, id) == BookRequest(HardwareOf(s.pool), TheBook(s), v, id)
    ensures GetMem(s, v, id) == None <==> v !in TheBook(s) || Position(TheBook(s)[v].grants, id) == -1
  {
    Lookup(s, v);
    var j := FindVm(s.vms, v);
    if j != -1 {
      SamePosition(s.vms[j].devs, s.pool.segMb, id);
      var m := FindDev(s.vms[j].devs, id);
      if m != -1 {
        assert VmOk(s.vms[j], s.pool);
        RequestOfGrant(s.pool, s.vms[j].devs[m]);
      }
    }
  }

  /** Every command, accepted or refused, keeps the invariant and does to the ledger what `Ledger` says. */
  lemma StepAgrees(s: State, c: Command)
    requires Inv(s) && Legal(s, c)
    ensures var (t, reply) := Step(s, c); Agrees(s, c, t, reply)
  {
    if ArgsOk(c) {
      match c {
        case CreateVm(v, coreSet) => CreateAgrees(s, v, coreSet);
        case DestroyVm(v) => DestroyAgrees(s, v);
        case StartVm(v, connected) => StartAgrees(s, v, connected);
        case StopVm(v) => StopAgrees(s, v);
        case AllocateMem(node, v, sizeMb) => AllocAgrees(s, node, v, sizeMb);
        case ReleaseMem(v, id) => FreeAgrees(s, v, id);
        case AttachMem(id, v, plugged) => GetMemAgrees(s, v, id);
        case DetachMem(id, v, unplugged) => GetMemAgrees(s, v, id);
      }
    }
  }
}
