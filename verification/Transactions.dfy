/**
 Client operations made of several commands: attaching memory on several nodes with
 roll-back, and creating a VM that is given up again.
 */
module Transactions {
  import opened Wrappers
  import opened PoolModel
  import opened VmModel
  import opened Ledger
  import opened Refinement
  import opened Runs

  // ---------- attach on several nodes ----------

  /** The exception branch: free, in the order given, every device the attempt got. */
  function Undo(s: State, v: int, ids: seq<int>): State
    requires s.pool.segMb > 0
    decreases |ids|
  {
    if ids == [] then s else Undo(Step(s, ReleaseMem(v, ids[0])).0, v, ids[1..])
  }

  /**
   Allocate one part and plug it in; `plug` is what the hypervisor answers. Tells which
   device was obtained, if any, and whether all went well.
   */
  function AttachPart(s: State, v: int, part: (int, int), plug: bool): (State, seq<int>, bool)
    requires s.pool.segMb > 0
  {
    var (t, reply) := Step(s, AllocateMem(part.0, v, part.1));
    if !reply.Allocated? then (t, [], false)
    else (t, [reply.dev.idx], Step(t, AttachMem(reply.dev.idx, v, plug)).1 == Succeeded)
  }

  /** Part after part; the first failure undoes the whole attempt. `given` lists the devices obtained so far. */
  function AttachAll(s: State, v: int, plan: seq<(int, int)>, plugs: seq<bool>, given: seq<int>)
    : (State, Option<seq<int>>)
    requires s.pool.segMb > 0 && |plugs| == |plan|
    decreases |plan|
  {
    if plan == [] then (s, Some(given))
    else
      var (t, got, ok) := AttachPart(s, v, plan[0], plugs[0]);
      if ok then AttachAll(t, v, plan[1..], plugs[1..], given + got)
      else (Undo(t, v, given + got), None)
  }

  /** Only slot `j`'s list and id counter, and the segments, may differ. */
  predicate SameBut(s: State, t: State, j: int) {
    && 0 <= j < |s.vms| == |t.vms|
    && s.count == t.count && s.agents == t.agents && SameDevices(s.pool, t.pool)
    && t.vms[j] == s.vms[j].(counter := t.vms[j].counter, devs := t.vms[j].devs)
    && forall i :: 0 <= i < |s.vms| && i != j ==> t.vms[i] == s.vms[i]
  }

  function IdsOf(devs: seq<MemDev>): (ids: seq<int>)
    ensures |ids| == |devs| && forall i :: 0 <= i < |devs| ==> ids[i] == devs[i].idx
  {
    seq(|devs|, i requires 0 <= i < |devs| => devs[i].idx)
  }

  /** One allocation: refused without a trace, or one more device at the end of the list. */
  lemma AllocStep(s: State, node: int, v: int, sizeMb: int)
    requires Inv(s)
    ensures var (t, reply) := Step(s, AllocateMem(node, v, sizeMb));
            var j := FindVm(s.vms, v);
            && Inv(t)
            && (!reply.Allocated? ==> t == s)
            && (reply.Allocated? ==>
                  && j != -1 && v >= 0 && SameBut(s, t, j) && FindVm(t.vms, v) == j
                  && reply.dev.idx == s.vms[j].counter >= 0 && t.vms[j].counter == s.vms[j].counter + 1
                  && t.vms[j].devs == s.vms[j].devs + [reply.dev]
                  && reply.dev.req.nodeId == node && reply.dev.req.sizeMb == sizeMb)
  {
    var c := AllocateMem(node, v, sizeMb);
    StepAgrees(s, c);
    StepKeepsDevices(s, c);
    var (t, reply) := Step(s, c);
    if reply.Allocated? {
      var j := FindVm(s.vms, v);
      FindVmHits(t.vms, j);
      AllocationIsExact(s.pool, node, v, sizeMb);
      Lookup(s, v);
      assert EntryOk(s.pool, v, TheBook(s)[v]);
    }
  }

  /** Freeing the first of the devices after `base`. */
  lemma FreeStep(s: State, v: int, j: int, base: seq<MemDev>, news: seq<MemDev>)
    requires Inv(s) && v >= 0 && j == FindVm(s.vms, v) && j != -1
    requires news != [] && s.vms[j].devs == base + news
    ensures var t := Step(s, ReleaseMem(v, news[0].idx)).0;
            && Inv(t) && SameBut(s, t, j) && FindVm(t.vms, v) == j
            && t.vms[j] == s.vms[j].(devs := base + news[1..])
  {
    var id := news[0].idx;
    var devs := s.vms[j].devs;
    ListedIdsIncrease(s, j);
    assert devs[|base|] == news[0];
    FindDevIs(devs, id, |base|);
    assert devs[..|base|] + devs[|base| + 1..] == base + news[1..];
    FreeIsExact(s, v, id);
    FreeSucceeds(s, v, id);
    StepKeepsDevices(s, ReleaseMem(v, id));
    FindVmHits(Step(s, ReleaseMem(v, id)).0.vms, j);
  }

  lemma SameButTrans(s: State, t: State, u: State, j: int)
    requires SameBut(s, t, j) && SameBut(t, u, j)
    ensures SameBut(s, u, j)
  {
  }

  /** Undoing takes exactly the attempt's devices off the list again. */
  lemma {:induction false} UndoRestores(s: State, v: int, j: int, base: seq<MemDev>, news: seq<MemDev>)
    requires Inv(s) && v >= 0 && j == FindVm(s.vms, v) && j != -1
    requires s.vms[j].devs == base + news
    ensures var t := Undo(s, v, IdsOf(news));
            && Inv(t) && SameBut(s, t, j)
            && t.vms[j] == s.vms[j].(devs := base)
    decreases |news|
  {
    var ids := IdsOf(news);
    if news == [] {
      assert base + news == base;
    } else {
      FreeStep(s, v, j, base, news);
      var t := Step(s, ReleaseMem(v, ids[0])).0;
      assert ids[1..] == IdsOf(news[1..]);
      UndoRestores(t, v, j, base, news[1..]);
      SameButTrans(s, t, Undo(t, v, IdsOf(news[1..])), j);
    }
  }

  /** With the list as before, everything is as before, but for the id counter. */
  lemma ListDeterminesState(s: State, t: State, j: int)
    requires Inv(s) && Inv(t) && SameBut(s, t, j) && s.vms[j].initialized
    requires t.vms[j].devs == s.vms[j].devs
    ensures t == SetVm(s, j, s.vms[j].(counter := t.vms[j].counter))
  {
    var vm := t.vms[j];
    assert t.vms == s.vms[j := vm];
    BookUpdate(s.vms, s.pool.segMb, j, vm);
    BookEntries(s.vms, s.pool.segMb);
    SameGrantsSamePool(s, t);
  }

  /** The devices match the plan, part by part. */
  predicate Fulfils(devs: seq<MemDev>, plan: seq<(int, int)>) {
    |devs| == |plan|
    && forall i :: 0 <= i < |plan| ==> devs[i].req.nodeId == plan[i].0 && devs[i].req.sizeMb == plan[i].1
  }

  /** An outcome: nothing but the id counter moved, or the plan's devices are listed after the old ones. */
  ghost predicate AttachOutcome(
      s0: State, t: State, j: int, news: seq<MemDev>, plan: seq<(int, int)>, r: Option<seq<int>>)
  {
    && Inv(t) && SameBut(s0, t, j) && t.vms[j].counter >= s0.vms[j].counter
    && match r
       case None => t.vms[j].devs == s0.vms[j].devs
       case Some(ids) =>
         exists added: seq<MemDev> ::
           t.vms[j].devs == s0.vms[j].devs + (news + added) && ids == IdsOf(news + added) && Fulfils(added, plan)
  }

  lemma OutcomeStep(
      s0: State, t: State, j: int, news: seq<MemDev>, d: MemDev, plan: seq<(int, int)>, r: Option<seq<int>>)
    requires plan != [] && d.req.nodeId == plan[0].0 && d.req.sizeMb == plan[0].1
    requires AttachOutcome(s0, t, j, news + [d], plan[1..], r)
    ensures AttachOutcome(s0, t, j, news, plan, r)
  {
    if r.Some? {
      var added: seq<MemDev> :|
        t.vms[j].devs == s0.vms[j].devs + ((news + [d]) + added) && r.value == IdsOf((news + [d]) + added)
        && Fulfils(added, plan[1..]);
      Regrouped(news, d, added);
      FulfilsMore(d, added, plan);
    }
  }

  lemma Regrouped(news: seq<MemDev>, d: MemDev, added: seq<MemDev>)
    ensures (news + [d]) + added == news + ([d] + added)
  {
  }

  lemma FulfilsMore(d: MemDev, added: seq<MemDev>, plan: seq<(int, int)>)
    requires plan != [] && d.req.nodeId == plan[0].0 && d.req.sizeMb == plan[0].1 && Fulfils(added, plan[1..])
    ensures Fulfils([d] + added, plan)
  {
    assert forall i :: 1 <= i < |plan| ==> plan[i] == plan[1..][i - 1];
  }

  /** What an attach leaves behind, from any point of it on. */
  lemma {:induction false} AttachFrom(
      s0: State, s: State, v: int, j: int, plan: seq<(int, int)>, plugs: seq<bool>, news: seq<MemDev>)
    requires Inv(s) && v >= 0 && SameBut(s0, s, j)
    requires FindVm(s.vms, v) == j && |plugs| == |plan|
    requires s.vms[j].devs == s0.vms[j].devs + news && s.vms[j].counter >= s0.vms[j].counter
    ensures var (t, r) := AttachAll(s, v, plan, plugs, IdsOf(news)); AttachOutcome(s0, t, j, news, plan, r)
    decreases |plan|
  {
    var base := s0.vms[j].devs;
    if plan == [] {
      assert news + [] == news && Fulfils([], plan);
    } else {
      AllocStep(s, plan[0].0, v, plan[0].1);
      var (t, reply) := Step(s, AllocateMem(plan[0].0, v, plan[0].1));
      var (t', got, ok) := AttachPart(s, v, plan[0], plugs[0]);
      if !reply.Allocated? {
        assert IdsOf(news) + got == IdsOf(news);
        UndoRestores(s, v, j, base, news);
        SameButTrans(s0, s, Undo(s, v, IdsOf(news)), j);
      } else {
        var more := news + [reply.dev];
        assert t.vms[j].devs == base + more;
        assert IdsOf(more) == IdsOf(news) + got;
        SameButTrans(s0, s, t, j);
        if !ok {
          UndoRestores(t, v, j, base, more);
          SameButTrans(s0, t, Undo(t, v, IdsOf(more)), j);
        } else {
          AttachFrom(s0, t, v, j, plan[1..], plugs[1..], more);
          var (u, r) := AttachAll(t, v, plan[1..], plugs[1..], IdsOf(more));
          OutcomeStep(s0, u, j, news, reply.dev, plan, r);
        }
      }
    }
  }

  /**
   Attaching is all or nothing at pool level. Whichever step fails, segments, lists, agents and
   counts are as before and only the VM's id counter may have moved; when all steps succeed, the
   VM lists one new device per part of the plan, in order, and the ids are theirs.
   */
  lemma {:induction false} AttachIsAtomic(s: State, v: int, plan: seq<(int, int)>, plugs: seq<bool>)
    requires Inv(s) && |plugs| == |plan|
    ensures var (t, r) := AttachAll(s, v, plan, plugs, []);
            var j := FindVm(s.vms, v);
            && Inv(t)
            && (r == None ==>
                  if j == -1 || v < 0 then t == s
                  else |t.vms| == |s.vms| && t.vms[j].counter >= s.vms[j].counter
                       && t == SetVm(s, j, s.vms[j].(counter := t.vms[j].counter)))
            && (r.Some? && plan != [] ==>
                  && j != -1 && SameBut(s, t, j)
                  && exists added: seq<MemDev> ::
                       t.vms[j].devs == s.vms[j].devs + added && r.value == IdsOf(added) && Fulfils(added, plan))
  {
    var (t, r) := AttachAll(s, v, plan, plugs, []);
    var j := FindVm(s.vms, v);
    if plan != [] {
      AllocStep(s, plan[0].0, v, plan[0].1);
      if j != -1 && v >= 0 {
        assert s.vms[j].devs == s.vms[j].devs + [] && IdsOf([]) == [];
        AttachFrom(s, s, v, j, plan, plugs, []);
        if r == None {
          ListDeterminesState(s, t, j);
        } else {
          var added: seq<MemDev> :|
            t.vms[j].devs == s.vms[j].devs + ([] + added) && r.value == IdsOf([] + added) && Fulfils(added, plan);
          assert [] + added == added;
        }
      }
    }
  }

  // ---------- when an attach succeeds ----------

  /** What a plan needs of the pool: no node twice, and a window of whole segments for each part. */
  ghost predicate FitsPool(p: Pool, plan: seq<(int, int)>)
    requires p.segMb > 0
  {
    forall i :: 0 <= i < |plan| ==> HasWindow(p, plan[i].0, plan[i].1)
  }

  predicate NodesApart(plan: seq<(int, int)>) {
    forall i, j :: 0 <= i < j < |plan| ==> plan[i].0 != plan[j].0
  }

  predicate AllPlugged(plugs: seq<bool>) {
    forall i :: 0 <= i < |plugs| ==> plugs[i]
  }

  /** An allocation touches its own node only. */
  lemma OtherNodesKept(s: State, node: int, v: int, sizeMb: int, other: int, otherMb: int)
    requires Inv(s) && node >= 0 && v >= 0 && sizeMb > 0 && other != node
    ensures var t := AllocMem(s, node, v, sizeMb).0;
            t.pool.segMb == s.pool.segMb
            && (HasWindow(t.pool, other, otherMb) <==> HasWindow(s.pool, other, otherMb))
  {
    NodeIsPosition(s.pool, node);
    var t := AllocMem(s, node, v, sizeMb).0;
    assert |t.pool.devs| == |s.pool.devs|;
    assert 0 <= other < |s.pool.devs| ==> t.pool.devs[other] == s.pool.devs[other];
  }

  lemma RestStillFits(s: State, v: int, plan: seq<(int, int)>)
    requires Inv(s) && v >= 0 && plan != [] && plan[0].0 >= 0 && plan[0].1 > 0 && NodesApart(plan)
    ensures var t := AllocMem(s, plan[0].0, v, plan[0].1).0;
            t.pool.segMb == s.pool.segMb && (FitsPool(t.pool, plan[1..]) <==> FitsPool(s.pool, plan[1..]))
  {
    var t := AllocMem(s, plan[0].0, v, plan[0].1).0;
    assert t.pool.segMb == s.pool.segMb;
    forall i | 0 <= i < |plan[1..]|
      ensures HasWindow(t.pool, plan[1..][i].0, plan[1..][i].1) <==> HasWindow(s.pool, plan[1..][i].0, plan[1..][i].1)
    {
      OtherNodesKept(s, plan[0].0, v, plan[0].1, plan[i + 1].0, plan[i + 1].1);
    }
  }

  lemma FitsFirst(p: Pool, plan: seq<(int, int)>)
    requires p.segMb > 0 && plan != []
    ensures FitsPool(p, plan) <==> HasWindow(p, plan[0].0, plan[0].1) && FitsPool(p, plan[1..])
  {
    assert forall i :: 1 <= i < |plan| ==> plan[i] == plan[1..][i - 1];
    assert forall i :: 0 <= i < |plan| - 1 ==> plan[1..][i] == plan[i + 1];
  }

  lemma PluggedFirst(plugs: seq<bool>)
    requires plugs != []
    ensures AllPlugged(plugs) <==> plugs[0] && AllPlugged(plugs[1..])
  {
    assert forall i :: 1 <= i < |plugs| ==> plugs[i] == plugs[1..][i - 1];
  }

  /** One part is granted exactly when it has its window. */
  lemma PartGranted(s: State, v: int, part: (int, int))
    requires Inv(s) && v >= 0 && FindVm(s.vms, v) != -1 && part.0 >= 0 && part.1 > 0
    ensures var (t, reply) := Step(s, AllocateMem(part.0, v, part.1));
            && (reply.Allocated? <==> HasWindow(s.pool, part.0, part.1))
            && (reply.Allocated? ==> Inv(t) && t == AllocMem(s, part.0, v, part.1).0 && FindVm(t.vms, v) != -1)
  {
    AllocateSucceedsExactly(s.pool, part.0, v, part.1);
    StepOfAlloc(s, part.0, v, part.1);
    AllocStep(s, part.0, v, part.1);
  }

  /** One part goes through exactly when it has its window and is plugged. */
  lemma PartSucceedsExactly(s: State, v: int, part: (int, int), plug: bool)
    requires Inv(s) && v >= 0 && FindVm(s.vms, v) != -1 && part.0 >= 0 && part.1 > 0
    ensures var (t, got, ok) := AttachPart(s, v, part, plug);
            && (ok <==> HasWindow(s.pool, part.0, part.1) && plug)
            && (ok ==> Inv(t) && t == AllocMem(s, part.0, v, part.1).0 && FindVm(t.vms, v) != -1)
  {
    PartGranted(s, v, part);
    AllocStep(s, part.0, v, part.1);
    var (t, reply) := Step(s, AllocateMem(part.0, v, part.1));
    if reply.Allocated? {
      var devs := t.vms[FindVm(t.vms, v)].devs;
      assert devs[|devs| - 1] == reply.dev;
      assert GetMem(t, v, reply.dev.idx).Some?;
    }
  }

  /**
   Attaching on different nodes succeeds if and only if every part is whole segments with a free window
   on its node, and every device is plugged.
   */
  lemma {:induction false} AttachSucceedsFrom(
      s: State, v: int, plan: seq<(int, int)>, plugs: seq<bool>, given: seq<int>)
    requires Inv(s) && v >= 0 && FindVm(s.vms, v) != -1 && |plugs| == |plan| && NodesApart(plan)
    requires forall i :: 0 <= i < |plan| ==> plan[i].0 >= 0 && plan[i].1 > 0
    ensures AttachAll(s, v, plan, plugs, given).1.Some? <==> FitsPool(s.pool, plan) && AllPlugged(plugs)
    decreases |plan|
  {
    if plan != [] {
      PartSucceedsExactly(s, v, plan[0], plugs[0]);
      FitsFirst(s.pool, plan);
      PluggedFirst(plugs);
      var (t, got, ok) := AttachPart(s, v, plan[0], plugs[0]);
      if ok {
        RestStillFits(s, v, plan);
        AttachSucceedsFrom(t, v, plan[1..], plugs[1..], given + got);
      }
    }
  }

  /** The same for a whole attach, on a VM there is or there is not. */
  lemma {:induction false} AttachSucceedsExactly(s: State, v: int, plan: seq<(int, int)>, plugs: seq<bool>)
    requires Inv(s) && plan != [] && |plugs| == |plan| && NodesApart(plan)
    requires forall i :: 0 <= i < |plan| ==> plan[i].0 >= 0 && plan[i].1 > 0
    ensures AttachAll(s, v, plan, plugs, []).1.Some?
            <==> v >= 0 && FindVm(s.vms, v) != -1 && FitsPool(s.pool, plan) && AllPlugged(plugs)
  {
    if v >= 0 && FindVm(s.vms, v) != -1 {
      AttachSucceedsFrom(s, v, plan, plugs, []);
    } else {
      AllocStep(s, plan[0].0, v, plan[0].1);
    }
  }

  // ---------- a VM that is given up again ----------

  /** Allocate part after part until one is refused. */
  function AllocAll(s: State, v: int, plan: seq<(int, int)>): (t: State)
    requires s.pool.segMb > 0
    ensures t.pool.segMb == s.pool.segMb
    decreases |plan|
  {
    if plan == [] then s
    else
      var (t, reply) := Step(s, AllocateMem(plan[0].0, v, plan[0].1));
      if reply.Allocated? then AllocAll(t, v, plan[1..]) else t
  }

  /** No part is refused. */
  predicate AllGranted(s: State, v: int, plan: seq<(int, int)>)
    requires s.pool.segMb > 0
    decreases |plan|
  {
    plan != [] ==>
      var (t, reply) := Step(s, AllocateMem(plan[0].0, v, plan[0].1));
      reply.Allocated? && t.pool.segMb > 0 && AllGranted(t, v, plan[1..])
  }

  /** The devices a VM got since, and the part of the plan they are. */
  ghost predicate GotFirst(s: State, t: State, j: int, plan: seq<(int, int)>, k: nat) {
    && Inv(t) && SameBut(s, t, j) && k <= |plan| && t.vms[j].counter == s.vms[j].counter + k
    && exists added: seq<MemDev> :: t.vms[j].devs == s.vms[j].devs + added && Fulfils(added, plan[..k])
  }

  lemma GotOneMore(s: State, t: State, u: State, j: int, d: MemDev, plan: seq<(int, int)>, k: nat)
    requires plan != [] && SameBut(s, t, j) && t.vms[j].devs == s.vms[j].devs + [d]
    requires t.vms[j].counter == s.vms[j].counter + 1 && d.req.nodeId == plan[0].0 && d.req.sizeMb == plan[0].1
    requires GotFirst(t, u, j, plan[1..], k)
    ensures GotFirst(s, u, j, plan, k + 1)
  {
    SameButTrans(s, t, u, j);
    var rest: seq<MemDev> :| u.vms[j].devs == t.vms[j].devs + rest && Fulfils(rest, plan[1..][..k]);
    var added := [d] + rest;
    assert u.vms[j].devs == s.vms[j].devs + added;
    assert plan[..k + 1] == [plan[0]] + plan[1..][..k];
    assert Fulfils(added, plan[..k + 1]);
  }

  lemma GotNone(s: State, j: int, plan: seq<(int, int)>)
    requires Inv(s) && SameBut(s, s, j)
    ensures GotFirst(s, s, j, plan, 0)
  {
    assert s.vms[j].devs == s.vms[j].devs + [] && Fulfils([], plan[..0]);
  }

  /**
   Allocating part after part gives the VM one device for each of the first parts of the plan, in order, and
   changes nothing else; the first part left out, if any, is one the server refuses in the state reached.
   */
  lemma {:induction false} AllocAllGrants(s: State, v: int, j: int, plan: seq<(int, int)>) returns (k: nat)
    requires Inv(s) && v >= 0 && j == FindVm(s.vms, v) && j != -1
    ensures var t := AllocAll(s, v, plan);
            && GotFirst(s, t, j, plan, k) && FindVm(t.vms, v) == j
            && (k < |plan| ==> !Step(t, AllocateMem(plan[k].0, v, plan[k].1)).1.Allocated?)
            && (k == |plan| <==> AllGranted(s, v, plan))
    decreases |plan|
  {
    k := 0;
    if plan == [] {
      GotNone(s, j, plan);
    } else {
      AllocStep(s, plan[0].0, v, plan[0].1);
      var (t, reply) := Step(s, AllocateMem(plan[0].0, v, plan[0].1));
      if reply.Allocated? {
        var n := AllocAllGrants(t, v, j, plan[1..]);
        GotOneMore(s, t, AllocAll(t, v, plan[1..]), j, reply.dev, plan, n);
        k := n + 1;
      } else {
        GotNone(s, j, plan);
      }
    }
  }

  /** On different nodes the whole plan is granted if and only if each part has its window. */
  lemma {:induction false} AllGrantedExactly(s: State, v: int, plan: seq<(int, int)>)
    requires Inv(s) && v >= 0 && FindVm(s.vms, v) != -1 && NodesApart(plan)
    requires forall i :: 0 <= i < |plan| ==> plan[i].0 >= 0 && plan[i].1 > 0
    ensures AllGranted(s, v, plan) <==> FitsPool(s.pool, plan)
    decreases |plan|
  {
    if plan != [] {
      PartGranted(s, v, plan[0]);
      FitsFirst(s.pool, plan);
      var (t, reply) := Step(s, AllocateMem(plan[0].0, v, plan[0].1));
      if reply.Allocated? {
        RestStillFits(s, v, plan);
        AllGrantedExactly(t, v, plan[1..]);
      }
    }
  }

  /** Create, allocate, destroy: what a dry run or a failed launch amounts to. */
  function CreateAndGiveUp(s: State, v: int, coreSet: string, plan: seq<(int, int)>): (State, Reply)
    requires s.pool.segMb > 0 && coreSet != ""
  {
    var (t, reply) := Step(s, CreateVm(v, coreSet));
    if reply != Succeeded then (t, reply)
    else (Step(AllocAll(t, v, plan), DestroyVm(v)).0, reply)
  }

  /** Allocations for `v` change `v`'s entry only, and never make it run. */
  lemma {:induction false} AllocAllBook(s: State, v: int, plan: seq<(int, int)>)
    requires Inv(s) && v >= 0 && v in TheBook(s)
    ensures var t := AllocAll(s, v, plan);
            && Inv(t) && SameDevices(s.pool, t.pool) && t.agents == s.agents
            && v in TheBook(t) && TheBook(t)[v].running == TheBook(s)[v].running
            && TheBook(t) - {v} == TheBook(s) - {v}
    decreases |plan|
  {
    if plan != [] {
      var c := AllocateMem(plan[0].0, v, plan[0].1);
      AllocStep(s, plan[0].0, v, plan[0].1);
      StepAgrees(s, c);
      var (t, reply) := Step(s, c);
      if reply.Allocated? {
        AllocAllBook(t, v, plan[1..]);
      }
    }
  }

  /** A VM that is created and given up leaves segments, ledger, agents and counts as they were. */
  lemma GivingUpRestores(s: State, v: int, coreSet: string, plan: seq<(int, int)>)
    requires Inv(s) && coreSet != ""
    ensures var (t, reply) := CreateAndGiveUp(s, v, coreSet, plan);
            && Inv(t)
            && (reply != Succeeded ==> t == s)
            && t.pool == s.pool && TheBook(t) == TheBook(s) && t.count == s.count && t.agents == s.agents
  {
    CreateAdds(s, v, coreSet);
    var (t, reply) := Step(s, CreateVm(v, coreSet));
    if reply == Succeeded {
      AllocAllBook(t, v, plan);
      var u := AllocAll(t, v, plan);
      DestroyUndoes(u, v);
      var w := Step(u, DestroyVm(v)).0;
      assert TheBook(w) == TheBook(t) - {v} == TheBook(s);
      SameGrantsSamePool(s, w);
      Lookup(s, v);
      Lookup(w, v);
    }
  }

  lemma CreateAdds(s: State, v: int, coreSet: string)
    requires Inv(s) && coreSet != ""
    ensures var (t, reply) := Step(s, CreateVm(v, coreSet));
            && Inv(t) && SameDevices(s.pool, t.pool) && t.agents == s.agents
            && (reply != Succeeded ==> t == s)
            && (reply == Succeeded ==>
                  v >= 0 && v !in TheBook(s) && TheBook(t) == TheBook(s)[v := Entry(false, 0, [])])
  {
    StepAgrees(s, CreateVm(v, coreSet));
    StepKeepsDevices(s, CreateVm(v, coreSet));
  }

  lemma DestroyUndoes(u: State, v: int)
    requires Inv(u) && v >= 0 && v in TheBook(u) && !TheBook(u)[v].running
    ensures var w := Step(u, DestroyVm(v)).0;
            && Inv(w) && SameDevices(u.pool, w.pool) && w.agents == u.agents
            && TheBook(w) == TheBook(u) - {v}
  {
    StepAgrees(u, DestroyVm(v));
    StepKeepsDevices(u, DestroyVm(v));
  }
}
