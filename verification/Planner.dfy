/** The client's planner: splitting a request, matching it to nodes with room, choosing a VM id. */
module Planner {
  import opened Wrappers
  import opened Sorting

  datatype MemPoolNode = MemPoolNode(nodeId: int, tierId: int, freeMb: int)

  /** A node id and the megabytes asked of it. */
  type Part = (int, int)

  datatype PlanError =
    | TooManyChannels(asked: int, available: int)
    | CapacityTooSmall(needMb: int, largestMb: int)
    | NoExistingChannels
    | NegativeChannels
    | MemoryTooSmall
    | NoMemoryYet
    | NothingAsked

  // ---------- splitting ----------

  function Sum(s: seq<int>): int {
    if s == [] then 0 else Sum(s[..|s| - 1]) + s[|s| - 1]
  }

  /** Equal parts, the first ones larger by one until the remainder is used up. */
  function Split(total: int, channels: int): (r: seq<int>)
    requires channels > 0
    ensures |r| == channels
    ensures forall i :: 0 <= i < channels ==> r[i] == total / channels + if i < total % channels then 1 else 0
  {
    seq(channels, i => total / channels + if i < total % channels then 1 else 0)
  }

  lemma {:induction false} SumOfSteps(s: seq<int>, base: int, rem: nat)
    requires rem <= |s| && forall i :: 0 <= i < |s| ==> s[i] == base + if i < rem then 1 else 0
    ensures Sum(s) == base * |s| + rem
  {
    if s != [] {
      var init := s[..|s| - 1];
      SumOfSteps(init, base, if rem == |s| then rem - 1 else rem);
      assert base * |s| == base * |init| + base;
    }
  }

  /** The split loses nothing and is as even as whole megabytes allow. */
  lemma SplitIsFair(total: int, channels: int)
    requires channels > 0
    ensures Sum(Split(total, channels)) == total
    ensures forall i, j :: 0 <= i <= j < channels ==>
              0 <= Split(total, channels)[i] - Split(total, channels)[j] <= 1
    ensures total >= channels ==> forall i :: 0 <= i < channels ==> Split(total, channels)[i] >= 1
  {
    SumOfSteps(Split(total, channels), total / channels, total % channels);
    assert total == (total / channels) * channels + total % channels;
    if total >= channels {
      QuotientIsPositive(total, channels);
    }
  }

  lemma QuotientIsPositive(total: int, channels: int)
    requires total >= channels > 0
    ensures total / channels >= 1
  {
    assert (total - channels) / channels >= 0;
  }

  method SplitMemory(total: int, channels: int) returns (result: seq<int>)
    requires channels > 0
    ensures result == Split(total, channels)
    ensures Sum(result) == total
  {
    var base, rem := total / channels, total % channels;
    result := seq(channels, _ => base);
    for i := 0 to rem
      invariant |result| == channels
      invariant forall k :: 0 <= k < channels ==> result[k] == base + if k < i then 1 else 0
    {
      result := result[i := result[i] + 1];
    }
    SplitIsFair(total, channels);
  }

  // ---------- what a plan is ----------

  function NodeIds(nodes: seq<MemPoolNode>): seq<int> {
    Map(nodes, (n: MemPoolNode) => n.nodeId)
  }

  function Targets(sel: seq<Part>): seq<int> {
    Map(sel, (p: Part) => p.0)
  }

  function Sizes(sel: seq<Part>): seq<int> {
    Map(sel, (p: Part) => p.1)
  }

  predicate HasRoom(nodes: seq<MemPoolNode>, part: Part) {
    exists k :: 0 <= k < |nodes| && nodes[k].nodeId == part.0 && nodes[k].freeMb >= part.1
  }

  /** Each size goes to a node of its own that has room for it. */
  predicate IsPlan(sel: seq<Part>, nodes: seq<MemPoolNode>, sizes: seq<int>) {
    && Distinct(Targets(sel))
    && multiset(Sizes(sel)) == multiset(sizes)
    && forall i :: 0 <= i < |sel| ==> HasRoom(nodes, sel[i])
  }

  // ---------- the greedy matching ----------

  function LargestFirst(sizes: seq<int>): (r: seq<int>)
    ensures |r| == |sizes|
  {
    SortBy(sizes, x => -x)
  }

  function RoomiestFirst(nodes: seq<MemPoolNode>): (r: seq<MemPoolNode>)
    ensures |r| == |nodes|
  {
    SortBy(nodes, (n: MemPoolNode) => -n.freeMb)
  }

  function ByNodeId(sel: seq<Part>): (r: seq<Part>)
    ensures |r| == |sel|
  {
    SortBy(sel, (p: Part) => p.0)
  }

  /** First position where the size does not fit the node across from it, or the length. */
  function FirstMisfit(sizes: seq<int>, nodes: seq<MemPoolNode>): (t: nat)
    requires |sizes| <= |nodes|
    ensures t <= |sizes|
    ensures forall i :: 0 <= i < t ==> sizes[i] <= nodes[i].freeMb
    ensures t < |sizes| ==> sizes[t] > nodes[t].freeMb
  {
    if sizes == [] || sizes[0] > nodes[0].freeMb then 0 else 1 + FirstMisfit(sizes[1..], nodes[1..])
  }

  function Pair(sizes: seq<int>, nodes: seq<MemPoolNode>): (r: seq<Part>)
    requires |sizes| <= |nodes|
    ensures |r| == |sizes| && forall i :: 0 <= i < |sizes| ==> r[i] == (nodes[i].nodeId, sizes[i])
  {
    seq(|sizes|, i requires 0 <= i < |sizes| => (nodes[i].nodeId, sizes[i]))
  }

  /** What the greedy matching comes to: largest size against roomiest node, and so on down. */
  function Choose(nodes: seq<MemPoolNode>, sizes: seq<int>): Result<seq<Part>, PlanError> {
    if sizes == [] then Ok([])
    else if |sizes| > |nodes| then Err(TooManyChannels(|sizes|, |nodes|))
    else
      var ss, ns := LargestFirst(sizes), RoomiestFirst(nodes);
      var t := FirstMisfit(ss, ns);
      if t < |ss| then Err(CapacityTooSmall(ss[t], ns[t].freeMb)) else Ok(ByNodeId(Pair(ss, ns)))
  }

  predicate Descending(nodes: seq<MemPoolNode>) {
    forall i, j :: 0 <= i < j < |nodes| ==> nodes[i].freeMb >= nodes[j].freeMb
  }

  lemma RoomiestFirstSorts(nodes: seq<MemPoolNode>)
    ensures var ns := RoomiestFirst(nodes);
            && multiset(ns) == multiset(nodes) && Descending(ns)
            && (Distinct(NodeIds(nodes)) ==> Distinct(NodeIds(ns)))
  {
    var key := (n: MemPoolNode) => -n.freeMb;
    SortBySorts(nodes, key);
    var ns := RoomiestFirst(nodes);
    assert forall i, j :: 0 <= i < j < |ns| ==> key(ns[i]) <= key(ns[j]);
    if Distinct(NodeIds(nodes)) {
      SortByKeepsImage(nodes, key, (n: MemPoolNode) => n.nodeId);
      PermutationKeepsDistinct(NodeIds(nodes), NodeIds(ns));
    }
  }

  lemma LargestFirstSorts(sizes: seq<int>)
    ensures multiset(LargestFirst(sizes)) == multiset(sizes) && NonIncreasing(LargestFirst(sizes))
  {
    var key := (x: int) => -x;
    SortBySorts(sizes, key);
    var ss := LargestFirst(sizes);
    assert forall i, j :: 0 <= i < j < |ss| ==> key(ss[i]) <= key(ss[j]);
  }

  /** Reordering the parts of a plan leaves it a plan. */
  lemma {:induction false} ReorderedPlan(sel: seq<Part>, key: Part -> int, nodes: seq<MemPoolNode>, sizes: seq<int>)
    requires IsPlan(sel, nodes, sizes)
    ensures IsPlan(SortBy(sel, key), nodes, sizes)
  {
    var r := SortBy(sel, key);
    SortBySorts(sel, key);
    SortByKeepsImage(sel, key, (p: Part) => p.0);
    SortByKeepsImage(sel, key, (p: Part) => p.1);
    PermutationKeepsDistinct(Targets(sel), Targets(r));
    forall i | 0 <= i < |r| ensures HasRoom(nodes, r[i]) {
      assert r[i] in multiset(sel);
    }
  }

  /**
   Exchange argument: if any plan exists, each size in decreasing order fits the node across
   from it, since the parts at least that large need that many different nodes with that room.
   */
  lemma AnyPlanFits(sel: seq<Part>, nodes: seq<MemPoolNode>, sizes: seq<int>, i: nat)
    requires IsPlan(sel, nodes, sizes) && i < |sizes| <= |nodes|
    ensures LargestFirst(sizes)[i] <= RoomiestFirst(nodes)[i].freeMb
  {
    var key := (p: Part) => -p.1;
    var big, ss, ns := SortBy(sel, key), LargestFirst(sizes), RoomiestFirst(nodes);
    ReorderedPlan(sel, key, nodes, sizes);
    SortBySorts(sel, key);
    LargestFirstSorts(sizes);
    RoomiestFirstSorts(nodes);
    assert forall a, b :: 0 <= a < b < |big| ==> key(big[a]) <= key(big[b]);
    NonIncreasingIsUnique(Sizes(big), ss);
    if ns[i].freeMb < ss[i] {
      var wanted, roomy := Targets(big[..i + 1]), NodeIds(ns[..i]);
      assert forall a :: 0 <= a < |wanted| ==> wanted[a] == Targets(big)[a];
      assert Distinct(wanted);
      ElementCount(wanted);
      ElementCount(roomy);
      forall x | x in Elements(wanted) ensures x in Elements(roomy) {
        var a :| 0 <= a <= i && wanted[a] == x;
        RoomyNodeIsEarly(nodes, big[a], ns, i);
      }
      CountSubset(Elements(wanted), Elements(roomy));
    }
  }

  lemma RoomyNodeIsEarly(nodes: seq<MemPoolNode>, part: Part, ns: seq<MemPoolNode>, i: nat)
    requires HasRoom(nodes, part) && i < |ns| && ns[i].freeMb < part.1
    requires multiset(ns) == multiset(nodes) && Descending(ns)
    ensures part.0 in NodeIds(ns[..i])
  {
    var k :| 0 <= k < |nodes| && nodes[k].nodeId == part.0 && nodes[k].freeMb >= part.1;
    assert nodes[k] in multiset(ns);
    var j :| 0 <= j < |ns| && ns[j] == nodes[k];
    assert j < i;
    assert NodeIds(ns[..i])[j] == part.0;
  }

  lemma {:induction false} CountSubset<T>(a: set<T>, b: set<T>)
    requires a <= b
    ensures |a| <= |b|
  {
    assert b == a + (b - a);
  }

  /**
   The greedy matching is sound and complete: it answers with a plan in increasing node
   order, or no plan exists at all.
   */
  lemma GreedyIsComplete(nodes: seq<MemPoolNode>, sizes: seq<int>)
    requires Distinct(NodeIds(nodes))
    ensures var r := Choose(nodes, sizes);
            && (r.Ok? ==> IsPlan(r.value, nodes, sizes) && Increasing(Targets(r.value)))
            && (r.Err? ==> forall sel :: !IsPlan(sel, nodes, sizes))
  {
    var ss, ns := LargestFirst(sizes), RoomiestFirst(nodes);
    if sizes == [] {
      assert IsPlan([], nodes, sizes);
    } else if |sizes| > |nodes| {
      forall sel ensures !IsPlan(sel, nodes, sizes) {
        if IsPlan(sel, nodes, sizes) {
          NoMorePartsThanNodes(sel, nodes, sizes);
        }
      }
    } else {
      var t := FirstMisfit(ss, ns);
      if t < |ss| {
        forall sel ensures !IsPlan(sel, nodes, sizes) {
          if IsPlan(sel, nodes, sizes) {
            AnyPlanFits(sel, nodes, sizes, t);
          }
        }
      } else {
        PairIsPlan(nodes, sizes);
        ReorderedPlan(Pair(ss, ns), (p: Part) => p.0, nodes, sizes);
        SortByIncreases(Pair(ss, ns), nodes, sizes);
      }
    }
  }

  /**
   What an error says: more parts than nodes, with both numbers; or a part, and the room of the roomiest node
   that is left for it, which is too small.
   */
  lemma RefusalNames(nodes: seq<MemPoolNode>, sizes: seq<int>)
    ensures match Choose(nodes, sizes)
            case Err(TooManyChannels(asked, available)) => asked == |sizes| && available == |nodes| && asked > available
            case Err(CapacityTooSmall(need, largest)) =>
              && |sizes| <= |nodes| && need in sizes && need > largest
              && exists n :: n in nodes && n.freeMb == largest
            case Err(_) => false
            case Ok(_) => true
  {
    var ss, ns := LargestFirst(sizes), RoomiestFirst(nodes);
    RoomiestFirstSorts(nodes);
    LargestFirstSorts(sizes);
    if sizes != [] && |sizes| <= |nodes| {
      var t := FirstMisfit(ss, ns);
      if t < |ss| {
        assert ss[t] in multiset(sizes) && ns[t] in multiset(nodes);
      }
    }
  }

  lemma NoMorePartsThanNodes(sel: seq<Part>, nodes: seq<MemPoolNode>, sizes: seq<int>)
    requires IsPlan(sel, nodes, sizes)
    ensures |sizes| <= |nodes|
  {
    assert |multiset(Sizes(sel))| == |multiset(sizes)|;
    ElementCount(Targets(sel));
    ElementCount(NodeIds(nodes));
    forall x | x in Elements(Targets(sel)) ensures x in Elements(NodeIds(nodes)) {
      var a :| 0 <= a < |sel| && Targets(sel)[a] == x;
      var k :| 0 <= k < |nodes| && nodes[k].nodeId == sel[a].0 && nodes[k].freeMb >= sel[a].1;
      assert NodeIds(nodes)[k] == x;
    }
    CountSubset(Elements(Targets(sel)), Elements(NodeIds(nodes)));
  }

  lemma PairIsPlan(nodes: seq<MemPoolNode>, sizes: seq<int>)
    requires Distinct(NodeIds(nodes)) && |sizes| <= |nodes|
    requires FirstMisfit(LargestFirst(sizes), RoomiestFirst(nodes)) == |sizes|
    ensures IsPlan(Pair(LargestFirst(sizes), RoomiestFirst(nodes)), nodes, sizes)
  {
    var ss, ns := LargestFirst(sizes), RoomiestFirst(nodes);
    var sel := Pair(ss, ns);
    RoomiestFirstSorts(nodes);
    LargestFirstSorts(sizes);
    assert Sizes(sel) == ss;
    forall i | 0 <= i < |sel| ensures HasRoom(nodes, sel[i]) {
      assert ns[i] in multiset(nodes);
      var k :| 0 <= k < |nodes| && nodes[k] == ns[i];
    }
    assert forall i :: 0 <= i < |sel| ==> Targets(sel)[i] == NodeIds(ns)[i];
  }

  lemma SortByIncreases(sel: seq<Part>, nodes: seq<MemPoolNode>, sizes: seq<int>)
    requires IsPlan(sel, nodes, sizes)
    ensures Increasing(Targets(ByNodeId(sel)))
  {
    var key := (p: Part) => p.0;
    SortBySorts(sel, key);
    ReorderedPlan(sel, key, nodes, sizes);
    var r := ByNodeId(sel);
    assert forall i, j :: 0 <= i < j < |r| ==> key(r[i]) <= key(r[j]);
    assert Distinct(Targets(r));
  }

  /** The matching as it is run: an inner scan over the candidates skips the ids already used. */
  method ChooseAllocationsForTier(tierNodes: seq<MemPoolNode>, requested: seq<int>)
      returns (r: Result<seq<Part>, PlanError>)
    requires Distinct(NodeIds(tierNodes))
    ensures r == Choose(tierNodes, requested)
  {
    if |requested| == 0 {
      return Ok([]);
    }
    if |requested| > |tierNodes| {
      return Err(TooManyChannels(|requested|, |tierNodes|));
    }
    var sizes, candidates := LargestFirst(requested), RoomiestFirst(tierNodes);
    RoomiestFirstSorts(tierNodes);
    var used: set<int> := {};
    var selected: seq<Part> := [];
    for i := 0 to |sizes|
      invariant forall k :: 0 <= k < i ==> sizes[k] <= candidates[k].freeMb
      invariant UsedUpTo(candidates, used, i)
      invariant selected == Pair(sizes, candidates)[..i]
    {
      var picked := 0;
      while picked < |candidates| && (candidates[picked].nodeId in used || candidates[picked].freeMb < sizes[i])
        invariant picked <= |candidates|
        invariant picked > i ==> candidates[i].freeMb < sizes[i]
      {
        picked := picked + 1;
      }
      if picked == |candidates| {
        var maxFree := LargestRemaining(candidates, used, i);
        MisfitAt(sizes, candidates, i);
        return Err(CapacityTooSmall(sizes[i], maxFree));
      }
      assert picked == i;
      UseNext(candidates, used, i);
      used := used + {candidates[picked].nodeId};
      selected := selected + [(candidates[picked].nodeId, sizes[i])];
    }
    assert selected == Pair(sizes, candidates);
    return Ok(ByNodeId(selected));
  }

  /** The ids used are those of the first `i` candidates. */
  predicate UsedUpTo(candidates: seq<MemPoolNode>, used: set<int>, i: nat) {
    forall k :: 0 <= k < |candidates| ==> (candidates[k].nodeId in used <==> k < i)
  }

  lemma UseNext(candidates: seq<MemPoolNode>, used: set<int>, i: nat)
    requires Distinct(NodeIds(candidates)) && UsedUpTo(candidates, used, i) && i < |candidates|
    ensures UsedUpTo(candidates, used + {candidates[i].nodeId}, i + 1)
  {
    forall k | 0 <= k < |candidates| && k != i ensures candidates[k].nodeId != candidates[i].nodeId {
      assert NodeIds(candidates)[k] == candidates[k].nodeId && NodeIds(candidates)[i] == candidates[i].nodeId;
    }
  }

  lemma {:induction false} MisfitAt(sizes: seq<int>, nodes: seq<MemPoolNode>, i: nat)
    requires i < |sizes| <= |nodes| && nodes[i].freeMb < sizes[i]
    requires forall k :: 0 <= k < i ==> sizes[k] <= nodes[k].freeMb
    ensures FirstMisfit(sizes, nodes) == i
  {
  }

  /** The largest room left, reported in the error: that of the first candidate not yet used. */
  method LargestRemaining(candidates: seq<MemPoolNode>, used: set<int>, ghost i: nat) returns (maxFree: int)
    requires Descending(candidates) && i < |candidates|
    requires UsedUpTo(candidates, used, i)
    ensures maxFree == candidates[i].freeMb
  {
    maxFree := 0;
    var found := false;
    for k := 0 to |candidates|
      invariant found <==> k > i
      invariant found ==> maxFree == candidates[i].freeMb
    {
      if candidates[k].nodeId !in used && (!found || candidates[k].freeMb > maxFree) {
        maxFree, found := candidates[k].freeMb, true;
      }
    }
  }

  // ---------- attaching to new or existing channels ----------

  function Filter(nodes: seq<MemPoolNode>, keep: MemPoolNode -> bool): (r: seq<MemPoolNode>)
    ensures forall n :: n in r <==> n in nodes && keep(n)
  {
    if nodes == [] then []
    else
      var rest := Filter(nodes[1..], keep);
      if keep(nodes[0]) then [nodes[0]] + rest else rest
  }

  lemma FilterOne(n: MemPoolNode, keep: MemPoolNode -> bool)
    requires keep(n)
    ensures Filter([n], keep) == [n]
  {
    assert [n][1..] == [] && Filter([], keep) == [];
  }

  lemma {:induction false} FilterKeepsDistinct(nodes: seq<MemPoolNode>, keep: MemPoolNode -> bool)
    requires Distinct(NodeIds(nodes))
    ensures Distinct(NodeIds(Filter(nodes, keep)))
  {
    if nodes != [] {
      var rest := nodes[1..];
      assert NodeIds(nodes) == [nodes[0].nodeId] + NodeIds(rest);
      DistinctFromFirst(NodeIds(nodes));
      FilterKeepsDistinct(rest, keep);
      FirstIsNew(nodes[0], Filter(rest, keep), rest);
    }
  }

  lemma FirstIsNew(n: MemPoolNode, some: seq<MemPoolNode>, all: seq<MemPoolNode>)
    requires n.nodeId !in NodeIds(all) && Distinct(NodeIds(some))
    requires forall m :: m in some ==> m in all
    ensures Distinct(NodeIds([n] + some))
  {
    forall k | 0 <= k < |some| ensures NodeIds(some)[k] != n.nodeId {
      assert some[k] in all;
      var i :| 0 <= i < |all| && all[i] == some[k];
      assert NodeIds(all)[i] == some[k].nodeId;
    }
    assert NodeIds([n] + some) == [n.nodeId] + NodeIds(some);
  }

  /** Nodes whose ids are in the given list, or are not, in their order. */
  function Keep(nodes: seq<MemPoolNode>, ids: seq<int>, listed: bool): (r: seq<MemPoolNode>)
    ensures forall n :: n in r <==> n in nodes && (n.nodeId in ids <==> listed)
  {
    Filter(nodes, (n: MemPoolNode) => (n.nodeId in ids) == listed)
  }

  lemma KeepDistinct(nodes: seq<MemPoolNode>, ids: seq<int>, listed: bool)
    requires Distinct(NodeIds(nodes))
    ensures Distinct(NodeIds(Keep(nodes, ids, listed)))
  {
    FilterKeepsDistinct(nodes, (n: MemPoolNode) => (n.nodeId in ids) == listed);
  }

  function ChooseForAttach(tierNodes: seq<MemPoolNode>, memoryMb: int, channels: int, existing: seq<int>)
      : Result<seq<Part>, PlanError>
  {
    if memoryMb <= 0 then Ok([])
    else if channels == 0 then
      var nodes := Keep(tierNodes, existing, true);
      if nodes == [] then Err(NoExistingChannels)
      else if memoryMb < |nodes| then Err(MemoryTooSmall)
      else Choose(nodes, Split(memoryMb, |nodes|))
    else if channels < 0 then Err(NegativeChannels)
    else
      var unused := Keep(tierNodes, existing, false);
      if channels > |unused| then Err(TooManyChannels(channels, |unused|))
      else if memoryMb < channels then Err(MemoryTooSmall)
      else Choose(RoomiestFirst(unused)[..channels], Split(memoryMb, channels))
  }

  lemma {:induction false} MisfitLooksAhead(sizes: seq<int>, nodes: seq<MemPoolNode>, k: nat)
    requires |sizes| <= k <= |nodes|
    ensures FirstMisfit(sizes, nodes[..k]) == FirstMisfit(sizes, nodes)
  {
    if sizes != [] && sizes[0] <= nodes[0].freeMb {
      MisfitLooksAhead(sizes[1..], nodes[1..], k - 1);
      assert nodes[..k][1..] == nodes[1..][..k - 1];
    }
  }

  /** Keeping only as many of the roomiest nodes as there are parts does not change the answer. */
  lemma CuttingLosesNothing(nodes: seq<MemPoolNode>, sizes: seq<int>)
    requires |sizes| <= |nodes|
    ensures Choose(RoomiestFirst(nodes)[..|sizes|], sizes) == Choose(nodes, sizes)
  {
    var key := (n: MemPoolNode) => -n.freeMb;
    var ss, ns, kept := LargestFirst(sizes), RoomiestFirst(nodes), RoomiestFirst(nodes)[..|sizes|];
    SortBySorts(nodes, key);
    SortOfSorted(kept, key);
    assert RoomiestFirst(kept) == kept;
    MisfitLooksAhead(ss, ns, |sizes|);
    assert Pair(ss, kept) == Pair(ss, ns);
  }

  lemma {:induction false} SumOfConcat(a: seq<int>, b: seq<int>)
    ensures Sum(a + b) == Sum(a) + Sum(b)
  {
    if b == [] {
      assert a + b == a;
    } else {
      SumOfConcat(a, b[..|b| - 1]);
      assert (a + b)[..|a + b| - 1] == a + b[..|b| - 1];
    }
  }

  function Without(s: seq<int>, i: nat): (r: seq<int>)
    requires i < |s|
    ensures multiset(r) == multiset(s) - multiset{s[i]}
  {
    assert s == s[..i] + [s[i]] + s[i + 1..];
    s[..i] + s[i + 1..]
  }

  lemma SumOne(x: int)
    ensures Sum([x]) == x
  {
    assert [x][..0] == [];
  }

  lemma {:induction false} SumAround(front: seq<int>, one: seq<int>, back: seq<int>)
    ensures Sum((front + one) + back) == Sum(front + back) + Sum(one)
  {
    SumOfConcat(front + one, back);
    SumOfConcat(front, one);
    SumOfConcat(front, back);
  }

  lemma {:induction false} SumWithout(s: seq<int>, i: nat)
    requires i < |s|
    ensures Sum(s) == Sum(Without(s, i)) + s[i]
  {
    SumAround(s[..i], [s[i]], s[i + 1..]);
    SumOne(s[i]);
    assert s == (s[..i] + [s[i]]) + s[i + 1..];
  }

  lemma {:induction false} SumOfPermutation(a: seq<int>, b: seq<int>)
    requires multiset(a) == multiset(b)
    ensures Sum(a) == Sum(b)
  {
    assert |multiset(a)| == |a| && |multiset(b)| == |b|;
    if a != [] {
      assert a[0] in multiset(b);
      var i :| 0 <= i < |b| && b[i] == a[0];
      SumOfPermutation(Without(a, 0), Without(b, i));
      SumWithout(a, 0);
      SumWithout(b, i);
    }
  }

  /** What a request is matched against, and over how many channels it is spread. */
  function Eligible(tierNodes: seq<MemPoolNode>, channels: int, existing: seq<int>): seq<MemPoolNode> {
    Keep(tierNodes, existing, channels == 0)
  }

  function ChannelCount(tierNodes: seq<MemPoolNode>, channels: int, existing: seq<int>): int {
    if channels == 0 then |Eligible(tierNodes, 0, existing)| else channels
  }

  /** The request can be met: a megabyte or more a channel, and a plan over the eligible nodes. */
  ghost predicate CanServe(tierNodes: seq<MemPoolNode>, memoryMb: int, channels: int, existing: seq<int>) {
    var n := ChannelCount(tierNodes, channels, existing);
    && 0 < n <= memoryMb
    && exists sel :: IsPlan(sel, Eligible(tierNodes, channels, existing), Split(memoryMb, n))
  }

  /** The choice on the cut list is the choice on all eligible nodes. */
  lemma AttachIsChoice(tierNodes: seq<MemPoolNode>, memoryMb: int, channels: int, existing: seq<int>)
    requires Distinct(NodeIds(tierNodes)) && memoryMb > 0
    ensures var n := ChannelCount(tierNodes, channels, existing);
            var nodes := Eligible(tierNodes, channels, existing);
            var r := ChooseForAttach(tierNodes, memoryMb, channels, existing);
            && (0 < n <= memoryMb && n <= |nodes| ==> r == Choose(nodes, Split(memoryMb, n)))
            && (!(0 < n <= memoryMb && n <= |nodes|) ==> r.Err?)
  {
    var n := ChannelCount(tierNodes, channels, existing);
    var nodes := Eligible(tierNodes, channels, existing);
    if channels > 0 && n <= memoryMb && n <= |nodes| {
      CuttingLosesNothing(nodes, Split(memoryMb, n));
    }
  }

  /**
   An attach request is planned exactly when it can be served, although only the roomiest
   new nodes are looked at, and then all of it is placed, on nodes of the right kind.
   */
  lemma AttachPlanIsExact(tierNodes: seq<MemPoolNode>, memoryMb: int, channels: int, existing: seq<int>)
    requires Distinct(NodeIds(tierNodes)) && memoryMb > 0
    ensures var r := ChooseForAttach(tierNodes, memoryMb, channels, existing);
            && (r.Ok? <==> CanServe(tierNodes, memoryMb, channels, existing))
            && (r.Ok? ==>
                  && Sum(Sizes(r.value)) == memoryMb && Even(r.value)
                  && |r.value| == ChannelCount(tierNodes, channels, existing)
                  && Increasing(Targets(r.value))
                  && (channels == 0 ==>
                        forall n :: n in tierNodes && n.nodeId in existing ==> n.nodeId in Targets(r.value))
                  && (forall i :: 0 <= i < |r.value| ==>
                        HasRoom(tierNodes, r.value[i]) && r.value[i].1 >= 1
                        && (r.value[i].0 in existing <==> channels == 0)))
  {
    KeepDistinct(tierNodes, existing, channels == 0);
    AttachIsChoice(tierNodes, memoryMb, channels, existing);
    var n := ChannelCount(tierNodes, channels, existing);
    var nodes := Eligible(tierNodes, channels, existing);
    if 0 < n <= memoryMb {
      var sizes := Split(memoryMb, n);
      GreedyIsComplete(nodes, sizes);
      if n <= |nodes| {
        var r := Choose(nodes, sizes);
        if r.Ok? {
          PlacesEverything(r.value, nodes, memoryMb, n);
          ServedFromEligible(r.value, tierNodes, sizes, existing, channels == 0);
          if channels == 0 {
            AllTargetsEligible(r.value, nodes, sizes);
          }
        }
      } else {
        assert Choose(nodes, sizes).Err?;
      }
    }
  }

  lemma PlacesEverything(sel: seq<Part>, nodes: seq<MemPoolNode>, total: int, channels: int)
    requires 0 < channels <= total && IsPlan(sel, nodes, Split(total, channels))
    ensures |sel| == channels && Sum(Sizes(sel)) == total && Even(sel)
    ensures forall i :: 0 <= i < |sel| ==> sel[i].1 >= 1
  {
    var sizes := Split(total, channels);
    SplitIsFair(total, channels);
    SumOfPermutation(Sizes(sel), sizes);
    assert |multiset(Sizes(sel))| == |multiset(sizes)|;
    forall i | 0 <= i < |sel| ensures 1 <= sel[i].1 && total / channels <= sel[i].1 <= total / channels + 1 {
      assert Sizes(sel)[i] in multiset(sizes);
    }
  }

  lemma AllTargetsEligible(sel: seq<Part>, nodes: seq<MemPoolNode>, sizes: seq<int>)
    requires IsPlan(sel, nodes, sizes) && |sel| == |nodes|
    ensures forall n :: n in nodes ==> n.nodeId in Targets(sel)
  {
    forall i | 0 <= i < |sel| ensures sel[i].0 in NodeIds(nodes) {
      var a :| 0 <= a < |nodes| && nodes[a].nodeId == sel[i].0 && nodes[a].freeMb >= sel[i].1;
      assert NodeIds(nodes)[a] == sel[i].0;
    }
    AllTargeted(sel, nodes);
  }

  lemma ServedFromEligible(
      sel: seq<Part>, tierNodes: seq<MemPoolNode>, sizes: seq<int>, existing: seq<int>, listed: bool)
    requires IsPlan(sel, Keep(tierNodes, existing, listed), sizes)
    ensures forall i :: 0 <= i < |sel| ==> HasRoom(tierNodes, sel[i]) && (sel[i].0 in existing <==> listed)
  {
    var nodes := Keep(tierNodes, existing, listed);
    forall i | 0 <= i < |sel| ensures HasRoom(tierNodes, sel[i]) && (sel[i].0 in existing <==> listed) {
      var a :| 0 <= a < |nodes| && nodes[a].nodeId == sel[i].0 && nodes[a].freeMb >= sel[i].1;
      assert nodes[a] in tierNodes;
      var b :| 0 <= b < |tierNodes| && tierNodes[b] == nodes[a];
    }
  }

  // ---------- a new VM: local memory, and CXL memory when asked ----------

  function OfTier(nodes: seq<MemPoolNode>, tier: int): (r: seq<MemPoolNode>)
    ensures forall n :: n in r <==> n in nodes && n.tierId == tier
  {
    Filter(nodes, (n: MemPoolNode) => n.tierId == tier)
  }

  lemma OfTierDistinct(nodes: seq<MemPoolNode>, tier: int)
    requires Distinct(NodeIds(nodes))
    ensures Distinct(NodeIds(OfTier(nodes, tier)))
  {
    FilterKeepsDistinct(nodes, (n: MemPoolNode) => n.tierId == tier);
  }

  function BuildPlan(pool: seq<MemPoolNode>, memoryMb: int, channels: int, cxlMemoryMb: int, cxlChannels: int)
      : Result<seq<Part>, PlanError>
    requires channels > 0
  {
    match Choose(OfTier(pool, 0), Split(memoryMb, channels))
    case Err(e) => Err(e)
    case Ok(local) =>
      if cxlChannels <= 0 then Ok(local)
      else
        match Choose(OfTier(pool, 1), Split(cxlMemoryMb, cxlChannels))
        case Err(e) => Err(e)
        case Ok(cxl) => Ok(local + cxl)
  }

  /** Some plan puts the request on the tier, spread over that many channels. */
  ghost predicate TierCanServe(pool: seq<MemPoolNode>, tier: int, memoryMb: int, channels: int) {
    channels > 0 && exists sel :: IsPlan(sel, OfTier(pool, tier), Split(memoryMb, channels))
  }

  /** Nothing to choose between the sizes. */
  predicate Even(sel: seq<Part>) {
    forall i, j :: 0 <= i < |sel| && 0 <= j < |sel| ==> sel[i].1 <= sel[j].1 + 1
  }

  /** That much memory on nodes of the tier, in node order, evenly over that many of them. */
  predicate Share(pool: seq<MemPoolNode>, tier: int, sel: seq<Part>, memoryMb: int, channels: int) {
    && |sel| == channels && Sum(Sizes(sel)) == memoryMb
    && Increasing(Targets(sel)) && Even(sel)
    && forall i :: 0 <= i < |sel| ==> OnTier(pool, tier, sel[i]) && sel[i].1 >= 1
  }

  lemma IncreasingIsDistinct(s: seq<int>)
    requires Increasing(s)
    ensures Distinct(s)
  {
  }

  lemma TierPlan(pool: seq<MemPoolNode>, tier: int, memoryMb: int, channels: int)
    requires Distinct(NodeIds(pool)) && 0 < channels <= memoryMb
    ensures var r := Choose(OfTier(pool, tier), Split(memoryMb, channels));
            && (r.Ok? <==> TierCanServe(pool, tier, memoryMb, channels))
            && (r.Ok? ==> Share(pool, tier, r.value, memoryMb, channels))
  {
    var nodes, sizes := OfTier(pool, tier), Split(memoryMb, channels);
    OfTierDistinct(pool, tier);
    GreedyIsComplete(nodes, sizes);
    var r := Choose(nodes, sizes);
    if r.Ok? {
      PlacesEverything(r.value, nodes, memoryMb, channels);
      PlacedOnTier(r.value, pool, sizes, tier);
    }
  }

  /**
   A plan for a new VM exists exactly when both tiers can serve. Its first parts are the local memory, all on
   tier 0, the others the CXL memory, all on tier 1; no node is used twice.
   */
  lemma PlanPlacesBothTiers(pool: seq<MemPoolNode>, memoryMb: int, channels: int, cxlMemoryMb: int, cxlChannels: int)
    requires Distinct(NodeIds(pool))
    requires 0 < channels <= memoryMb && (if cxlChannels > 0 then cxlChannels <= cxlMemoryMb else cxlMemoryMb == 0)
    ensures var r := BuildPlan(pool, memoryMb, channels, cxlMemoryMb, cxlChannels);
            && (r.Ok? <==>
                  && TierCanServe(pool, 0, memoryMb, channels)
                  && (cxlChannels > 0 ==> TierCanServe(pool, 1, cxlMemoryMb, cxlChannels)))
            && (r.Ok? ==>
                  && |r.value| >= channels && Distinct(Targets(r.value))
                  && Share(pool, 0, r.value[..channels], memoryMb, channels)
                  && Share(pool, 1, r.value[channels..], cxlMemoryMb, if cxlChannels > 0 then cxlChannels else 0))
  {
    TierPlan(pool, 0, memoryMb, channels);
    var local := Choose(OfTier(pool, 0), Split(memoryMb, channels));
    if cxlChannels > 0 {
      TierPlan(pool, 1, cxlMemoryMb, cxlChannels);
      var cxl := Choose(OfTier(pool, 1), Split(cxlMemoryMb, cxlChannels));
      if local.Ok? && cxl.Ok? {
        TiersDoNotMix(local.value, cxl.value, pool);
        TakenApart(local.value, cxl.value);
      }
    } else if local.Ok? {
      NoShare(pool, 1);
      IncreasingIsDistinct(Targets(local.value));
      TakenApart(local.value, []);
      assert local.value + [] == local.value;
    }
  }

  lemma TakenApart(a: seq<Part>, b: seq<Part>)
    ensures (a + b)[..|a|] == a && (a + b)[|a|..] == b
  {
  }

  lemma PutTogether(sel: seq<Part>, k: nat)
    requires k <= |sel|
    ensures sel == sel[..k] + sel[k..]
  {
  }

  /** Nothing is a share of nothing. */
  lemma NoShare(pool: seq<MemPoolNode>, tier: int)
    ensures Share(pool, tier, [], 0, 0)
  {
    assert Sizes([]) == [];
  }

  predicate OnTier(pool: seq<MemPoolNode>, tier: int, part: Part) {
    exists k :: 0 <= k < |pool| && pool[k].nodeId == part.0 && pool[k].freeMb >= part.1 && pool[k].tierId == tier
  }

  lemma PlacedOnTier(sel: seq<Part>, pool: seq<MemPoolNode>, sizes: seq<int>, tier: int)
    requires IsPlan(sel, OfTier(pool, tier), sizes)
    ensures forall i :: 0 <= i < |sel| ==> OnTier(pool, tier, sel[i]) && HasRoom(pool, sel[i])
  {
    var nodes := OfTier(pool, tier);
    forall i | 0 <= i < |sel| ensures OnTier(pool, tier, sel[i]) && HasRoom(pool, sel[i]) {
      var a :| 0 <= a < |nodes| && nodes[a].nodeId == sel[i].0 && nodes[a].freeMb >= sel[i].1;
      assert nodes[a] in pool;
      var b :| 0 <= b < |pool| && pool[b] == nodes[a];
    }
  }

  lemma TiersDoNotMix(a: seq<Part>, b: seq<Part>, pool: seq<MemPoolNode>)
    requires Distinct(NodeIds(pool)) && Increasing(Targets(a)) && Increasing(Targets(b))
    requires forall i :: 0 <= i < |a| ==> OnTier(pool, 0, a[i])
    requires forall i :: 0 <= i < |b| ==> OnTier(pool, 1, b[i])
    ensures Distinct(Targets(a + b)) && Sum(Sizes(a + b)) == Sum(Sizes(a)) + Sum(Sizes(b))
  {
    IncreasingIsDistinct(Targets(a));
    IncreasingIsDistinct(Targets(b));
    assert Targets(a + b) == Targets(a) + Targets(b);
    assert Sizes(a + b) == Sizes(a) + Sizes(b);
    SumOfConcat(Sizes(a), Sizes(b));
    forall i, j | 0 <= i < |a| && 0 <= j < |b| ensures Targets(a)[i] != Targets(b)[j] {
      OneTierANode(pool, a[i], b[j]);
    }
  }

  lemma OneTierANode(pool: seq<MemPoolNode>, a: Part, b: Part)
    requires Distinct(NodeIds(pool)) && OnTier(pool, 0, a) && OnTier(pool, 1, b)
    ensures a.0 != b.0
  {
    var k :| 0 <= k < |pool| && pool[k].nodeId == a.0 && pool[k].freeMb >= a.1 && pool[k].tierId == 0;
    var l :| 0 <= l < |pool| && pool[l].nodeId == b.0 && pool[l].freeMb >= b.1 && pool[l].tierId == 1;
    assert NodeIds(pool)[k] == a.0 && NodeIds(pool)[l] == b.0;
  }

  // ---------- attaching on both tiers ----------

  /** The plan of an attach, given the nodes the VM already uses. */
  function AttachPlan(
      pool: seq<MemPoolNode>, existing: seq<int>, localMb: int, localChannels: int, cxlMb: int, cxlChannels: int)
      : Result<seq<Part>, PlanError>
  {
    if existing == [] then Err(NoMemoryYet)
    else
      match (ChooseForAttach(OfTier(pool, 0), localMb, localChannels, existing),
             ChooseForAttach(OfTier(pool, 1), cxlMb, cxlChannels, existing))
      case (Err(e), _) => Err(e)
      case (_, Err(e)) => Err(e)
      case (Ok(local), Ok(cxl)) => if local + cxl == [] then Err(NothingAsked) else Ok(local + cxl)
  }

  function Asked(memoryMb: int): nat {
    if memoryMb > 0 then memoryMb else 0
  }

  /**
   One tier's share of an attach: nothing when nothing is asked; else all that is asked, on as many new nodes
   as there are channels, or, for no channels, on exactly the nodes of the tier the VM already has.
   */
  predicate AttachShare(
      pool: seq<MemPoolNode>, tier: int, sel: seq<Part>, existing: seq<int>, memoryMb: int, channels: int)
  {
    if memoryMb <= 0 then sel == []
    else
      && Share(pool, tier, sel, memoryMb, |sel|)
      && (channels != 0 ==> |sel| == channels && forall i :: 0 <= i < |sel| ==> sel[i].0 !in existing)
      && (channels == 0 ==>
            && (forall i :: 0 <= i < |sel| ==> sel[i].0 in existing)
            && forall k :: 0 <= k < |pool| && pool[k].tierId == tier && pool[k].nodeId in existing ==>
                 pool[k].nodeId in Targets(sel))
  }

  lemma PartOnTier(pool: seq<MemPoolNode>, tier: int, part: Part)
    requires HasRoom(OfTier(pool, tier), part)
    ensures OnTier(pool, tier, part) && HasRoom(pool, part)
  {
    var nodes := OfTier(pool, tier);
    var a :| 0 <= a < |nodes| && nodes[a].nodeId == part.0 && nodes[a].freeMb >= part.1;
    assert nodes[a] in pool;
    var b :| 0 <= b < |pool| && pool[b] == nodes[a];
  }

  /** As many different targets as there are nodes, all among them, are all of them. */
  lemma AllTargeted(sel: seq<Part>, nodes: seq<MemPoolNode>)
    requires |sel| == |nodes| && Distinct(Targets(sel))
    requires forall i :: 0 <= i < |sel| ==> sel[i].0 in NodeIds(nodes)
    ensures forall n :: n in nodes ==> n.nodeId in Targets(sel)
  {
    var have, all := Elements(Targets(sel)), Elements(NodeIds(nodes));
    ElementCount(Targets(sel));
    ElementCount(NodeIds(nodes));
    forall x | x in have ensures x in all {
      var i :| 0 <= i < |sel| && Targets(sel)[i] == x;
    }
    SameSize(have, all);
    forall n | n in nodes ensures n.nodeId in Targets(sel) {
      var k :| 0 <= k < |nodes| && nodes[k] == n;
      assert NodeIds(nodes)[k] in all;
    }
  }

  lemma SameSize<T>(a: set<T>, b: set<T>)
    requires a <= b && |a| >= |b|
    ensures a == b
  {
    assert b == a + (b - a);
  }

  /** One tier of an attach plan: made exactly when it can be served, and then its share. */
  lemma AttachOnTier(pool: seq<MemPoolNode>, tier: int, existing: seq<int>, memoryMb: int, channels: int)
    requires Distinct(NodeIds(pool))
    ensures var r := ChooseForAttach(OfTier(pool, tier), memoryMb, channels, existing);
            && (r.Ok? <==> memoryMb <= 0 || CanServe(OfTier(pool, tier), memoryMb, channels, existing))
            && (r.Ok? ==> AttachShare(pool, tier, r.value, existing, memoryMb, channels))
  {
    if memoryMb > 0 {
      var nodes := OfTier(pool, tier);
      OfTierDistinct(pool, tier);
      AttachPlanIsExact(nodes, memoryMb, channels, existing);
      var r := ChooseForAttach(nodes, memoryMb, channels, existing);
      if r.Ok? {
        forall i | 0 <= i < |r.value| ensures OnTier(pool, tier, r.value[i]) {
          PartOnTier(pool, tier, r.value[i]);
        }
        forall k | channels == 0 && 0 <= k < |pool| && pool[k].tierId == tier && pool[k].nodeId in existing
          ensures pool[k].nodeId in Targets(r.value)
        {
          assert pool[k] in nodes;
        }
      }
    }
  }

  /**
   An attach plan exists exactly when the VM has memory, something is asked, and what is asked of each tier can be
   served. It is the share of tier 0 followed by the share of tier 1, and names no node twice.
   */
  lemma AttachPlanPlacesAll(
      pool: seq<MemPoolNode>, existing: seq<int>, localMb: int, localChannels: int, cxlMb: int, cxlChannels: int)
      returns (k: nat)
    requires Distinct(NodeIds(pool))
    ensures var r := AttachPlan(pool, existing, localMb, localChannels, cxlMb, cxlChannels);
            && (r.Ok? <==>
                  && existing != [] && (localMb > 0 || cxlMb > 0)
                  && (localMb > 0 ==> CanServe(OfTier(pool, 0), localMb, localChannels, existing))
                  && (cxlMb > 0 ==> CanServe(OfTier(pool, 1), cxlMb, cxlChannels, existing)))
            && (r.Ok? ==>
                  && r.value != [] && Distinct(Targets(r.value)) && k <= |r.value|
                  && AttachShare(pool, 0, r.value[..k], existing, localMb, localChannels)
                  && AttachShare(pool, 1, r.value[k..], existing, cxlMb, cxlChannels))
  {
    AttachOnTier(pool, 0, existing, localMb, localChannels);
    AttachOnTier(pool, 1, existing, cxlMb, cxlChannels);
    var local := ChooseForAttach(OfTier(pool, 0), localMb, localChannels, existing);
    var cxl := ChooseForAttach(OfTier(pool, 1), cxlMb, cxlChannels, existing);
    k := 0;
    if local.Ok? && cxl.Ok? {
      k := |local.value|;
      ShareFacts(pool, 0, local.value, existing, localMb, localChannels);
      ShareFacts(pool, 1, cxl.value, existing, cxlMb, cxlChannels);
      TiersDoNotMix(local.value, cxl.value, pool);
      TakenApart(local.value, cxl.value);
    }
  }

  /** A share is as much as was asked, in node order, each part a megabyte or more on a node of the tier. */
  lemma ShareFacts(
      pool: seq<MemPoolNode>, tier: int, sel: seq<Part>, existing: seq<int>, memoryMb: int, channels: int)
    requires AttachShare(pool, tier, sel, existing, memoryMb, channels)
    ensures Increasing(Targets(sel)) && Sum(Sizes(sel)) == Asked(memoryMb)
    ensures sel == [] <==> memoryMb <= 0
    ensures forall i :: 0 <= i < |sel| ==> OnTier(pool, tier, sel[i]) && HasRoom(pool, sel[i]) && sel[i].1 >= 1
  {
    if sel == [] {
      assert Sizes(sel) == [];
    }
    forall i | 0 <= i < |sel| ensures HasRoom(pool, sel[i]) {
      assert OnTier(pool, tier, sel[i]);
    }
  }

  lemma RoomInBoth(pool: seq<MemPoolNode>, a: seq<Part>, b: seq<Part>)
    requires forall i :: 0 <= i < |a| ==> HasRoom(pool, a[i]) && a[i].1 >= 1
    requires forall i :: 0 <= i < |b| ==> HasRoom(pool, b[i]) && b[i].1 >= 1
    ensures forall i :: 0 <= i < |a + b| ==> HasRoom(pool, (a + b)[i]) && (a + b)[i].1 >= 1
  {
    forall i | 0 <= i < |a + b| ensures HasRoom(pool, (a + b)[i]) && (a + b)[i].1 >= 1 {
      assert (a + b)[i] == if i < |a| then a[i] else b[i - |a|];
    }
  }

  lemma SharesTogether(
      pool: seq<MemPoolNode>, a: seq<Part>, b: seq<Part>, existing: seq<int>, localMb: int, localChannels: int,
      cxlMb: int, cxlChannels: int)
    requires Distinct(NodeIds(pool))
    requires AttachShare(pool, 0, a, existing, localMb, localChannels)
    requires AttachShare(pool, 1, b, existing, cxlMb, cxlChannels)
    ensures Sum(Sizes(a + b)) == Asked(localMb) + Asked(cxlMb)
    ensures forall i :: 0 <= i < |a + b| ==> HasRoom(pool, (a + b)[i]) && (a + b)[i].1 >= 1
  {
    ShareFacts(pool, 0, a, existing, localMb, localChannels);
    ShareFacts(pool, 1, b, existing, cxlMb, cxlChannels);
    TiersDoNotMix(a, b, pool);
    RoomInBoth(pool, a, b);
  }

  /** All of an attach plan: what was asked of both tiers together, each part with room where it goes. */
  lemma AttachPlanTotal(
      pool: seq<MemPoolNode>, existing: seq<int>, localMb: int, localChannels: int, cxlMb: int, cxlChannels: int)
    requires Distinct(NodeIds(pool))
    requires AttachPlan(pool, existing, localMb, localChannels, cxlMb, cxlChannels).Ok?
    ensures var sel := AttachPlan(pool, existing, localMb, localChannels, cxlMb, cxlChannels).value;
            && sel != [] && Distinct(Targets(sel)) && Sum(Sizes(sel)) == Asked(localMb) + Asked(cxlMb)
            && forall i :: 0 <= i < |sel| ==> HasRoom(pool, sel[i]) && sel[i].1 >= 1
  {
    var sel := AttachPlan(pool, existing, localMb, localChannels, cxlMb, cxlChannels).value;
    var k := AttachPlanPlacesAll(pool, existing, localMb, localChannels, cxlMb, cxlChannels);
    SharesTogether(pool, sel[..k], sel[k..], existing, localMb, localChannels, cxlMb, cxlChannels);
    PutTogether(sel, k);
  }

  // ---------- choosing a VM id ----------

  predicate LeastUnused(id: int, used: set<int>) {
    0 <= id && id !in used && forall k :: 0 <= k < id ==> k in used
  }

  function UpTo(n: nat): (s: set<int>)
    ensures |s| == n && forall k :: k in s <==> 0 <= k < n
  {
    if n == 0 then {} else UpTo(n - 1) + {n - 1}
  }

  /** Ids below the answer are all taken, so it is at most the number of taken ids. */
  lemma UsedPrefixIsShort(id: nat, used: set<int>)
    requires forall k :: 0 <= k < id ==> k in used
    ensures id <= |used|
  {
    CountSubset(UpTo(id), used);
  }

  method SelectVmid(existing: seq<int>) returns (vmid: nat)
    ensures LeastUnused(vmid, Elements(existing))
    ensures vmid <= |Elements(existing)| <= |existing|
  {
    var used := Elements(existing);
    ElementCount(existing);
    vmid := 0;
    while vmid in used
      invariant forall k :: 0 <= k < vmid ==> k in used
      decreases |used| - vmid
    {
      UsedPrefixIsShort(vmid + 1, used);
      vmid := vmid + 1;
    }
    UsedPrefixIsShort(vmid, used);
  }
}
