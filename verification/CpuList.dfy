/** The three readings of a CPU list such as "0-9,20-29": the server's cores, the client's list and set. */
module CpuList {
  import opened Wrappers
  import opened Text
  import opened Sorting
  import opened Lists

  function Range(first: int, last: int): (r: seq<int>)
    ensures |r| == if first <= last then last - first + 1 else 0
    ensures forall i :: 0 <= i < |r| ==> r[i] == first + i
  {
    seq(if first <= last then last - first + 1 else 0, i => first + i)
  }

  // ---------- the server's traversal ----------

  const CORE_SET_SIZE := 256

  /** The stored core set: what fits a 256-byte buffer. */
  function Clip(coreSet: string): string {
    if |coreSet| < CORE_SET_SIZE then coreSet else coreSet[..CORE_SET_SIZE - 1]
  }

  /** The callbacks made for one token: a range, a single core, or nothing. */
  function VisitToken(token: string): seq<int> {
    match ScanInt(token)
    case None => []
    case Some((start, rest)) =>
      if rest == "" || rest[0] != '-' then [start]
      else match ScanInt(rest[1..])
           case None => [start]
           case Some((end, _)) => Range(start, end)
  }

  function VisitTokens(tokens: seq<string>): (v: seq<seq<int>>)
    ensures |v| == |tokens|
    ensures forall i :: 0 <= i < |tokens| ==> v[i] == VisitToken(tokens[i])
  {
    seq(|tokens|, i requires 0 <= i < |tokens| => VisitToken(tokens[i]))
  }

  /** The cores visited, in order. An empty token visits nothing, so skipping it changes nothing. */
  function VisitCores(coreSet: string): seq<int> {
    Concat(VisitTokens(Split(coreSet, ',')))
  }

  lemma EmptySetVisitsNothing()
    ensures VisitCores("") == []
  {
    IndexOfAbsent("", ',');
    assert Split("", ',') == [""] && VisitToken("") == [];
    var none: seq<int> := [];
    assert VisitTokens([""]) == [none] && Concat([none]) == none;
  }

  /** One token as written: scan for a range, else for a single core. */
  method ForEachCoreOfToken(token: string) returns (visited: seq<int>)
    ensures visited == VisitToken(token)
  {
    visited := [];
    var one := ScanInt(token);
    if one == None {
      return;
    }
    var (start, rest) := one.value;
    var two := if rest != "" && rest[0] == '-' then ScanInt(rest[1..]) else None;
    if two.Some? {
      var end := two.value.0;
      if start <= end {
        for i := start to end + 1
          invariant visited == Range(start, end)[..i - start]
        {
          visited := visited + [i];
        }
      }
    } else {
      visited := [start];
    }
  }

  /** The traversal; the result lists the callbacks' core arguments. Empty tokens are skipped. */
  method ForEachCore(coreSet: string) returns (visited: seq<int>)
    requires coreSet != ""
    ensures visited == VisitCores(coreSet)
  {
    var tokens := Split(coreSet, ',');
    ghost var visits := VisitTokens(tokens);
    visited := [];
    for t := 0 to |tokens|
      invariant visited == Concat(visits[..t])
    {
      ConcatNext(visits, t);
      if tokens[t] != "" {
        var cores := ForEachCoreOfToken(tokens[t]);
        visited := visited + cores;
      } else {
        assert visits[t] == [];
      }
    }
    assert visits[..|tokens|] == visits;
  }

  // ---------- the client's list ----------

  /** The CPUs of one trimmed part; None is the client's ValueError. */
  function ExpandTrimmed(p: string): Option<seq<int>> {
    if p == "" then Some([])
    else
      var i := IndexOf(p, '-');
      if i < |p| then
        match (PyInt(p[..i]), PyInt(p[i + 1..]))
        case (Some(start), Some(end)) => if end < start then None else Some(Range(start, end))
        case _ => None
      else
        match PyInt(p)
        case Some(n) => Some([n])
        case None => None
  }

  function ExpandPart(part: string): Option<seq<int>> {
    ExpandTrimmed(Strip(part))
  }

  function ExpandParts(parts: seq<string>): (r: seq<Option<seq<int>>>)
    ensures |r| == |parts|
    ensures forall i :: 0 <= i < |parts| ==> r[i] == ExpandPart(parts[i])
  {
    seq(|parts|, i requires 0 <= i < |parts| => ExpandPart(parts[i]))
  }

  /** All the lists together, or nothing when one is missing. */
  function Gather(lists: seq<Option<seq<int>>>): Option<seq<int>> {
    if lists == [] then Some([])
    else match (Gather(lists[..|lists| - 1]), lists[|lists| - 1])
         case (Some(a), Some(b)) => Some(a + b)
         case _ => None
  }

  /** All CPUs in the order written, repeats kept. */
  function ExpandedCpus(text: string): Option<seq<int>> {
    Gather(ExpandParts(Split(text, ',')))
  }

  lemma GatherNext(lists: seq<Option<seq<int>>>, t: nat)
    requires t < |lists| && Gather(lists[..t]).Some? && lists[t].Some?
    ensures Gather(lists[..t + 1]) == Some(Gather(lists[..t]).value + lists[t].value)
  {
    assert lists[..t + 1][..t] == lists[..t];
  }

  lemma {:induction false} GatherMissing(lists: seq<Option<seq<int>>>, t: nat)
    requires t < |lists| && lists[t] == None
    ensures Gather(lists) == None
  {
    if t < |lists| - 1 {
      GatherMissing(lists[..|lists| - 1], t);
    }
  }

  /** `expand_cpu_list`: extend part by part, stopping at the first bad one. */
  method ExpandCpuList(text: string) returns (r: Option<seq<int>>)
    ensures r == ExpandedCpus(text)
  {
    var parts := Split(text, ',');
    ghost var lists := ExpandParts(parts);
    var cpus: seq<int> := [];
    for t := 0 to |parts|
      invariant Gather(lists[..t]) == Some(cpus)
    {
      var more := ExpandPart(parts[t]);
      if more == None {
        GatherMissing(lists, t);
        return None;
      }
      GatherNext(lists, t);
      cpus := cpus + more.value;
    }
    assert lists[..|parts|] == lists;
    r := Some(cpus);
  }

  /** `parse_cpu_set`: the same CPUs as a sorted list without repeats; an empty one is an error. */
  method ParseCpuSet(text: string) returns (r: Option<seq<int>>)
    ensures r.Some? <==> ExpandedCpus(text).Some? && ExpandedCpus(text).value != []
    ensures r.Some? ==> Increasing(r.value) && |r.value| == |Elements(ExpandedCpus(text).value)|
    ensures r.Some? ==> forall c :: c in r.value <==> c in ExpandedCpus(text).value
  {
    var parts := Split(text, ',');
    ghost var lists := ExpandParts(parts);
    var cpus: set<int> := {};
    assert Elements<int>([]) == {};
    ghost var list: seq<int> := [];
    for t := 0 to |parts|
      invariant cpus == Elements(list)
      invariant Gather(lists[..t]) == Some(list)
    {
      var more := ExpandPart(parts[t]);
      if more == None {
        GatherMissing(lists, t);
        return None;
      }
      GatherNext(lists, t);
      ElementsOfSum(list, more.value);
      cpus := cpus + Elements(more.value);
      list := list + more.value;
    }
    assert lists[..|parts|] == lists;
    assert list != [] ==> list[0] in cpus;
    if cpus == {} {
      return None;
    }
    SortedSetIncreases(cpus);
    r := Some(SortedSet(cpus));
  }

  // ---------- pinning ----------

  /** The pinning loop: thread `i` goes to the `i`-th CPU listed; too few CPUs is an error. */
  method PinThreads(host: seq<int>, threads: nat) returns (pins: Option<seq<int>>)
    ensures pins == if |host| < threads then None else Some(host[..threads])
  {
    if |host| < threads {
      return None;
    }
    var done: seq<int> := [];
    for i := 0 to threads
      invariant done == host[..i]
    {
      done := done + [host[i]];
    }
    pins := Some(done);
  }

  /**
   One vCPU per CPU of the set, pinned in list order: there are always enough CPUs,
   and none is left over exactly when the list repeats nothing.
   */
  method PinVcpus(text: string) returns (pins: Option<seq<int>>)
    ensures pins.Some? <==> ExpandedCpus(text).Some? && ExpandedCpus(text).value != []
    ensures pins.Some? ==>
              var host := ExpandedCpus(text).value;
              && |pins.value| == |Elements(host)| <= |host|
              && pins.value == host[..|pins.value|]
              && (|pins.value| == |host| <==> Distinct(host))
  {
    var cpus := ParseCpuSet(text);
    if cpus == None {
      return None;
    }
    var host := ExpandCpuList(text);
    ElementCount(host.value);
    pins := PinThreads(host.value, |cpus.value|);
  }
}
