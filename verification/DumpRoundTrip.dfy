/** What the client reads of the VM dump is what the server's table holds. */
module DumpRoundTrip {
  import opened Wrappers
  import opened Text
  import opened Lists
  import opened Lines
  import opened Sorting
  import opened PoolModel
  import opened VmModel
  import opened Refinement
  import opened Reports
  import opened Client

  // ---------- reading back a dump ----------

  /** Core sets and paths hold no line break. */
  predicate CleanSlot(vm: Vm) {
    OneLine(vm.coreSet) && forall i :: 0 <= i < |vm.devs| ==> OneLine(vm.devs[i].req.devPath)
  }

  predicate Clean(vms: seq<Vm>) {
    forall j :: 0 <= j < |vms| && vms[j].initialized ==> CleanSlot(vms[j])
  }

  lemma SameNumber(a: int, after: string, b: int, rest: string)
    requires ShowInt(a) + (" " + after) == ShowInt(b) + (" " + rest)
    ensures a == b
  {
    ScanShowInt(a, " " + after);
    ScanShowInt(b, " " + rest);
  }

  lemma AfterPrefix(x: string, y: string, rest: string) returns (after: string)
    requires StartsWith(y + " " + rest, x + " ")
    ensures x + (" " + after) == y + (" " + rest)
  {
    var s, k := y + " " + rest, |x| + 1;
    after := s[k..];
    assert s == s[..k] + after && s[..k] == x + " ";
    assert s == x + (" " + after) && s == y + (" " + rest);
  }

  lemma OwnPrefix(y: string, rest: string)
    ensures StartsWith(y + " " + rest, y + " ")
  {
    assert (y + " " + rest)[..|y| + 1] == y + " ";
  }

  /** A printed id, with the blank after it, is a prefix only of itself: 1 is not confused with 10. */
  lemma IdPrefix(a: int, b: int, rest: string)
    ensures StartsWith(ShowInt(b) + " " + rest, ShowInt(a) + " ") <==> a == b
  {
    OwnPrefix(ShowInt(b), rest);
    if StartsWith(ShowInt(b) + " " + rest, ShowInt(a) + " ") {
      var after := AfterPrefix(ShowInt(a), ShowInt(b), rest);
      SameNumber(a, after, b, rest);
    }
  }

  lemma PrefixOfConcat(head: string, s: string, t: string)
    ensures StartsWith(head + s, head + t) <==> StartsWith(s, t)
  {
    if |t| <= |s| {
      assert (head + s)[..|head + t|] == head + s[..|t|];
      assert (head + t)[|head|..] == t && (head + s[..|t|])[|head|..] == s[..|t|];
    }
  }

  lemma VmPrefix(v: int, id: int, rest: string)
    ensures StartsWith("VM id=" + ShowInt(id) + " " + rest, "VM id=" + ShowInt(v) + " ") <==> v == id
  {
    var head := "VM id=";
    assert head + ShowInt(id) + " " + rest == head + (ShowInt(id) + " " + rest);
    assert head + ShowInt(v) + " " == head + (ShowInt(v) + " ");
    PrefixOfConcat(head, ShowInt(id) + " " + rest, ShowInt(v) + " ");
    IdPrefix(v, id, rest);
  }

  lemma {:induction false} VmIdIs(line: string, id: int, rest: string)
    requires StartsWith(line, "VM id=") && Words(line) == ["VM", "id=" + ShowInt(id)] + Words(rest)
    ensures VmIdOf(line) == Some(id)
  {
    assert Words(line)[1] == "id=" + ShowInt(id);
    IntAfter("id=", id);
  }

  lemma {:induction false} NodeIs(first: string, node: int, rest: seq<string>)
    requires first != "" && first[0] == 'm'
    ensures NodeOfWords([first, "node=" + ShowInt(node)] + rest) == Some(node)
  {
    var words := [first, "node=" + ShowInt(node)] + rest;
    assert !StartsWith(first, "node=") by {
      assert "node="[0] == 'n';
    }
    assert words[1..][0] == "node=" + ShowInt(node);
    IntAfter("node=", node);
    assert NodeOfWords(words) == NodeOfWords(words[1..]);
  }

  lemma VmLineWords(id: string, rest: string)
    ensures var line := "VM id=" + id + " " + rest;
            line == "VM" + " " + (("id=" + id) + " " + rest) && StartsWith(line, "VM id=")
  {
  }

  lemma VmLineId(line: string, id: int, rest: string)
    requires line == "VM" + " " + (("id=" + ShowInt(id)) + " " + rest) && StartsWith(line, "VM id=")
    ensures VmIdOf(line) == Some(id)
  {
    WordOf("id=", id);
    TwoWords("VM", "id=" + ShowInt(id), rest);
    VmIdIs(line, id, rest);
  }

  /** How the client sees the line of a VM. */
  lemma VmHeadReads(id: int, rest: string, v: int)
    ensures var line := "VM id=" + ShowInt(id) + " " + rest;
            && StartsWith(line, "VM id=")
            && VmIdOf(line) == Some(id)
            && (StartsWith(line, "VM id=" + ShowInt(v) + " ") <==> v == id)
  {
    VmLineWords(ShowInt(id), rest);
    VmLineId("VM id=" + ShowInt(id) + " " + rest, id, rest);
    VmPrefix(v, id, rest);
  }

  lemma DevPrefix(line: string)
    requires StartsWith(line, "memdev=")
    ensures !StartsWith(line, "VM id=")
  {
    assert line[0] == 'm' && "VM id="[0] == 'V';
  }

  lemma {:induction false} DevWords(first: string, node: int, rest: string)
    requires IsWord(first) && first[0] == 'm'
    ensures NodeOfWords(Words(first + " " + ("node=" + ShowInt(node) + " " + rest))) == Some(node)
  {
    WordOf("node=", node);
    TwoWords(first, "node=" + ShowInt(node), rest);
    NodeIs(first, node, Words(rest));
  }

  /** How the client sees the line of a memory device, its indentation stripped. */
  lemma DevHeadReads(idx: int, node: int, rest: string)
    ensures var line := "memdev=" + ShowInt(idx) + " " + ("node=" + ShowInt(node) + " " + rest);
            && !StartsWith(line, "VM id=") && StartsWith(line, "memdev=")
            && NodeOfWords(Words(line)) == Some(node)
  {
    var tail := "node=" + ShowInt(node) + " " + rest;
    var line := "memdev=" + ShowInt(idx) + " " + tail;
    WordOf("memdev=", idx);
    DevWords("memdev=" + ShowInt(idx), node, rest);
    assert StartsWith(line, "memdev=");
    DevPrefix(line);
  }

  // ---------- every printed line is readable ----------

  lemma VmLineIsGood(vm: Vm)
    requires OneLine(vm.coreSet)
    ensures GoodLine(VmLine(vm))
  {
    GoodNumber(vm.vmId);
    GoodNumber(vm.numCores);
    GoodNumber(vm.counter);
    GoodConcat("cores=" + ShowInt(vm.numCores) + " coreset=[" + vm.coreSet + "] memdev_count=", ShowInt(vm.counter));
    GoodConcat("VM id=" + ShowInt(vm.vmId) + " ", VmDetails(vm.numCores, vm.coreSet, vm.counter));
  }

  lemma DevDetailsAreGood(req: MemoryRequest)
    requires OneLine(req.devPath)
    ensures GoodLine(DevDetails(req))
  {
    GoodNumber(req.sizeMb);
    GoodNumber(req.alignMb);
    GoodNumber(req.offsetMb);
    GoodConcat("path=" + req.devPath + " size=" + ShowInt(req.sizeMb) + "MB align=" + ShowInt(req.alignMb)
               + "MB offset=" + ShowInt(req.offsetMb), "MB");
  }

  lemma DevLineIsGood(dev: MemDev)
    requires OneLine(dev.req.devPath)
    ensures GoodLine(DevLine(dev))
  {
    DevDetailsAreGood(dev.req);
    GoodNumber(dev.idx);
    GoodNumber(dev.req.nodeId);
    DevLineFromDetails(dev.idx, dev.req.nodeId, DevDetails(dev.req));
  }

  lemma DevLineFromDetails(idx: int, node: int, details: string)
    requires GoodLine(ShowInt(idx)) && GoodLine(ShowInt(node)) && GoodLine(details)
    ensures GoodLine("  " + ("memdev=" + ShowInt(idx) + " " + ("node=" + ShowInt(node) + " " + details)))
  {
    GoodConcat("node=" + ShowInt(node) + " ", details);
    var tail := "node=" + ShowInt(node) + " " + details;
    GoodConcat("memdev=" + ShowInt(idx) + " ", tail);
    GoodConcat("  ", "memdev=" + ShowInt(idx) + " " + tail);
  }

  lemma SlotLinesAreGood(vm: Vm)
    requires vm.initialized ==> CleanSlot(vm)
    ensures forall i :: 0 <= i < |SlotLines(vm)| ==> GoodLine(SlotLines(vm)[i])
  {
    if vm.initialized {
      VmLineIsGood(vm);
      forall i | 0 <= i < |vm.devs| ensures GoodLine(DevLines(vm.devs)[i]) {
        DevLineIsGood(vm.devs[i]);
      }
    }
  }

  lemma {:induction false} GoodBlocks(blocks: seq<seq<string>>)
    requires forall j, i :: 0 <= j < |blocks| && 0 <= i < |blocks[j]| ==> GoodLine(blocks[j][i])
    ensures forall i :: 0 <= i < |Concat(blocks)| ==> GoodLine(Concat(blocks)[i])
  {
    if blocks != [] {
      GoodBlocks(blocks[..|blocks| - 1]);
    }
  }

  lemma CountLineIsGood(count: int)
    ensures var line := "VM Count: " + ShowInt(count); GoodLine(line) && line[0] == 'V'
  {
    GoodNumber(count);
    GoodConcat("VM Count: ", ShowInt(count));
  }

  lemma DumpIsReadable(s: State)
    requires Clean(s.vms)
    ensures Readable(DumpLines(s.count, s.vms))
    ensures forall i :: 0 <= i < |DumpLines(s.count, s.vms)| ==> GoodLine(DumpLines(s.count, s.vms)[i])
  {
    var lines := DumpLines(s.count, s.vms);
    CountLineIsGood(s.count);
    if s.count != 0 {
      forall j | 0 <= j < |s.vms|
        ensures forall i :: 0 <= i < |SlotLines(s.vms[j])| ==> GoodLine(SlotLines(s.vms[j])[i])
      {
        SlotLinesAreGood(s.vms[j]);
      }
      GoodBlocks(TableBlocks(s.vms));
    } else {
      assert GoodLine("No VM created.");
    }
    assert forall i :: 0 <= i < |lines| ==> GoodLine(lines[i]);
  }

  // ---------- the round trips of the VM dump ----------

  lemma UsedIdsConcat(a: seq<string>, b: seq<string>)
    ensures UsedIds(a + b) == UsedIds(a) + UsedIds(b)
  {
    CollectBoth(a, b, RawVmId);
    ElementsOfSum(Collect(a, RawVmId), Collect(b, RawVmId));
  }

  lemma UsedIdsOne(line: string)
    ensures UsedIds([line]) == match RawVmId(line) case Some(id) => {id} case None => {}
  {
    CollectOne(line, RawVmId);
    ElementsOfSum([], Collect([line], RawVmId));
  }

  /** The lines of a VM as the client strips them. */
  lemma VmLineStripped(vm: Vm)
    requires OneLine(vm.coreSet)
    ensures Strip(VmLine(vm)) == VmLine(vm)
  {
    VmLineIsGood(vm);
    assert VmLine(vm)[0] == 'V';
    StripOfTrim(VmLine(vm));
  }

  lemma DevLineStripped(dev: MemDev)
    requires OneLine(dev.req.devPath)
    ensures var tail := "node=" + ShowInt(dev.req.nodeId) + " " + DevDetails(dev.req);
            Strip(DevLine(dev)) == "memdev=" + ShowInt(dev.idx) + " " + tail
  {
    var line := "memdev=" + ShowInt(dev.idx) + " " + ("node=" + ShowInt(dev.req.nodeId) + " " + DevDetails(dev.req));
    DevLineIsGood(dev);
    assert DevLine(dev) == "  " + line;
    assert line[0] == 'm' && DevLine(dev)[|DevLine(dev)| - 1] == line[|line| - 1];
    StripLeading("  ", line);
  }

  /** What one line adds: a VM's line its id, a device's line nothing. */
  lemma DevLineHasNoId(dev: MemDev)
    requires OneLine(dev.req.devPath)
    ensures RawVmId(DevLine(dev)) == None
  {
    DevLineStripped(dev);
    DevHeadReads(dev.idx, dev.req.nodeId, DevDetails(dev.req));
  }

  lemma DevLinesOfLast(devs: seq<MemDev>)
    requires devs != []
    ensures DevLines(devs)[..|devs| - 1] == DevLines(devs[..|devs| - 1])
    ensures DevLines(devs)[|devs| - 1] == DevLine(devs[|devs| - 1])
  {
  }

  lemma DevLinesHaveNoIds(devs: seq<MemDev>)
    requires forall i :: 0 <= i < |devs| ==> OneLine(devs[i].req.devPath)
    ensures UsedIds(DevLines(devs)) == {}
  {
    forall i | 0 <= i < |devs| ensures RawVmId(DevLines(devs)[i]) == None {
      DevLineHasNoId(devs[i]);
    }
    CollectNone(DevLines(devs), RawVmId);
    ElementsOfSum<int>([], []);
  }

  lemma SlotIds(vm: Vm)
    requires vm.initialized ==> CleanSlot(vm)
    ensures UsedIds(SlotLines(vm)) == if vm.initialized then {vm.vmId} else {}
  {
    if vm.initialized {
      DevLinesHaveNoIds(vm.devs);
      VmLineStripped(vm);
      VmHeadReads(vm.vmId, VmDetails(vm.numCores, vm.coreSet, vm.counter), vm.vmId);
      UsedIdsConcat([VmLine(vm)], DevLines(vm.devs));
      UsedIdsOne(VmLine(vm));
    }
  }

  lemma BlocksOfLast(vms: seq<Vm>)
    requires vms != []
    ensures Concat(TableBlocks(vms)) == Concat(TableBlocks(vms[..|vms| - 1])) + SlotLines(vms[|vms| - 1])
  {
    assert TableBlocks(vms)[..|vms| - 1] == TableBlocks(vms[..|vms| - 1]);
  }

  lemma {:induction false} TableIds(vms: seq<Vm>)
    requires Clean(vms)
    ensures UsedIds(Concat(TableBlocks(vms))) == Ids(vms)
  {
    if vms == [] {
      assert Ids(vms) == {};
    } else {
      var init, last := vms[..|vms| - 1], vms[|vms| - 1];
      TableIds(init);
      SlotIds(last);
      BlocksOfLast(vms);
      UsedIdsConcat(Concat(TableBlocks(init)), SlotLines(last));
      IdsOfLast(vms);
    }
  }

  lemma ReceivedDump(s: State)
    requires Clean(s.vms) && |VmDump(s.count, s.vms)| < BUFFER_SIZE
    ensures SplitLines(Received(VmDump(s.count, s.vms))) == DumpLines(s.count, s.vms)
  {
    DumpIsReadable(s);
    ReceivedLines(DumpLines(s.count, s.vms));
  }

  lemma NotAVmLine(line: string)
    requires |line| > 3 && line[3] == 'C'
    ensures Strip(line) == line ==> !StartsWith(line, "VM id=") && !StartsWith(line, "memdev=")
  {
    assert "VM id="[3] == 'i' && "memdev="[3] == 'd';
  }

  /** A line that is none of a VM and none of a device says nothing. */
  lemma {:induction false} QuietLine(line: string, v: int)
    requires Strip(line) == line && !StartsWith(line, "VM id=") && !StartsWith(line, "memdev=")
    ensures UsedIds([line]) == {} && Scan(UNSEEN, [line], v) == UNSEEN
  {
    UsedIdsOne(line);
    ScanOne(UNSEEN, line, v);
  }

  /** The lines before the table say nothing about VMs. */
  lemma {:induction false} HeaderIsQuiet(s: State, v: int)
    ensures UsedIds(DumpLines(s.count, s.vms)[..1]) == {} && Scan(UNSEEN, DumpLines(s.count, s.vms)[..1], v) == UNSEEN
  {
    var line := "VM Count: " + ShowInt(s.count);
    CountLineIsGood(s.count);
    StripOfTrim(line);
    assert line[3] == 'C';
    NotAVmLine(line);
    QuietLine(line, v);
    assert DumpLines(s.count, s.vms)[..1] == [line];
  }

  lemma {:induction false} NoVmIsQuiet(v: int)
    ensures UsedIds(["No VM created."]) == {} && Scan(UNSEEN, ["No VM created."], v) == UNSEEN
  {
    var line := "No VM created.";
    StripOfTrim(line);
    assert line[0] == 'N' && "VM id="[0] == 'V' && "memdev="[0] == 'm';
    QuietLine(line, v);
  }

  /** The lines announce exactly the VMs there are. */
  lemma DumpAnnounces(s: State)
    requires Inv(s) && Clean(s.vms)
    ensures UsedIds(DumpLines(s.count, s.vms)) == TheBook(s).Keys
  {
    var lines := DumpLines(s.count, s.vms);
    HeaderIsQuiet(s, 0);
    assert lines == lines[..1] + lines[1..];
    UsedIdsConcat(lines[..1], lines[1..]);
    TableIds(s.vms);
    BookEntries(s.vms, s.pool.segMb);
    if s.count == 0 {
      Lookup(s, 0);
      NoVmIsQuiet(0);
      assert |TheBook(s).Keys| == 0;
    }
  }

  /** What the client reads of a dump that fits is exactly which VMs there are. */
  lemma VmIdsRoundTrip(s: State)
    requires Inv(s) && Clean(s.vms) && |VmDump(s.count, s.vms)| < BUFFER_SIZE
    ensures UsedIds(SplitLines(Received(VmDump(s.count, s.vms)))) == TheBook(s).Keys
  {
    ReceivedDump(s);
    DumpAnnounces(s);
  }

  // ---------- a VM's nodes ----------

  function DevNodes(devs: seq<MemDev>): (r: set<int>)
    ensures devs == [] ==> r == {}
  {
    set i | 0 <= i < |devs| :: devs[i].req.nodeId
  }

  /** The nodes of the devices listed by the VMs with this id. */
  function NodesUsed(vms: seq<Vm>, v: int): set<int> {
    if vms == [] then {}
    else
      var last := vms[|vms| - 1];
      NodesUsed(vms[..|vms| - 1], v) + if last.initialized && last.vmId == v then DevNodes(last.devs) else {}
  }

  lemma {:induction false} ScanConcat(now: Scanned, a: seq<string>, b: seq<string>, v: int)
    ensures Scan(now, a + b, v) == Scan(Scan(now, a, v), b, v)
  {
    if b == [] {
      assert a + b == a;
    } else {
      ScanConcat(now, a, b[..|b| - 1], v);
      assert (a + b)[..|a + b| - 1] == a + b[..|b| - 1];
    }
  }

  lemma {:induction false} ScanOne(now: Scanned, line: string, v: int)
    ensures Scan(now, [line], v) == ScanLine(now, line, v)
  {
    assert Scan(now, [line][..0], v) == now;
  }

  lemma ScanVmLine(now: Scanned, vm: Vm, v: int)
    requires OneLine(vm.coreSet)
    ensures ScanLine(now, VmLine(vm), v) == (v == vm.vmId, now.1)
  {
    VmLineStripped(vm);
    VmHeadReads(vm.vmId, VmDetails(vm.numCores, vm.coreSet, vm.counter), v);
  }

  /** The nodes count while the VM's block is open. */
  function Adding(now: Scanned, nodes: set<int>): Scanned {
    if now.0 then (true, now.1 + nodes) else now
  }

  lemma AddingTwice(now: Scanned, a: set<int>, b: set<int>)
    ensures Adding(Adding(now, a), b) == Adding(now, a + b)
  {
    assert (now.1 + a) + b == now.1 + (a + b);
  }

  lemma AddingNothing(now: Scanned)
    ensures Adding(now, {}) == now
  {
    assert now.1 + {} == now.1 && now == (now.0, now.1);
  }

  lemma ScanDevLine(now: Scanned, dev: MemDev, v: int)
    requires OneLine(dev.req.devPath)
    ensures ScanLine(now, DevLine(dev), v) == Adding(now, {dev.req.nodeId})
  {
    DevLineStripped(dev);
    DevHeadReads(dev.idx, dev.req.nodeId, DevDetails(dev.req));
  }

  lemma {:induction false} ScanLast(now: Scanned, lines: seq<string>, v: int)
    requires lines != []
    ensures Scan(now, lines, v) == ScanLine(Scan(now, lines[..|lines| - 1], v), lines[|lines| - 1], v)
  {
  }

  lemma AddingLast(now: Scanned, devs: seq<MemDev>)
    requires devs != []
    ensures Adding(Adding(now, DevNodes(devs[..|devs| - 1])), {devs[|devs| - 1].req.nodeId})
         == Adding(now, DevNodes(devs))
  {
    DevNodesOfLast(devs);
    AddingTwice(now, DevNodes(devs[..|devs| - 1]), {devs[|devs| - 1].req.nodeId});
  }

  lemma {:induction false} ScanDevLines(now: Scanned, devs: seq<MemDev>, v: int)
    requires forall i :: 0 <= i < |devs| ==> OneLine(devs[i].req.devPath)
    ensures Scan(now, DevLines(devs), v) == Adding(now, DevNodes(devs))
  {
    if devs == [] {
      AddingNothing(now);
    } else {
      var init, last := devs[..|devs| - 1], devs[|devs| - 1];
      ScanDevLines(now, init, v);
      ScanDevLine(Adding(now, DevNodes(init)), last, v);
      ScanLast(now, DevLines(devs), v);
      DevLinesOfLast(devs);
      AddingLast(now, devs);
    }
  }

  lemma DevNodesOfLast(devs: seq<MemDev>)
    requires devs != []
    ensures DevNodes(devs) == DevNodes(devs[..|devs| - 1]) + {devs[|devs| - 1].req.nodeId}
  {
    var init, last := devs[..|devs| - 1], devs[|devs| - 1];
    forall n ensures n in DevNodes(devs) <==> n in DevNodes(init) || n == last.req.nodeId {
      if n in DevNodes(devs) {
        var i :| 0 <= i < |devs| && devs[i].req.nodeId == n;
        if i < |init| {
          assert init[i].req.nodeId == n;
        }
      }
      if n in DevNodes(init) {
        var i :| 0 <= i < |init| && init[i].req.nodeId == n;
        assert devs[i].req.nodeId == n;
      }
    }
  }

  lemma {:induction false} ScanSlot(now: Scanned, vm: Vm, v: int)
    requires vm.initialized ==> CleanSlot(vm)
    ensures Scan(now, SlotLines(vm), v).1
         == now.1 + if vm.initialized && vm.vmId == v then DevNodes(vm.devs) else {}
  {
    if vm.initialized {
      ScanConcat(now, [VmLine(vm)], DevLines(vm.devs), v);
      ScanOne(now, VmLine(vm), v);
      ScanVmLine(now, vm, v);
      ScanDevLines((v == vm.vmId, now.1), vm.devs, v);
    }
  }

  lemma {:induction false} ScanTable(now: Scanned, vms: seq<Vm>, v: int)
    requires Clean(vms)
    ensures Scan(now, Concat(TableBlocks(vms)), v).1 == now.1 + NodesUsed(vms, v)
  {
    if vms != [] {
      var init, last := vms[..|vms| - 1], vms[|vms| - 1];
      var before := Concat(TableBlocks(init));
      ScanTable(now, init, v);
      ScanConcat(now, before, SlotLines(last), v);
      ScanSlot(Scan(now, before, v), last, v);
      BlocksOfLast(vms);
    }
  }

  lemma {:induction false} NodesUsedIs(vms: seq<Vm>, v: int)
    requires DistinctIds(vms)
    ensures var j := FindVm(vms, v);
            NodesUsed(vms, v) == if j == -1 then {} else DevNodes(vms[j].devs)
  {
    var j := FindVm(vms, v);
    if j != -1 {
      NodesUsedAt(vms, j);
    } else {
      NodesUsedNone(vms, v);
    }
  }

  lemma {:induction false} NodesUsedNone(vms: seq<Vm>, v: int)
    requires forall j :: 0 <= j < |vms| ==> !(vms[j].initialized && vms[j].vmId == v)
    ensures NodesUsed(vms, v) == {}
  {
    if vms != [] {
      NodesUsedNone(vms[..|vms| - 1], v);
    }
  }

  lemma {:induction false} NodesUsedAt(vms: seq<Vm>, j: int)
    requires DistinctIds(vms) && 0 <= j < |vms| && vms[j].initialized
    ensures NodesUsed(vms, vms[j].vmId) == DevNodes(vms[j].devs)
  {
    var init := vms[..|vms| - 1];
    if j == |init| {
      NodesUsedNone(init, vms[j].vmId);
    } else {
      NodesUsedAt(init, j);
    }
  }

  /** The lines show for a VM exactly the nodes of the devices on its list. */
  lemma {:induction false} DumpShows(s: State, v: int)
    requires Inv(s) && Clean(s.vms)
    ensures var j := FindVm(s.vms, v);
            Scan(UNSEEN, DumpLines(s.count, s.vms), v).1 == if j == -1 then {} else DevNodes(s.vms[j].devs)
  {
    var lines := DumpLines(s.count, s.vms);
    HeaderIsQuiet(s, v);
    NodesUsedIs(s.vms, v);
    assert lines == lines[..1] + lines[1..];
    ScanConcat(UNSEEN, lines[..1], lines[1..], v);
    if s.count == 0 {
      Lookup(s, v);
      assert TheBook(s).Keys == {};
      NoVmIsQuiet(v);
    } else {
      ScanTable(UNSEEN, s.vms, v);
    }
  }

  /** The nodes the client reads for a VM are exactly those of the devices on its list. */
  lemma {:induction false} VmNodesRoundTrip(s: State, v: int)
    requires Inv(s) && Clean(s.vms) && |VmDump(s.count, s.vms)| < BUFFER_SIZE
    ensures var j := FindVm(s.vms, v);
            Scan(UNSEEN, SplitLines(Received(VmDump(s.count, s.vms))), v).1
            == if j == -1 then {} else DevNodes(s.vms[j].devs)
  {
    ReceivedDump(s);
    DumpShows(s, v);
  }

  // ---------- the reply to an allocation ----------

  /** The client reads the id the server gave the device, whatever its path. */
  lemma AllocReplyRoundTrip(dev: MemDev)
    requires |AllocReply(dev)| < BUFFER_SIZE
    ensures MemIdOf(Received(AllocReply(dev))) == Some(dev.idx)
  {
    ReplyEnds(dev.req);
    ReplyReads(dev.idx, AllocDetails(dev.req));
  }

  lemma ReplyEnds(req: MemoryRequest)
    ensures var tail := AllocDetails(req); tail != "" && tail[|tail| - 1] == 'M'
  {
  }

  lemma ReplyReads(id: int, tail: string)
    requires tail != "" && tail[|tail| - 1] == 'M'
    ensures var reply := "id=mem" + ShowInt(id) + [','] + tail;
            Strip(reply) == reply && MemIdOf(reply) == Some(id)
  {
    var head := "id=mem" + ShowInt(id);
    var reply := head + [','] + tail;
    assert reply[0] == 'i' && reply[|reply| - 1] == 'M';
    StripOfTrim(reply);
    DigitsAreVisible(id);
    SplitFirst(head, ',', tail);
    HeadField(id, Text.Split(tail, ','));
    MemField(id);
  }

  lemma MemField(id: int)
    ensures var field := "mem" + ShowInt(id); StartsWith(field, "mem") && PyInt(field[3..]) == Some(id)
  {
    PyIntShow(id);
    assert ("mem" + ShowInt(id))[3..] == ShowInt(id);
  }

  lemma {:induction false} HeadField(id: int, rest: seq<string>)
    ensures IdField(["id=mem" + ShowInt(id)] + rest) == Some("mem" + ShowInt(id))
  {
    var head := "id=mem" + ShowInt(id);
    DigitsAreVisible(id);
    assert head[0] == 'i' && head[|head| - 1] == ShowInt(id)[|ShowInt(id)| - 1];
    StripOfTrim(head);
    assert head[..3] == "id=" && head[3..] == "mem" + ShowInt(id);
  }
}
