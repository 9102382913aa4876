/**
 Everything a dump prints is read back: every VM with its cores, core set and counter, and every
 device on its list.
 */
module DumpReader {
  import opened Wrappers
  import opened Text
  import opened Lists
  import opened Lines
  import opened PoolModel
  import opened VmModel
  import opened Refinement
  import opened Runs
  import opened Reports
  import opened Client
  import opened DumpRoundTrip
  import opened Fields

  // ---------- a device's line ----------

  const DEV_FRAMES :=
    [Frame("memdev=", ""), Frame("node=", ""), Frame("path=", ""), Frame("size=", "MB"), Frame("align=", "MB"),
     Frame("offset=", "MB")]

  function DevOf(values: seq<string>): Option<MemDev>
    requires |values| == 6
  {
    match ReadAll(values[..2] + values[3..], PyInt)
    case Some(n) => Some(MemDev(n[0], MemoryRequest(n[1], values[2], n[4], n[2], n[3])))
    case None => None
  }

  function ReadDevLine(raw: string): Option<MemDev> {
    match ReadFields(Strip(raw), ' ', DEV_FRAMES)
    case Some(values) => DevOf(values)
    case None => None
  }

  function DevValues(idx: string, node: string, path: string, size: string, align: string, offset: string)
      : (r: seq<string>)
    ensures |r| == 6
  {
    [idx, node, path, size, align, offset]
  }

  lemma DevFramed(idx: string, node: string, path: string, size: string, align: string, offset: string)
    ensures Framed(DEV_FRAMES, DevValues(idx, node, path, size, align, offset))
         == ["memdev=" + idx, "node=" + node, "path=" + path, "size=" + size + "MB", "align=" + align + "MB",
             "offset=" + offset + "MB"]
  {
    var r := Framed(DEV_FRAMES, DevValues(idx, node, path, size, align, offset));
    assert r[0] == "memdev=" + idx && r[1] == "node=" + node && r[2] == "path=" + path;
    assert r[3] == "size=" + size + "MB" && r[4] == "align=" + align + "MB" && r[5] == "offset=" + offset + "MB";
  }

  lemma DevDetailsRegrouped(path: string, size: string, align: string, offset: string)
    ensures "path=" + path + " size=" + size + "MB align=" + align + "MB offset=" + offset + "MB"
         == ("path=" + path) + [' ']
            + (("size=" + size + "MB") + [' '] + (("align=" + align + "MB") + [' '] + ("offset=" + offset + "MB")))
  {
    assert " size=" == [' '] + "size=" && "MB align=" == "MB" + [' '] + "align=";
    assert "MB offset=" == "MB" + [' '] + "offset=";
  }

  /** The words of a device's line. */
  function DevText(dev: MemDev): string {
    Join(Framed(DEV_FRAMES, DevValues(ShowInt(dev.idx), ShowInt(dev.req.nodeId), dev.req.devPath,
                                      ShowInt(dev.req.sizeMb), ShowInt(dev.req.alignMb), ShowInt(dev.req.offsetMb))),
         ' ')
  }

  lemma DevLineIsText(dev: MemDev)
    requires OneLine(dev.req.devPath)
    ensures Strip(DevLine(dev)) == DevText(dev)
  {
    var idx, node, path := ShowInt(dev.idx), ShowInt(dev.req.nodeId), dev.req.devPath;
    var size, align, offset := ShowInt(dev.req.sizeMb), ShowInt(dev.req.alignMb), ShowInt(dev.req.offsetMb);
    DevLineStripped(dev);
    DevDetailsRegrouped(path, size, align, offset);
    DevFramed(idx, node, path, size, align, offset);
    JoinSix("memdev=" + idx, "node=" + node, "path=" + path, "size=" + size + "MB", "align=" + align + "MB",
            "offset=" + offset + "MB", ' ');
  }

  lemma DevFramesHoldNoBlank()
    ensures Without(' ', DEV_FRAMES)
  {
  }

  lemma SixHoldNoBlank(n: seq<int>, path: string)
    requires |n| == 5 && ' ' !in path
    ensures var values := DevValues(ShowInt(n[0]), ShowInt(n[1]), path, ShowInt(n[2]), ShowInt(n[3]), ShowInt(n[4]));
            forall i :: 0 <= i < 6 ==> ' ' !in values[i]
  {
    NumbersHoldNo(n);
    forall i | 0 <= i < 5 ensures ' ' !in ShowInt(n[i]) {
      assert ShowAll(n)[i] == ShowInt(n[i]);
    }
  }

  lemma FiveNumbersRead(n: seq<int>)
    requires |n| == 5
    ensures ReadAll([ShowInt(n[0]), ShowInt(n[1]), ShowInt(n[2]), ShowInt(n[3]), ShowInt(n[4])], PyInt) == Some(n)
  {
    NumbersRead(n);
    assert ShowAll(n) == [ShowInt(n[0]), ShowInt(n[1]), ShowInt(n[2]), ShowInt(n[3]), ShowInt(n[4])];
  }

  lemma WithoutPath(idx: string, node: string, path: string, size: string, align: string, offset: string)
    ensures var values := DevValues(idx, node, path, size, align, offset);
            values[..2] + values[3..] == [idx, node, size, align, offset] && values[2] == path
  {
  }

  lemma DevValuesRead(n: seq<int>, path: string)
    requires |n| == 5
    ensures DevOf(DevValues(ShowInt(n[0]), ShowInt(n[1]), path, ShowInt(n[2]), ShowInt(n[3]), ShowInt(n[4])))
         == Some(MemDev(n[0], MemoryRequest(n[1], path, n[4], n[2], n[3])))
  {
    FiveNumbersRead(n);
    WithoutPath(ShowInt(n[0]), ShowInt(n[1]), path, ShowInt(n[2]), ShowInt(n[3]), ShowInt(n[4]));
  }

  lemma DevTextReads(dev: MemDev)
    requires ' ' !in dev.req.devPath
    ensures match ReadFields(DevText(dev), ' ', DEV_FRAMES)
            case Some(values) => DevOf(values) == Some(dev)
            case None => false
  {
    var r := dev.req;
    var values := DevValues(ShowInt(dev.idx), ShowInt(r.nodeId), r.devPath, ShowInt(r.sizeMb), ShowInt(r.alignMb),
                            ShowInt(r.offsetMb));
    var n := [dev.idx, r.nodeId, r.sizeMb, r.alignMb, r.offsetMb];
    SixHoldNoBlank(n, r.devPath);
    DevValuesRead(n, r.devPath);
    DevFramesHoldNoBlank();
    FieldsRead(' ', DEV_FRAMES, values);
  }

  /** A device's line gives the device back: id, node, path, size, alignment and offset. */
  lemma DevLineReads(dev: MemDev)
    requires OneLine(dev.req.devPath) && ' ' !in dev.req.devPath
    ensures ReadDevLine(DevLine(dev)) == Some(dev)
  {
    DevLineIsText(dev);
    DevTextReads(dev);
  }

  // ---------- a VM's line ----------

  /** A VM as the dump shows it. */
  datatype Shown = Shown(vmId: int, cores: int, coreSet: string, counter: int, devs: seq<MemDev>)

  const VM_FRAMES := [Frame("VM", ""), Frame("id=", ""), Frame("cores=", ""), Frame("coreset=", "")]
  const COUNTER_FRAME := Frame(" memdev_count=", "")

  /** Index of the last `c`, or -1. */
  function LastIndexOf(s: string, c: char): (i: int)
    ensures -1 <= i < |s|
  {
    if s == "" then -1 else if s[|s| - 1] == c then |s| - 1 else LastIndexOf(s[..|s| - 1], c)
  }

  /** The words before the first bracket, what the brackets hold, and what follows the last one. */
  function ReadVmLine(raw: string): Option<Shown> {
    var line := Strip(raw);
    var i, j := IndexOf(line, '['), LastIndexOf(line, ']');
    if !(i < j) then None
    else
      match (ReadFields(line[..i], ' ', VM_FRAMES), Inner(line[j + 1..], COUNTER_FRAME))
      case (Some(values), Some(counter)) =>
        (match ReadAll([values[1], values[2], counter], PyInt)
         case Some(n) => Some(Shown(n[0], n[1], line[i + 1..j], n[2], []))
         case None => None)
      case _ => None
  }

  lemma {:induction false} LastIndexIs(a: string, c: char, b: string)
    requires c !in b
    ensures LastIndexOf(a + [c] + b, c) == |a|
  {
    var s := a + [c] + b;
    if b != "" {
      assert s[|s| - 1] == b[|b| - 1] && s[..|s| - 1] == a + [c] + b[..|b| - 1];
      LastIndexIs(a, c, b[..|b| - 1]);
    }
  }

  /** The two brackets are found, whatever they hold. */
  lemma BracketsFound(head: string, inside: string, tail: string)
    requires '[' !in head && ']' !in tail
    ensures var line := head + ['['] + inside + [']'] + tail;
            var i, j := IndexOf(line, '['), LastIndexOf(line, ']');
            i == |head| && j == |head| + 1 + |inside|
            && line[..i] == head && line[i + 1..j] == inside && line[j + 1..] == tail
  {
    var line := head + ['['] + inside + [']'] + tail;
    assert line == head + ['['] + (inside + [']'] + tail);
    IndexOfFirst(head, '[', inside + [']'] + tail);
    assert line == (head + ['['] + inside) + [']'] + tail;
    LastIndexIs(head + ['['] + inside, ']', tail);
  }

  /** What stands before the bracket. */
  function VmText(id: string, cores: string): string {
    Join(Framed(VM_FRAMES, ["", id, cores, ""]), ' ')
  }

  lemma VmTextIs(id: string, cores: string)
    ensures VmText(id, cores) == "VM id=" + id + " cores=" + cores + " coreset="
  {
    var r := Framed(VM_FRAMES, ["", id, cores, ""]);
    assert r[0] == "VM" && r[1] == "id=" + id && r[2] == "cores=" + cores && r[3] == "coreset=";
    var four, three, two := r, r[1..], r[1..][1..];
    assert two[1..] == ["coreset="];
    assert Join(two, ' ') == "cores=" + cores + [' '] + "coreset=";
    assert Join(three, ' ') == "id=" + id + [' '] + Join(two, ' ');
    assert Join(four, ' ') == "VM" + [' '] + Join(three, ' ');
  }

  lemma VmLineIsText(vm: Vm)
    ensures VmLine(vm) == VmText(ShowInt(vm.vmId), ShowInt(vm.numCores)) + ['['] + vm.coreSet + [']']
                          + (" memdev_count=" + ShowInt(vm.counter))
  {
    VmTextIs(ShowInt(vm.vmId), ShowInt(vm.numCores));
    VmTextRegrouped(ShowInt(vm.vmId), ShowInt(vm.numCores), vm.coreSet, ShowInt(vm.counter));
  }

  lemma VmTextRegrouped(id: string, cores: string, coreSet: string, counter: string)
    ensures "VM id=" + id + " " + ("cores=" + cores + " coreset=[" + coreSet + "] memdev_count=" + counter)
         == ("VM id=" + id + " cores=" + cores + " coreset=") + ['['] + coreSet + [']'] + (" memdev_count=" + counter)
  {
    assert " coreset=[" == " coreset=" + ['['] && "] memdev_count=" == [']'] + " memdev_count=";
    assert " " + "cores=" == " cores=";
  }

  lemma VmFramesHoldNoBlank()
    ensures Without(' ', VM_FRAMES)
  {
  }

  lemma NumbersHoldNoBracket(n: int)
    ensures '[' !in ShowInt(n) && ']' !in ShowInt(n) && ' ' !in ShowInt(n)
  {
    DigitsAreVisible(n);
  }

  lemma NoBracketBefore(id: string, cores: string)
    requires '[' !in id && '[' !in cores
    ensures '[' !in "VM id=" + id + " cores=" + cores + " coreset="
  {
  }

  lemma VmTextReads(id: string, cores: string)
    requires ' ' !in id && ' ' !in cores
    ensures ReadFields(VmText(id, cores), ' ', VM_FRAMES) == Some(["", id, cores, ""])
  {
    VmFramesHoldNoBlank();
    var values := ["", id, cores, ""];
    forall k | 0 <= k < |values| ensures ' ' !in values[k] {
      assert k == 0 || k == 1 || k == 2 || k == 3;
    }
    FieldsRead(' ', VM_FRAMES, values);
  }

  lemma CounterReads(counter: int)
    ensures var tail := " memdev_count=" + ShowInt(counter);
            Inner(tail, COUNTER_FRAME) == Some(ShowInt(counter)) && ']' !in tail
  {
    NumbersHoldNoBracket(counter);
    InnerOf(COUNTER_FRAME, ShowInt(counter));
    assert " memdev_count=" + ShowInt(counter) == COUNTER_FRAME.key + ShowInt(counter) + COUNTER_FRAME.end;
  }

  lemma VmPartsRead(
      raw: string, head: string, inside: string, tail: string, values: seq<string>, counter: string, n: seq<int>)
    requires Strip(raw) == head + ['['] + inside + [']'] + tail && '[' !in head && ']' !in tail
    requires ReadFields(head, ' ', VM_FRAMES) == Some(values) && Inner(tail, COUNTER_FRAME) == Some(counter)
    requires |values| == 4 && |n| == 3 && ReadAll([values[1], values[2], counter], PyInt) == Some(n)
    ensures ReadVmLine(raw) == Some(Shown(n[0], n[1], inside, n[2], []))
  {
    BracketsFound(head, inside, tail);
  }

  lemma ThreeNumbersRead(n: seq<int>)
    requires |n| == 3
    ensures ReadAll([ShowInt(n[0]), ShowInt(n[1]), ShowInt(n[2])], PyInt) == Some(n)
  {
    NumbersRead(n);
    assert ShowAll(n) == [ShowInt(n[0]), ShowInt(n[1]), ShowInt(n[2])];
  }

  /** A VM's line gives its id, number of cores, core set and id counter back, whatever the core set holds. */
  lemma VmLineReads(vm: Vm)
    requires OneLine(vm.coreSet)
    ensures ReadVmLine(VmLine(vm)) == Some(Shown(vm.vmId, vm.numCores, vm.coreSet, vm.counter, []))
  {
    var id, cores, counter := ShowInt(vm.vmId), ShowInt(vm.numCores), ShowInt(vm.counter);
    NumbersHoldNoBracket(vm.vmId);
    NumbersHoldNoBracket(vm.numCores);
    VmLineStripped(vm);
    VmLineIsText(vm);
    VmTextIs(id, cores);
    NoBracketBefore(id, cores);
    VmTextReads(id, cores);
    CounterReads(vm.counter);
    ThreeNumbersRead([vm.vmId, vm.numCores, vm.counter]);
    VmPartsRead(VmLine(vm), VmText(id, cores), vm.coreSet, " memdev_count=" + counter, ["", id, cores, ""], counter,
                [vm.vmId, vm.numCores, vm.counter]);
  }

  // ---------- the whole dump ----------

  /** A device's line goes to the VM whose line came last. */
  function WithListed(seen: seq<Shown>, devs: seq<MemDev>): seq<Shown> {
    if seen == [] then [] else seen[|seen| - 1 := seen[|seen| - 1].(devs := seen[|seen| - 1].devs + devs)]
  }

  function AddLine(seen: seq<Shown>, raw: string): seq<Shown> {
    if StartsWith(Strip(raw), "VM id=") then
      match ReadVmLine(raw) case Some(vm) => seen + [vm] case None => seen
    else if StartsWith(Strip(raw), "memdev=") then
      match ReadDevLine(raw) case Some(dev) => WithListed(seen, [dev]) case None => seen
    else seen
  }

  function AddLines(seen: seq<Shown>, lines: seq<string>): seq<Shown> {
    if lines == [] then seen else AddLine(AddLines(seen, lines[..|lines| - 1]), lines[|lines| - 1])
  }

  /** The VMs a dump shows, in order. */
  function ReadDump(lines: seq<string>): seq<Shown> {
    AddLines([], lines)
  }

  function ShownVm(vm: Vm): Shown {
    Shown(vm.vmId, vm.numCores, vm.coreSet, vm.counter, vm.devs)
  }

  /** The initialised VMs, in slot order. */
  function Listing(vms: seq<Vm>): seq<Shown> {
    if vms == [] then []
    else
      var last := vms[|vms| - 1];
      Listing(vms[..|vms| - 1]) + if last.initialized then [ShownVm(last)] else []
  }

  /** No line break, and no blank in a path. */
  predicate PlainSlot(vm: Vm) {
    CleanSlot(vm) && forall i :: 0 <= i < |vm.devs| ==> ' ' !in vm.devs[i].req.devPath
  }

  predicate Plain(vms: seq<Vm>) {
    forall j :: 0 <= j < |vms| && vms[j].initialized ==> PlainSlot(vms[j])
  }

  lemma {:induction false} AddBoth(seen: seq<Shown>, a: seq<string>, b: seq<string>)
    ensures AddLines(seen, a + b) == AddLines(AddLines(seen, a), b)
  {
    if b == [] {
      assert a + b == a;
    } else {
      AddBoth(seen, a, b[..|b| - 1]);
      assert (a + b)[..|a + b| - 1] == a + b[..|b| - 1];
    }
  }

  lemma {:induction false} AddOne(seen: seq<Shown>, line: string)
    ensures AddLines(seen, [line]) == AddLine(seen, line)
  {
    assert AddLines(seen, [line][..0]) == seen;
  }

  lemma AddVmLine(seen: seq<Shown>, vm: Vm)
    requires OneLine(vm.coreSet)
    ensures AddLine(seen, VmLine(vm)) == seen + [Shown(vm.vmId, vm.numCores, vm.coreSet, vm.counter, [])]
  {
    VmLineStripped(vm);
    VmLineReads(vm);
    VmHeadReads(vm.vmId, VmDetails(vm.numCores, vm.coreSet, vm.counter), vm.vmId);
  }

  lemma AddDevLine(seen: seq<Shown>, dev: MemDev)
    requires OneLine(dev.req.devPath) && ' ' !in dev.req.devPath
    ensures AddLine(seen, DevLine(dev)) == WithListed(seen, [dev])
  {
    DevLineStripped(dev);
    DevLineReads(dev);
    DevHeadReads(dev.idx, dev.req.nodeId, DevDetails(dev.req));
  }

  lemma ListedTwice(seen: seq<Shown>, a: seq<MemDev>, b: seq<MemDev>)
    ensures WithListed(WithListed(seen, a), b) == WithListed(seen, a + b)
  {
    if seen != [] {
      var last := seen[|seen| - 1];
      assert (last.devs + a) + b == last.devs + (a + b);
    }
  }

  lemma {:induction false} AddLast(seen: seq<Shown>, lines: seq<string>)
    requires lines != []
    ensures AddLines(seen, lines) == AddLine(AddLines(seen, lines[..|lines| - 1]), lines[|lines| - 1])
  {
  }

  lemma ListedLast(seen: seq<Shown>, devs: seq<MemDev>)
    requires devs != []
    ensures WithListed(WithListed(seen, devs[..|devs| - 1]), [devs[|devs| - 1]]) == WithListed(seen, devs)
  {
    ListedTwice(seen, devs[..|devs| - 1], [devs[|devs| - 1]]);
    assert devs == devs[..|devs| - 1] + [devs[|devs| - 1]];
  }

  lemma {:induction false} AddDevLines(seen: seq<Shown>, devs: seq<MemDev>)
    requires forall i :: 0 <= i < |devs| ==> OneLine(devs[i].req.devPath) && ' ' !in devs[i].req.devPath
    ensures AddLines(seen, DevLines(devs)) == WithListed(seen, devs)
  {
    if devs == [] {
      NoneListed(seen);
    } else {
      var init, last := devs[..|devs| - 1], devs[|devs| - 1];
      AddDevLines(seen, init);
      AddDevLine(WithListed(seen, init), last);
      AddLast(seen, DevLines(devs));
      DevLinesOfLast(devs);
      ListedLast(seen, devs);
    }
  }

  lemma NoneListed(seen: seq<Shown>)
    ensures WithListed(seen, []) == seen
  {
    if seen != [] {
      var last := seen[|seen| - 1];
      assert last.devs + [] == last.devs;
      assert seen[|seen| - 1 := last] == seen;
    }
  }

  /** Listing a VM's devices after its line completes it. */
  lemma VmCompleted(seen: seq<Shown>, vm: Vm)
    ensures WithListed(seen + [ShownVm(vm).(devs := [])], vm.devs) == seen + [ShownVm(vm)]
  {
    assert [] + vm.devs == vm.devs;
  }

  lemma {:induction false} AddSlot(seen: seq<Shown>, vm: Vm)
    requires vm.initialized ==> PlainSlot(vm)
    ensures AddLines(seen, SlotLines(vm)) == seen + if vm.initialized then [ShownVm(vm)] else []
  {
    if vm.initialized {
      AddBoth(seen, [VmLine(vm)], DevLines(vm.devs));
      AddOne(seen, VmLine(vm));
      AddVmLine(seen, vm);
      AddDevLines(seen + [ShownVm(vm).(devs := [])], vm.devs);
      VmCompleted(seen, vm);
    }
  }

  lemma {:induction false} AddTable(vms: seq<Vm>)
    requires Plain(vms)
    ensures AddLines([], Concat(TableBlocks(vms))) == Listing(vms)
  {
    if vms != [] {
      var init, last := vms[..|vms| - 1], vms[|vms| - 1];
      AddTable(init);
      BlocksOfLast(vms);
      AddBoth([], Concat(TableBlocks(init)), SlotLines(last));
      AddSlot(Listing(init), last);
    }
  }

  lemma {:induction false} NothingListed(vms: seq<Vm>)
    requires forall j :: 0 <= j < |vms| ==> !vms[j].initialized
    ensures Listing(vms) == []
  {
    if vms != [] {
      NothingListed(vms[..|vms| - 1]);
    }
  }

  lemma {:induction false} HeaderAddsNothing(count: int)
    ensures AddLines([], ["VM Count: " + ShowInt(count)]) == [] && AddLines([], ["No VM created."]) == []
  {
    var line, none := "VM Count: " + ShowInt(count), "No VM created.";
    CountLineIsGood(count);
    StripOfTrim(line);
    assert line[3] == 'C';
    NotAVmLine(line);
    StripOfTrim(none);
    assert none[0] == 'N' && "VM id="[0] == 'V' && "memdev="[0] == 'm';
    AddOne([], line);
    AddOne([], none);
  }

  /** The lines of a dump show every VM with all that is printed of it, in slot order. */
  lemma {:induction false} DumpReads(s: State)
    requires Inv(s) && Plain(s.vms)
    ensures ReadDump(DumpLines(s.count, s.vms)) == Listing(s.vms)
  {
    var lines := DumpLines(s.count, s.vms);
    HeaderAddsNothing(s.count);
    assert lines == lines[..1] + lines[1..] && lines[..1] == ["VM Count: " + ShowInt(s.count)];
    AddBoth([], lines[..1], lines[1..]);
    if s.count == 0 {
      Lookup(s, 0);
      assert TheBook(s).Keys == {};
      BookEntries(s.vms, s.pool.segMb);
      NothingListed(s.vms);
    } else {
      AddTable(s.vms);
    }
  }

  /**
   A dump that fits, received and read line by line and field by field, gives every VM its id, cores, core set
   and id counter, and every device on its list its id, node, path, size, alignment and offset.
   */
  lemma WholeDumpRoundTrip(s: State)
    requires Inv(s) && Plain(s.vms) && |VmDump(s.count, s.vms)| < BUFFER_SIZE
    ensures ReadDump(SplitLines(Received(VmDump(s.count, s.vms)))) == Listing(s.vms)
  {
    ReceivedDump(s);
    DumpReads(s);
  }

  /** The first line of a dump is the number of VMs. */
  lemma CountRoundTrip(s: State)
    requires Clean(s.vms) && |VmDump(s.count, s.vms)| < BUFFER_SIZE
    ensures var lines := SplitLines(Received(VmDump(s.count, s.vms)));
            lines != [] && match Inner(lines[0], Frame("VM Count: ", ""))
                           case Some(count) => PyInt(count) == Some(s.count)
                           case None => false
  {
    ReceivedDump(s);
    InnerOf(Frame("VM Count: ", ""), ShowInt(s.count));
    assert "VM Count: " + ShowInt(s.count) + "" == "VM Count: " + ShowInt(s.count);
    PyIntShow(s.count);
  }

  // ---------- what a dump determines ----------

  lemma {:induction false} ListingHas(vms: seq<Vm>, x: Shown)
    ensures x in Listing(vms) <==> exists j :: 0 <= j < |vms| && vms[j].initialized && ShownVm(vms[j]) == x
  {
    if vms != [] {
      var init, last := vms[..|vms| - 1], vms[|vms| - 1];
      ListingHas(init, x);
      assert forall j :: 0 <= j < |init| ==> init[j] == vms[j];
      if x in Listing(init) {
        var j :| 0 <= j < |init| && init[j].initialized && ShownVm(init[j]) == x;
        assert vms[j].initialized && ShownVm(vms[j]) == x;
      }
    }
  }

  lemma SameListing(s: State, t: State, v: int)
    requires Inv(s) && Inv(t) && s.pool.segMb == t.pool.segMb && Listing(s.vms) == Listing(t.vms)
    requires v in TheBook(s)
    ensures v in TheBook(t) && TheBook(t)[v].grants == TheBook(s)[v].grants && TheBook(t)[v].next == TheBook(s)[v].next
  {
    Lookup(s, v);
    var j := FindVm(s.vms, v);
    var x := ShownVm(s.vms[j]);
    ListingHas(s.vms, x);
    ListingHas(t.vms, x);
    var k :| 0 <= k < |t.vms| && t.vms[k].initialized && ShownVm(t.vms[k]) == x;
    BookEntries(t.vms, t.pool.segMb);
  }

  /**
   Two servers on the same devices whose dumps fit and are the same text have the same VMs, with the same cores,
   core sets and devices, the same ledger but for which VMs run, and the same segment arrays.
   */
  lemma SameDumpSameServer(s: State, t: State)
    requires Inv(s) && Plain(s.vms) && Inv(t) && Plain(t.vms) && SameDevices(s.pool, t.pool)
    requires VmDump(s.count, s.vms) == VmDump(t.count, t.vms) && |VmDump(s.count, s.vms)| < BUFFER_SIZE
    ensures Listing(s.vms) == Listing(t.vms) && s.pool == t.pool && s.count == t.count
    ensures TheBook(s).Keys == TheBook(t).Keys
    ensures forall v :: v in TheBook(s) ==>
              TheBook(s)[v].grants == TheBook(t)[v].grants && TheBook(s)[v].next == TheBook(t)[v].next
  {
    WholeDumpRoundTrip(s);
    WholeDumpRoundTrip(t);
    forall v | v in TheBook(s)
      ensures v in TheBook(t)
      ensures TheBook(t)[v].grants == TheBook(s)[v].grants && TheBook(t)[v].next == TheBook(s)[v].next
    {
      SameListing(s, t, v);
    }
    forall v | v in TheBook(t) ensures v in TheBook(s) {
      SameListing(t, s, v);
    }
    SameGrantsSamePool(s, t);
    Lookup(s, 0);
    Lookup(t, 0);
    assert |TheBook(s).Keys| == |TheBook(s)| && |TheBook(t).Keys| == |TheBook(t)|;
  }
}
