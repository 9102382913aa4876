/**
 The server printing its state into a fixed buffer, piece by piece, as `snprintf` does: the dump of the VM
 table, whose loops stop once the buffer is full, and the usage table. What the buffer then holds is the text
 of `Reports`, cut to the buffer, whatever the state and wherever the cut falls.
 */
module ServerReports {
  import opened Lists
  import opened Lines
  import opened Text
  import opened TailQueue
  import opened VmModel
  import opened VmInstances
  import opened VmManager
  import opened Reports
  import MemoryPool

  // ---------- pieces of a text ----------

  /** The buffer holds what it keeps of the text so far; past its end, the offset only says so. */
  ghost predicate Shows(buffer: string, offset: nat, size: int, text: string) {
    && buffer == Kept(text, size)
    && (offset < size ==> offset == |text|)
    && (offset >= size ==> |text| >= size)
  }

  /** One `snprintf` at the offset. */
  method PrintPiece(piece: string, buffer: string, offset: nat, size: int, ghost text: string)
      returns (b: string, o: nat)
    requires Shows(buffer, offset, size, text) && offset < size
    ensures Shows(b, o, size, text + piece)
  {
    PrintAppends(text, size, piece);
    var printed := Print(buffer, offset, size, piece);
    b, o := printed.0, printed.1;
  }

  /** The text after the first `i` pieces. */
  ghost function After(text: string, pieces: seq<string>, i: nat): string
    requires i <= |pieces|
  {
    if i == 0 then text else After(text, pieces, i - 1) + pieces[i - 1]
  }

  lemma {:induction false} AfterIs(text: string, pieces: seq<string>, i: nat)
    requires i <= |pieces|
    ensures After(text, pieces, i) == text + Concat(pieces[..i])
  {
    if i == 0 {
      assert Concat(pieces[..0]) == "";
    } else {
      AfterIs(text, pieces, i - 1);
      ConcatTo(pieces, i);
      Regroup(text, Concat(pieces[..i - 1]), pieces[i - 1]);
    }
  }

  /** With all pieces printed or the buffer full, the rest adds nothing. */
  lemma {:induction false} AllShown(buffer: string, offset: nat, size: int, text: string, pieces: seq<string>, i: nat)
    requires i <= |pieces| && Shows(buffer, offset, size, After(text, pieces, i))
    requires i == |pieces| || offset >= size
    ensures Shows(buffer, offset, size, text + Concat(pieces))
  {
    AfterIs(text, pieces, i);
    if i == |pieces| {
      assert pieces[..i] == pieces;
    } else {
      ConcatOfBoth(pieces[..i], pieces[i..]);
      assert pieces[..i] + pieces[i..] == pieces;
      Regroup(text, Concat(pieces[..i]), Concat(pieces[i..]));
      FullShows(buffer, offset, size, text + Concat(pieces[..i]), Concat(pieces[i..]));
    }
  }

  lemma FullShows(buffer: string, offset: nat, size: int, text: string, more: string)
    requires Shows(buffer, offset, size, text) && offset >= size
    ensures Shows(buffer, offset, size, text + more)
  {
    FullStaysFull(text, more, size);
  }

  // ---------- the VM dump ----------

  /** The printed lines of devices. */
  ghost predicate PiecesOf(devs: seq<MemoryDev>, pieces: seq<string>)
    reads devs
  {
    |pieces| == |devs|
    && forall i {:trigger devs[i]} :: 0 <= i < |devs| ==>
         pieces[i] == DevLine(MemDev(devs[i].memdevIdx, devs[i].req)) + "\n"
  }

  method PrintDevice(devs: seq<MemoryDev>, i: nat, ghost pieces: seq<string>,
                     buffer: string, offset: nat, size: int, ghost text: string)
      returns (b: string, o: nat)
    requires i < |devs| && PiecesOf(devs, pieces) && offset < size
    requires Shows(buffer, offset, size, text)
    ensures Shows(b, o, size, text + pieces[i])
  {
    b, o := PrintPiece(DevLine(MemDev(devs[i].memdevIdx, devs[i].req)) + "\n", buffer, offset, size, text);
  }

  /** The devices of a list, while they fit. */
  method PrintDevices(devs: seq<MemoryDev>, ghost pieces: seq<string>,
                      buffer: string, offset: nat, size: int, ghost text: string)
      returns (b: string, o: nat)
    requires PiecesOf(devs, pieces) && Shows(buffer, offset, size, text)
    ensures Shows(b, o, size, text + Concat(pieces))
  {
    b, o := buffer, offset;
    var i := 0;
    while i < |devs| && o < size
      invariant 0 <= i <= |devs|
      invariant Shows(b, o, size, After(text, pieces, i))
    {
      b, o := PrintDevice(devs, i, pieces, b, o, size, After(text, pieces, i));
      i := i + 1;
    }
    AllShown(b, o, size, text, pieces, i);
  }

  lemma TextOfFirst(line: string, rest: seq<string>)
    ensures TextOf([line] + rest) == (line + "\n") + TextOf(rest)
  {
    TextOfConcat([line], rest);
    TextOfLast([line]);
    assert TextOf([line][..0]) == "";
  }

  /** What a slot prints: nothing when it is free. */
  ghost function Block(vm: VmInstance): string
    reads vm, vm.attachedDevs, vm.attachedDevs.members
  {
    TextOf(SlotLines(vm.Abs()))
  }

  /** A VM's line, then its devices. */
  lemma BlockParts(vm: VmInstance) returns (pieces: seq<string>)
    requires vm.Valid() && vm.initialized
    ensures PiecesOf(vm.attachedDevs.members, pieces)
    ensures Block(vm) == (VmHead(vm.vmId, vm.numCores, vm.coreSet, vm.memdevCounter) + "\n") + Concat(pieces)
  {
    var lines := DevLines(vm.Abs().devs);
    pieces := Ended(lines);
    TextOfFirst(VmLine(vm.Abs()), lines);
  }

  lemma NoBlock(vm: VmInstance, text: string)
    requires !vm.initialized
    ensures text + Block(vm) == text
  {
  }

  method PrintSlot(vm: VmInstance, ghost block: string, buffer: string, offset: nat, size: int, ghost text: string)
      returns (b: string, o: nat)
    requires vm.Valid() && block == Block(vm) && Shows(buffer, offset, size, text) && offset < size
    ensures Shows(b, o, size, text + block)
  {
    if !vm.initialized {
      NoBlock(vm, text);
      return buffer, offset;
    }
    ghost var pieces := BlockParts(vm);
    var line := VmHead(vm.vmId, vm.numCores, vm.coreSet, vm.memdevCounter) + "\n";
    var devs := vm.attachedDevs.Walk();
    b, o := PrintBlock(line, devs, pieces, buffer, offset, size, text);
  }

  method PrintBlock(line: string, devs: seq<MemoryDev>, ghost pieces: seq<string>,
                    buffer: string, offset: nat, size: int, ghost text: string)
      returns (b: string, o: nat)
    requires PiecesOf(devs, pieces) && Shows(buffer, offset, size, text) && offset < size
    ensures Shows(b, o, size, text + (line + Concat(pieces)))
  {
    b, o := PrintPiece(line, buffer, offset, size, text);
    b, o := PrintDevices(devs, pieces, b, o, size, text + line);
    Regroup(text, line, Concat(pieces));
  }

  /** Slot `i` of a table whose blocks are the given pieces. */
  method PrintNext(slots: seq<VmInstance>, i: nat, ghost pieces: seq<string>,
                   buffer: string, offset: nat, size: int, ghost text: string)
      returns (b: string, o: nat)
    requires |pieces| == |slots|
    requires forall k {:trigger slots[k]} :: 0 <= k < |slots| ==> slots[k].Valid() && pieces[k] == Block(slots[k])
    requires i < |slots| && Shows(buffer, offset, size, text) && offset < size
    ensures Shows(b, o, size, text + pieces[i])
  {
    b, o := PrintSlot(slots[i], pieces[i], buffer, offset, size, text);
  }

  /** The table slot by slot, while there is room. */
  method PrintTable(slots: seq<VmInstance>, ghost pieces: seq<string>,
                    buffer: string, offset: nat, size: int, ghost text: string)
      returns (b: string, o: nat)
    requires |slots| == |pieces| == MAX_NUM_VM && Shows(buffer, offset, size, text)
    requires forall k {:trigger slots[k]} :: 0 <= k < |slots| ==> slots[k].Valid() && pieces[k] == Block(slots[k])
    ensures Shows(b, o, size, text + Concat(pieces))
  {
    b, o := buffer, offset;
    var i := 0;
    while i < MAX_NUM_VM && o < size
      invariant 0 <= i <= MAX_NUM_VM
      invariant Shows(b, o, size, After(text, pieces, i))
    {
      ghost var before := After(text, pieces, i);
      b, o := PrintNext(slots, i, pieces, b, o, size, before);
      AfterNext(text, pieces, i);
      i := i + 1;
    }
    AllShown(b, o, size, text, pieces, i);
  }

  lemma AfterNext(text: string, pieces: seq<string>, i: nat)
    requires i < |pieces|
    ensures After(text, pieces, i + 1) == After(text, pieces, i) + pieces[i]
  {
  }

  const NO_VM := "No VM created.\n"

  /** The count line, then the table, or a line that says there is none. */
  method PrintDump(line: string, count: int, slots: seq<VmInstance>, ghost pieces: seq<string>, size: int)
      returns (buffer: string)
    requires |slots| == |pieces| == MAX_NUM_VM && size > 0
    requires forall k {:trigger slots[k]} :: 0 <= k < |slots| ==> slots[k].Valid() && pieces[k] == Block(slots[k])
    ensures buffer == Kept(line + if count == 0 then NO_VM else Concat(pieces), size)
  {
    ghost var rest := if count == 0 then NO_VM else Concat(pieces);
    var offset: nat;
    FirstShown(line, size);
    buffer, offset := First(line, size).0, First(line, size).1;
    if offset >= size {
      FullShows(buffer, offset, size, line, rest);
    } else if count == 0 {
      buffer, offset := PrintPiece(NO_VM, buffer, offset, size, line);
    } else {
      buffer, offset := PrintTable(slots, pieces, buffer, offset, size, line);
    }
  }

  /** The first piece, at the start of the buffer. */
  function First(line: string, size: int): (string, nat)
    requires size > 0
  {
    Print("", 0, size, line)
  }

  lemma FirstShown(line: string, size: int)
    requires size > 0
    ensures Shows(First(line, size).0, First(line, size).1, size, line)
  {
    PrintAppends("", size, line);
    assert "" + line == line;
  }

  /** Every slot's block as one text. */
  ghost function BlockTexts(vms: seq<Vm>): (r: seq<string>)
    ensures |r| == |vms| && forall k :: 0 <= k < |vms| ==> r[k] == TextOf(SlotLines(vms[k]))
  {
    seq(|vms|, k requires 0 <= k < |vms| => TextOf(SlotLines(vms[k])))
  }

  lemma BlockTextsOfLast(vms: seq<Vm>)
    requires vms != []
    ensures Concat(BlockTexts(vms)) == Concat(BlockTexts(vms[..|vms| - 1])) + TextOf(SlotLines(vms[|vms| - 1]))
    ensures Concat(TableBlocks(vms)) == Concat(TableBlocks(vms[..|vms| - 1])) + SlotLines(vms[|vms| - 1])
  {
    assert BlockTexts(vms)[..|vms| - 1] == BlockTexts(vms[..|vms| - 1]);
    assert TableBlocks(vms)[..|vms| - 1] == TableBlocks(vms[..|vms| - 1]);
  }

  lemma {:induction false} BlockTextsJoin(vms: seq<Vm>)
    ensures Concat(BlockTexts(vms)) == TextOf(Concat(TableBlocks(vms)))
  {
    if vms != [] {
      BlockTextsOfLast(vms);
      BlockTextsJoin(vms[..|vms| - 1]);
      TextOfConcat(Concat(TableBlocks(vms[..|vms| - 1])), SlotLines(vms[|vms| - 1]));
    }
  }

  lemma DumpParts(count: int, vms: seq<Vm>)
    ensures VmDump(count, vms)
         == ("VM Count: " + ShowInt(count) + "\n") + if count == 0 then NO_VM else Concat(BlockTexts(vms))
  {
    var none := ["No VM created."];
    TextOfFirst("No VM created.", []);
    assert none + [] == none && TextOf([]) == "";
    BlockTextsJoin(vms);
    TextOfFirst("VM Count: " + ShowInt(count), if count == 0 then none else Concat(TableBlocks(vms)));
  }

  lemma TableIsBlocks(m: VmManager)
    requires m.Sound()
    ensures |m.vms| == MAX_NUM_VM
    ensures forall k {:trigger m.vms[k]} :: 0 <= k < |m.vms| ==>
              m.vms[k].Valid() && BlockTexts(m.AbsVms())[k] == Block(m.vms[k])
  {
  }

  /** The dump of the table: what the buffer keeps of the full text, however the pieces fall. */
  method DumpState(m: VmManager, size: int) returns (ret: int, buffer: string)
    requires m.Sound()
    ensures ret == if size <= 0 then -1 else 0
    ensures size > 0 ==> buffer == Kept(VmDump(m.count, m.AbsVms()), size)
  {
    if size <= 0 {
      return -1, "";
    }
    ret := 0;
    TableIsBlocks(m);
    buffer := PrintState(m.count, m.vms, m.AbsVms(), size);
  }

  method PrintState(count: int, slots: seq<VmInstance>, ghost vms: seq<Vm>, size: int) returns (buffer: string)
    requires |slots| == |vms| == MAX_NUM_VM && size > 0
    requires forall k {:trigger slots[k]} :: 0 <= k < |slots| ==>
               slots[k].Valid() && BlockTexts(vms)[k] == Block(slots[k])
    ensures buffer == Kept(VmDump(count, vms), size)
  {
    buffer := PrintDump("VM Count: " + ShowInt(count) + "\n", count, slots, BlockTexts(vms), size);
    DumpParts(count, vms);
  }

  // ---------- the usage table ----------

  /** The printed lines of the devices. */
  ghost predicate TableOf(pool: MemoryPool.MemoryPool, pieces: seq<string>)
    requires pool.Valid()
    reads pool.devs, set i | 0 <= i < |pool.devs| :: pool.devs[i].segments
  {
    |pieces| == |pool.devs|
    && forall i {:trigger pool.devs[i]} :: 0 <= i < |pool.devs| ==>
         pieces[i] == UsageLine(i, pool.devs[i].Abs(), pool.segmentSizeMb) + "\n"
  }

  lemma UsageParts(pool: MemoryPool.MemoryPool) returns (pieces: seq<string>)
    requires pool.Valid() && |pool.devs| > 0
    ensures TableOf(pool, pieces) && UsageText(pool.Abs()) == (UsageHeader() + "\n") + Concat(pieces)
  {
    var lines := UsageLines(pool.Abs());
    pieces := Ended(lines[1..]);
    TextOfFirst(lines[0], lines[1..]);
    assert lines == [lines[0]] + lines[1..];
  }

  /** The header, then one line a device, until the buffer is full. */
  method GetUsage(pool: MemoryPool.MemoryPool, size: int) returns (buffer: string)
    requires pool.Valid() && size > 0
    ensures buffer == Kept(UsageText(pool.Abs()), size)
  {
    if |pool.devs| == 0 {
      return Kept("No memory devices initialized.\n", size);
    }
    ghost var pieces := UsageParts(pool);
    buffer := PrintPool(pool, UsageHeader() + "\n", pieces, size);
  }

  method PrintPool(pool: MemoryPool.MemoryPool, header: string, ghost pieces: seq<string>, size: int)
      returns (b: string)
    requires pool.Valid() && TableOf(pool, pieces) && size > 0
    ensures b == Kept(header + Concat(pieces), size)
  {
    var o: nat;
    FirstShown(header, size);
    b, o := First(header, size).0, First(header, size).1;
    var i := 0;
    while i < |pool.devs| && o < size
      invariant 0 <= i <= |pool.devs|
      invariant Shows(b, o, size, After(header, pieces, i))
    {
      b, o := PrintUsage(pool, i, pieces, b, o, size, After(header, pieces, i));
      i := i + 1;
    }
    AllShown(b, o, size, header, pieces, i);
  }

  method PrintUsage(pool: MemoryPool.MemoryPool, i: nat, ghost pieces: seq<string>,
                    buffer: string, offset: nat, size: int, ghost text: string)
      returns (b: string, o: nat)
    requires pool.Valid() && TableOf(pool, pieces) && i < |pool.devs| && offset < size
    requires Shows(buffer, offset, size, text)
    ensures Shows(b, o, size, text + pieces[i])
  {
    var d := pool.devs[i];
    var line := Join(UsageFields(Padded(5, i) + " ", d.devPath,
                                 UsageCells(d.totalSizeMb, pool.segmentSizeMb, d.usedSegments, d.totalSegments,
                                            d.nodeId, d.tierId, d.daxId)), '|');
    b, o := PrintPiece(line + "\n", buffer, offset, size, text);
  }
}
