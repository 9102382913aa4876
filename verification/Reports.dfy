/** The server's answers as texts, and what a buffer keeps of a text printed piece by piece. */
module Reports {
  import opened Text
  import opened Lists
  import opened Lines
  import opened Segments
  import opened PoolModel
  import opened VmModel

  // ---------- a bounded buffer ----------

  const BUFFER_SIZE := 1024

  /** What a buffer of `size` characters, one of them the terminator, keeps of a text. */
  function Kept(text: string, size: int): string {
    if |text| < size then text else if size <= 0 then "" else text[..size - 1]
  }

  /** One `snprintf` at the end of the text so far: the new contents and the new offset. */
  function Print(buffer: string, offset: nat, size: int, piece: string): (r: (string, nat))
    requires offset < size
  {
    (buffer + Kept(piece, size - offset), offset + |piece|)
  }

  /** Printing appends to the untruncated text. */
  lemma PrintAppends(text: string, size: int, piece: string)
    requires |text| < size
    ensures Print(Kept(text, size), |text|, size, piece) == (Kept(text + piece, size), |text + piece|)
  {
    if |text + piece| >= size {
      assert (text + piece)[..size - 1] == text + piece[..size - 1 - |text|];
    }
  }

  /** Once the buffer is full, whatever would follow is lost. */
  lemma FullStaysFull(text: string, more: string, size: int)
    requires |text| >= size - 1
    ensures Kept(text + more, size) == Kept(text, size)
  {
  }

  // ---------- the VM dump ----------

  function VmDetails(cores: nat, coreSet: string, counter: int): string {
    "cores=" + ShowInt(cores) + " coreset=[" + coreSet + "] memdev_count=" + ShowInt(counter)
  }

  function VmHead(id: int, cores: nat, coreSet: string, counter: int): string {
    "VM id=" + ShowInt(id) + " " + VmDetails(cores, coreSet, counter)
  }

  function VmLine(vm: Vm): string {
    VmHead(vm.vmId, vm.numCores, vm.coreSet, vm.counter)
  }

  function DevDetails(req: MemoryRequest): string {
    "path=" + req.devPath + " size=" + ShowInt(req.sizeMb) + "MB align=" + ShowInt(req.alignMb)
    + "MB offset=" + ShowInt(req.offsetMb) + "MB"
  }

  function DevLine(dev: MemDev): string {
    "  " + ("memdev=" + ShowInt(dev.idx) + " " + ("node=" + ShowInt(dev.req.nodeId) + " " + DevDetails(dev.req)))
  }

  function DevLines(devs: seq<MemDev>): (r: seq<string>)
    ensures |r| == |devs| && forall i :: 0 <= i < |devs| ==> r[i] == DevLine(devs[i])
  {
    seq(|devs|, i requires 0 <= i < |devs| => DevLine(devs[i]))
  }

  function SlotLines(vm: Vm): seq<string> {
    if vm.initialized then [VmLine(vm)] + DevLines(vm.devs) else []
  }

  function TableBlocks(vms: seq<Vm>): (r: seq<seq<string>>)
    ensures |r| == |vms| && forall j :: 0 <= j < |vms| ==> r[j] == SlotLines(vms[j])
  {
    seq(|vms|, j requires 0 <= j < |vms| => SlotLines(vms[j]))
  }

  function DumpLines(count: int, vms: seq<Vm>): (r: seq<string>)
    ensures r != []
  {
    ["VM Count: " + ShowInt(count)] + if count == 0 then ["No VM created."] else Concat(TableBlocks(vms))
  }

  function VmDump(count: int, vms: seq<Vm>): string {
    TextOf(DumpLines(count, vms))
  }

  // ---------- the usage table ----------

  /** `%<width>d`. */
  function Padded(width: nat, n: int): string {
    Blanks(width - |ShowInt(n)|) + ShowInt(n)
  }

  function Blanks(n: int): (s: string)
    ensures forall i :: 0 <= i < |s| ==> s[i] == ' '
  {
    if n <= 0 then "" else " " + Blanks(n - 1)
  }

  const USAGE_COLUMNS :=
    ["Index ", " Device Path ", " Size (MB) ", " Segment (MB) ", " Used Seg ", " Total Seg ", " Node ID ",
     " Tier ID ", " Dax ID"]

  function UsageHeader(): string {
    Join(USAGE_COLUMNS, '|')
  }

  function Cell(width: nat, n: int): string {
    " " + Padded(width, n) + " "
  }

  /** The columns after the first two. */
  function UsageCells(sizeMb: int, segMb: int, used: int, total: int, node: int, tier: int, dax: int): seq<string> {
    [Cell(9, sizeMb), Cell(12, segMb), Cell(8, used), Cell(9, total), Cell(7, node), Cell(7, tier),
     " " + Padded(6, dax)]
  }

  function CellsOf(d: Device, segMb: int): (r: seq<string>)
    ensures |r| == 7
  {
    UsageCells(d.totalMb, segMb, CountTaken(d.segs), |d.segs|, d.nodeId, d.tierId, d.daxId)
  }

  function UsageFields(index: string, path: string, cells: seq<string>): (r: seq<string>)
    ensures |r| == 2 + |cells| && r[0] == index && r[1] == " " + path + " "
    ensures forall k :: 0 <= k < |cells| ==> r[2 + k] == cells[k]
  {
    [index, " " + path + " "] + cells
  }

  function UsageLine(i: int, d: Device, segMb: int): string {
    Join(UsageFields(Padded(5, i) + " ", d.path, CellsOf(d, segMb)), '|')
  }

  function UsageLines(p: Pool): (r: seq<string>)
    ensures |r| == 1 + |p.devs| && r[0] == UsageHeader()
  {
    [UsageHeader()] + seq(|p.devs|, i requires 0 <= i < |p.devs| => UsageLine(i, p.devs[i], p.segMb))
  }

  function UsageText(p: Pool): string {
    if p.devs == [] then "No memory devices initialized.\n" else TextOf(UsageLines(p))
  }

  // ---------- the reply to an allocation ----------

  function AllocDetails(req: MemoryRequest): string {
    "mem-path=" + req.devPath + ",size=" + ShowInt(req.sizeMb) + "M,align=" + ShowInt(req.alignMb)
    + "M,offset=" + ShowInt(req.offsetMb) + "M"
  }

  function AllocReply(dev: MemDev): string {
    "id=mem" + ShowInt(dev.idx) + [','] + AllocDetails(dev.req)
  }
}
