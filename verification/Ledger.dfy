/** The reference: what each VM has been granted; all else the server stores follows (see `Refinement`). */
module Ledger {
  import opened Wrappers
  import opened Segments
  import opened PoolModel
  import opened VmModel

  /** `len` segments from `start` of a node, known to the VM as `id`. */
  datatype Grant = Grant(id: int, node: int, start: int, len: int)

  datatype Entry = Entry(running: bool, next: int, grants: seq<Grant>)

  type Book = map<int, Entry>

  /** The fixed hardware: segment size, and each node's path and number of segments. */
  datatype Node = Node(path: string, total: nat)
  datatype Hardware = Hardware(segMb: int, nodes: seq<Node>)

  predicate Covers(g: Grant, node: int, k: int) {
    g.node == node && g.start <= k < g.start + g.len
  }

  predicate Holds(e: Entry, node: int, k: int) {
    exists i :: 0 <= i < |e.grants| && Covers(e.grants[i], node, k)
  }

  predicate Taken(book: Book, node: int, k: int) {
    exists v :: v in book && Holds(book[v], node, k)
  }

  function Occupancy(book: Book, node: int, total: nat): (b: seq<bool>)
    ensures |b| == total
    ensures forall k :: 0 <= k < total ==> b[k] == Taken(book, node, k)
  {
    seq(total, k requires 0 <= k < total => Taken(book, node, k))
  }

  function Position(grants: seq<Grant>, id: int): (r: int)
    ensures r == -1 || (0 <= r < |grants| && grants[r].id == id)
    ensures r == -1 ==> forall k :: 0 <= k < |grants| ==> grants[k].id != id
  {
    if grants == [] then -1
    else if grants[0].id == id then 0
    else
      var r := Position(grants[1..], id);
      assert r == -1 ==> forall k :: 1 <= k < |grants| ==> grants[k] == grants[1..][k - 1];
      if r == -1 then -1 else r + 1
  }

  /** A grant in megabytes. */
  function RequestOf(hw: Hardware, g: Grant): Option<MemoryRequest> {
    if 0 <= g.node < |hw.nodes|
    then Some(MemoryRequest(g.node, hw.nodes[g.node].path, g.start * hw.segMb, g.len * hw.segMb, hw.segMb))
    else None
  }

  /** What a VM knows as `id`, by the ledger. */
  function BookRequest(hw: Hardware, book: Book, v: int, id: int): Option<MemoryRequest> {
    if v !in book || Position(book[v].grants, id) == -1 then None
    else RequestOf(hw, book[v].grants[Position(book[v].grants, id)])
  }

  // ---------- the commands, on the ledger ----------

  function Grantable(hw: Hardware, book: Book, node: int, sizeMb: int): (start: int)
    requires hw.segMb > 0
  {
    if IsAligned(sizeMb, hw.segMb) && 0 <= node < |hw.nodes|
    then FirstFit(Occupancy(book, node, hw.nodes[node].total), sizeMb / hw.segMb)
    else -1
  }

  function BookStep(hw: Hardware, book: Book, c: Command): (Book, Reply)
    requires hw.segMb > 0
  {
    if !ArgsOk(c) then (book, InvalidArgs)
    else
      match c
      case CreateVm(v, _) =>
        if |book| >= MAX_NUM_VM || v in book then (book, Failed)
        else (book[v := Entry(false, 0, [])], Succeeded)
      case DestroyVm(v) =>
        if v !in book || book[v].running then (book, Failed) else (book - {v}, Succeeded)
      case StartVm(v, connected) =>
        if v !in book then (book, Failed)
        else if book[v].running || connected then (book[v := book[v].(running := true)], Succeeded)
        else (book, Failed)
      case StopVm(v) =>
        if v !in book then (book, Failed) else (book[v := book[v].(running := false)], Succeeded)
      case AllocateMem(node, v, sizeMb) =>
        var start := Grantable(hw, book, node, sizeMb);
        if v !in book || start == -1 then (book, Failed)
        else
          var e, n := book[v], sizeMb / hw.segMb;
          (book[v := Entry(e.running, e.next + 1, e.grants + [Grant(e.next, node, start, n)])],
           Allocated(MemDev(e.next, MemoryRequest(node, hw.nodes[node].path, start * hw.segMb, sizeMb, hw.segMb))))
      case ReleaseMem(v, id) =>
        if v !in book || Position(book[v].grants, id) == -1 then (book, Failed)
        else
          var e, m := book[v], Position(book[v].grants, id);
          (book[v := e.(grants := e.grants[..m] + e.grants[m + 1..])], Succeeded)
      case AttachMem(id, v, plugged) =>
        (book, if v !in book || Position(book[v].grants, id) == -1 then NoSuchMemory else Answer(plugged))
      case DetachMem(id, v, unplugged) =>
        (book, if v !in book || Position(book[v].grants, id) == -1 then NoSuchMemory else Answer(unplugged))
  }
}
