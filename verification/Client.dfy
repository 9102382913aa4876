/** The client's readers of the server's answers. */
module Client {
  import opened Wrappers
  import opened Text
  import opened Lines
  import opened Sorting
  import opened Reports
  import opened Planner

  /** What reaches the client of a text the server prints: what its buffer keeps, stripped. */
  function Received(text: string): string {
    Strip(Kept(text, BUFFER_SIZE))
  }

  // ---------- reading line by line ----------

  /** What the lines read as, those read as None left out. */
  function Collect<T>(lines: seq<string>, read: string -> Option<T>): seq<T> {
    if lines == [] then []
    else
      Collect(lines[..|lines| - 1], read) + match read(lines[|lines| - 1]) case Some(n) => [n] case None => []
  }

  lemma CollectNext<T>(lines: seq<string>, read: string -> Option<T>, i: nat)
    requires i < |lines|
    ensures Collect(lines[..i + 1], read)
         == Collect(lines[..i], read) + match read(lines[i]) case Some(n) => [n] case None => []
  {
    assert lines[..i + 1][..i] == lines[..i];
  }

  lemma {:induction false} CollectBoth<T>(a: seq<string>, b: seq<string>, read: string -> Option<T>)
    ensures Collect(a + b, read) == Collect(a, read) + Collect(b, read)
  {
    if b == [] {
      assert a + b == a;
    } else {
      CollectBoth(a, b[..|b| - 1], read);
      assert (a + b)[..|a + b| - 1] == a + b[..|b| - 1];
    }
  }

  lemma CollectOne<T>(line: string, read: string -> Option<T>)
    ensures Collect([line], read) == match read(line) case Some(n) => [n] case None => []
  {
    assert [line][..0] == [];
  }

  lemma {:induction false} CollectNone<T>(lines: seq<string>, read: string -> Option<T>)
    requires forall i :: 0 <= i < |lines| ==> read(lines[i]) == None
    ensures Collect(lines, read) == []
  {
    if lines != [] {
      CollectNone(lines[..|lines| - 1], read);
    }
  }

  // ---------- VM ids ----------

  /** The id a dump line announces, if it does. */
  function VmIdOf(line: string): Option<int> {
    var words := Words(line);
    if !StartsWith(line, "VM id=") || |words| < 2 || !StartsWith(words[1], "id=") then None
    else IntAfterEquals(words[1])
  }

  function RawVmId(raw: string): Option<int> {
    VmIdOf(Strip(raw))
  }

  function UsedIds(lines: seq<string>): set<int> {
    Elements(Collect(lines, RawVmId))
  }

  method GetUsedVmIds(output: string) returns (r: seq<int>)
    ensures r == SortedSet(UsedIds(SplitLines(output)))
  {
    var lines := SplitLines(output);
    var used: set<int> := {};
    assert UsedIds(lines[..0]) == {};
    for i := 0 to |lines|
      invariant used == UsedIds(lines[..i])
    {
      CollectNext(lines, RawVmId, i);
      var id := RawVmId(lines[i]);
      if id.Some? {
        ElementsOfSum(Collect(lines[..i], RawVmId), [id.value]);
        used := used + {id.value};
      }
    }
    assert lines[..|lines|] == lines;
    return SortedSet(used);
  }

  // ---------- a VM's nodes ----------

  function NodeOfWords(words: seq<string>): Option<int> {
    if words == [] then None
    else if StartsWith(words[0], "node=") then IntAfterEquals(words[0])
    else NodeOfWords(words[1..])
  }

  /** Whether the VM's block is open, and the nodes seen so far. */
  type Scanned = (bool, set<int>)

  function ScanLine(now: Scanned, raw: string, vmid: int): Scanned {
    var line := Strip(raw);
    if StartsWith(line, "VM id=") then (StartsWith(line, "VM id=" + ShowInt(vmid) + " "), now.1)
    else if now.0 && StartsWith(line, "memdev=") then
      (now.0, now.1 + match NodeOfWords(Words(line)) case Some(n) => {n} case None => {})
    else now
  }

  /** The scan of the dump for one VM. */
  function Scan(now: Scanned, lines: seq<string>, vmid: int): Scanned {
    if lines == [] then now
    else ScanLine(Scan(now, lines[..|lines| - 1], vmid), lines[|lines| - 1], vmid)
  }

  const UNSEEN: Scanned := (false, {})

  method GetVmMemNodes(output: string, vmid: int) returns (r: seq<int>)
    ensures r == SortedSet(Scan(UNSEEN, SplitLines(output), vmid).1)
  {
    var lines := SplitLines(output);
    var inTarget, nodes: seq<int> := false, [];
    assert Elements(nodes) == {};
    for i := 0 to |lines|
      invariant inTarget == Scan(UNSEEN, lines[..i], vmid).0
      invariant Elements(nodes) == Scan(UNSEEN, lines[..i], vmid).1
    {
      assert lines[..i + 1][..i] == lines[..i];
      var line := Strip(lines[i]);
      if StartsWith(line, "VM id=") {
        inTarget := StartsWith(line, "VM id=" + ShowInt(vmid) + " ");
        continue;
      }
      if inTarget && StartsWith(line, "memdev=") {
        var n := NodeOfWords(Words(line));
        if n.Some? {
          assert Elements(nodes + [n.value]) == Elements(nodes) + {n.value};
          nodes := nodes + [n.value];
        }
      }
    }
    assert lines[..|lines|] == lines;
    return SortedSet(Elements(nodes));
  }

  // ---------- the pool usage table ----------

  function StripAll(parts: seq<string>): (r: seq<string>)
    ensures |r| == |parts| && forall i :: 0 <= i < |parts| ==> r[i] == Strip(parts[i])
  {
    seq(|parts|, i requires 0 <= i < |parts| => Strip(parts[i]))
  }

  /** All the values, or nothing when one cannot be read. */
  function ReadAll<T>(parts: seq<string>, read: string -> Option<T>): (r: Option<seq<T>>)
    ensures r.Some? ==> |r.value| == |parts|
  {
    if parts == [] then Some([])
    else
      match (read(parts[0]), ReadAll(parts[1..], read))
      case (Some(n), Some(rest)) => Some([n] + rest)
      case _ => None
  }

  lemma {:induction false} ReadsAll<T>(parts: seq<string>, read: string -> Option<T>, n: seq<T>)
    requires |parts| == |n| && forall k :: 0 <= k < |n| ==> read(parts[k]) == Some(n[k])
    ensures ReadAll(parts, read) == Some(n)
  {
    if n != [] {
      ReadsAll(parts[1..], read, n[1..]);
      assert n == [n[0]] + n[1..];
    }
  }

  function FreeMb(segmentMb: int, usedSeg: int, totalSeg: int): int {
    (totalSeg - usedSeg) * segmentMb
  }

  /** Segment size, used and total segments, node and tier are the columns 3 to 7. */
  function NodeOfParts(parts: seq<string>): Option<MemPoolNode> {
    if |parts| < 9 then None
    else
      match ReadAll(parts[3..8], PyInt)
      case Some(n) => Some(MemPoolNode(n[3], n[4], FreeMb(n[0], n[1], n[2])))
      case None => None
  }

  /** The node of one table line; None for the lines that are skipped. */
  function NodeOfLine(raw: string): Option<MemPoolNode> {
    var line := Strip(raw);
    if line == "" || StartsWith(line, "Index") then None
    else NodeOfParts(StripAll(Text.Split(line, '|')))
  }

  function NodesOfLines(lines: seq<string>): seq<MemPoolNode> {
    Collect(lines, NodeOfLine)
  }

  /** None when no line could be read, which the client reports as an error. */
  method GetMemPoolNodes(output: string) returns (r: Option<seq<MemPoolNode>>)
    ensures var nodes := NodesOfLines(SplitLines(output));
            r == if nodes == [] then None else Some(SortBy(nodes, (n: MemPoolNode) => n.nodeId))
  {
    var lines := SplitLines(output);
    var nodes: seq<MemPoolNode> := [];
    for i := 0 to |lines|
      invariant nodes == NodesOfLines(lines[..i])
    {
      assert lines[..i + 1][..i] == lines[..i];
      var n := NodeOfLine(lines[i]);
      if n.Some? {
        nodes := nodes + [n.value];
      }
    }
    assert lines[..|lines|] == lines;
    if nodes == [] {
      return None;
    }
    return Some(SortBy(nodes, (n: MemPoolNode) => n.nodeId));
  }

  // ---------- the reply to an allocation ----------

  /** The first field that begins with `id=`, without it. */
  function IdField(parts: seq<string>): Option<string> {
    if parts == [] then None
    else
      var part := Strip(parts[0]);
      if StartsWith(part, "id=") then Some(part[3..]) else IdField(parts[1..])
  }

  /** The id of the memory device obtained; None where the client raises an error. */
  function MemIdOf(output: string): Option<int> {
    match IdField(Text.Split(output, ','))
    case Some(field) => if StartsWith(field, "mem") then PyInt(field[3..]) else None
    case None => None
  }
}
