/**
 What the client reads of the usage table is what the pool holds: padded columns are stripped and read as
 numbers, a device's line reads as its node, tier and free memory, the header is skipped, and a table that
 fits gives every device, in node order, with distinct ids.
 */
module UsageRoundTrip {
  import opened Wrappers
  import opened Text
  import opened Lines
  import opened Sorting
  import opened Segments
  import opened PoolModel
  import opened Reports
  import opened Client
  import opened Planner

  /** What the table says of a device: its node, tier, and free megabytes. */
  function NodeOf(d: Device, segMb: int): MemPoolNode {
    MemPoolNode(d.nodeId, d.tierId, FreeMb(segMb, CountTaken(d.segs), |d.segs|))
  }

  function PoolNodes(p: Pool): (r: seq<MemPoolNode>)
    ensures |r| == |p.devs| && forall i :: 0 <= i < |p.devs| ==> r[i] == NodeOf(p.devs[i], p.segMb)
  {
    seq(|p.devs|, i requires 0 <= i < |p.devs| => NodeOf(p.devs[i], p.segMb))
  }

  lemma StripBothEnds(pad: string, s: string)
    requires Bounded(s) && forall i :: 0 <= i < |pad| ==> IsSpace(pad[i])
    ensures Strip(pad + s + " ") == s
  {
    assert pad + s + " " == pad + (s + " ");
    SkipBlanks(pad, s + " ");
    var t := s + " ";
    assert t[..|t| - 1] == s && t[|t| - 1] == ' ';
    assert DropTrailing(t) == DropTrailing(s) == s;
  }

  /** A column with a number in it reads back as that number. */
  lemma ColumnReads(width: nat, n: int)
    ensures PyInt(Strip(Cell(width, n))) == Some(n)
  {
    var pad := " " + Blanks(width - |ShowInt(n)|);
    DigitsAreVisible(n);
    assert Cell(width, n) == pad + ShowInt(n) + " ";
    StripBothEnds(pad, ShowInt(n));
    PyIntShow(n);
  }

  predicate Column(f: string) {
    OneLine(f) && '|' !in f
  }

  lemma NumberColumn(width: nat, n: int)
    ensures Column(Cell(width, n)) && Column(Padded(width, n) + " ") && Column(ShowInt(n) + " ")
    ensures Column(" " + Padded(width, n)) && GoodLine(" " + Padded(width, n))
  {
    DigitsAreVisible(n);
    GoodNumber(n);
    GoodConcat(Blanks(width - |ShowInt(n)|), ShowInt(n));
    GoodConcat(" ", Padded(width, n));
  }

  lemma {:induction false} JoinIsGood(fields: seq<string>)
    requires fields != [] && GoodLine(fields[|fields| - 1])
    requires forall i :: 0 <= i < |fields| ==> OneLine(fields[i])
    ensures GoodLine(Join(fields, '|'))
  {
    if |fields| > 1 {
      JoinIsGood(fields[1..]);
      GoodConcat(fields[0] + ['|'], Join(fields[1..], '|'));
    }
  }

  lemma JoinFirst(pad: string, fields: seq<string>)
    requires fields != []
    ensures Join(fields[0 := pad + fields[0]], '|') == pad + Join(fields, '|')
  {
    var padded := fields[0 := pad + fields[0]];
    assert padded[1..] == fields[1..];
    if |fields| > 1 {
      assert pad + fields[0] + ['|'] + Join(fields[1..], '|') == pad + (fields[0] + ['|'] + Join(fields[1..], '|'));
    }
  }

  lemma SevenColumns(a: string, b: string, c: string, d: string, e: string, f: string, g: string)
    requires Column(a) && Column(b) && Column(c) && Column(d) && Column(e) && Column(f) && Column(g)
    ensures forall k :: 0 <= k < 7 ==> Column([a, b, c, d, e, f, g][k])
  {
    var cells := [a, b, c, d, e, f, g];
    assert cells[0] == a && cells[1] == b && cells[2] == c && cells[3] == d && cells[4] == e && cells[5] == f;
  }

  lemma CellsAreColumns(sizeMb: int, segMb: int, used: int, total: int, node: int, tier: int, dax: int)
    ensures var cells := UsageCells(sizeMb, segMb, used, total, node, tier, dax);
            (forall k :: 0 <= k < 7 ==> Column(cells[k])) && GoodLine(cells[6])
  {
    NumberColumn(9, sizeMb);
    NumberColumn(12, segMb);
    NumberColumn(8, used);
    NumberColumn(9, total);
    NumberColumn(7, node);
    NumberColumn(7, tier);
    NumberColumn(6, dax);
    SevenColumns(Cell(9, sizeMb), Cell(12, segMb), Cell(8, used), Cell(9, total), Cell(7, node), Cell(7, tier),
                 " " + Padded(6, dax));
  }

  /** Every field is a clean column, and the line does not end in a blank. */
  predicate CleanFields(fields: seq<string>) {
    && |fields| == 9 && GoodLine(fields[8])
    && forall k :: 0 <= k < 9 ==> Column(fields[k])
  }

  lemma FieldsAreClean(index: string, d: Device, segMb: int)
    requires Column(d.path) && Column(index)
    ensures CleanFields(UsageFields(index, d.path, CellsOf(d, segMb)))
  {
    CellsAreColumns(d.totalMb, segMb, CountTaken(d.segs), |d.segs|, d.nodeId, d.tierId, d.daxId);
    CleanFromCells(index, d.path, CellsOf(d, segMb));
  }

  lemma CleanFromCells(index: string, path: string, cells: seq<string>)
    requires Column(path) && Column(index) && |cells| == 7 && GoodLine(cells[6])
    requires forall k :: 0 <= k < 7 ==> Column(cells[k])
    ensures CleanFields(UsageFields(index, path, cells))
  {
    var fields := UsageFields(index, path, cells);
    assert Column(" " + path + " ");
    forall k | 0 <= k < 9 ensures Column(fields[k]) {
      assert k >= 2 ==> fields[k] == cells[k - 2];
    }
  }

  lemma UsageLineIsGood(i: int, d: Device, segMb: int)
    requires Column(d.path)
    ensures GoodLine(UsageLine(i, d, segMb))
  {
    NumberColumn(5, i);
    FieldsAreClean(Padded(5, i) + " ", d, segMb);
    JoinIsGood(UsageFields(Padded(5, i) + " ", d.path, CellsOf(d, segMb)));
  }

  /** Padding in front of the first field is padding in front of the line. */
  lemma JoinPadded(pad: string, index: string, path: string, cells: seq<string>)
    ensures Join(UsageFields(pad + index, path, cells), '|') == pad + Join(UsageFields(index, path, cells), '|')
  {
    var fields := UsageFields(index, path, cells);
    JoinFirst(pad, fields);
    assert fields[0 := pad + index] == UsageFields(pad + index, path, cells);
  }

  lemma {:induction false} FirstOfJoin(fields: seq<string>)
    requires fields != [] && fields[0] != ""
    ensures Join(fields, '|') != "" && Join(fields, '|')[0] == fields[0][0]
  {
  }

  /** Stripping the joined fields takes the padding of the first one off. */
  lemma StripFields(pad: string, index: string, path: string, cells: seq<string>)
    requires CleanFields(UsageFields(index, path, cells)) && index != "" && !IsSpace(index[0])
    requires forall i :: 0 <= i < |pad| ==> IsSpace(pad[i])
    ensures var line := Strip(Join(UsageFields(pad + index, path, cells), '|'));
            && line == Join(UsageFields(index, path, cells), '|')
            && line != "" && line[0] == index[0]
  {
    var fields := UsageFields(index, path, cells);
    JoinPadded(pad, index, path, cells);
    JoinIsGood(fields);
    FirstOfJoin(fields);
    StripLeading(pad, Join(fields, '|'));
  }

  /** A line of clean fields is read field by field. */
  lemma {:induction false} LineOfFields(raw: string, fields: seq<string>)
    requires CleanFields(fields) && Strip(raw) == Join(fields, '|') && Strip(raw) != "" && Strip(raw)[0] != 'I'
    ensures NodeOfLine(raw) == NodeOfParts(StripAll(fields))
  {
    SplitJoin(fields, '|');
    assert "Index"[0] == 'I';
  }

  lemma PartsRead(parts: seq<string>, segmentMb: int, used: int, total: int, node: int, tier: int)
    requires |parts| == 9 && PyInt(parts[3]) == Some(segmentMb) && PyInt(parts[4]) == Some(used)
    requires PyInt(parts[5]) == Some(total) && PyInt(parts[6]) == Some(node) && PyInt(parts[7]) == Some(tier)
    ensures NodeOfParts(parts) == Some(MemPoolNode(node, tier, FreeMb(segmentMb, used, total)))
  {
    var n := [segmentMb, used, total, node, tier];
    var five := parts[3..8];
    assert five[0] == parts[3] && five[1] == parts[4] && five[2] == parts[5];
    assert five[3] == parts[6] && five[4] == parts[7];
    forall k | 0 <= k < 5 ensures PyInt(five[k]) == Some(n[k]) {
      assert k == 0 || k == 1 || k == 2 || k == 3 || k == 4;
    }
    ReadsAll(five, PyInt, n);
  }

  lemma CellsRead(fields: seq<string>, sizeMb: int, segMb: int, used: int, total: int, node: int, tier: int)
    requires |fields| == 9 && fields[3] == Cell(12, segMb) && fields[4] == Cell(8, used)
    requires fields[5] == Cell(9, total) && fields[6] == Cell(7, node) && fields[7] == Cell(7, tier)
    ensures NodeOfParts(StripAll(fields)) == Some(MemPoolNode(node, tier, FreeMb(segMb, used, total)))
  {
    ColumnReads(12, segMb);
    ColumnReads(8, used);
    ColumnReads(9, total);
    ColumnReads(7, node);
    ColumnReads(7, tier);
    PartsRead(StripAll(fields), segMb, used, total, node, tier);
  }

  lemma FieldsRead(index: string, d: Device, segMb: int)
    ensures NodeOfParts(StripAll(UsageFields(index, d.path, CellsOf(d, segMb)))) == Some(NodeOf(d, segMb))
  {
    var cells := CellsOf(d, segMb);
    var fields := UsageFields(index, d.path, cells);
    assert fields[2 + 1] == cells[1] && fields[2 + 2] == cells[2] && fields[2 + 3] == cells[3]
           && fields[2 + 4] == cells[4] && fields[2 + 5] == cells[5];
    CellsRead(fields, d.totalMb, segMb, CountTaken(d.segs), |d.segs|, d.nodeId, d.tierId);
  }

  /** A padded line reads as its fields do. */
  lemma PaddedLineReads(pad: string, index: string, path: string, cells: seq<string>, n: MemPoolNode)
    requires CleanFields(UsageFields(index, path, cells))
    requires index != "" && !IsSpace(index[0]) && index[0] != 'I'
    requires forall i :: 0 <= i < |pad| ==> IsSpace(pad[i])
    requires NodeOfParts(StripAll(UsageFields(index, path, cells))) == Some(n)
    ensures NodeOfLine(Join(UsageFields(pad + index, path, cells), '|')) == Some(n)
  {
    StripFields(pad, index, path, cells);
    LineOfFields(Join(UsageFields(pad + index, path, cells), '|'), UsageFields(index, path, cells));
  }

  /** A device's line reads back as its node. */
  lemma UsageLineReads(i: nat, d: Device, segMb: int)
    requires Column(d.path)
    ensures NodeOfLine(UsageLine(i, d, segMb)) == Some(NodeOf(d, segMb))
  {
    var pad, index := Blanks(5 - |ShowInt(i)|), ShowInt(i) + " ";
    DigitsAreVisible(i);
    NumberColumn(5, i);
    FieldsAreClean(index, d, segMb);
    FieldsRead(index, d, segMb);
    PaddedLineReads(pad, index, d.path, CellsOf(d, segMb), NodeOf(d, segMb));
    IndexPadded(i);
  }

  lemma IndexPadded(i: int)
    ensures Blanks(5 - |ShowInt(i)|) + (ShowInt(i) + " ") == Padded(5, i) + " "
  {
  }

  // ---------- the round trip of the usage table ----------

  predicate CleanPaths(p: Pool) {
    forall i :: 0 <= i < |p.devs| ==> Column(p.devs[i].path)
  }

  lemma {:induction false} JoinLength(parts: seq<string>, m: nat)
    requires parts != [] && forall i :: 0 <= i < |parts| ==> |parts[i]| <= m
    ensures |Join(parts, '|')| <= |parts| * (m + 1)
  {
    if |parts| > 1 {
      JoinLength(parts[1..], m);
    }
  }

  lemma ShortHeader()
    ensures |UsageHeader()| <= 9 * 16
  {
    JoinLength(USAGE_COLUMNS, 15);
  }

  lemma HeaderColumns()
    ensures OneLine("Index ") && OneLine(" Device Path ") && OneLine(" Size (MB) ") && OneLine(" Segment (MB) ")
    ensures OneLine(" Used Seg ") && OneLine(" Total Seg ") && OneLine(" Node ID ") && OneLine(" Tier ID ")
    ensures GoodLine(" Dax ID")
  {
  }

  lemma HeaderIsGood()
    ensures GoodLine(UsageHeader()) && StartsWith(UsageHeader(), "Index")
  {
    HeaderColumns();
    JoinIsGood(USAGE_COLUMNS);
    assert UsageHeader() == "Index " + ['|'] + Join(USAGE_COLUMNS[1..], '|');
    assert "Index "[..5] == "Index";
  }

  lemma HeaderReads(line: string)
    requires GoodLine(line) && StartsWith(line, "Index")
    ensures NodeOfLine(line) == None && line[0] == 'I'
  {
    assert line[0] == "Index"[0] == 'I';
    StripOfTrim(line);
  }

  /** Lines that read as the given values, after one that reads as none. */
  lemma {:induction false} CollectsAll<T>(lines: seq<string>, read: string -> Option<T>, values: seq<T>)
    requires |lines| == 1 + |values| && read(lines[0]) == None
    requires forall i :: 0 < i < |lines| ==> read(lines[i]) == Some(values[i - 1])
    ensures Collect(lines, read) == values
  {
    var init := lines[..|lines| - 1];
    if values == [] {
      assert Collect(init, read) == [];
    } else {
      CollectsAll(init, read, values[..|values| - 1]);
    }
  }

  lemma AllGood(lines: seq<string>)
    requires lines != [] && StartsWith(lines[0], "Index")
    requires forall i :: 0 <= i < |lines| ==> GoodLine(lines[i])
    ensures Readable(lines)
  {
    assert lines[0][0] == "Index"[0] == 'I';
  }

  /** A table line is the line of its device. */
  lemma TableLine(p: Pool, k: nat, d: Device)
    requires k < |p.devs| && d == p.devs[k]
    ensures UsageLines(p)[k + 1] == UsageLine(k, d, p.segMb)
  {
  }

  lemma TableLineIsGood(p: Pool, k: nat, d: Device)
    requires k < |p.devs| && d == p.devs[k] && Column(d.path)
    ensures GoodLine(UsageLines(p)[k + 1])
  {
    UsageLineIsGood(k, d, p.segMb);
    TableLine(p, k, d);
  }

  lemma TableLineReads(p: Pool, k: nat, d: Device)
    requires k < |p.devs| && d == p.devs[k] && Column(d.path)
    ensures NodeOfLine(UsageLines(p)[k + 1]) == Some(NodeOf(d, p.segMb))
  {
    UsageLineReads(k, d, p.segMb);
    TableLine(p, k, d);
  }

  lemma GoodFrom(lines: seq<string>, header: string)
    requires lines != [] && lines[0] == header && GoodLine(header)
    requires forall i :: 0 < i < |lines| ==> GoodLine(lines[i])
    ensures forall i :: 0 <= i < |lines| ==> GoodLine(lines[i])
  {
  }

  /** The first line is short. */
  lemma TableHeader(p: Pool)
    ensures GoodLine(UsageLines(p)[0]) && StartsWith(UsageLines(p)[0], "Index") && |UsageLines(p)[0]| <= 9 * 16
  {
    HeaderIsGood();
    ShortHeader();
  }

  lemma GoodAt(p: Pool, i: int)
    requires CleanPaths(p) && 0 < i <= |p.devs|
    ensures GoodLine(UsageLines(p)[i])
  {
    var k := i - 1;
    TableLineIsGood(p, k, p.devs[k]);
  }

  /** The table's lines are all readable. */
  lemma UsageLinesAreGood(p: Pool)
    requires CleanPaths(p)
    ensures forall i :: 0 <= i < |UsageLines(p)| ==> GoodLine(UsageLines(p)[i])
  {
    var lines := UsageLines(p);
    TableHeader(p);
    forall i | 0 < i < |lines| ensures GoodLine(lines[i]) {
      GoodAt(p, i);
    }
    GoodFrom(lines, lines[0]);
  }

  lemma UsageIsReadable(p: Pool)
    requires CleanPaths(p)
    ensures Readable(UsageLines(p))
  {
    UsageLinesAreGood(p);
    TableHeader(p);
    AllGood(UsageLines(p));
  }

  lemma TableNode(p: Pool, i: int)
    requires CleanPaths(p) && 0 < i <= |p.devs|
    ensures NodeOfLine(UsageLines(p)[i]) == Some(PoolNodes(p)[i - 1])
  {
    var k := i - 1;
    var d := p.devs[k];
    var n := NodeOf(d, p.segMb);
    TableLineReads(p, k, d);
    assert PoolNodes(p)[k] == n;
  }

  lemma HeaderIsSkipped(p: Pool)
    ensures NodeOfLine(UsageLines(p)[0]) == None
  {
    TableHeader(p);
    HeaderReads(UsageLines(p)[0]);
  }

  /** The first lines of the table read as the first devices. */
  lemma LinesRead(p: Pool, k: nat)
    requires CleanPaths(p) && 0 < k <= |UsageLines(p)|
    ensures NodesOfLines(UsageLines(p)[..k]) == PoolNodes(p)[..k - 1]
  {
    HeaderIsSkipped(p);
    forall i | 0 < i <= |p.devs| ensures NodeOfLine(UsageLines(p)[i]) == Some(PoolNodes(p)[i - 1]) {
      TableNode(p, i);
    }
    CollectsFirst(UsageLines(p), NodeOfLine, PoolNodes(p), k);
  }

  lemma CollectsFirst<T>(lines: seq<string>, read: string -> Option<T>, values: seq<T>, k: nat)
    requires |lines| == 1 + |values| && 0 < k <= |lines| && read(lines[0]) == None
    requires forall i :: 0 < i <= |values| ==> read(lines[i]) == Some(values[i - 1])
    ensures Collect(lines[..k], read) == values[..k - 1]
  {
    CollectsAll(lines[..k], read, values[..k - 1]);
  }

  lemma UsageReads(p: Pool)
    requires CleanPaths(p)
    ensures NodesOfLines(UsageLines(p)) == PoolNodes(p)
  {
    LinesRead(p, |UsageLines(p)|);
    assert UsageLines(p)[..|UsageLines(p)|] == UsageLines(p);
    assert PoolNodes(p)[..|p.devs|] == PoolNodes(p);
  }

  lemma NodesAreDistinct(p: Pool)
    requires PoolOk(p)
    ensures Distinct(NodeIds(PoolNodes(p)))
    ensures SortBy(PoolNodes(p), (n: MemPoolNode) => n.nodeId) == PoolNodes(p)
  {
    var nodes := PoolNodes(p);
    assert forall i :: 0 <= i < |nodes| ==> NodeIds(nodes)[i] == p.devs[i].nodeId == i;
    SortOfSorted(nodes, (n: MemPoolNode) => n.nodeId);
  }

  /**
   From a usage table that fits, the client reads every device's node, tier and free megabytes,
   in node order and with distinct ids, as its planner needs them.
   */
  lemma PoolRoundTrip(p: Pool)
    requires PoolOk(p) && p.devs != [] && CleanPaths(p) && |UsageText(p)| < BUFFER_SIZE
    ensures var nodes := NodesOfLines(SplitLines(Received(UsageText(p))));
            && nodes == PoolNodes(p)
            && SortBy(nodes, (n: MemPoolNode) => n.nodeId) == PoolNodes(p)
            && Distinct(NodeIds(nodes))
  {
    UsageIsReadable(p);
    UsageReads(p);
    ReceivedLines(UsageLines(p));
    NodesAreDistinct(p);
  }

  lemma {:induction false} NoColumns(line: string)
    requires GoodLine(line) && Trim(line) && '|' !in line
    ensures NodeOfLine(line) == None
  {
    StripOfTrim(line);
    IndexOfAbsent(line, '|');
    assert Text.Split(line, '|') == [line];
  }

  /** A line without columns is no node. */
  lemma LoneLine(line: string)
    requires GoodLine(line) && Trim(line) && '|' !in line && |line| < BUFFER_SIZE - 1
    ensures NodesOfLines(SplitLines(Received(line + "\n"))) == []
  {
    TextOfLast([line]);
    assert [line][..0] == [] && TextOf([]) == "";
    assert TextOf([line]) == line + "\n";
    ReceivedLines([line]);
    NoColumns(line);
    CollectNone([line], NodeOfLine);
  }

  lemma NoDevicesLine()
    ensures var line := "No memory devices initialized."; GoodLine(line) && Trim(line) && '|' !in line
  {
  }

  /** Of a server without devices the client reads no node. */
  lemma NoTable(p: Pool)
    requires p.devs == []
    ensures NodesOfLines(SplitLines(Received(UsageText(p)))) == []
  {
    var line := "No memory devices initialized.";
    NoDevicesLine();
    assert UsageText(p) == line + "\n";
    LoneLine(line);
  }
}
