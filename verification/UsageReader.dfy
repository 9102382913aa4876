/** Every column of the usage table is read back: a table that fits says of each device all that is printed. */
module UsageReader {
  import opened Wrappers
  import opened Text
  import opened Lines
  import opened Segments
  import opened PoolModel
  import opened Reports
  import opened Client
  import opened UsageRoundTrip

  /** A line of the table. */
  datatype Row = Row(index: int, path: string, sizeMb: int, segMb: int, used: int, total: int, node: int, tier: int,
                     dax: int)

  function RowOf(index: int, d: Device, segMb: int): Row {
    Row(index, d.path, d.totalMb, segMb, CountTaken(d.segs), |d.segs|, d.nodeId, d.tierId, d.daxId)
  }

  function RowsOf(p: Pool): (r: seq<Row>)
    ensures |r| == |p.devs| && forall i :: 0 <= i < |p.devs| ==> r[i] == RowOf(i, p.devs[i], p.segMb)
  {
    seq(|p.devs|, i requires 0 <= i < |p.devs| => RowOf(i, p.devs[i], p.segMb))
  }

  function RowOfParts(parts: seq<string>): Option<Row> {
    if |parts| != 9 then None
    else
      match ReadAll([parts[0]] + parts[2..], PyInt)
      case Some(n) => Some(Row(n[0], parts[1], n[1], n[2], n[3], n[4], n[5], n[6], n[7]))
      case None => None
  }

  /** The row of one table line; None for the header. */
  function ReadRow(raw: string): Option<Row> {
    var line := Strip(raw);
    if line == "" || StartsWith(line, "Index") then None else RowOfParts(StripAll(Text.Split(line, '|')))
  }

  lemma RowPartsRead(parts: seq<string>, path: string, n: seq<int>)
    requires |parts| == 9 && |n| == 8 && parts[1] == path && PyInt(parts[0]) == Some(n[0])
    requires forall k :: 1 <= k < 8 ==> PyInt(parts[k + 1]) == Some(n[k])
    ensures RowOfParts(parts) == Some(Row(n[0], path, n[1], n[2], n[3], n[4], n[5], n[6], n[7]))
  {
    var eight := [parts[0]] + parts[2..];
    forall k | 0 <= k < 8 ensures PyInt(eight[k]) == Some(n[k]) {
      assert k > 0 ==> eight[k] == parts[k + 1];
    }
    ReadsAll(eight, PyInt, n);
  }

  function ReadCell(cell: string): Option<int> {
    PyInt(Strip(cell))
  }

  lemma CellShows(width: nat, n: int)
    ensures ReadCell(Cell(width, n)) == Some(n)
  {
    ColumnReads(width, n);
  }

  /** The last column has no blank after it. */
  lemma LastColumnReads(width: nat, n: int)
    ensures ReadCell(" " + Padded(width, n)) == Some(n)
  {
    var pad := " " + Blanks(width - |ShowInt(n)|);
    DigitsAreVisible(n);
    assert " " + Padded(width, n) == pad + ShowInt(n);
    StripLeading(pad, ShowInt(n));
    PyIntShow(n);
  }

  lemma IndexReads(i: int)
    ensures PyInt(Strip(ShowInt(i) + " ")) == Some(i)
  {
    DigitsAreVisible(i);
    StripBothEnds("", ShowInt(i));
    assert "" + ShowInt(i) + " " == ShowInt(i) + " ";
    PyIntShow(i);
  }

  lemma SevenRead(
      a: string, b: string, c: string, d: string, e: string, f: string, g: string, n: seq<int>,
      read: string -> Option<int>)
    requires |n| == 7
    requires read(a) == Some(n[0]) && read(b) == Some(n[1]) && read(c) == Some(n[2]) && read(d) == Some(n[3])
    requires read(e) == Some(n[4]) && read(f) == Some(n[5]) && read(g) == Some(n[6])
    ensures forall k :: 0 <= k < 7 ==> read([a, b, c, d, e, f, g][k]) == Some(n[k])
  {
    var cells := [a, b, c, d, e, f, g];
    assert cells[0] == a && cells[1] == b && cells[2] == c && cells[3] == d && cells[4] == e && cells[5] == f;
  }

  /** The columns after the path show their values. */
  lemma CellsShow(n: seq<int>)
    requires |n| == 7
    ensures forall k :: 0 <= k < 7 ==>
              ReadCell(UsageCells(n[0], n[1], n[2], n[3], n[4], n[5], n[6])[k]) == Some(n[k])
  {
    CellShows(9, n[0]);
    CellShows(12, n[1]);
    CellShows(8, n[2]);
    CellShows(9, n[3]);
    CellShows(7, n[4]);
    CellShows(7, n[5]);
    LastColumnReads(6, n[6]);
    SevenRead(Cell(9, n[0]), Cell(12, n[1]), Cell(8, n[2]), Cell(9, n[3]), Cell(7, n[4]), Cell(7, n[5]),
              " " + Padded(6, n[6]), n, ReadCell);
  }

  /** Fields read back, whatever they were padded to. */
  lemma RowFieldsRead(i: int, path: string, cells: seq<string>, n: seq<int>)
    requires Bounded(path) && |cells| == |n| == 7 && forall k :: 0 <= k < 7 ==> ReadCell(cells[k]) == Some(n[k])
    ensures RowOfParts(StripAll(UsageFields(ShowInt(i) + " ", path, cells)))
         == Some(Row(i, path, n[0], n[1], n[2], n[3], n[4], n[5], n[6]))
  {
    var fields := UsageFields(ShowInt(i) + " ", path, cells);
    IndexReads(i);
    StripBothEnds(" ", path);
    forall k | 1 <= k < 8 ensures PyInt(StripAll(fields)[k + 1]) == Some(([i] + n)[k]) {
      assert fields[2 + (k - 1)] == cells[k - 1] && ReadCell(cells[k - 1]) == Some(n[k - 1]);
    }
    RowPartsRead(StripAll(fields), path, [i] + n);
  }

  /** A padded line is read field by field. */
  lemma {:induction false} RowOfPadded(pad: string, index: string, path: string, cells: seq<string>)
    requires CleanFields(UsageFields(index, path, cells)) && index != "" && !IsSpace(index[0]) && index[0] != 'I'
    requires forall i :: 0 <= i < |pad| ==> IsSpace(pad[i])
    ensures ReadRow(Join(UsageFields(pad + index, path, cells), '|'))
         == RowOfParts(StripAll(UsageFields(index, path, cells)))
  {
    StripFields(pad, index, path, cells);
    SplitJoin(UsageFields(index, path, cells), '|');
    assert "Index"[0] == 'I';
  }

  /** A device's line gives all nine columns back. */
  lemma RowRoundTrip(i: nat, d: Device, segMb: int)
    requires Column(d.path) && Bounded(d.path)
    ensures ReadRow(UsageLine(i, d, segMb)) == Some(RowOf(i, d, segMb))
  {
    var pad, index := Blanks(5 - |ShowInt(i)|), ShowInt(i) + " ";
    DigitsAreVisible(i);
    NumberColumn(5, i);
    FieldsAreClean(index, d, segMb);
    CellsShow([d.totalMb, segMb, CountTaken(d.segs), |d.segs|, d.nodeId, d.tierId, d.daxId]);
    RowFieldsRead(i, d.path, CellsOf(d, segMb),
                  [d.totalMb, segMb, CountTaken(d.segs), |d.segs|, d.nodeId, d.tierId, d.daxId]);
    RowOfPadded(pad, index, d.path, CellsOf(d, segMb));
    IndexPadded(i);
  }

  /** Paths that are printed whole and read whole. */
  predicate PlainPaths(p: Pool) {
    forall i :: 0 <= i < |p.devs| ==> Column(p.devs[i].path) && Bounded(p.devs[i].path)
  }

  lemma TableRow(p: Pool, k: nat, d: Device)
    requires k < |p.devs| && d == p.devs[k] && Column(d.path) && Bounded(d.path)
    ensures ReadRow(UsageLines(p)[k + 1]) == Some(RowOf(k, d, p.segMb))
  {
    RowRoundTrip(k, d, p.segMb);
    TableLine(p, k, d);
  }

  lemma RowAt(p: Pool, i: int)
    requires PlainPaths(p) && 0 < i <= |p.devs|
    ensures ReadRow(UsageLines(p)[i]) == Some(RowsOf(p)[i - 1])
  {
    var k := i - 1;
    TableRow(p, k, p.devs[k]);
  }

  lemma HeaderHasNoRow(p: Pool)
    ensures ReadRow(UsageLines(p)[0]) == None
  {
    TableHeader(p);
    HeaderReads(UsageLines(p)[0]);
    StripOfTrim(UsageLines(p)[0]);
  }

  lemma RowsRead(p: Pool)
    requires PlainPaths(p)
    ensures Collect(UsageLines(p), ReadRow) == RowsOf(p)
  {
    HeaderHasNoRow(p);
    forall i | 0 < i <= |p.devs| ensures ReadRow(UsageLines(p)[i]) == Some(RowsOf(p)[i - 1]) {
      RowAt(p, i);
    }
    var lines, rows := UsageLines(p), RowsOf(p);
    CollectsAll(lines, ReadRow, rows);
  }

  /**
   From a table that fits, every device is read whole: its index, path, size, segment size, used and total segments,
   node, tier and DAX number, each from its own column.
   */
  lemma TableRoundTrip(p: Pool)
    requires p.devs != [] && PlainPaths(p) && |UsageText(p)| < BUFFER_SIZE
    ensures Collect(SplitLines(Received(UsageText(p))), ReadRow) == RowsOf(p)
  {
    UsageIsReadable(p);
    RowsRead(p);
    ReceivedLines(UsageLines(p));
  }
}
