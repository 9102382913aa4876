/**
 A server that meets what the results about texts that fit, and about the client, ask for: one device of one
 segment, and no VM. Its dump and its table are short enough for the buffer, its paths are plain, and the
 client can read both, so that none of those results is about nothing.
 */
module Witnesses {
  import opened Text
  import opened Lines
  import opened Segments
  import opened PoolModel
  import opened VmModel
  import opened Refinement
  import opened Runs
  import opened Reports
  import opened Client
  import opened DumpRoundTrip
  import opened DumpReader
  import opened UsageRoundTrip
  import opened UsageReader
  import opened Planner

  const ONE_SEGMENT :=
    Pool(1, [Device("/dev/dax0.0", 0, 0, 0, 1, [FREE])])

  lemma {:induction false} BlanksLength(n: int)
    ensures |Blanks(n)| == if n <= 0 then 0 else n
  {
    if n > 0 {
      BlanksLength(n - 1);
    }
  }

  lemma DigitLength(n: nat)
    requires n < 10
    ensures |ShowInt(n)| == 1
  {
  }

  lemma CellLength(width: nat, n: nat)
    requires n < 10 && width > 0
    ensures |Cell(width, n)| == width + 2 && |Padded(width, n)| == width
  {
    DigitLength(n);
    BlanksLength(width - 1);
  }

  lemma OneLineTable()
    ensures |UsageText(ONE_SEGMENT)| < BUFFER_SIZE
  {
    var d := ONE_SEGMENT.devs[0];
    CellLength(5, 0);
    CellLength(9, 1);
    CellLength(12, 1);
    CellLength(8, CountTaken(d.segs));
    CellLength(7, 0);
    CellLength(6, 0);
    var cells := CellsOf(d, 1);
    assert forall k :: 0 <= k < 7 ==> |cells[k]| <= 14;
    ShortLine(d, cells);
    ShortHeader();
    var lines := UsageLines(ONE_SEGMENT);
    TextOfLast(lines);
    TextOfLast(lines[..1]);
    assert lines[..1][..0] == [] && lines[1] == UsageLine(0, d, 1);
  }

  lemma ShortLine(d: Device, cells: seq<string>)
    requires cells == CellsOf(d, 1) && |d.path| == 11 && |Padded(5, 0)| == 5
    requires forall k :: 0 <= k < 7 ==> |cells[k]| <= 14
    ensures |UsageLine(0, d, 1)| <= 9 * 15
  {
    var fields := UsageFields(Padded(5, 0) + " ", d.path, cells);
    forall k | 0 <= k < 9 ensures |fields[k]| <= 14 {
      assert k >= 2 ==> fields[k] == cells[k - 2];
    }
    JoinLength(fields, 14);
  }

  lemma EmptyDump(vms: seq<Vm>)
    ensures |VmDump(0, vms)| < BUFFER_SIZE
  {
    var lines := DumpLines(0, vms);
    assert lines == ["VM Count: " + ShowInt(0), "No VM created."];
    DigitLength(0);
    TextOfLast(lines);
    TextOfLast(lines[..1]);
    assert lines[..1][..0] == [];
  }

  /**
   A server with one device of one segment and no VM meets what the round trips and the lemmas of
   `EndToEnd` require: they are about something.
   */
  lemma RequirementsCanBeMet()
    ensures var s := Initial(ONE_SEGMENT);
            && Inv(s) && s.pool.devs != [] && CleanPaths(s.pool) && |UsageText(s.pool)| < BUFFER_SIZE
            && Plain(s.vms) && PlainPaths(s.pool)
            && Clean(s.vms) && |VmDump(s.count, s.vms)| < BUFFER_SIZE
            && LeastUnused(0, UsedIds(SplitLines(Received(VmDump(s.count, s.vms)))))
            && Choose(OfTier(PoolNodes(s.pool), 0), [1, 1]).Err?
  {
    var s := Initial(ONE_SEGMENT);
    OneSegmentPool();
    InitialOk(ONE_SEGMENT);
    OneLineTable();
    EmptyDump(s.vms);
    VmIdsRoundTrip(s);
    FilterNoMore(PoolNodes(s.pool));
  }

  lemma OneSegmentPool()
    ensures PoolOk(ONE_SEGMENT) && Unused(ONE_SEGMENT) && PlainPaths(ONE_SEGMENT)
  {
    assert Column("/dev/dax0.0") && Bounded("/dev/dax0.0");
  }

  lemma FilterNoMore(nodes: seq<MemPoolNode>)
    requires |nodes| == 1
    ensures |OfTier(nodes, 0)| <= 1
  {
    assert nodes[1..] == [];
    assert Filter(nodes[1..], (n: MemPoolNode) => n.tierId == 0) == [];
  }
}
