/**
 Texts that do not fit the server's buffer: the client reads every complete line as it was
 printed, and only the line that was cut can mislead it.
 */
module CutTexts {
  import opened Wrappers
  import opened Text
  import opened Lines
  import opened Sorting
  import opened PoolModel
  import opened VmModel
  import opened Refinement
  import opened Reports
  import opened Client
  import opened DumpRoundTrip
  import opened UsageRoundTrip
  import opened Planner
  import CpuReadings

  // ---------- cutting lines ----------

  /** The number of lines that are complete, their line feed included, within `n` characters. */
  predicate CompleteLines(lines: seq<string>, n: nat, k: nat) {
    && k <= |lines| && |TextOf(lines[..k])| <= n
    && (k < |lines| ==> |TextOf(lines[..k + 1])| > n)
  }

  lemma {:induction false} CutText(lines: seq<string>, n: nat) returns (k: nat, q: string)
    requires n <= |TextOf(lines)|
    ensures CompleteLines(lines, n, k)
    ensures TextOf(lines)[..n] == TextOf(lines[..k]) + q
    ensures if k == |lines| then q == "" else q <= lines[k]
  {
    if n == |TextOf(lines)| {
      k, q := |lines|, "";
      assert lines[..k] == lines;
    } else {
      TextOfNotEmpty(lines);
      var init, last := lines[..|lines| - 1], lines[|lines| - 1];
      TextOfLast(lines);
      if n < |TextOf(init)| {
        k, q := CutText(init, n);
        CutInside(lines, n, k, q);
      } else {
        k, q := |init|, last[..n - |TextOf(init)|];
        assert lines[..k + 1] == lines;
      }
    }
  }

  lemma TextOfNotEmpty(lines: seq<string>)
    ensures TextOf(lines) != "" ==> lines != []
  {
  }

  lemma CutInside(lines: seq<string>, n: nat, k: nat, q: string)
    requires lines != [] && n < |TextOf(lines[..|lines| - 1])|
    requires var init := lines[..|lines| - 1];
             CompleteLines(init, n, k) && TextOf(init)[..n] == TextOf(init[..k]) + q
             && if k == |init| then q == "" else q <= init[k]
    ensures CompleteLines(lines, n, k) && n <= |TextOf(lines)| && TextOf(lines)[..n] == TextOf(lines[..k]) + q
    ensures k < |lines| && q <= lines[k]
  {
    var init := lines[..|lines| - 1];
    TextOfLast(lines);
    assert init[..|init|] == init;
    assert k < |init|;
    assert lines[..k] == init[..k] && lines[..k + 1] == init[..k + 1];
    assert TextOf(lines)[..n] == TextOf(init)[..n];
  }

  /** Trailing blanks are those of the last piece, and those before it only when it is all blank. */
  lemma {:induction false} DropTail(a: string, b: string)
    ensures DropTrailing(b) != "" ==> DropTrailing(a + b) == a + DropTrailing(b)
    ensures DropTrailing(b) == "" ==> DropTrailing(a + b) == DropTrailing(a)
  {
    if b == "" {
      assert a + b == a;
    } else {
      assert (a + b)[..|a + b| - 1] == a + b[..|b| - 1] && (a + b)[|a + b| - 1] == b[|b| - 1];
      DropTail(a, b[..|b| - 1]);
    }
  }

  /** A text of complete lines loses its last line feed only. */
  lemma DropLastFeed(lines: seq<string>)
    requires lines != [] && forall i :: 0 <= i < |lines| ==> GoodLine(lines[i])
    ensures var last := lines[|lines| - 1];
            DropTrailing(TextOf(lines)) == TextOf(lines[..|lines| - 1]) + last
  {
    var init, last := lines[..|lines| - 1], lines[|lines| - 1];
    TextOfLast(lines);
    var body := TextOf(init) + last;
    assert TextOf(lines) == body + "\n" && (body + "\n")[..|body|] == body;
    assert body[|body| - 1] == last[|last| - 1];
  }

  /** What is left of the line that was cut: part of it, up to a visible character. */
  ghost predicate Remnant(rest: seq<string>, lines: seq<string>, k: nat) {
    rest == [] || (k < |lines| && |rest| == 1 && rest[0] != "" && rest[0] <= lines[k])
  }

  lemma {:induction false} VisibleRest(lines: seq<string>, q: string)
    requires (forall i :: 0 <= i < |lines| ==> GoodLine(lines[i])) && OneLine(q) && DropTrailing(q) != ""
    ensures SplitLines(DropTrailing(TextOf(lines) + q)) == lines + [DropTrailing(q)]
    ensures DropTrailing(q) <= q
  {
    DropTail(TextOf(lines), q);
    CpuReadings.StripTrailing(q);
    var p := DropTrailing(q);
    assert OneLine(p);
    SplitLinesPrefix(lines, p);
    OneLineSplits(p);
  }

  lemma {:induction false} BlankRest(lines: seq<string>, q: string)
    requires (forall i :: 0 <= i < |lines| ==> GoodLine(lines[i])) && DropTrailing(q) == ""
    ensures SplitLines(DropTrailing(TextOf(lines) + q)) == lines
  {
    DropTail(TextOf(lines), q);
    if lines != [] {
      DropLastFeed(lines);
      var init, last := lines[..|lines| - 1], lines[|lines| - 1];
      SplitLinesPrefix(init, last);
      OneLineSplits(last);
      assert lines == init + [last];
    }
  }

  /** Of a printed text, however long, the client sees the complete lines and what is left of the next. */
  lemma ReceivedCut(lines: seq<string>) returns (k: nat, rest: seq<string>)
    requires lines != [] && lines[0] != "" && !IsSpace(lines[0][0])
    requires forall i :: 0 <= i < |lines| ==> GoodLine(lines[i])
    ensures CompleteLines(lines, |Kept(TextOf(lines), BUFFER_SIZE)|, k) && Remnant(rest, lines, k)
    ensures SplitLines(Received(TextOf(lines))) == lines[..k] + rest
  {
    var text := TextOf(lines);
    var n := |Kept(text, BUFFER_SIZE)|;
    var q: string;
    k, q := CutText(lines, n);
    assert Kept(text, BUFFER_SIZE) == text[..n];
    StartsVisible(lines, k, q);
    if DropTrailing(q) != "" {
      rest := [DropTrailing(q)];
      VisibleRest(lines[..k], q);
    } else {
      rest := [];
      BlankRest(lines[..k], q);
    }
  }

  lemma {:induction false} OneLineSplits(p: string)
    requires OneLine(p) && p != ""
    ensures SplitLines(p) == [p]
  {
    BreakAtNone(p);
  }

  lemma {:induction false} StartsVisible(lines: seq<string>, k: nat, q: string)
    requires lines != [] && lines[0] != "" && !IsSpace(lines[0][0]) && k <= |lines|
    requires if k == |lines| then q == "" else q <= lines[k]
    ensures SkipSpace(TextOf(lines[..k]) + q) == TextOf(lines[..k]) + q
  {
    if k > 0 {
      FirstOfText(lines[..k]);
    } else {
      assert TextOf(lines[..0]) == "";
    }
  }

  // ---------- the VM dump ----------

  lemma ReceivedDumpCut(s: State) returns (k: nat, rest: seq<string>)
    requires Clean(s.vms)
    ensures var lines := DumpLines(s.count, s.vms);
            && CompleteLines(lines, |Kept(TextOf(lines), BUFFER_SIZE)|, k) && Remnant(rest, lines, k)
            && SplitLines(Received(VmDump(s.count, s.vms))) == lines[..k] + rest
  {
    DumpIsReadable(s);
    k, rest := ReceivedCut(DumpLines(s.count, s.vms));
  }

  lemma UsedIdsOfFew(rest: seq<string>)
    requires |rest| <= 1
    ensures |UsedIds(rest)| <= 1
  {
    if rest == [] {
      ElementsOfSum<int>([], []);
    } else {
      assert rest == [rest[0]];
      CollectOne(rest[0], RawVmId);
      ElementCount(Collect(rest, RawVmId));
    }
  }

  /**
   However long the dump, the ids on complete lines are read, they are ids of VMs there are, and the line
   that was cut adds at most one more.
   */
  lemma VmIdsOfAnyDump(s: State) returns (k: nat, more: set<int>)
    requires Inv(s) && Clean(s.vms)
    ensures var lines := DumpLines(s.count, s.vms);
            && CompleteLines(lines, |Kept(TextOf(lines), BUFFER_SIZE)|, k) && |more| <= 1
            && UsedIds(SplitLines(Received(VmDump(s.count, s.vms)))) == UsedIds(lines[..k]) + more
            && UsedIds(lines[..k]) <= TheBook(s).Keys
  {
    var lines, rest := DumpLines(s.count, s.vms), [];
    k, rest := ReceivedDumpCut(s);
    UsedIdsConcat(lines[..k], rest);
    UsedIdsOfFew(rest);
    more := UsedIds(rest);
    UsedIdsConcat(lines[..k], lines[k..]);
    assert lines[..k] + lines[k..] == lines;
    DumpAnnounces(s);
  }

  lemma {:induction false} ScanGrows(now: Scanned, lines: seq<string>, v: int)
    ensures now.1 <= Scan(now, lines, v).1
    ensures |lines| <= 1 ==> |Scan(now, lines, v).1 - now.1| <= 1
  {
    if lines != [] {
      var init := lines[..|lines| - 1];
      ScanGrows(now, init, v);
      OneLineAdds(Scan(now, init, v), lines[|lines| - 1], v);
    } else {
      assert now.1 - now.1 == {};
    }
  }

  lemma OneLineAdds(now: Scanned, raw: string, v: int)
    ensures now.1 <= ScanLine(now, raw, v).1 && |ScanLine(now, raw, v).1 - now.1| <= 1
  {
    var after := ScanLine(now, raw, v).1;
    match NodeOfWords(Words(Strip(raw))) {
      case Some(n) =>
        assert after - now.1 == {} || after - now.1 == {n};
      case None =>
        assert after - now.1 == {};
    }
  }

  lemma ScanFew(seen: Scanned, rest: seq<string>, v: int) returns (more: set<int>)
    requires |rest| <= 1
    ensures |more| <= 1 && Scan(seen, rest, v).1 == seen.1 + more
  {
    ScanGrows(seen, rest, v);
    more := Scan(seen, rest, v).1 - seen.1;
  }

  lemma {:induction false} ScanLess(lines: seq<string>, k: nat, v: int)
    requires k <= |lines|
    ensures Scan(UNSEEN, lines[..k], v).1 <= Scan(UNSEEN, lines, v).1
  {
    var front, back := lines[..k], lines[k..];
    assert front + back == lines;
    ScanConcat(UNSEEN, front, back, v);
    ScanGrows(Scan(UNSEEN, front, v), back, v);
  }

  lemma ScanCut(lines: seq<string>, k: nat, rest: seq<string>, v: int) returns (more: set<int>)
    requires k <= |lines| && |rest| <= 1
    ensures |more| <= 1 && Scan(UNSEEN, lines[..k] + rest, v).1 == Scan(UNSEEN, lines[..k], v).1 + more
    ensures Scan(UNSEEN, lines[..k], v).1 <= Scan(UNSEEN, lines, v).1
  {
    ScanConcat(UNSEEN, lines[..k], rest, v);
    more := ScanFew(Scan(UNSEEN, lines[..k], v), rest, v);
    ScanLess(lines, k, v);
  }

  /** The same for a VM's nodes: those on complete lines are its own, and the cut line adds at most one more. */
  lemma VmNodesOfAnyDump(s: State, v: int) returns (k: nat, more: set<int>)
    requires Inv(s) && Clean(s.vms)
    ensures var lines, j := DumpLines(s.count, s.vms), FindVm(s.vms, v);
            && CompleteLines(lines, |Kept(TextOf(lines), BUFFER_SIZE)|, k) && |more| <= 1
            && Scan(UNSEEN, SplitLines(Received(VmDump(s.count, s.vms))), v).1
               == Scan(UNSEEN, lines[..k], v).1 + more
            && Scan(UNSEEN, lines[..k], v).1 <= if j == -1 then {} else DevNodes(s.vms[j].devs)
  {
    var rest;
    k, rest := ReceivedDumpCut(s);
    more := ScanCut(DumpLines(s.count, s.vms), k, rest, v);
    DumpShows(s, v);
  }

  // ---------- the usage table ----------

  /** With fewer than nine columns a line is skipped; with nine, the five that matter are whole. */
  lemma CutFieldsRead(parts: seq<string>, fields: seq<string>)
    requires CpuReadings.FirstParts(parts, fields) && |fields| == 9
    ensures NodeOfParts(StripAll(parts)) == None || NodeOfParts(StripAll(parts)) == NodeOfParts(StripAll(fields))
  {
    if |parts| == 9 {
      assert StripAll(parts)[3..8] == StripAll(fields)[3..8];
    }
  }

  /** A table line cut anywhere is skipped, or read as the whole line is. */
  lemma CutLineReads(pad: string, index: string, path: string, cells: seq<string>, q: string, n: MemPoolNode)
    requires CleanFields(UsageFields(index, path, cells))
    requires index != "" && !IsSpace(index[0]) && index[0] != 'I'
    requires forall i :: 0 <= i < |pad| ==> IsSpace(pad[i])
    requires NodeOfParts(StripAll(UsageFields(index, path, cells))) == Some(n)
    requires q <= Join(UsageFields(pad + index, path, cells), '|')
    ensures NodeOfLine(q) == None || NodeOfLine(q) == Some(n)
  {
    var fields := UsageFields(index, path, cells);
    var line := Join(fields, '|');
    JoinPadded(pad, index, path, cells);
    FirstOfJoin(fields);
    var p := StripsToPrefix(pad, line, q);
    if p != "" {
      assert line == p + line[|p|..];
      SplitJoin(fields, '|');
      CpuReadings.SplitCut(p, line[|p|..], '|');
      CutFieldsRead(Text.Split(p, '|'), fields);
      assert p[0] == index[0] && "Index"[0] == 'I';
    }
  }

  /** Stripping a cut of a padded text gives a cut of the text. */
  lemma StripsToPrefix(pad: string, line: string, q: string) returns (p: string)
    requires q <= pad + line && line != "" && !IsSpace(line[0])
    requires forall i :: 0 <= i < |pad| ==> IsSpace(pad[i])
    ensures p == Strip(q) && p <= line
  {
    p := Strip(q);
    if |q| <= |pad| {
      assert q == pad[..|q|];
      AllBlank(q);
    } else {
      var j := line[..|q| - |pad|];
      assert q == pad + j;
      SkipBlanks(pad, j);
      CpuReadings.StripTrailing(j);
    }
  }

  lemma CutUsageLine(i: nat, d: Device, segMb: int, q: string)
    requires Column(d.path) && q <= UsageLine(i, d, segMb)
    ensures NodeOfLine(q) == None || NodeOfLine(q) == Some(NodeOf(d, segMb))
  {
    var pad, index := Blanks(5 - |ShowInt(i)|), ShowInt(i) + " ";
    DigitsAreVisible(i);
    NumberColumn(5, i);
    FieldsAreClean(index, d, segMb);
    FieldsRead(index, d, segMb);
    IndexPadded(i);
    CutLineReads(pad, index, d.path, CellsOf(d, segMb), q, NodeOf(d, segMb));
  }

  /** A first line that fits is complete. */
  lemma CutAfterFirst(lines: seq<string>) returns (k: nat, rest: seq<string>)
    requires lines != [] && StartsWith(lines[0], "Index") && |lines[0]| <= 9 * 16
    requires forall i :: 0 <= i < |lines| ==> GoodLine(lines[i])
    ensures CompleteLines(lines, |Kept(TextOf(lines), BUFFER_SIZE)|, k) && Remnant(rest, lines, k) && k > 0
    ensures SplitLines(Received(TextOf(lines))) == lines[..k] + rest
  {
    assert lines[0][0] == "Index"[0] == 'I';
    k, rest := ReceivedCut(lines);
    FirstFits(lines);
  }

  lemma FirstFits(lines: seq<string>)
    requires lines != [] && |lines[0]| <= 9 * 16
    ensures |TextOf(lines[..1])| <= |Kept(TextOf(lines), BUFFER_SIZE)|
  {
    TextOfLast(lines[..1]);
    assert lines[..1][..0] == [] && TextOf([]) == "";
    TextOfConcat(lines[..1], lines[1..]);
    assert lines[..1] + lines[1..] == lines;
  }

  lemma CutTableLine(p: Pool, k: nat, q: string)
    requires CleanPaths(p) && k < |p.devs| && q <= UsageLines(p)[k + 1]
    ensures NodeOfLine(q) == None || NodeOfLine(q) == Some(PoolNodes(p)[k])
  {
    CutUsageLine(k, p.devs[k], p.segMb, q);
  }

  /** The complete lines give their values, and the one that was cut its own or none. */
  lemma CollectsCut<T>(head: seq<string>, rest: seq<string>, read: string -> Option<T>, values: seq<T>, k: nat)
      returns (m: nat)
    requires k <= |values| && Collect(head, read) == values[..k]
    requires rest == [] || (k < |values| && |rest| == 1
                            && (read(rest[0]) == None || read(rest[0]) == Some(values[k])))
    ensures k <= m <= k + 1 && m <= |values| && Collect(head + rest, read) == values[..m]
  {
    m := k;
    CollectBoth(head, rest, read);
    if rest != [] {
      assert rest == [rest[0]];
      CollectOne(rest[0], read);
      if read(rest[0]).Some? {
        m := k + 1;
        assert values[..k + 1] == values[..k] + [values[k]];
      }
    }
  }

  /**
   However long the usage table, the client reads the first devices of the pool, exactly as they are and in
   order: all those on complete lines, and perhaps the one on the line that was cut.
   */
  lemma PoolOfAnyTable(p: Pool) returns (k: nat, m: nat)
    requires PoolOk(p) && p.devs != [] && CleanPaths(p)
    ensures CompleteLines(UsageLines(p), |Kept(UsageText(p), BUFFER_SIZE)|, k) && 0 < k
    ensures k - 1 <= m <= k && m <= |p.devs|
    ensures NodesOfLines(SplitLines(Received(UsageText(p)))) == PoolNodes(p)[..m]
  {
    var lines, rest := UsageLines(p), [];
    UsageLinesAreGood(p);
    TableHeader(p);
    k, rest := CutAfterFirst(lines);
    LinesRead(p, k);
    if rest != [] {
      CutTableLine(p, k - 1, rest[0]);
    }
    m := CollectsCut(lines[..k], rest, NodeOfLine, PoolNodes(p), k - 1);
  }
}
