/** The reply to an allocation, read field by field as the hypervisor reads it, names the range that was allocated. */
module ReplyReader {
  import opened Wrappers
  import opened Text
  import opened VmModel
  import opened Reports
  import opened Client
  import opened DumpRoundTrip
  import opened Fields

  /** A memory backend as the reply describes it. */
  datatype Backend = Backend(idx: int, path: string, sizeMb: int, alignMb: int, offsetMb: int)

  const REPLY_FRAMES :=
    [Frame("id=mem", ""), Frame("mem-path=", ""), Frame("size=", "M"), Frame("align=", "M"), Frame("offset=", "M")]

  function BackendOf(values: seq<string>): Option<Backend>
    requires |values| == 5
  {
    match ReadAll([values[0]] + values[2..], PyInt)
    case Some(n) => Some(Backend(n[0], values[1], n[1], n[2], n[3]))
    case None => None
  }

  function ReadReply(text: string): Option<Backend> {
    match ReadFields(text, ',', REPLY_FRAMES)
    case Some(values) => BackendOf(values)
    case None => None
  }

  function ReplyValues(idx: string, path: string, size: string, align: string, offset: string): (r: seq<string>)
    ensures |r| == 5
  {
    [idx, path, size, align, offset]
  }

  lemma ReplyFramed(idx: string, path: string, size: string, align: string, offset: string)
    ensures Framed(REPLY_FRAMES, ReplyValues(idx, path, size, align, offset))
         == ["id=mem" + idx, "mem-path=" + path, "size=" + size + "M", "align=" + align + "M", "offset=" + offset + "M"]
  {
    var r := Framed(REPLY_FRAMES, ReplyValues(idx, path, size, align, offset));
    assert r[0] == "id=mem" + idx && r[1] == "mem-path=" + path && r[2] == "size=" + size + "M";
    assert r[3] == "align=" + align + "M" && r[4] == "offset=" + offset + "M";
  }

  lemma DetailsRegrouped(path: string, size: string, align: string, offset: string)
    ensures "mem-path=" + path + ",size=" + size + "M,align=" + align + "M,offset=" + offset + "M"
         == ("mem-path=" + path) + [',']
            + (("size=" + size + "M") + [','] + (("align=" + align + "M") + [','] + ("offset=" + offset + "M")))
  {
    assert ",size=" == [','] + "size=" && "M,align=" == "M" + [','] + "align=";
    assert "M,offset=" == "M" + [','] + "offset=";
  }

  /** The reply is its five fields, separated by commas. */
  lemma ReplyIsFields(dev: MemDev)
    ensures AllocReply(dev)
         == Join(Framed(REPLY_FRAMES, ReplyValues(ShowInt(dev.idx), dev.req.devPath, ShowInt(dev.req.sizeMb),
                                                  ShowInt(dev.req.alignMb), ShowInt(dev.req.offsetMb))), ',')
  {
    var idx, path, size := ShowInt(dev.idx), dev.req.devPath, ShowInt(dev.req.sizeMb);
    var align, offset := ShowInt(dev.req.alignMb), ShowInt(dev.req.offsetMb);
    DetailsRegrouped(path, size, align, offset);
    ReplyFramed(idx, path, size, align, offset);
    JoinFive("id=mem" + idx, "mem-path=" + path, "size=" + size + "M", "align=" + align + "M",
             "offset=" + offset + "M", ',');
  }

  lemma FramesHoldNoComma()
    ensures Without(',', REPLY_FRAMES)
  {
  }

  /** What was printed of numbers and a path is read as those. */
  lemma ReplyReadsBack(idx: int, path: string, sizeMb: int, alignMb: int, offsetMb: int)
    requires ',' !in path
    ensures ReadReply(Join(Framed(REPLY_FRAMES, ReplyValues(ShowInt(idx), path, ShowInt(sizeMb), ShowInt(alignMb),
                                                            ShowInt(offsetMb))), ','))
         == Some(Backend(idx, path, sizeMb, alignMb, offsetMb))
  {
    var values := ReplyValues(ShowInt(idx), path, ShowInt(sizeMb), ShowInt(alignMb), ShowInt(offsetMb));
    var n := [idx, sizeMb, alignMb, offsetMb];
    NumbersHoldNo(n);
    NumbersRead(n);
    assert ShowAll(n) == [values[0]] + values[2..];
    forall i | 0 <= i < |values| ensures ',' !in values[i] {
      assert i != 1 ==> values[i] == ShowAll(n)[if i == 0 then 0 else i - 1];
    }
    FramesHoldNoComma();
    FieldsRead(',', REPLY_FRAMES, values);
  }

  /** The reply read field by field is the device's id, path, size, alignment and offset, each under its own name. */
  lemma ReplyRoundTrip(dev: MemDev)
    requires |AllocReply(dev)| < BUFFER_SIZE && ',' !in dev.req.devPath
    ensures ReadReply(Received(AllocReply(dev)))
         == Some(Backend(dev.idx, dev.req.devPath, dev.req.sizeMb, dev.req.alignMb, dev.req.offsetMb))
  {
    ReplyEnds(dev.req);
    ReplyReads(dev.idx, AllocDetails(dev.req));
    ReplyIsFields(dev);
    ReplyReadsBack(dev.idx, dev.req.devPath, dev.req.sizeMb, dev.req.alignMb, dev.req.offsetMb);
  }
}
