/**
 Texts made of fields: each field is a value between a fixed key and a fixed end, and the fields are
 separated by a character that none of them holds. Reading such a text gives the values back, in order;
 numbers among them are read as Python reads them. The readers of whole answers are made of this.
 */
module Fields {
  import opened Wrappers
  import opened Text
  import opened Lines
  import opened Client

  /** What stands before and after a value. */
  datatype Frame = Frame(key: string, end: string)

  function Framed(frames: seq<Frame>, values: seq<string>): (r: seq<string>)
    requires |frames| == |values|
    ensures |r| == |values| && forall i :: 0 <= i < |r| ==> r[i] == frames[i].key + values[i] + frames[i].end
  {
    seq(|values|, i requires 0 <= i < |values| => frames[i].key + values[i] + frames[i].end)
  }

  /** The value in a field; None when it is not framed so. */
  function Inner(s: string, f: Frame): Option<string> {
    if |f.key| + |f.end| <= |s| && s[..|f.key|] == f.key && s[|s| - |f.end|..] == f.end
    then Some(s[|f.key|..|s| - |f.end|])
    else None
  }

  /** The values of all fields; None when there are more or fewer, or one is not framed so. */
  function Inners(parts: seq<string>, frames: seq<Frame>): (r: Option<seq<string>>)
    ensures r.Some? ==> |r.value| == |frames|
  {
    if |parts| != |frames| then None
    else if parts == [] then Some([])
    else
      match (Inner(parts[0], frames[0]), Inners(parts[1..], frames[1..]))
      case (Some(v), Some(rest)) => Some([v] + rest)
      case _ => None
  }

  lemma InnerOf(f: Frame, v: string)
    ensures Inner(f.key + v + f.end, f) == Some(v)
  {
    var s := f.key + v + f.end;
    assert s[..|f.key|] == f.key && s[|s| - |f.end|..] == f.end && s[|f.key|..|s| - |f.end|] == v;
  }

  lemma {:induction false} InnersOf(frames: seq<Frame>, values: seq<string>)
    requires |frames| == |values|
    ensures Inners(Framed(frames, values), frames) == Some(values)
  {
    if values != [] {
      InnerOf(frames[0], values[0]);
      assert Framed(frames, values)[1..] == Framed(frames[1..], values[1..]);
      InnersOf(frames[1..], values[1..]);
      assert values == [values[0]] + values[1..];
    }
  }

  /** The fields of a text, separated by `c`. */
  function ReadFields(s: string, c: char, frames: seq<Frame>): (r: Option<seq<string>>)
    ensures r.Some? ==> |r.value| == |frames|
  {
    Inners(Text.Split(s, c), frames)
  }

  predicate Without(c: char, frames: seq<Frame>) {
    forall i :: 0 <= i < |frames| ==> c !in frames[i].key && c !in frames[i].end
  }

  /** Fields that do not hold the separator are read back. */
  lemma {:induction false} FieldsRead(c: char, frames: seq<Frame>, values: seq<string>)
    requires |frames| == |values| > 0 && Without(c, frames)
    requires forall i :: 0 <= i < |values| ==> c !in values[i]
    ensures ReadFields(Join(Framed(frames, values), c), c, frames) == Some(values)
  {
    forall i | 0 <= i < |values| ensures c !in Framed(frames, values)[i] {
    }
    SplitJoin(Framed(frames, values), c);
    InnersOf(frames, values);
  }

  /** Five fields, joined. */
  lemma {:induction false} JoinFive(a: string, b: string, c: string, d: string, e: string, sep: char)
    ensures Join([a, b, c, d, e], sep) == a + [sep] + (b + [sep] + (c + [sep] + (d + [sep] + e)))
  {
    var four, three, two := [b, c, d, e], [c, d, e], [d, e];
    assert [a, b, c, d, e][1..] == four && four[1..] == three && three[1..] == two && two[1..] == [e];
    assert Join(two, sep) == d + [sep] + Join([e], sep);
    assert Join(three, sep) == c + [sep] + Join(two, sep);
    assert Join(four, sep) == b + [sep] + Join(three, sep);
  }

  lemma {:induction false} JoinSix(a: string, b: string, c: string, d: string, e: string, f: string, sep: char)
    ensures Join([a, b, c, d, e, f], sep) == a + [sep] + (b + [sep] + (c + [sep] + (d + [sep] + (e + [sep] + f))))
  {
    assert [a, b, c, d, e, f][1..] == [b, c, d, e, f];
    JoinFive(b, c, d, e, f, sep);
  }

  // ---------- numbers among the fields ----------

  function ShowAll(n: seq<int>): (r: seq<string>)
    ensures |r| == |n| && forall i :: 0 <= i < |n| ==> r[i] == ShowInt(n[i])
  {
    seq(|n|, i requires 0 <= i < |n| => ShowInt(n[i]))
  }

  lemma NumbersRead(n: seq<int>)
    ensures ReadAll(ShowAll(n), PyInt) == Some(n)
  {
    forall k | 0 <= k < |n| ensures PyInt(ShowAll(n)[k]) == Some(n[k]) {
      PyIntShow(n[k]);
    }
    ReadsAll(ShowAll(n), PyInt, n);
  }

  lemma NumbersHoldNo(n: seq<int>)
    ensures forall i :: 0 <= i < |n| ==> ' ' !in ShowAll(n)[i] && ',' !in ShowAll(n)[i]
  {
    forall i | 0 <= i < |n| ensures ' ' !in ShowAll(n)[i] && ',' !in ShowAll(n)[i] {
      DigitsAreVisible(n[i]);
    }
  }
}
