/** Which texts are CPU lists to the client, and what they mean, apart from how they are read. */
module CpuGrammar {
  import opened Wrappers
  import opened Text
  import opened Lists
  import opened CpuList
  import opened CpuReadings

  /** A sign or none, and digits with single underscores between them. */
  datatype Num = Num(sign: string, digits: string)

  /** What may stand between two commas. */
  datatype Written =
    | Nothing(pad: string)
    | Single(before: string, num: Num, after: string)
    | Between(before: string, first: Num, gap: string, gap2: string, last: Num, after: string)

  function NumText(n: Num): string {
    n.sign + n.digits
  }

  function Value(n: Num): int
    requires Numeral(n.digits)
  {
    Signed(n.sign == "-", ReadDigits(n.digits))
  }

  predicate IsNum(n: Num) {
    (n.sign == "" || n.sign == "+" || n.sign == "-") && Numeral(n.digits)
  }

  /** Blanks anywhere around the numbers, no minus sign before the first one, and no descending range. */
  predicate Proper(w: Written) {
    match w
    case Nothing(pad) => Blank(pad)
    case Single(before, n, after) => Blank(before) && Blank(after) && IsNum(n) && n.sign != "-"
    case Between(before, a, gap, gap2, b, after) =>
      && Blank(before) && Blank(gap) && Blank(gap2) && Blank(after)
      && IsNum(a) && a.sign != "-" && IsNum(b) && Value(a) <= Value(b)
  }

  function Show(w: Written): string {
    match w
    case Nothing(pad) => pad
    case Single(before, n, after) => before + NumText(n) + after
    case Between(before, a, gap, gap2, b, after) =>
      before + ((NumText(a) + gap) + ['-'] + (gap2 + NumText(b))) + after
  }

  function Meaning(w: Written): seq<int>
    requires Proper(w)
  {
    match w
    case Nothing(_) => []
    case Single(_, n, _) => [Value(n)]
    case Between(_, a, _, _, b, _) => Range(Value(a), Value(b))
  }

  function ShowAll(ws: seq<Written>): (r: seq<string>)
    ensures |r| == |ws| && forall i :: 0 <= i < |ws| ==> r[i] == Show(ws[i])
  {
    seq(|ws|, i requires 0 <= i < |ws| => Show(ws[i]))
  }

  predicate AllProper(ws: seq<Written>) {
    forall i :: 0 <= i < |ws| ==> Proper(ws[i])
  }

  function Meanings(ws: seq<Written>): (r: seq<seq<int>>)
    requires AllProper(ws)
    ensures |r| == |ws| && forall i :: 0 <= i < |ws| ==> r[i] == Meaning(ws[i])
  {
    seq(|ws|, i requires 0 <= i < |ws| => Meaning(ws[i]))
  }

  // ---------- blanks around a core ----------

  lemma {:induction false} DropBlanks(s: string, pad: string)
    requires Blank(pad) && (s == "" || !IsSpace(s[|s| - 1]))
    ensures DropTrailing(s + pad) == s
  {
    if pad == "" {
      assert s + pad == s;
    } else {
      assert (s + pad)[..|s + pad| - 1] == s + pad[..|pad| - 1];
      DropBlanks(s, pad[..|pad| - 1]);
    }
  }

  /** Stripping takes off the blanks around a visible core, */
  lemma {:induction false} StripPadded(pad: string, core: string, pad2: string)
    requires Blank(pad) && Blank(pad2) && core != "" && Trim(core)
    ensures Strip(pad + core + pad2) == core
  {
    assert pad + core + pad2 == pad + (core + pad2);
    SkipBlanks(pad, core + pad2);
    DropBlanks(core, pad2);
  }

  lemma {:induction false} Leading(s: string) returns (pad: string)
    ensures Blank(pad) && s == pad + SkipSpace(s)
  {
    pad := "";
    if s != "" && IsSpace(s[0]) {
      var rest := Leading(s[1..]);
      pad := [s[0]] + rest;
      assert s == [s[0]] + s[1..];
    }
  }

  /** and there is nothing else around it. */
  lemma Padding(s: string) returns (pad: string, pad2: string)
    ensures Blank(pad) && Blank(pad2) && s == pad + Strip(s) + pad2 && Trim(Strip(s))
  {
    pad := Leading(s);
    pad2 := StripParts(s);
  }

  // ---------- numbers ----------

  lemma NumIsTrim(n: Num)
    requires IsNum(n)
    ensures NumText(n) != "" && Trim(NumText(n))
    ensures n.sign != "-" ==> '-' !in NumText(n)
    ensures ',' !in NumText(n)
  {
    var t := NumText(n);
    assert t[0] == (if n.sign == "" then n.digits[0] else n.sign[0]) && t[|t| - 1] == n.digits[|n.digits| - 1];
  }

  lemma {:induction false} CoreReads(n: Num)
    requires IsNum(n)
    ensures PyInt(NumText(n)) == Some(Value(n))
  {
    var t := NumText(n);
    NumIsTrim(n);
    StripOfTrim(t);
    if n.sign == "" {
      assert t == n.digits;
    } else {
      assert t[0] == n.sign[0] && t[1..] == n.digits;
    }
  }

  lemma NumReads(pad: string, n: Num, pad2: string)
    requires Blank(pad) && Blank(pad2) && IsNum(n)
    ensures PyInt(pad + NumText(n) + pad2) == Some(Value(n))
  {
    NumIsTrim(n);
    StripPadded(pad, NumText(n), pad2);
    StripTwice(pad + NumText(n) + pad2);
    CoreReads(n);
  }

  lemma CoreIsNum(t: string) returns (n: Num)
    requires Trim(t) && PyInt(t).Some?
    ensures IsNum(n) && t == NumText(n)
  {
    StripOfTrim(t);
    if t[0] == '-' || t[0] == '+' {
      n := Num([t[0]], t[1..]);
    } else {
      n := Num("", t);
    }
  }

  /** A text that reads as a number is one, between blanks. */
  lemma WrittenNum(s: string) returns (pad: string, n: Num, pad2: string)
    requires PyInt(s).Some?
    ensures Blank(pad) && Blank(pad2) && IsNum(n) && s == pad + NumText(n) + pad2 && PyInt(s) == Some(Value(n))
  {
    pad, pad2 := Padding(s);
    StripTwice(s);
    n := CoreIsNum(Strip(s));
    CoreReads(n);
  }

  // ---------- one part ----------

  lemma BlankHoldsNo(pad: string, c: char)
    requires Blank(pad) && !IsSpace(c)
    ensures c !in pad
  {
  }

  lemma {:induction false} SingleReads(before: string, n: Num, after: string)
    requires Blank(before) && Blank(after) && IsNum(n) && n.sign != "-"
    ensures ExpandPart(before + NumText(n) + after) == Some([Value(n)])
  {
    NumIsTrim(n);
    StripPadded(before, NumText(n), after);
    IndexOfAbsent(NumText(n), '-');
    CoreReads(n);
  }

  lemma SidesReads(left: string, a: int, right: string, b: int)
    requires '-' !in left && PyInt(left) == Some(a) && PyInt(right) == Some(b) && a <= b
    ensures ExpandTrimmed(left + ['-'] + right) == Some(Range(a, b))
  {
    var s := left + ['-'] + right;
    IndexOfFirst(left, '-', right);
    assert s[..|left|] == left && s[|left| + 1..] == right;
  }

  lemma CoreOfBetween(a: Num, gap: string, gap2: string, b: Num)
    requires IsNum(a) && IsNum(b) && Blank(gap) && Blank(gap2)
    ensures var core := (NumText(a) + gap) + ['-'] + (gap2 + NumText(b)); core != "" && Trim(core)
  {
    NumIsTrim(a);
    NumIsTrim(b);
    var core := (NumText(a) + gap) + ['-'] + (gap2 + NumText(b));
    assert core[0] == NumText(a)[0] && core[|core| - 1] == NumText(b)[|NumText(b)| - 1];
  }

  lemma LeftReads(a: Num, gap: string)
    requires IsNum(a) && a.sign != "-" && Blank(gap)
    ensures PyInt(NumText(a) + gap) == Some(Value(a)) && '-' !in NumText(a) + gap
  {
    NumIsTrim(a);
    BlankHoldsNo(gap, '-');
    NumReads("", a, gap);
    assert "" + NumText(a) + gap == NumText(a) + gap;
  }

  lemma RightReads(gap: string, b: Num)
    requires IsNum(b) && Blank(gap)
    ensures PyInt(gap + NumText(b)) == Some(Value(b))
  {
    NumReads(gap, b, "");
    assert gap + NumText(b) + "" == gap + NumText(b);
  }

  lemma {:induction false} BetweenReads(before: string, a: Num, gap: string, gap2: string, b: Num, after: string)
    requires Proper(Between(before, a, gap, gap2, b, after))
    ensures ExpandPart(Show(Between(before, a, gap, gap2, b, after))) == Some(Range(Value(a), Value(b)))
  {
    CoreOfBetween(a, gap, gap2, b);
    StripPadded(before, (NumText(a) + gap) + ['-'] + (gap2 + NumText(b)), after);
    LeftReads(a, gap);
    RightReads(gap2, b);
    SidesReads(NumText(a) + gap, Value(a), gap2 + NumText(b), Value(b));
  }

  lemma ProperReads(w: Written)
    requires Proper(w)
    ensures ExpandPart(Show(w)) == Some(Meaning(w))
  {
    match w {
      case Nothing(pad) => AllBlank(pad);
      case Single(before, n, after) => SingleReads(before, n, after);
      case Between(before, a, gap, gap2, b, after) => BetweenReads(before, a, gap, gap2, b, after);
    }
  }

  lemma NoMinusSign(n: Num)
    requires IsNum(n) && '-' !in NumText(n)
    ensures n.sign != "-"
  {
    assert NumText(n)[0] in NumText(n);
  }

  lemma NoMinus(pad: string, n: Num, pad2: string)
    requires IsNum(n) && '-' !in pad + NumText(n) + pad2
    ensures n.sign != "-"
  {
    assert NumText(n)[0] in pad + NumText(n) + pad2;
  }

  lemma NoFirstBlank(pad: string, rest: string)
    requires Blank(pad) && (pad + rest == "" || !IsSpace((pad + rest)[0]))
    ensures pad == "" && pad + rest == rest
  {
  }

  lemma NoLastBlank(rest: string, pad: string)
    requires Blank(pad) && (rest + pad == "" || !IsSpace((rest + pad)[|rest + pad| - 1]))
    ensures pad == "" && rest + pad == rest
  {
  }

  /** The number before the minus sign, with no blank before it. */
  lemma LeftNum(left: string) returns (a: Num, gap: string)
    requires PyInt(left).Some? && '-' !in left && (left == "" || !IsSpace(left[0]))
    ensures IsNum(a) && a.sign != "-" && Blank(gap) && left == NumText(a) + gap && PyInt(left) == Some(Value(a))
  {
    var pad;
    pad, a, gap := WrittenNum(left);
    NoMinus(pad, a, gap);
    assert left == pad + (NumText(a) + gap);
    NoFirstBlank(pad, NumText(a) + gap);
  }

  /** The number after it, with no blank after it. */
  lemma RightNum(right: string) returns (gap: string, b: Num)
    requires PyInt(right).Some? && (right == "" || !IsSpace(right[|right| - 1]))
    ensures IsNum(b) && Blank(gap) && right == gap + NumText(b) && PyInt(right) == Some(Value(b))
  {
    var pad;
    gap, b, pad := WrittenNum(right);
    NoLastBlank(gap + NumText(b), pad);
  }

  lemma SidesAreTrim(left: string, right: string)
    requires Trim(left + ['-'] + right)
    ensures (left == "" || !IsSpace(left[0])) && (right == "" || !IsSpace(right[|right| - 1]))
  {
    var p := left + ['-'] + right;
    assert left != "" ==> p[0] == left[0];
    assert right != "" ==> p[|p| - 1] == right[|right| - 1];
  }

  lemma PartedAt(p: string, i: nat)
    requires i < |p|
    ensures p == p[..i] + [p[i]] + p[i + 1..]
  {
  }

  lemma WrittenBetween(p: string, i: nat) returns (a: Num, gap: string, gap2: string, b: Num)
    requires Trim(p) && p != "" && ExpandTrimmed(p).Some? && i == IndexOf(p, '-') < |p|
    ensures IsNum(a) && a.sign != "-" && IsNum(b) && Blank(gap) && Blank(gap2) && Value(a) <= Value(b)
    ensures p == (NumText(a) + gap) + ['-'] + (gap2 + NumText(b))
    ensures ExpandTrimmed(p) == Some(Range(Value(a), Value(b)))
  {
    var x, y := RangeSides(p, i);
    var left, right := p[..i], p[i + 1..];
    PartedAt(p, i);
    SidesAreTrim(left, right);
    a, gap := LeftNum(left);
    gap2, b := RightNum(right);
  }

  /** A part the client accepts is written by the grammar, with that meaning. */
  lemma {:induction false} AcceptedIsProper(part: string) returns (w: Written)
    requires ExpandPart(part).Some?
    ensures Proper(w) && Show(w) == part && ExpandPart(part) == Some(Meaning(w))
  {
    var p := Strip(part);
    var before, after := Padding(part);
    if p == "" {
      w := Nothing(part);
    } else if IndexOf(p, '-') == |p| {
      var n := LoneNum(p);
      w := Single(before, n, after);
    } else {
      var a, gap, gap2, b := WrittenBetween(p, IndexOf(p, '-'));
      w := Between(before, a, gap, gap2, b, after);
    }
  }

  lemma LoneNum(p: string) returns (n: Num)
    requires Trim(p) && p != "" && IndexOf(p, '-') == |p| && ExpandTrimmed(p).Some?
    ensures IsNum(n) && n.sign != "-" && NumText(n) == p && ExpandTrimmed(p) == Some([Value(n)])
  {
    n := CoreIsNum(p);
    assert p[..|p|] == p;
    NoMinusSign(n);
    CoreReads(n);
  }

  // ---------- the whole list ----------

  lemma ShowHoldsNoComma(w: Written)
    requires Proper(w)
    ensures ',' !in Show(w)
  {
    match w {
      case Nothing(pad) => BlankHoldsNo(pad, ',');
      case Single(before, n, after) => NumIsTrim(n);
      case Between(before, a, gap, gap2, b, after) =>
        NumIsTrim(a);
        NumIsTrim(b);
    }
  }

  lemma {:induction false} JoinMore(head: string, parts: seq<string>, c: char)
    requires parts != []
    ensures Join([head] + parts, c) == head + [c] + Join(parts, c)
  {
    assert ([head] + parts)[1..] == parts;
  }

  lemma {:induction false} JoinSplit(s: string, c: char)
    ensures Join(Split(s, c), c) == s
    decreases |s|
  {
    var i := IndexOf(s, c);
    if i < |s| {
      var head, tail := s[..i], s[i + 1..];
      JoinSplit(tail, c);
      PartedAt(s, i);
      JoinMore(head, Split(tail, c), c);
    }
  }

  lemma ShowMore(w: Written, rest: seq<Written>, parts: seq<string>)
    requires parts != [] && Show(w) == parts[0] && ShowAll(rest) == parts[1..]
    ensures ShowAll([w] + rest) == parts
  {
    assert parts == [parts[0]] + parts[1..];
  }

  lemma {:induction false} AllWritten(parts: seq<string>) returns (ws: seq<Written>)
    requires forall i :: 0 <= i < |parts| ==> ExpandPart(parts[i]).Some?
    ensures AllProper(ws) && ShowAll(ws) == parts
  {
    if parts == [] {
      ws := [];
    } else {
      var rest := AllWritten(parts[1..]);
      var w := AcceptedIsProper(parts[0]);
      ws := [w] + rest;
      ShowMore(w, rest, parts);
    }
  }

  /** A list of proper parts is read as what they mean, one after the other. */
  lemma {:induction false} SentenceReads(ws: seq<Written>)
    requires ws != [] && AllProper(ws)
    ensures ExpandedCpus(Join(ShowAll(ws), ',')) == Some(Concat(Meanings(ws)))
  {
    var parts := ShowAll(ws);
    forall i | 0 <= i < |ws| ensures ',' !in parts[i] && ExpandPart(parts[i]) == Some(Meanings(ws)[i]) {
      ShowHoldsNoComma(ws[i]);
      ProperReads(ws[i]);
    }
    SplitJoin(parts, ',');
    GatherAll(ExpandParts(parts), Meanings(ws));
  }

  /**
   The client reads a text as a list of CPUs if and only if it is parts separated by commas, each blank, or a number,
   or an ascending range, with blanks around the numbers; and the CPUs are those of the parts, in order.
   */
  lemma {:induction false} AcceptedExactly(text: string, cpus: seq<int>)
    ensures ExpandedCpus(text) == Some(cpus)
            <==> exists ws: seq<Written> ::
                   ws != [] && AllProper(ws) && Join(ShowAll(ws), ',') == text && Concat(Meanings(ws)) == cpus
  {
    if ExpandedCpus(text) == Some(cpus) {
      var parts := Split(text, ',');
      EveryPartExpands(ExpandParts(parts));
      var ws := AllWritten(parts);
      JoinSplit(text, ',');
      SentenceReads(ws);
      assert ws != [];
    }
    forall ws: seq<Written> |
      ws != [] && AllProper(ws) && Join(ShowAll(ws), ',') == text && Concat(Meanings(ws)) == cpus
      ensures ExpandedCpus(text) == Some(cpus)
    {
      SentenceReads(ws);
    }
  }
}
