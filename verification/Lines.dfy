/**
 Lines and words of text: how the server prints lines, each ended by a line feed, how Python takes a
 received text apart again, first into lines and then into words, and why nothing is lost in between when
 the lines hold no break and the text begins and ends with something visible.
 */
module Lines {
  import opened Wrappers
  import opened Text
  import opened Lists

  // ---------- printing lines ----------

  function Ended(lines: seq<string>): (r: seq<string>)
    ensures |r| == |lines| && forall i :: 0 <= i < |lines| ==> r[i] == lines[i] + "\n"
  {
    seq(|lines|, i requires 0 <= i < |lines| => lines[i] + "\n")
  }

  /** The lines, each ended by a line feed. */
  function TextOf(lines: seq<string>): string {
    Concat(Ended(lines))
  }

  lemma TextOfConcat(a: seq<string>, b: seq<string>)
    ensures TextOf(a + b) == TextOf(a) + TextOf(b)
  {
    assert Ended(a + b) == Ended(a) + Ended(b);
    ConcatOfBoth(Ended(a), Ended(b));
  }

  lemma TextOfLast(lines: seq<string>)
    requires lines != []
    ensures TextOf(lines) == TextOf(lines[..|lines| - 1]) + lines[|lines| - 1] + "\n"
  {
    assert Ended(lines)[..|lines| - 1] == Ended(lines[..|lines| - 1]);
  }

  // ---------- Python text handling ----------

  /** The characters `splitlines` breaks at. */
  predicate IsBreak(c: char) {
    '\n' <= c <= '\r' || '\U{1c}' <= c <= '\U{1e}' || c == '\U{85}' || c == '\U{2028}' || c == '\U{2029}'
  }

  predicate OneLine(s: string) {
    forall i :: 0 <= i < |s| ==> !IsBreak(s[i])
  }

  function BreakAt(s: string): (i: nat)
    ensures i <= |s| && (i < |s| ==> IsBreak(s[i]))
  {
    if s == "" || IsBreak(s[0]) then 0 else 1 + BreakAt(s[1..])
  }

  function SplitLines(s: string): seq<string>
    decreases |s|
  {
    var i := BreakAt(s);
    if s == "" then []
    else if i == |s| then [s]
    else if s[i] == '\r' && i + 1 < |s| && s[i + 1] == '\n' then [s[..i]] + SplitLines(s[i + 2..])
    else [s[..i]] + SplitLines(s[i + 1..])
  }

  function SpaceAt(s: string): (i: nat)
    ensures i <= |s|
  {
    if s == "" || IsSpace(s[0]) then 0 else 1 + SpaceAt(s[1..])
  }

  /** `split()` at runs of blanks. */
  function Words(s: string): seq<string>
    decreases |s|
  {
    var t := SkipSpace(s);
    if t == "" then []
    else
      var i := SpaceAt(t);
      if i == 0 then [] else [t[..i]] + Words(t[i..])
  }

  predicate StartsWith(s: string, prefix: string) {
    |prefix| <= |s| && s[..|prefix|] == prefix
  }

  /** `int(s.split("=", 1)[1])`. */
  function IntAfterEquals(s: string): Option<int> {
    var i := IndexOf(s, '=');
    if i == |s| then None else PyInt(s[i + 1..])
  }

  lemma {:induction false} BreakAtEnd(a: string, b: string)
    requires OneLine(a) && b != "" && IsBreak(b[0])
    ensures BreakAt(a + b) == |a|
  {
    if a == "" {
      assert a + b == b;
    } else {
      assert (a + b)[1..] == a[1..] + b;
      BreakAtEnd(a[1..], b);
    }
  }

  lemma {:induction false} BreakAtNone(a: string)
    requires OneLine(a)
    ensures BreakAt(a) == |a|
  {
    if a != "" {
      BreakAtNone(a[1..]);
    }
  }

  lemma {:induction false} SplitLinesFirst(line: string, rest: string)
    requires OneLine(line)
    ensures SplitLines(line + "\n" + rest) == [line] + SplitLines(rest)
  {
    var s := line + "\n" + rest;
    assert s == line + ("\n" + rest);
    BreakAtEnd(line, "\n" + rest);
    assert s[..|line|] == line && s[|line| + 1..] == rest;
  }

  lemma {:induction false} SplitLinesPrefix(lines: seq<string>, rest: string)
    requires forall i :: 0 <= i < |lines| ==> OneLine(lines[i])
    ensures SplitLines(TextOf(lines) + rest) == lines + SplitLines(rest)
  {
    if lines == [] {
      assert TextOf(lines) + rest == rest;
    } else {
      var init, last := lines[..|lines| - 1], lines[|lines| - 1];
      TextOfLast(lines);
      var tail := last + "\n" + rest;
      assert TextOf(lines) + rest == TextOf(init) + tail;
      SplitLinesPrefix(init, tail);
      SplitLinesFirst(last, rest);
      Regroup(init, [last], SplitLines(rest));
      assert lines == init + [last];
    }
  }

  predicate Bounded(s: string) {
    s != "" && !IsSpace(s[0]) && !IsSpace(s[|s| - 1])
  }

  /** Lines that survive the reply's final `strip`: no inner break, a visible first and last character. */
  predicate Readable(lines: seq<string>) {
    && lines != []
    && (forall i :: 0 <= i < |lines| ==> OneLine(lines[i]))
    && lines[0] != "" && !IsSpace(lines[0][0])
    && var last := lines[|lines| - 1]; last != "" && !IsSpace(last[|last| - 1])
  }

  lemma {:induction false} FirstOfText(lines: seq<string>)
    requires lines != [] && lines[0] != ""
    ensures TextOf(lines) != "" && TextOf(lines)[0] == lines[0][0]
  {
    var init := lines[..|lines| - 1];
    TextOfLast(lines);
    if init != [] {
      FirstOfText(init);
    }
  }

  /** What the client receives splits into the lines the server printed. */
  lemma ReceivedLines(lines: seq<string>)
    requires Readable(lines)
    ensures SplitLines(Strip(TextOf(lines))) == lines
  {
    var init, last := lines[..|lines| - 1], lines[|lines| - 1];
    var body := TextOf(init) + last;
    var text := TextOf(lines);
    TextOfLast(lines);
    assert text == body + "\n";
    FirstOfText(lines);
    assert SkipSpace(text) == text;
    assert text[..|text| - 1] == body && body[|body| - 1] == last[|last| - 1];
    assert DropTrailing(text) == DropTrailing(body) == body;
    SplitLinesPrefix(init, last);
    BreakAtNone(last);
    assert lines == init + [last];
  }

  // ---------- numbers and words in a line ----------

  lemma DigitsAreVisible(n: int)
    ensures OneLine(ShowInt(n)) && ' ' !in ShowInt(n) && Bounded(ShowInt(n))
    ensures forall i :: 0 <= i < |ShowInt(n)| ==> !IsSpace(ShowInt(n)[i])
    ensures '|' !in ShowInt(n) && ',' !in ShowInt(n)
  {
    var ds := ShowNat(if n < 0 then -n else n);
    assert ShowInt(n) == if n < 0 then "-" + ds else ds;
    assert forall i :: 0 <= i < |ds| ==> IsDigit(ds[i]);
  }

  lemma {:induction false} SpaceAtEnd(w: string, rest: string)
    requires forall i :: 0 <= i < |w| ==> !IsSpace(w[i])
    requires rest == "" || IsSpace(rest[0])
    ensures SpaceAt(w + rest) == |w|
  {
    if w == "" {
      assert w + rest == rest;
    } else {
      assert (w + rest)[1..] == w[1..] + rest;
      SpaceAtEnd(w[1..], rest);
    }
  }

  lemma {:induction false} FirstWord(w: string, rest: string)
    requires IsWord(w)
    ensures Words(w + " " + rest) == [w] + Words(rest)
  {
    var s := w + (" " + rest);
    assert s == w + " " + rest && SkipSpace(s) == s;
    SpaceAtEnd(w, " " + rest);
    assert s[..|w|] == w && s[|w|..] == " " + rest;
    assert (" " + rest)[1..] == rest;
    assert SkipSpace(" " + rest) == SkipSpace(rest);
  }

  predicate IsWord(w: string) {
    w != "" && forall i :: 0 <= i < |w| ==> !IsSpace(w[i])
  }

  lemma WordOf(key: string, n: int)
    requires IsWord(key)
    ensures IsWord(key + ShowInt(n))
  {
    DigitsAreVisible(n);
  }

  lemma {:induction false} TwoWords(first: string, second: string, rest: string)
    requires IsWord(first) && IsWord(second)
    ensures Words(first + " " + (second + " " + rest)) == [first, second] + Words(rest)
  {
    FirstWord(first, second + " " + rest);
    FirstWord(second, rest);
    assert [first] + ([second] + Words(rest)) == [first, second] + Words(rest);
  }

  lemma IntAfter(key: string, n: int)
    requires key != "" && key[|key| - 1] == '=' && '=' !in key[..|key| - 1]
    ensures IntAfterEquals(key + ShowInt(n)) == Some(n)
  {
    var name, s := key[..|key| - 1], key + ShowInt(n);
    assert key == name + ['='] && s == name + ['='] + ShowInt(n);
    IndexOfFirst(name, '=', ShowInt(n));
    assert s[|key|..] == ShowInt(n);
    PyIntShow(n);
  }

  /** No break inside, and not ending in a blank. */
  predicate GoodLine(line: string) {
    OneLine(line) && line != "" && !IsSpace(line[|line| - 1])
  }

  lemma GoodConcat(a: string, b: string)
    requires OneLine(a) && GoodLine(b)
    ensures GoodLine(a + b)
  {
  }

  lemma GoodNumber(n: int)
    ensures GoodLine(ShowInt(n))
  {
    DigitsAreVisible(n);
  }
}
