/**
 The pieces of C and Python text handling the server and its clients share: printing decimal integers,
 reading them as Python does, underscores included, scanning for one as C does, skipping and trimming
 blanks, finding a character, splitting at a separator and joining again, and that each undoes the other.
 */
module Text {
  import opened Wrappers

  predicate IsDigit(c: char) { '0' <= c <= '9' }

  predicate IsSpace(c: char) { c == ' ' || '\t' <= c <= '\r' }

  predicate AllDigits(s: string) { forall i :: 0 <= i < |s| ==> IsDigit(s[i]) }

  // ---------- decimal numbers ----------

  function DigitValue(c: char): (d: nat)
    requires IsDigit(c)
    ensures d < 10
  {
    c as int - '0' as int
  }

  function DigitChar(d: nat): (c: char)
    requires d < 10
    ensures IsDigit(c) && DigitValue(c) == d
  {
    ('0' as int + d) as char
  }

  /** Digits, with underscores anywhere. */
  predicate Barred(s: string) { forall i :: 0 <= i < |s| ==> IsDigit(s[i]) || s[i] == '_' }

  /** The value of the digits, underscores skipped. */
  function ReadDigits(s: string): nat
    requires Barred(s)
  {
    if s == "" then 0
    else
      var rest, last := ReadDigits(s[..|s| - 1]), s[|s| - 1];
      if last == '_' then rest else rest * 10 + DigitValue(last)
  }

  function ShowNat(n: nat): (s: string)
    ensures s != "" && AllDigits(s)
  {
    if n < 10 then [DigitChar(n)] else ShowNat(n / 10) + [DigitChar(n % 10)]
  }

  /** `%d` of an int. */
  function ShowInt(n: int): (s: string)
    ensures s != ""
  {
    if n < 0 then "-" + ShowNat(-n) else ShowNat(n)
  }

  function Signed(negative: bool, n: int): int {
    if negative then -n else n
  }

  lemma {:induction false} ReadShowNat(n: nat)
    ensures ReadDigits(ShowNat(n)) == n
  {
    if n >= 10 {
      ReadShowNat(n / 10);
      assert ShowNat(n)[..|ShowNat(n)| - 1] == ShowNat(n / 10);
    }
  }

  // ---------- scanning ----------

  /** Length of the longest digit prefix. */
  function DigitRun(s: string): (n: nat)
    ensures n <= |s| && AllDigits(s[..n])
    ensures n < |s| ==> !IsDigit(s[n])
  {
    if s == "" || !IsDigit(s[0]) then 0
    else
      var n := 1 + DigitRun(s[1..]);
      assert s[..n] == [s[0]] + s[1..][..n - 1];
      n
  }

  function SkipSpace(s: string): (r: string)
    ensures |r| <= |s|
  {
    if s != "" && IsSpace(s[0]) then SkipSpace(s[1..]) else s
  }

  /** C's `%d`: leading blanks, an optional sign, then digits; also gives what is left. */
  function ScanInt(s: string): Option<(int, string)> {
    var t := SkipSpace(s);
    var negative := t != "" && t[0] == '-';
    var u := if t != "" && (t[0] == '-' || t[0] == '+') then t[1..] else t;
    var n := DigitRun(u);
    if n == 0 then None
    else Some((Signed(negative, ReadDigits(u[..n])), u[n..]))
  }

  lemma {:induction false} DigitRunOf(ds: string, rest: string)
    requires AllDigits(ds)
    requires rest == "" || !IsDigit(rest[0])
    ensures DigitRun(ds + rest) == |ds|
  {
    if ds == "" {
      assert ds + rest == rest;
    } else {
      assert (ds + rest)[1..] == ds[1..] + rest;
      DigitRunOf(ds[1..], rest);
    }
  }

  /** Scanning reads back exactly the number that was printed, and stops right after it. */
  lemma ScanShowInt(n: int, rest: string)
    requires rest == "" || !IsDigit(rest[0])
    ensures ScanInt(ShowInt(n) + rest) == Some((n, rest))
  {
    var s := ShowInt(n) + rest;
    var ds := ShowNat(if n < 0 then -n else n);
    assert s == if n < 0 then "-" + (ds + rest) else ds + rest;
    assert !IsSpace(s[0]);
    assert SkipSpace(s) == s;
    var u := ds + rest;
    assert n < 0 ==> s[1..] == u;
    DigitRunOf(ds, rest);
    assert u[..|ds|] == ds && u[|ds|..] == rest;
    ReadShowNat(if n < 0 then -n else n);
  }

  // ---------- trimming ----------

  function DropTrailing(s: string): (r: string) {
    if s != "" && IsSpace(s[|s| - 1]) then DropTrailing(s[..|s| - 1]) else s
  }

  /** Python's `strip`. */
  function Strip(s: string): string {
    DropTrailing(SkipSpace(s))
  }

  /** Begins and ends with something other than a blank, or is empty. */
  predicate Trim(s: string) {
    s == "" || (!IsSpace(s[0]) && !IsSpace(s[|s| - 1]))
  }

  lemma StripOfTrim(s: string)
    requires Trim(s)
    ensures Strip(s) == s
  {
  }

  lemma {:induction false} StripLeading(pad: string, s: string)
    requires Trim(s) && forall i :: 0 <= i < |pad| ==> IsSpace(pad[i])
    ensures Strip(pad + s) == s
  {
    if pad == "" {
      assert pad + s == s;
    } else {
      assert (pad + s)[1..] == pad[1..] + s;
      StripLeading(pad[1..], s);
    }
  }

  lemma {:induction false} SkipBlanks(pad: string, s: string)
    requires (s == "" || !IsSpace(s[0])) && forall i :: 0 <= i < |pad| ==> IsSpace(pad[i])
    ensures SkipSpace(pad + s) == s
  {
    if pad == "" {
      assert pad + s == s;
    } else {
      assert (pad + s)[1..] == pad[1..] + s;
      SkipBlanks(pad[1..], s);
    }
  }

  lemma {:induction false} AllBlank(s: string)
    requires forall i :: 0 <= i < |s| ==> IsSpace(s[i])
    ensures Strip(s) == ""
  {
    if s != "" {
      AllBlank(s[1..]);
    }
  }

  /** Digits, with single underscores between them. */
  predicate Numeral(u: string) {
    && u != "" && Barred(u)
    && forall i :: 0 <= i < |u| && u[i] == '_' ==> 0 < i < |u| - 1 && IsDigit(u[i - 1]) && IsDigit(u[i + 1])
  }

  /** Python's `int()` on ASCII text. */
  function PyInt(s: string): Option<int> {
    var t := Strip(s);
    var negative := t != "" && t[0] == '-';
    var u := if t != "" && (t[0] == '-' || t[0] == '+') then t[1..] else t;
    if !Numeral(u) then None
    else Some(Signed(negative, ReadDigits(u)))
  }

  lemma DigitsAreNumeral(ds: string)
    requires ds != "" && AllDigits(ds)
    ensures Numeral(ds) && Trim(ds)
  {
  }

  lemma PyIntShow(n: int)
    ensures Trim(ShowInt(n)) && PyInt(ShowInt(n)) == Some(n)
  {
    var m: nat := if n < 0 then -n else n;
    var ds := ShowNat(m);
    DigitsAreNumeral(ds);
    ReadShowNat(m);
    if n < 0 {
      PyIntNegative(ds);
    } else {
      StripOfTrim(ds);
    }
  }

  lemma {:induction false} PyIntNegative(ds: string)
    requires ds != "" && AllDigits(ds)
    ensures Trim("-" + ds) && PyInt("-" + ds) == Some(Signed(true, ReadDigits(ds)))
  {
    var s := "-" + ds;
    DigitsAreNumeral(ds);
    assert s[0] == '-' && s[|s| - 1] == ds[|ds| - 1] && s[1..] == ds;
    StripOfTrim(s);
  }

  // ---------- splitting ----------

  /** Index of the first `c`, or the length. */
  function IndexOf(s: string, c: char): (i: nat)
    ensures i <= |s| && c !in s[..i]
    ensures i < |s| ==> s[i] == c
  {
    if s == "" || s[0] == c then 0
    else
      var i := 1 + IndexOf(s[1..], c);
      assert s[..i] == [s[0]] + s[1..][..i - 1];
      i
  }

  /** Python's `split(c)`. */
  function Split(s: string, c: char): (parts: seq<string>)
    ensures |parts| > 0
    decreases |s|
  {
    var i := IndexOf(s, c);
    if i == |s| then [s] else [s[..i]] + Split(s[i + 1..], c)
  }

  function Join(parts: seq<string>, c: char): string
    requires |parts| > 0
  {
    if |parts| == 1 then parts[0] else parts[0] + [c] + Join(parts[1..], c)
  }

  lemma {:induction false} IndexOfFirst(a: string, c: char, b: string)
    requires c !in a
    ensures IndexOf(a + [c] + b, c) == |a|
  {
    if a != "" {
      assert (a + [c] + b)[1..] == a[1..] + [c] + b;
      IndexOfFirst(a[1..], c, b);
    }
  }

  lemma {:induction false} IndexOfAbsent(s: string, c: char)
    requires c !in s
    ensures IndexOf(s, c) == |s|
  {
    if s != "" {
      IndexOfAbsent(s[1..], c);
    }
  }

  lemma {:induction false} SplitFirst(a: string, c: char, b: string)
    requires c !in a
    ensures Split(a + [c] + b, c) == [a] + Split(b, c)
  {
    IndexOfFirst(a, c, b);
    var s := a + [c] + b;
    assert s[..|a|] == a && s[|a| + 1..] == b;
  }

  /** Splitting undoes joining when no part holds the separator. */
  lemma {:induction false} SplitJoin(parts: seq<string>, c: char)
    requires |parts| > 0 && forall i :: 0 <= i < |parts| ==> c !in parts[i]
    ensures Split(Join(parts, c), c) == parts
  {
    if |parts| == 1 {
      IndexOfAbsent(parts[0], c);
    } else {
      SplitJoin(parts[1..], c);
      SplitFirst(parts[0], c, Join(parts[1..], c));
    }
  }
}
