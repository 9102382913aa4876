/**
 When the readings of a CPU list agree: the server's traversal of the set it stored and the
 client's list, on every list the client accepts.
 */
module CpuReadings {
  import opened Wrappers
  import opened Text
  import opened Lists
  import opened CpuList

  // ---------- stripping ----------

  predicate Blank(s: string) {
    forall i :: 0 <= i < |s| ==> IsSpace(s[i])
  }

  /** The blanks `strip` takes off. */
  lemma {:induction false} StripTrailing(s: string)
    ensures |DropTrailing(s)| <= |s| && s[..|DropTrailing(s)|] == DropTrailing(s)
    ensures forall i :: |DropTrailing(s)| <= i < |s| ==> IsSpace(s[i])
    ensures DropTrailing(s) != "" ==> !IsSpace(DropTrailing(s)[|DropTrailing(s)| - 1])
  {
    if s != "" && IsSpace(s[|s| - 1]) {
      StripTrailing(s[..|s| - 1]);
    }
  }

  lemma {:induction false} SkipSpaceKeeps(s: string, rest: string)
    requires SkipSpace(s) != ""
    ensures SkipSpace(s + rest) == SkipSpace(s) + rest
    ensures !IsSpace(SkipSpace(s)[0])
  {
    if IsSpace(s[0]) {
      assert (s + rest)[1..] == s[1..] + rest;
      SkipSpaceKeeps(s[1..], rest);
    } else {
      assert (s + rest)[0] == s[0];
    }
  }

  lemma {:induction false} SkipSpaceTwice(s: string)
    ensures SkipSpace(SkipSpace(s)) == SkipSpace(s)
  {
    if s != "" && IsSpace(s[0]) {
      SkipSpaceTwice(s[1..]);
    }
  }

  /** A text is its leading blanks, its stripped core and its trailing blanks. */
  lemma StripParts(s: string) returns (trail: string)
    ensures SkipSpace(s) == Strip(s) + trail && Trim(Strip(s))
    ensures forall i :: 0 <= i < |trail| ==> IsSpace(trail[i])
    ensures Strip(s) != "" ==> s != "" && (trail == "" <==> !IsSpace(s[|s| - 1]))
    ensures Strip(s) == "" ==> SkipSpace(s) == ""
  {
    var t := SkipSpace(s);
    StripTrailing(t);
    var core := DropTrailing(t);
    trail := t[|core|..];
    if t != "" {
      SkipSpaceKeeps(s, "");
      LastCharKept(s);
    }
  }

  lemma StripTwice(s: string)
    ensures Strip(Strip(s)) == Strip(s) && PyInt(Strip(s)) == PyInt(s)
  {
    var trail := StripParts(s);
    StripOfTrim(Strip(s));
  }

  lemma {:induction false} LastCharKept(s: string)
    requires SkipSpace(s) != ""
    ensures s != "" && s[|s| - 1] == SkipSpace(s)[|SkipSpace(s)| - 1]
  {
    if IsSpace(s[0]) {
      LastCharKept(s[1..]);
    }
  }

  // ---------- numbers ----------

  /** What comes after a number can only make it larger, ten times with another digit. */
  lemma {:induction false} ReadGrows(a: string, b: string)
    requires Barred(a) && Barred(b)
    ensures Barred(a + b) && ReadDigits(a + b) >= ReadDigits(a)
    ensures (exists i :: 0 <= i < |b| && IsDigit(b[i])) ==> ReadDigits(a + b) >= 10 * ReadDigits(a)
  {
    if b == "" {
      assert a + b == a;
    } else {
      var init := b[..|b| - 1];
      ReadGrows(a, init);
      assert (a + b)[..|a + b| - 1] == a + init;
      if exists i :: 0 <= i < |b| && IsDigit(b[i]) {
        var i :| 0 <= i < |b| && IsDigit(b[i]);
        assert i < |init| ==> IsDigit(init[i]);
      }
    }
  }

  /** The server's scan gets the client's value: no underscore stops it, or all is zero anyway. */
  predicate ReadWhole(s: string) {
    '_' !in s || PyInt(s) == Some(0)
  }

  /** The digits before the first underscore, against all of them. */
  lemma {:induction false} LeadingDigits(u: string, n: nat)
    requires Numeral(u) && n <= |u| && AllDigits(u[..n]) && (n < |u| ==> !IsDigit(u[n]))
    ensures 0 < n && ReadDigits(u[..n]) <= ReadDigits(u)
    ensures n == |u| <==> '_' !in u
    ensures ReadDigits(u[..n]) == ReadDigits(u) <==> '_' !in u || ReadDigits(u) == 0
  {
    BarPlace(u, n);
    var head, rest := u[..n], u[n..];
    assert u == head + rest;
    ReadGrows(head, rest);
    if n < |u| {
      assert IsDigit(rest[1]);
    } else {
      assert head == u;
    }
  }

  lemma BarPlace(u: string, n: nat)
    requires Numeral(u) && n <= |u| && AllDigits(u[..n]) && (n < |u| ==> !IsDigit(u[n]))
    ensures 0 < n && (n < |u| ==> n + 1 < |u| && u[n] == '_' && IsDigit(u[n + 1]))
    ensures n == |u| <==> '_' !in u
  {
    assert n == |u| ==> u[..n] == u;
  }

  /** The sign and the numeral of a stripped number. */
  function Signless(core: string): string {
    if core != "" && (core[0] == '-' || core[0] == '+') then core[1..] else core
  }

  lemma SignlessOf(s: string, rest: string)
    requires s != ""
    ensures Signless(s + rest) == Signless(s) + rest
    ensures '_' in s <==> '_' in Signless(s)
  {
    assert (s + rest)[0] == s[0] && (s + rest)[1..] == s[1..] + rest;
    assert s == [s[0]] + s[1..];
  }

  /** Digits after a sign are scanned up to the first character that is none. */
  lemma {:induction false} ScanDigits(s: string, ds: string, y: string)
    requires s != "" && !IsSpace(s[0]) && Signless(s) == ds + y
    requires ds != "" && AllDigits(ds) && (y == "" || !IsDigit(y[0]))
    ensures ScanInt(s) == Some((Signed(s[0] == '-', ReadDigits(ds)), y))
  {
    DigitRunOf(ds, y);
    assert (ds + y)[..|ds|] == ds && (ds + y)[|ds|..] == y;
  }

  /** A stripped number is scanned off the front of what follows, up to its first underscore. */
  lemma ScanSigned(core: string, after: string) returns (x: int, y: string)
    requires Trim(core) && PyInt(core).Some?
    requires after == "" || (!IsDigit(after[0]) && after[0] != '_')
    ensures ScanInt(core + after) == Some((x, y))
    ensures '_' !in core ==> y == after
    ensures '_' in core ==> y != "" && y[0] == '_'
    ensures x == PyInt(core).value <==> ReadWhole(core)
  {
    StripOfTrim(core);
    SignlessOf(core, after);
    var u := Signless(core);
    var n := DigitRun(u);
    LeadingDigits(u, n);
    x, y := Signed(core[0] == '-', ReadDigits(u[..n])), u[n..] + after;
    SplitAt(u, n, after);
    ScanDigits(core + after, u[..n], y);
  }

  lemma SplitAt(u: string, n: nat, after: string)
    requires n <= |u|
    ensures u + after == u[..n] + (u[n..] + after)
  {
  }

  /** Stripping takes no visible character. */
  lemma StripKeeps(s: string, c: char)
    requires !IsSpace(c)
    ensures c in s <==> c in Strip(s)
  {
    SkipKeeps(s, c);
    DropKeeps(SkipSpace(s), c);
  }

  lemma {:induction false} SkipKeeps(s: string, c: char)
    requires !IsSpace(c)
    ensures c in s <==> c in SkipSpace(s)
  {
    if s != "" && IsSpace(s[0]) {
      assert s == [s[0]] + s[1..];
      SkipKeeps(s[1..], c);
    }
  }

  lemma {:induction false} DropKeeps(s: string, c: char)
    requires !IsSpace(c)
    ensures c in s <==> c in DropTrailing(s)
  {
    if s != "" && IsSpace(s[|s| - 1]) {
      assert s == s[..|s| - 1] + [s[|s| - 1]];
      DropKeeps(s[..|s| - 1], c);
    }
  }

  /** What the server scans where the client reads all of `s` as one number. */
  lemma ScanAccepted(s: string, rest: string) returns (x: int, y: string)
    requires PyInt(s).Some?
    requires rest == "" || (!IsDigit(rest[0]) && rest[0] != '_')
    ensures ScanInt(s + rest) == Some((x, y))
    ensures x == PyInt(s).value <==> ReadWhole(s)
    ensures s != ""
    ensures '_' in s ==> y != "" && y[0] == '_'
    ensures '_' !in s && IsSpace(s[|s| - 1]) ==> y != "" && IsSpace(y[0])
    ensures '_' !in s && !IsSpace(s[|s| - 1]) ==> y == rest
  {
    var trail := StripParts(s);
    StripTwice(s);
    StripKeeps(s, '_');
    SkipSpaceKeeps(s, rest);
    SkipSpaceTwice(s + rest);
    var after := trail + rest;
    assert SkipSpace(s + rest) == Strip(s) + after;
    x, y := ScanSigned(Strip(s), after);
    assert ScanInt(s + rest) == ScanInt(SkipSpace(s + rest));
  }

  // ---------- one part ----------

  /** The server's scan of the left number stops before the dash. */
  predicate Broken(left: string) {
    '_' in left || (left != "" && IsSpace(left[|left| - 1]))
  }

  /**
   What makes the two readings of a part the same: a lone number must be read whole; in a range
   the right one must be, unless an underscore or a blank keeps the server from the dash: then the left one must
   be read whole and be all there is.
   */
  predicate TrimmedAgrees(p: string) {
    var i := IndexOf(p, '-');
    if p == "" then true
    else if i == |p| then ReadWhole(p)
    else if Broken(p[..i]) then ReadWhole(p[..i]) && PyInt(p[..i]) == PyInt(p[i + 1..])
    else ReadWhole(p[i + 1..])
  }

  predicate PartAgrees(part: string) {
    TrimmedAgrees(Strip(part))
  }

  /** The server's first scan of an accepted part, stripped on the left: `y` is what is left to scan. */
  lemma ScanPart(p: string, tail: string) returns (x: int, y: string)
    requires p != "" && Trim(p) && ExpandTrimmed(p).Some? && Blank(tail)
    ensures ScanInt(p + tail) == Some((x, y))
    ensures var i := IndexOf(p, '-');
            && (i == |p| ==> (y == "" || y[0] != '-') && (x == PyInt(p).value <==> ReadWhole(p)))
            && (i < |p| && Broken(p[..i]) ==>
                  y != "" && y[0] != '-' && (x == PyInt(p[..i]).value <==> ReadWhole(p[..i])))
            && (i < |p| && !Broken(p[..i]) ==>
                  x == PyInt(p[..i]).value && y == ['-'] + (p[i + 1..] + tail))
  {
    var i := IndexOf(p, '-');
    if i < |p| {
      CutAt(p, i, '-', tail);
      x, y := ScanAccepted(p[..i], ['-'] + (p[i + 1..] + tail));
    } else {
      x, y := ScanAccepted(p, tail);
    }
  }

  lemma CutAt(p: string, i: nat, c: char, tail: string)
    requires i < |p| && p[i] == c
    ensures p + tail == p[..i] + ([c] + (p[i + 1..] + tail))
  {
  }

  lemma AfterFirst(z: string, more: string)
    requires z != ""
    ensures (z + more)[0] == z[0] && (z + more)[1..] == z[1..] + more
  {
  }

  lemma AgreeBroken(left: string, right: string, a: int, b: int)
    requires PyInt(left) == Some(a) && a <= b && Broken(left)
    ensures VisitToken(left + (['-'] + right)) == Range(a, b) <==> ReadWhole(left) && a == b
  {
    var x, y := ScanAccepted(left, ['-'] + right);
    assert VisitToken(left + (['-'] + right)) == [x];
    OneOfRange(x, a, b);
  }

  lemma AgreeWhole(left: string, right: string, tail: string, a: int, b: int)
    requires PyInt(left) == Some(a) && PyInt(right) == Some(b) && a <= b && !Broken(left) && Blank(tail)
    ensures VisitToken(left + (['-'] + (right + tail))) == Range(a, b) <==> ReadWhole(right)
  {
    var x, y := ScanAccepted(left, ['-'] + (right + tail));
    var end, more := ScanAccepted(right, tail);
    VisitRange(left + (['-'] + (right + tail)), a, right + tail, end, more);
    SameRange(a, end, b);
  }

  lemma VisitRange(token: string, a: int, rest: string, end: int, more: string)
    requires ScanInt(token) == Some((a, ['-'] + rest)) && ScanInt(rest) == Some((end, more))
    ensures VisitToken(token) == Range(a, end)
  {
    AfterFirst(['-'], rest);
    assert (['-'] + rest)[1..] == rest;
  }

  lemma AgreeSides(left: string, right: string, tail: string, a: int, b: int)
    requires PyInt(left) == Some(a) && PyInt(right) == Some(b) && a <= b && Blank(tail)
    ensures VisitToken(left + (['-'] + (right + tail))) == Range(a, b)
            <==> if Broken(left) then ReadWhole(left) && a == b else ReadWhole(right)
  {
    if Broken(left) {
      AgreeBroken(left, right + tail, a, b);
    } else {
      AgreeWhole(left, right, tail, a, b);
    }
  }

  /** An accepted range, by its two sides. */
  lemma RangeSides(p: string, i: nat) returns (a: int, b: int)
    requires i == IndexOf(p, '-') < |p| && ExpandTrimmed(p).Some?
    ensures PyInt(p[..i]) == Some(a) && PyInt(p[i + 1..]) == Some(b) && a <= b
    ensures ExpandTrimmed(p) == Some(Range(a, b))
  {
    var left, right := p[..i], p[i + 1..];
    assert p != "";
    a, b := PyInt(left).value, PyInt(right).value;
  }

  lemma {:induction false} AgreeOnRange(p: string, tail: string, i: nat)
    requires i == IndexOf(p, '-') < |p| && ExpandTrimmed(p).Some? && Blank(tail)
    ensures VisitToken(p + tail) == ExpandTrimmed(p).value <==> TrimmedAgrees(p)
  {
    var a, b := RangeSides(p, i);
    CutAt(p, i, '-', tail);
    AgreeSides(p[..i], p[i + 1..], tail, a, b);
  }

  lemma AgreeOnNumber(p: string, tail: string)
    requires p != "" && Trim(p) && '-' !in p && PyInt(p).Some? && Blank(tail)
    ensures VisitToken(p + tail) == [PyInt(p).value] <==> ReadWhole(p)
  {
    IndexOfAbsent(p, '-');
    var x, y := ScanPart(p, tail);
    assert VisitToken(p + tail) == [x];
  }

  /** On a part the client accepts, the server visits the same CPUs exactly under that condition. */
  lemma AgreeOnTrimmed(p: string, tail: string)
    requires p != "" && Trim(p) && ExpandTrimmed(p).Some? && Blank(tail)
    ensures VisitToken(p + tail) == ExpandTrimmed(p).value <==> TrimmedAgrees(p)
  {
    var i := IndexOf(p, '-');
    if i < |p| {
      AgreeOnRange(p, tail, i);
    } else {
      assert p == p[..i];
      AgreeOnNumber(p, tail);
    }
  }

  lemma OneOfRange(x: int, a: int, b: int)
    requires a <= b
    ensures [x] == Range(a, b) <==> x == a == b
  {
    assert |Range(a, b)| == b - a + 1 && Range(a, b)[0] == a;
  }

  lemma SameRange(a: int, end: int, b: int)
    requires a <= b
    ensures Range(a, end) == Range(a, b) <==> end == b
  {
    assert |Range(a, b)| == b - a + 1;
  }

  /** Leading blanks do not matter to either reading. */
  lemma PartIsTrimmed(part: string) returns (tail: string)
    ensures Blank(tail) && Trim(Strip(part)) && ScanInt(part) == ScanInt(Strip(part) + tail)
    ensures SkipSpace(part) == Strip(part) + tail
    ensures Strip(part) == "" ==> tail == "" && ScanInt(part) == None
  {
    tail := StripParts(part);
    SkipSpaceTwice(part);
    assert Strip(part) == "" ==> Strip(part) + tail == "";
  }

  lemma AgreeOnPart(part: string)
    requires ExpandPart(part).Some?
    ensures VisitToken(part) == ExpandPart(part).value <==> PartAgrees(part)
  {
    var tail := PartIsTrimmed(part);
    if Strip(part) != "" {
      AgreeOnTrimmed(Strip(part), tail);
    }
  }

  lemma ExpandsToSome(part: string)
    requires ExpandPart(part).Some?
    ensures ExpandPart(part).value == [] <==> Strip(part) == ""
  {
  }

  // ---------- a part cut short ----------

  /** Scanning a prefix that does not end in the middle of the number scans the whole. */
  lemma ScanCut(x: string, more: string)
    requires ScanInt(x).Some?
    ensures ScanInt(x + more).Some?
    ensures ScanInt(x).value.1 != "" ==>
              ScanInt(x + more) == Some((ScanInt(x).value.0, ScanInt(x).value.1 + more))
  {
    SkipSpaceKeeps(x, more);
    SkipSpaceTwice(x + more);
    ScanCore(SkipSpace(x), more);
    SkipSpaceTwice(x);
  }

  /** The same with the leading blanks gone. */
  lemma ScanCore(t: string, more: string)
    requires t != "" && !IsSpace(t[0]) && ScanInt(t).Some?
    ensures ScanInt(t + more).Some?
    ensures ScanInt(t).value.1 != "" ==>
              ScanInt(t + more) == Some((ScanInt(t).value.0, ScanInt(t).value.1 + more))
  {
    SignlessOf(t, more);
    var u := Signless(t);
    var n := DigitRun(u);
    assert (t + more)[0] == t[0];
    if n < |u| {
      SplitAt(u, n, more);
      ScanDigits(t + more, u[..n], u[n..] + more);
    } else {
      RunPositive(u, more);
    }
  }

  lemma {:induction false} RunPositive(u: string, more: string)
    requires DigitRun(u) > 0
    ensures DigitRun(u + more) > 0
  {
    assert (u + more)[0] == u[0];
  }

  /** A prefix of a number that is not negative scans as no more than it. */
  lemma CutNumber(x: string, more: string, r: string, tail: string)
    requires PyInt(r).Some? && PyInt(r).value >= 0 && Blank(tail)
    requires x + more == r + tail && ScanInt(x).Some?
    ensures ScanInt(x).value.0 <= PyInt(r).value
  {
    ReadsAs(r);
    ScansAs(x);
    var blanks := SkippedBoth(x, more, r, tail);
    CutCore(SkipSpace(x), more, Strip(r), blanks);
    SignedOrder(Strip(r)[0] == '-', ReadDigits(Signless(SkipSpace(x))[..DigitRun(Signless(SkipSpace(x)))]),
                ReadDigits(Signless(Strip(r))));
  }

  lemma SignedOrder(negative: bool, a: nat, b: nat)
    requires a <= b && Signed(negative, b) >= 0
    ensures Signed(negative, a) <= Signed(negative, b)
  {
  }

  lemma SkippedBoth(x: string, more: string, r: string, tail: string) returns (blanks: string)
    requires x + more == r + tail && SkipSpace(x) != "" && SkipSpace(r) != "" && Blank(tail)
    ensures Blank(blanks) && SkipSpace(x) + more == Strip(r) + blanks
  {
    var trail := StripParts(r);
    SkipSpaceKeeps(x, more);
    SkipSpaceKeeps(r, tail);
    blanks := trail + tail;
    Regroup(Strip(r), trail, tail);
  }

  lemma {:induction false} ReadsAs(r: string)
    requires PyInt(r).Some?
    ensures var core := Strip(r);
            && core != "" && Numeral(Signless(core))
            && PyInt(r).value == Signed(core[0] == '-', ReadDigits(Signless(core)))
    ensures SkipSpace(r) != ""
  {
  }

  lemma {:induction false} ScansAs(x: string)
    requires ScanInt(x).Some?
    ensures var t := SkipSpace(x);
            t != "" && ScanInt(x).value.0 == Signed(t[0] == '-', ReadDigits(Signless(t)[..DigitRun(Signless(t))]))
  {
  }

  /** The same with the leading blanks gone. */
  lemma CutCore(t: string, more: string, core: string, blanks: string)
    requires t != "" && core != "" && t + more == core + blanks && Blank(blanks) && Numeral(Signless(core))
    ensures ReadDigits(Signless(t)[..DigitRun(Signless(t))]) <= ReadDigits(Signless(core))
    ensures t[0] == core[0]
  {
    assert t[0] == (t + more)[0] == core[0];
    SignlessOf(t, more);
    SignlessOf(core, blanks);
    CutDigits(Signless(t), more, Signless(core), blanks);
  }

  lemma {:induction false} RunEnds(v: string, k: nat)
    requires k < |v| && !IsDigit(v[k])
    ensures DigitRun(v) <= k
  {
    if k > 0 {
      RunEnds(v[1..], k - 1);
    }
  }

  lemma {:induction false} CutDigits(v: string, more: string, u: string, blanks: string)
    requires Numeral(u) && Blank(blanks) && v + more == u + blanks
    ensures ReadDigits(v[..DigitRun(v)]) <= ReadDigits(u)
  {
    var n := DigitRun(v);
    if |u| < |v| {
      assert v[|u|] == (v + more)[|u|] == blanks[0];
      RunEnds(v, |u|);
    }
    assert v[..n] == (v + more)[..n] == u[..n];
    assert u == u[..n] + u[n..];
    ReadGrows(u[..n], u[n..]);
  }

  /** The scan of an accepted part stops at a dash: then the part is a range, and the rest of it follows. */
  lemma {:induction false} DashReached(p: string, tail: string, x: int, z: string, more: string)
    requires p != "" && Trim(p) && ExpandTrimmed(p).Some? && Blank(tail)
    requires z != "" && z[0] == '-' && ScanInt(p + tail) == Some((x, z + more))
    ensures var i := IndexOf(p, '-');
            i < |p| && x == PyInt(p[..i]).value && z[1..] + more == p[i + 1..] + tail
  {
    var start, y := ScanPart(p, tail);
    AfterFirst(z, more);
    var i := IndexOf(p, '-');
    assert i < |p| ==> (['-'] + (p[i + 1..] + tail))[1..] == p[i + 1..] + tail;
  }

  /** A cut that still scans as a range is a range no longer than the whole. */
  lemma CutRange(p: string, tail: string, x: int, z: string, more: string)
    requires p != "" && Trim(p) && ExpandTrimmed(p).Some? && Blank(tail)
    requires z != "" && z[0] == '-' && ScanInt(p + tail) == Some((x, z + more)) && ScanInt(z[1..]).Some?
    ensures |Range(x, ScanInt(z[1..]).value.0)| <= |ExpandTrimmed(p).value|
  {
    DashReached(p, tail, x, z, more);
    var i := IndexOf(p, '-');
    var a, b := RangeSides(p, i);
    LeftIsNatural(p[..i]);
    CutNumber(z[1..], more, p[i + 1..], tail);
    ShorterRange(a, ScanInt(z[1..]).value.0, b);
  }

  lemma ShorterRange(a: int, end: int, b: int)
    requires end <= b
    ensures |Range(a, end)| <= |Range(a, b)|
  {
  }

  /** However a part is cut, the server visits no more cores than the client counts. */
  lemma CutVisitsNoMore(cut: string, more: string)
    requires ExpandPart(cut + more).Some?
    ensures |VisitToken(cut)| <= |ExpandPart(cut + more).value|
  {
    var part := cut + more;
    var tail := PartIsTrimmed(part);
    ExpandsToSome(part);
    if ScanInt(cut).Some? {
      ScanCut(cut, more);
      var (x, z) := ScanInt(cut).value;
      if z != "" && z[0] == '-' && ScanInt(z[1..]).Some? {
        CutRange(Strip(part), tail, x, z, more);
      }
    }
  }

  lemma LeftIsNatural(left: string)
    requires '-' !in left && PyInt(left).Some?
    ensures PyInt(left).value >= 0
  {
    StripKeeps(left, '-');
  }

  // ---------- the whole list ----------

  /** Lists no longer than the gathered ones add up to the same exactly when each is the same. */
  lemma {:induction false} ShorterListsAddUp(cut: seq<seq<int>>, whole: seq<Option<seq<int>>>)
    requires |cut| == |whole| && Gather(whole).Some?
    requires forall i :: 0 <= i < |cut| && whole[i].Some? ==> |cut[i]| <= |whole[i].value|
    ensures forall i :: 0 <= i < |whole| ==> whole[i].Some?
    ensures |Concat(cut)| <= |Gather(whole).value|
    ensures Concat(cut) == Gather(whole).value <==> forall i :: 0 <= i < |cut| ==> cut[i] == whole[i].value
  {
    if cut != [] {
      var last := |cut| - 1;
      var c, w := cut[..last], whole[..last];
      ShorterListsAddUp(c, w);
      assert forall i :: 0 <= i < last ==> c[i] == cut[i] && w[i] == whole[i];
      SumsOfShorter(Concat(c), Gather(w).value, cut[last], whole[last].value);
    }
  }

  lemma SumsOfShorter(a: seq<int>, b: seq<int>, x: seq<int>, y: seq<int>)
    requires |a| <= |b| && |x| <= |y|
    ensures a + x == b + y <==> a == b && x == y
  {
    if a + x == b + y {
      assert |a| == |b|;
      assert a == (a + x)[..|a|] == (b + y)[..|b|] == b;
      assert x == (a + x)[|a|..] == (b + y)[|b|..] == y;
    }
  }

  /** The same parts, but that the last one kept may be cut and those after it are gone. */
  predicate FirstParts(kept: seq<string>, parts: seq<string>) {
    && 0 < |kept| <= |parts|
    && (forall i :: 0 <= i < |kept| - 1 ==> kept[i] == parts[i])
    && kept[|kept| - 1] <= parts[|kept| - 1]
  }

  lemma OnePartMore(head: string, kept: seq<string>, parts: seq<string>)
    requires FirstParts(kept, parts)
    ensures FirstParts([head] + kept, [head] + parts)
  {
  }

  /** Cutting a text cuts one of its parts and drops those after it. */
  lemma {:induction false} SplitCut(a: string, b: string, c: char)
    ensures FirstParts(Split(a, c), Split(a + b, c))
    decreases |a|
  {
    var i := IndexOf(a, c);
    if i < |a| {
      var head, tail := a[..i], a[i + 1..];
      assert a == head + [c] + tail;
      SplitAtFirst(a, head, c, tail);
      TailMore(head, c, tail, b);
      SplitAtFirst(a + b, head, c, tail + b);
      SplitCut(tail, b, c);
      OnePartMore(head, Split(tail, c), Split(tail + b, c));
    } else {
      FirstPartMore(a, b, c);
    }
  }

  lemma TailMore(head: string, c: char, tail: string, b: string)
    ensures (head + [c] + tail) + b == head + [c] + (tail + b)
  {
  }

  lemma {:induction false} SplitAtFirst(s: string, head: string, c: char, tail: string)
    requires c !in head && s == head + [c] + tail
    ensures Split(s, c) == [head] + Split(tail, c)
  {
    SplitFirst(head, c, tail);
  }

  lemma {:induction false} FirstPartMore(a: string, b: string, c: char)
    requires IndexOf(a, c) == |a|
    ensures Split(a, c) == [a] && a <= Split(a + b, c)[0]
  {
    var i := IndexOf(b, c);
    if i == |b| {
      IndexOfAbsent(a + b, c);
    } else {
      var head, tail := a + b[..i], b[i + 1..];
      assert a + b == head + [c] + tail;
      SplitAtFirst(a + b, head, c, tail);
    }
  }

  /** What the server stores of a list, part by part: the last one kept may be cut. */
  function StoredParts(text: string): (kept: seq<string>)
    ensures |kept| > 0
  {
    Split(Clip(text), ',')
  }

  /**
   What it takes for part `i`: a part stored whole agrees; the last one stored, of a text of 256 characters
   or more, is compared with what was kept of it; a part that was lost must be blank.
   */
  predicate PartKept(text: string, i: nat)
    requires i < |Split(text, ',')| && |StoredParts(text)| <= |Split(text, ',')|
  {
    var kept, part := StoredParts(text), Split(text, ',')[i];
    var last := |kept| - 1;
    if i < last || (i == last && |text| < CORE_SET_SIZE) then PartAgrees(part)
    else if i == last then ExpandPart(part) == Some(VisitToken(kept[i]))
    else Strip(part) == ""
  }

  /** When the server's traversal of what it stored is the client's list. */
  predicate StoredAgrees(text: string) {
    && |StoredParts(text)| <= |Split(text, ',')|
    && forall i :: 0 <= i < |Split(text, ',')| ==> PartKept(text, i)
  }

  /** The cores visited for each part of the text, none for the parts that were not stored. */
  function Visits(kept: seq<string>, n: nat): (v: seq<seq<int>>)
    requires |kept| <= n
    ensures |v| == n
    ensures forall i :: 0 <= i < n ==> v[i] == if i < |kept| then VisitToken(kept[i]) else []
  {
    VisitTokens(kept) + seq(n - |kept|, _ => [])
  }

  lemma {:induction false} NothingAdded(lists: seq<seq<int>>)
    requires forall i :: 0 <= i < |lists| ==> lists[i] == []
    ensures Concat(lists) == []
  {
    if lists != [] {
      NothingAdded(lists[..|lists| - 1]);
    }
  }

  lemma VisitsAdded(kept: seq<string>, n: nat)
    requires |kept| <= n
    ensures Concat(Visits(kept, n)) == Concat(VisitTokens(kept))
  {
    var none: seq<seq<int>> := seq(n - |kept|, _ => []);
    ConcatOfBoth(VisitTokens(kept), none);
    NothingAdded(none);
  }

  lemma WholePart(part: string)
    requires ExpandPart(part).Some?
    ensures |VisitToken(part)| <= |ExpandPart(part).value|
    ensures VisitToken(part) == ExpandPart(part).value <==> PartAgrees(part)
  {
    assert part + "" == part;
    CutVisitsNoMore(part, "");
    AgreeOnPart(part);
  }

  lemma PartialPart(cut: string, part: string)
    requires ExpandPart(part).Some? && cut <= part
    ensures |VisitToken(cut)| <= |ExpandPart(part).value|
  {
    assert part == cut + part[|cut|..];
    CutVisitsNoMore(cut, part[|cut|..]);
  }

  lemma {:induction false} StoredAreFirst(text: string)
    ensures FirstParts(StoredParts(text), Split(text, ','))
    ensures |text| < CORE_SET_SIZE ==> StoredParts(text) == Split(text, ',')
  {
    assert text == Clip(text) + text[|Clip(text)|..];
    SplitCut(Clip(text), text[|Clip(text)|..], ',');
  }

  /** Part by part: never more cores than CPUs, and the same exactly under the condition. */
  lemma {:induction false} StoredPart(text: string, i: nat)
    requires i < |Split(text, ',')| && ExpandPart(Split(text, ',')[i]).Some?
    requires |StoredParts(text)| <= |Split(text, ',')|
    ensures var parts := Split(text, ',');
            var v := Visits(StoredParts(text), |parts|)[i];
            && |v| <= |ExpandPart(parts[i]).value|
            && (v == ExpandPart(parts[i]).value <==> PartKept(text, i))
  {
    var kept, parts := StoredParts(text), Split(text, ',');
    StoredAreFirst(text);
    if i < |kept| - 1 || (i == |kept| - 1 && |text| < CORE_SET_SIZE) {
      WholePart(parts[i]);
    } else if i == |kept| - 1 {
      PartialPart(kept[i], parts[i]);
    } else {
      ExpandsToSome(parts[i]);
    }
  }

  lemma {:induction false} EveryPartExpands(lists: seq<Option<seq<int>>>)
    requires Gather(lists).Some?
    ensures forall i :: 0 <= i < |lists| ==> lists[i].Some?
  {
    if lists != [] {
      EveryPartExpands(lists[..|lists| - 1]);
    }
  }

  lemma {:induction false} VisitsAreShort(text: string)
    requires |StoredParts(text)| <= |Split(text, ',')|
    ensures var parts := Split(text, ',');
            forall i :: 0 <= i < |parts| && ExpandPart(parts[i]).Some? ==>
              |Visits(StoredParts(text), |parts|)[i]| <= |ExpandPart(parts[i]).value|
  {
    var parts := Split(text, ',');
    forall i | 0 <= i < |parts| && ExpandPart(parts[i]).Some?
      ensures |Visits(StoredParts(text), |parts|)[i]| <= |ExpandPart(parts[i]).value|
    {
      StoredPart(text, i);
    }
  }

  /** The two lists compared part by part. */
  predicate SamePartByPart(text: string)
    requires |StoredParts(text)| <= |Split(text, ',')|
    requires forall i :: 0 <= i < |Split(text, ',')| ==> ExpandPart(Split(text, ',')[i]).Some?
  {
    var parts := Split(text, ',');
    forall i :: 0 <= i < |parts| ==> Visits(StoredParts(text), |parts|)[i] == ExpandPart(parts[i]).value
  }

  lemma {:induction false} AddsUp(text: string)
    requires ExpandedCpus(text).Some? && |StoredParts(text)| <= |Split(text, ',')|
    requires forall i :: 0 <= i < |Split(text, ',')| ==> ExpandPart(Split(text, ',')[i]).Some?
    ensures VisitCores(Clip(text)) == ExpandedCpus(text).value <==> SamePartByPart(text)
  {
    VisitsAreShort(text);
    VisitsAdded(StoredParts(text), |Split(text, ',')|);
    VisitsAddUp(Visits(StoredParts(text), |Split(text, ',')|), Split(text, ','));
  }

  lemma {:induction false} VisitsAddUp(visits: seq<seq<int>>, parts: seq<string>)
    requires |visits| == |parts| && Gather(ExpandParts(parts)).Some?
    requires forall i :: 0 <= i < |parts| && ExpandPart(parts[i]).Some? ==>
               |visits[i]| <= |ExpandPart(parts[i]).value|
    ensures forall i :: 0 <= i < |parts| ==> ExpandPart(parts[i]).Some?
    ensures Concat(visits) == Gather(ExpandParts(parts)).value
            <==> forall i :: 0 <= i < |parts| ==> visits[i] == ExpandPart(parts[i]).value
  {
    var lists := ExpandParts(parts);
    EveryPartExpands(lists);
    ShorterListsAddUp(visits, lists);
    assert forall i :: 0 <= i < |parts| ==> lists[i] == ExpandPart(parts[i]);
  }

  lemma {:induction false} AllStored(text: string)
    requires |StoredParts(text)| <= |Split(text, ',')|
    requires forall i :: 0 <= i < |Split(text, ',')| ==> ExpandPart(Split(text, ',')[i]).Some?
    ensures SamePartByPart(text) <==> StoredAgrees(text)
  {
    forall i | 0 <= i < |Split(text, ',')| {
      StoredPart(text, i);
    }
  }

  /**
   On every list the client accepts, what the server visits of the set it stored and the client's
   pinning order are the same list if and only if `StoredAgrees`.
   */
  lemma TraversalIsPinningOrder(text: string)
    requires ExpandedCpus(text).Some?
    ensures VisitCores(Clip(text)) == ExpandedCpus(text).value <==> StoredAgrees(text)
  {
    StoredAreFirst(text);
    var parts := Split(text, ',');
    EveryPartExpands(ExpandParts(parts));
    assert forall i :: 0 <= i < |parts| ==> ExpandParts(parts)[i] == ExpandPart(parts[i]);
    AddsUp(text);
    AllStored(text);
  }

  /**
   What a token visits that begins with a number: with a dash and a second number the range between them, empty
   when it descends; otherwise, whatever follows, the number alone.
   */
  lemma TokenVisits(a: int, b: int, more: string)
    requires more == "" || !IsDigit(more[0])
    ensures VisitToken(ShowInt(a) + ("-" + (ShowInt(b) + more))) == Range(a, b)
    ensures more == "" || more[0] != '-' ==> VisitToken(ShowInt(a) + more) == [a]
    ensures ScanInt(more) == None ==> VisitToken(ShowInt(a) + ("-" + more)) == [a]
  {
    ScanShowInt(a, "-" + (ShowInt(b) + more));
    ScanShowInt(b, more);
    ScanShowInt(a, more);
    ScanShowInt(a, "-" + more);
    assert ("-" + (ShowInt(b) + more))[1..] == ShowInt(b) + more && ("-" + more)[1..] == more;
  }

  // ---------- lists on which they differ ----------

  lemma {:induction false} PyIntTrailingBlank(a: nat)
    ensures PyInt(ShowNat(a) + " ") == Some(a)
  {
    var sa := ShowNat(a);
    var left := sa + " ";
    assert SkipSpace(left) == left && left[..|left| - 1] == sa;
    assert DropTrailing(left) == DropTrailing(sa) == sa;
    PyIntShow(a);
    StripOfTrim(sa);
    assert Strip(left) == Strip(sa);
  }

  /** How the client reads "left-right". */
  lemma SpanExpands(left: string, a: int, right: string, b: int)
    requires '-' !in left && left != "" && !IsSpace(left[0]) && right != "" && !IsSpace(right[|right| - 1])
    requires PyInt(left) == Some(a) && PyInt(right) == Some(b) && a <= b
    ensures var s := left + ['-'] + right;
            && Strip(s) == s && IndexOf(s, '-') == |left|
            && ExpandPart(s) == Some(Range(a, b))
  {
    var s := left + ['-'] + right;
    assert s[0] == left[0] && s[|s| - 1] == right[|right| - 1];
    StripOfTrim(s);
    IndexOfFirst(left, '-', right);
    assert s[..|left|] == left && s[|left| + 1..] == right;
  }

  lemma OneExpanded(part: string)
    requires ',' !in part && ExpandPart(part).Some?
    ensures ExpandedCpus(part) == ExpandPart(part)
  {
    IndexOfAbsent(part, ',');
    GatherAll(ExpandParts([part]), [ExpandPart(part).value]);
    ConcatOfOne(ExpandPart(part).value);
  }

  /** A list of one short part is that part. */
  lemma OnePart(part: string)
    requires ',' !in part && |part| < CORE_SET_SIZE && ExpandPart(part).Some?
    ensures ExpandedCpus(part) == ExpandPart(part) && VisitCores(Clip(part)) == VisitToken(part)
  {
    OneExpanded(part);
    IndexOfAbsent(part, ',');
    ConcatOfOne(VisitToken(part));
    assert VisitTokens([part]) == [VisitToken(part)];
  }

  lemma ConcatOfOne(list: seq<int>)
    ensures Concat([list]) == list
  {
    assert [list][..0] == [];
    assert Concat([list]) == [] + list;
  }

  lemma BlankStops(left: string, right: string, a: int)
    requires '-' !in left && '_' !in left && left != "" && IsSpace(left[|left| - 1]) && PyInt(left) == Some(a)
    ensures VisitToken(left + (['-'] + right)) == [a]
  {
    var x, y := ScanAccepted(left, ['-'] + right);
  }

  /** "a -b" with a < b is a range to the client and one CPU to the server. */
  lemma {:induction false} BlankCanDiffer(a: nat, b: nat)
    requires a < b
    ensures var part := ShowNat(a) + " " + ['-'] + ShowNat(b);
            ExpandPart(part) == Some(Range(a, b)) && VisitToken(part) == [a]
  {
    var left := ShowNat(a) + " ";
    PyIntTrailingBlank(a);
    PyIntShow(b);
    PaddedLeft(ShowNat(a));
    SpanExpands(left, a, ShowNat(b), b);
    Regroup(left, ['-'], ShowNat(b));
    BlankStops(left, ShowNat(b), a);
  }

  lemma PaddedLeft(sa: string)
    requires sa != "" && AllDigits(sa)
    ensures var left := sa + " "; '-' !in left && '_' !in left && !IsSpace(left[0]) && left[|left| - 1] == ' '
  {
    DigitsOnly(sa, '-');
    DigitsOnly(sa, '_');
  }

  /** "a_b" with a > 0 is a number beyond a to the client and a to the server. */
  lemma {:induction false} UnderscoreCanDiffer(a: nat, b: nat)
    requires a > 0
    ensures var part := ShowNat(a) + "_" + ShowNat(b);
            ExpandPart(part).Some? && |ExpandPart(part).value| == 1 && ExpandPart(part).value[0] > a
            && VisitToken(part) == [a]
  {
    var sa, rest := ShowNat(a), "_" + ShowNat(b);
    var part := sa + rest;
    assert part == ShowNat(a) + "_" + ShowNat(b);
    DigitsOnly(sa, '-');
    DigitsOnly(ShowNat(b), '-');
    NumeralOfBoth(sa, ShowNat(b));
    IndexOfAbsent(part, '-');
    StripOfTrim(part);
    ReadShowNat(a);
    ReadGrows(sa, rest);
    assert IsDigit(rest[1]);
    ScanDigits(part, sa, rest);
  }

  lemma NumeralOfBoth(a: string, b: string)
    requires a != "" && AllDigits(a) && b != "" && AllDigits(b)
    ensures Numeral(a + "_" + b) && Trim(a + "_" + b)
  {
  }

  /** After 254 blanks, "10" is CPU 10 to the client; the server keeps, and visits, 1. */
  lemma LengthCanDiffer(pad: string)
    requires |pad| == CORE_SET_SIZE - 2 && Blank(pad)
    ensures ExpandedCpus(pad + "10") == Some([10]) && VisitCores(Clip(pad + "10")) == [1]
  {
    ShortNumbers();
    PaddedNumber(pad, "10", 10);
    PaddedNumber(pad, "1", 1);
    assert ',' !in pad + "10" && ',' !in pad + "1";
    OneExpanded(pad + "10");
    OnePart(pad + "1");
    assert Clip(pad + "10") == pad + "1" == Clip(pad + "1");
  }

  lemma {:induction false} PaddedNumber(pad: string, ds: string, n: nat)
    requires Blank(pad) && ds != "" && AllDigits(ds) && ReadDigits(ds) == n
    ensures ExpandPart(pad + ds) == Some([n]) && VisitToken(pad + ds) == [n]
  {
    DigitsOnly(ds, '-');
    DigitsOnly(ds, '_');
    StripLeading(pad, ds);
    IndexOfAbsent(ds, '-');
    StripOfTrim(ds);
    WholePart(pad + ds);
  }

  lemma ShortNumbers()
    ensures ReadDigits("1") == 1 && ReadDigits("10") == 10
  {
    assert "10"[..1] == "1" && "1"[..0] == "";
  }

  // ---------- what a well-formed list means ----------

  datatype CpuItem = One(cpu: nat) | Span(first: nat, last: nat)

  predicate WellFormed(items: seq<CpuItem>) {
    |items| > 0 && forall i :: 0 <= i < |items| && items[i].Span? ==> items[i].first <= items[i].last
  }

  function ShowItem(item: CpuItem): string {
    match item
    case One(n) => ShowNat(n)
    case Span(a, b) => ShowNat(a) + ['-'] + ShowNat(b)
  }

  function ShowItems(items: seq<CpuItem>): (parts: seq<string>)
    ensures |parts| == |items|
    ensures forall i :: 0 <= i < |items| ==> parts[i] == ShowItem(items[i])
  {
    seq(|items|, i requires 0 <= i < |items| => ShowItem(items[i]))
  }

  function ItemCpus(item: CpuItem): seq<int> {
    match item
    case One(n) => [n]
    case Span(a, b) => Range(a, b)
  }

  function ListCpus(items: seq<CpuItem>): (r: seq<seq<int>>)
    ensures |r| == |items|
    ensures forall i :: 0 <= i < |items| ==> r[i] == ItemCpus(items[i])
  {
    seq(|items|, i requires 0 <= i < |items| => ItemCpus(items[i]))
  }

  lemma ExpandItem(item: CpuItem)
    requires item.Span? ==> item.first <= item.last
    ensures ',' !in ShowItem(item)
    ensures ExpandPart(ShowItem(item)) == Some(ItemCpus(item)) && PartAgrees(ShowItem(item))
  {
    match item {
      case One(n) =>
        PyIntShow(n);
        StripOfTrim(ShowNat(n));
        DigitsOnly(ShowNat(n), '-');
        DigitsOnly(ShowNat(n), '_');
        IndexOfAbsent(ShowNat(n), '-');
      case Span(a, b) =>
        ExpandSpan(a, b);
    }
  }

  lemma {:induction false} ExpandSpan(a: nat, b: nat)
    requires a <= b
    ensures var s := ShowNat(a) + ['-'] + ShowNat(b);
            ',' !in s && ExpandPart(s) == Some(Range(a, b)) && PartAgrees(s)
  {
    PyIntShow(a);
    PyIntShow(b);
    DigitsOnly(ShowNat(a), '-');
    DigitsOnly(ShowNat(a), ',');
    DigitsOnly(ShowNat(b), ',');
    SpanExpands(ShowNat(a), a, ShowNat(b), b);
    SpanAgrees(ShowNat(a), ShowNat(b));
  }

  lemma SpanAgrees(left: string, right: string)
    requires left != "" && right != "" && AllDigits(left) && AllDigits(right)
    requires var s := left + ['-'] + right; Strip(s) == s && IndexOf(s, '-') == |left|
    ensures PartAgrees(left + ['-'] + right)
  {
    DigitsOnly(left, '_');
    DigitsOnly(right, '_');
    var s := left + ['-'] + right;
    assert s[..|left|] == left && s[|left| + 1..] == right;
  }

  lemma DigitsOnly(s: string, c: char)
    requires AllDigits(s) && !IsDigit(c)
    ensures c !in s
  {
  }

  lemma {:induction false} GatherAll(lists: seq<Option<seq<int>>>, values: seq<seq<int>>)
    requires |lists| == |values| && forall i :: 0 <= i < |lists| ==> lists[i] == Some(values[i])
    ensures Gather(lists) == Some(Concat(values))
  {
    if lists != [] {
      GatherAll(lists[..|lists| - 1], values[..|lists| - 1]);
    }
  }

  /**
   Written out and read back, a well-formed list means its ranges in order to the client, and to the
   server too when it fits the stored core set.
   */
  lemma WellFormedListAgrees(items: seq<CpuItem>)
    requires WellFormed(items)
    ensures var text := Join(ShowItems(items), ',');
            && ExpandedCpus(text) == Some(Concat(ListCpus(items)))
            && (|text| < CORE_SET_SIZE ==> VisitCores(Clip(text)) == Concat(ListCpus(items)))
  {
    var parts := ShowItems(items);
    var text := Join(parts, ',');
    forall i | 0 <= i < |items|
      ensures ',' !in parts[i] && ExpandPart(parts[i]) == Some(ItemCpus(items[i])) && PartAgrees(parts[i])
    {
      ExpandItem(items[i]);
    }
    SplitJoin(parts, ',');
    GatherAll(ExpandParts(parts), ListCpus(items));
    StoredAreFirst(text);
    TraversalIsPinningOrder(text);
  }
}
