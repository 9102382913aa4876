/** One device's segment array as a value: first fit, marking and clearing a range, counting. */
module Segments {
  import opened Counting

  /** One segment: whether it is taken, and by which VM (-1 when free). */
  datatype Segment = Segment(taken: bool, usedVmId: int)

  const FREE := Segment(false, -1)

  /** The taken/free bitmap of a segment array. */
  function Busy(segs: seq<Segment>): (b: seq<bool>)
    ensures |b| == |segs|
    ensures forall k :: 0 <= k < |segs| ==> b[k] == segs[k].taken
  {
    seq(|segs|, k requires 0 <= k < |segs| => segs[k].taken)
  }

  // ---------- first fit ----------

  /** `n` consecutive free segments start at `i`. */
  predicate IsWindow(busy: seq<bool>, i: int, n: int) {
    0 <= i && i + n <= |busy| && forall k :: i <= k < i + n ==> !busy[k]
  }

  /** The naive search: try every start, one after the other. */
  function FirstFitFrom(busy: seq<bool>, n: nat, i: nat): int
    decreases |busy| - i
  {
    if i + n > |busy| then -1
    else if IsWindow(busy, i, n) then i
    else FirstFitFrom(busy, n, i + 1)
  }

  function FirstFit(busy: seq<bool>, n: nat): int {
    FirstFitFrom(busy, n, 0)
  }

  lemma {:induction false} FirstFitFromIsLeast(busy: seq<bool>, n: nat, i: nat)
    requires n > 0
    ensures var r := FirstFitFrom(busy, n, i);
            && (r == -1 || (i <= r && IsWindow(busy, r, n)))
            && (r == -1 ==> forall k :: i <= k ==> !IsWindow(busy, k, n))
            && (forall k :: i <= k < r ==> !IsWindow(busy, k, n))
    decreases |busy| - i
  {
    if i + n > |busy| || IsWindow(busy, i, n) {
    } else {
      FirstFitFromIsLeast(busy, n, i + 1);
    }
  }

  /** First fit is the least start of a free window, and -1 exactly when there is none. */
  lemma FirstFitIsLeast(busy: seq<bool>, n: nat)
    requires n > 0
    ensures var r := FirstFit(busy, n);
            && (r == -1 <==> forall k :: !IsWindow(busy, k, n))
            && (r != -1 ==> IsWindow(busy, r, n) && forall k :: k < r ==> !IsWindow(busy, k, n))
  {
    FirstFitFromIsLeast(busy, n, 0);
    var r := FirstFit(busy, n);
    if r != -1 {
      assert IsWindow(busy, r, n);
    }
  }

  /** A taken segment rules out every start whose window covers it. */
  lemma {:induction false} SkipPastTaken(busy: seq<bool>, n: nat, i: nat, j: nat)
    requires j < n && i + n <= |busy| && busy[i + j]
    ensures FirstFitFrom(busy, n, i) == FirstFitFrom(busy, n, i + j + 1)
    decreases j
  {
    assert !IsWindow(busy, i, n);
    if j > 0 {
      if i + 1 + n <= |busy| {
        assert (i + 1) + (j - 1) == i + j;
        SkipPastTaken(busy, n, i + 1, j - 1);
      }
    }
  }

  // ---------- counting ----------

  function CountTaken(segs: seq<Segment>): (c: nat)
    ensures c <= |segs|
  {
    CountTrue(Busy(segs))
  }

  lemma CountTakenUpdate(segs: seq<Segment>, i: nat, x: Segment)
    requires i < |segs|
    ensures CountTaken(segs[i := x])
         == CountTaken(segs) - (if segs[i].taken then 1 else 0) + (if x.taken then 1 else 0)
  {
    CountTrueUpdate(Busy(segs), i, x.taken);
    assert Busy(segs[i := x]) == Busy(segs)[i := x.taken];
  }

  /** Nothing is counted exactly when nothing is taken. */
  lemma CountTakenZero(segs: seq<Segment>)
    ensures CountTaken(segs) == 0 <==> forall k :: 0 <= k < |segs| ==> !segs[k].taken
  {
    CountTrueExtremes(Busy(segs));
    assert forall k :: 0 <= k < |segs| ==> Busy(segs)[k] == segs[k].taken;
  }

  // ---------- marking a range ----------

  /** `segs` with the `n` segments from `start` replaced by `x`. */
  function Fill(segs: seq<Segment>, start: int, n: int, x: Segment): (r: seq<Segment>)
    ensures |r| == |segs|
    ensures forall k :: 0 <= k < |segs| ==> r[k] == if start <= k < start + n then x else segs[k]
  {
    seq(|segs|, k requires 0 <= k < |segs| => if start <= k < start + n then x else segs[k])
  }

  lemma {:induction false} CountFill(segs: seq<Segment>, start: nat, n: nat, x: Segment, was: bool)
    requires start + n <= |segs|
    requires forall k :: start <= k < start + n ==> segs[k].taken == was
    ensures CountTaken(Fill(segs, start, n, x))
         == CountTaken(segs) + (if x.taken then n else 0) - (if was then n else 0)
  {
    if n == 0 {
      assert Fill(segs, start, n, x) == segs;
    } else {
      var part := Fill(segs, start, n - 1, x);
      CountFill(segs, start, n - 1, x, was);
      assert Fill(segs, start, n, x) == part[start + n - 1 := x];
      CountTakenUpdate(part, start + n - 1, x);
    }
  }

  // ---------- releasing a range ----------

  /** Segment `idx` may be released by `vm`. */
  predicate Releasable(segs: seq<Segment>, vm: int, idx: int) {
    0 <= idx < |segs| && segs[idx].taken && segs[idx].usedVmId == vm
  }

  /** How many segments from `start` on, up to `n`, `vm` holds without a gap. */
  function HeldPrefix(segs: seq<Segment>, vm: int, start: int, n: nat): (r: nat)
    ensures r <= n
    decreases n
  {
    if n == 0 || !Releasable(segs, vm, start) then 0 else 1 + HeldPrefix(segs, vm, start + 1, n - 1)
  }

  /** The prefix stops exactly at the first segment `vm` does not hold. */
  lemma {:induction false} HeldPrefixStops(segs: seq<Segment>, vm: int, start: int, n: nat)
    ensures var r := HeldPrefix(segs, vm, start, n);
            && (forall k :: start <= k < start + r ==> Releasable(segs, vm, k))
            && (r < n ==> !Releasable(segs, vm, start + r))
    decreases n
  {
    if n != 0 && Releasable(segs, vm, start) {
      HeldPrefixStops(segs, vm, start + 1, n - 1);
    }
  }

  /** The prefix is the whole range exactly when the VM holds every segment of the range. */
  lemma {:induction false} HeldIsWhole(segs: seq<Segment>, vm: int, start: int, n: nat)
    ensures HeldPrefix(segs, vm, start, n) == n <==> forall k :: start <= k < start + n ==> Releasable(segs, vm, k)
  {
    HeldPrefixStops(segs, vm, start, n);
  }

  /** Releasing the held prefix frees that many segments, and takes the count down by as many. */
  lemma {:induction false} CountReleased(segs: seq<Segment>, vm: int, start: int, n: nat)
    ensures var r := HeldPrefix(segs, vm, start, n);
            CountTaken(Fill(segs, start, r, FREE)) == CountTaken(segs) - r
  {
    var r := HeldPrefix(segs, vm, start, n);
    HeldPrefixStops(segs, vm, start, n);
    if r == 0 {
      assert Fill(segs, start, 0, FREE) == segs;
    } else {
      forall k | start <= k < start + r ensures 0 <= k < |segs| && segs[k].taken {
        assert Releasable(segs, vm, k);
      }
      assert Releasable(segs, vm, start) && Releasable(segs, vm, start + r - 1);
      CountFill(segs, start, r, FREE, true);
    }
  }

  // ---------- releasing all of one owner ----------

  /** Every segment held by `vm` becomes free; the others are untouched. */
  function ReleaseOwner(segs: seq<Segment>, vm: int): (r: seq<Segment>)
    ensures |r| == |segs|
    ensures forall k :: 0 <= k < |segs| ==>
              r[k] == if Releasable(segs, vm, k) then FREE else segs[k]
  {
    seq(|segs|, k requires 0 <= k < |segs| => if Releasable(segs, vm, k) then FREE else segs[k])
  }
}
