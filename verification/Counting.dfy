/**
 Counting the set flags of a table: the number a counter beside the table should hold. Setting or clearing
 one flag moves it by one, a table that is all set or all clear has the greatest or the least count, and so
 a counter that is kept exact says when there is room.
 */
module Counting {

  function CountTrue(flags: seq<bool>): (c: nat)
    ensures c <= |flags|
  {
    if flags == [] then 0
    else CountTrue(flags[..|flags| - 1]) + if flags[|flags| - 1] then 1 else 0
  }

  lemma {:induction false} CountTrueUpdate(flags: seq<bool>, i: nat, x: bool)
    requires i < |flags|
    ensures CountTrue(flags[i := x])
         == CountTrue(flags) - (if flags[i] then 1 else 0) + (if x then 1 else 0)
  {
    var last := |flags| - 1;
    if i == last {
      assert flags[i := x][..last] == flags[..last];
    } else {
      assert flags[i := x][..last] == flags[..last][i := x];
      CountTrueUpdate(flags[..last], i, x);
    }
  }

  /** The count is zero exactly when no flag is set, and full exactly when all are. */
  lemma {:induction false} CountTrueExtremes(flags: seq<bool>)
    ensures CountTrue(flags) == 0 <==> forall k :: 0 <= k < |flags| ==> !flags[k]
    ensures CountTrue(flags) == |flags| <==> forall k :: 0 <= k < |flags| ==> flags[k]
  {
    if flags != [] {
      var init := flags[..|flags| - 1];
      CountTrueExtremes(init);
      assert forall k :: 0 <= k < |init| ==> init[k] == flags[k];
    }
  }
}
