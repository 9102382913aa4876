/**
 Lists of lists, joined end to end: the shape of every text and every traversal that is put together piece
 by piece. Joining takes the lists in order, the one after the next, so that a loop that has handled the
 first of them can say that what it has so far is what those joined come to.
 */
module Lists {

  function Concat<T>(lists: seq<seq<T>>): seq<T> {
    if lists == [] then [] else Concat(lists[..|lists| - 1]) + lists[|lists| - 1]
  }

  /** One more list at the end. */
  lemma ConcatNext<T>(lists: seq<seq<T>>, t: nat)
    requires t < |lists|
    ensures Concat(lists[..t + 1]) == Concat(lists[..t]) + lists[t]
  {
    assert lists[..t + 1][..t] == lists[..t];
  }

  /** The first `i` lists, by the one before. */
  lemma ConcatTo<T>(lists: seq<seq<T>>, i: nat)
    requires 0 < i <= |lists|
    ensures Concat(lists[..i]) == Concat(lists[..i - 1]) + lists[i - 1]
  {
    var front := lists[..i];
    assert front[..i - 1] == lists[..i - 1];
  }

  lemma {:induction false} ConcatOfBoth<T>(a: seq<seq<T>>, b: seq<seq<T>>)
    ensures Concat(a + b) == Concat(a) + Concat(b)
  {
    if b == [] {
      assert a + b == a;
    } else {
      var init, last := b[..|b| - 1], b[|b| - 1];
      ConcatOfBoth(a, init);
      assert (a + b)[..|a + b| - 1] == a + init;
      assert (a + b)[|a + b| - 1] == last;
    }
  }

  lemma Regroup<T>(a: seq<T>, b: seq<T>, c: seq<T>)
    ensures a + (b + c) == (a + b) + c
  {
  }
}
