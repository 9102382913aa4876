/**
 The tail queue on the heap: a singly linked chain whose every member also holds the
 address of the link cell that points at it. That cell is either the queue head's
 first-pointer or a member's next-pointer, so removing a member needs no search.
 */
module TailQueue {
  import opened PoolModel

  /** The address of a link cell; `Unset` is what fresh memory holds. */
  datatype LinkCell = Unset | FirstOf(queue: DeviceQueue) | NextOf(member: MemoryDev)

  /** A memory device given to a VM, with its queue links. */
  class MemoryDev {
    var memdevIdx: int
    var req: MemoryRequest
    var tqeNext: MemoryDev?
    var tqePrev: LinkCell
    /** The one queue this device may be on. */
    ghost const home: DeviceQueue

    constructor (idx: int, request: MemoryRequest, ghost queue: DeviceQueue)
      ensures memdevIdx == idx && req == request && home == queue
    {
      memdevIdx, req, home := idx, request, queue;
      tqeNext, tqePrev := null, Unset;
    }
  }

  class DeviceQueue {
    var tqhFirst: MemoryDev?
    var tqhLast: LinkCell
    /** The members in queue order. */
    ghost var members: seq<MemoryDev>

    /** What should come at position `i` of a list: a member, or null past the end. */
    static ghost function At(ms: seq<MemoryDev>, i: nat): MemoryDev? {
      if i < |ms| then ms[i] else null
    }

    /** The cell that must point at position `i` of a list. */
    ghost function Cell(ms: seq<MemoryDev>, i: nat): LinkCell
      requires i <= |ms|
    {
      if i == 0 then FirstOf(this) else NextOf(ms[i - 1])
    }

    ghost function MemberAt(i: nat): MemoryDev?
      reads this
    {
      At(members, i)
    }

    ghost function CellAt(i: nat): LinkCell
      reads this
      requires i <= |members|
    {
      Cell(members, i)
    }

    /** Each of the |members| + 1 cells points at its position, and every back link names its cell. */
    ghost predicate Valid()
      reads this, members
    {
      && (forall i, j :: 0 <= i < j < |members| ==> members[i] != members[j])
      && (forall i :: 0 <= i < |members| ==> members[i].home == this)
      && tqhFirst == MemberAt(0)
      && (forall i {:trigger members[i].tqeNext} :: 0 <= i < |members| ==> members[i].tqeNext == MemberAt(i + 1))
      && (forall i {:trigger members[i].tqePrev} :: 0 <= i < |members| ==> members[i].tqePrev == CellAt(i))
      && tqhLast == CellAt(|members|)
    }

    constructor ()
      ensures Valid() && members == []
    {
      tqhFirst := null;
      tqhLast := FirstOf(this);
      members := [];
    }

    /** TAILQ_INIT: empty, whatever the cells held before. */
    method Init()
      modifies this
      ensures Valid() && members == []
    {
      tqhFirst := null;
      tqhLast := FirstOf(this);
      members := [];
    }

    /** Store through the address of a link cell. */
    static method Store(cell: LinkCell, value: MemoryDev?)
      requires cell != Unset
      modifies if cell.FirstOf? then {cell.queue} else {}, (if cell.NextOf? then {cell.member} else {})`tqeNext
      ensures match cell
              case FirstOf(q) => q.tqhFirst == value && q.tqhLast == old(q.tqhLast) && q.members == old(q.members)
              case NextOf(m) => m.tqeNext == value
              case Unset => true
    {
      match cell {
        case FirstOf(q) => q.tqhFirst := value;
        case NextOf(m) => m.tqeNext := value;
      }
    }

    /** TAILQ_INSERT_TAIL: append. */
    method InsertTail(elm: MemoryDev)
      requires Valid() && elm !in members && elm.home == this
      modifies this, elm`tqeNext, elm`tqePrev, members`tqeNext
      ensures Valid()
      ensures members == old(members) + [elm]
    {
      elm.tqeNext := null;
      elm.tqePrev := tqhLast;
      Store(tqhLast, elm);
      tqhLast := NextOf(elm);
      members := members + [elm];
    }

    /** TAILQ_REMOVE of the member at position `k`, wherever it stands. */
    method Remove(elm: MemoryDev, ghost k: nat)
      requires Valid() && k < |members| && members[k] == elm
      modifies this, members`tqeNext, members`tqePrev
      ensures Valid()
      ensures members == old(members[..k] + members[k + 1..])
    {
      ghost var ms := members;
      assert elm.tqeNext == At(ms, k + 1) && elm.tqePrev == Cell(ms, k);
      if elm.tqeNext != null {
        elm.tqeNext.tqePrev := elm.tqePrev;
      } else {
        tqhLast := elm.tqePrev;
      }
      assert BackLinks(ms, k);
      Store(elm.tqePrev, elm.tqeNext);
      assert BackLinks(ms, k);
      members := ms[..k] + ms[k + 1..];
      Relinked(ms, k);
    }

    /** The back links of a list after its member at position `k` was passed over. */
    ghost predicate BackLinks(ms: seq<MemoryDev>, k: nat)
      requires k < |ms|
      reads this, ms
    {
      && (forall i {:trigger ms[i].tqePrev} :: 0 <= i < |ms| && i != k ==>
            ms[i].tqePrev == Cell(ms, if i == k + 1 then k else i))
      && tqhLast == Cell(ms, if k + 1 == |ms| then k else |ms|)
    }

    /** The forward links: the cell before position `k` points past it, the others as they did. */
    ghost predicate ForwardLinks(ms: seq<MemoryDev>, k: nat)
      requires k < |ms|
      reads this, ms
    {
      && tqhFirst == At(ms, if k == 0 then 1 else 0)
      && (forall i {:trigger ms[i].tqeNext} :: 0 <= i < |ms| && i != k ==>
            ms[i].tqeNext == At(ms, if i + 1 == k then k + 1 else i + 1))
    }

    /** Position by position: with position `k` passed over, what is left is a valid list. */
    lemma Relinked(ms: seq<MemoryDev>, k: nat)
      requires k < |ms| && members == ms[..k] + ms[k + 1..]
      requires forall i, j :: 0 <= i < j < |ms| ==> ms[i] != ms[j]
      requires forall i :: 0 <= i < |ms| ==> ms[i].home == this
      requires BackLinks(ms, k) && ForwardLinks(ms, k)
      ensures Valid()
    {
      forall i | 0 <= i < |members|
        ensures members[i].home == this
        ensures members[i].tqeNext == MemberAt(i + 1) && members[i].tqePrev == CellAt(i)
      {
        var o := if i < k then i else i + 1;
        assert members[i] == ms[o];
        assert ms[o].tqeNext == At(ms, if o + 1 == k then k + 1 else o + 1);
        assert ms[o].tqePrev == Cell(ms, if o == k + 1 then k else o);
      }
    }

    /** TAILQ_FOREACH with a break: the first member with this index, null if none. */
    method Find(idx: int) returns (r: MemoryDev?, ghost k: nat)
      requires Valid()
      ensures r == null ==> forall i :: 0 <= i < |members| ==> members[i].memdevIdx != idx
      ensures r != null ==> k < |members| && members[k] == r && r.memdevIdx == idx
      ensures r != null ==> forall i :: 0 <= i < k ==> members[i].memdevIdx != idx
    {
      r := tqhFirst;
      k := 0;
      while r != null
        invariant k <= |members| && r == MemberAt(k)
        invariant forall i :: 0 <= i < k ==> members[i].memdevIdx != idx
        decreases |members| - k
      {
        if r.memdevIdx == idx {
          return;
        }
        r := r.tqeNext;
        k := k + 1;
      }
    }

    /** TAILQ_FOREACH to the end visits the members, each once, in order. */
    method Walk() returns (visited: seq<MemoryDev>)
      requires Valid()
      ensures visited == members
    {
      visited := [];
      var elm := tqhFirst;
      while elm != null
        invariant |visited| <= |members| && visited == members[..|visited|]
        invariant elm == MemberAt(|visited|)
        decreases |members| - |visited|
      {
        visited := visited + [elm];
        elm := elm.tqeNext;
      }
    }
  }
}
