/**
 The doubly linked list of gps/utils/linked_list.c: elements are added at the head and removed
 at the tail, so the list is a FIFO. The ghost sequence `elems` lists the live elements from
 head to tail. free() and the dealloc callback are recorded: an element is freed at most once,
 and `deallocated` is the sequence of data handed to dealloc callbacks.
 */
module LinkedList {

  import opened Wrappers

  datatype Err =
    | Success
    | FailureGeneral
    | InvalidParameter
    | InvalidHandle
    | UnavailableResource
    | InsufficientBuffer

  // The datum and its dealloc function are set when the element is made and never change.
  class Element<T> {
    var next: Element?<T>
    var prev: Element?<T>
    const dataPtr: T
    const hasDealloc: bool
    ghost var live: bool

    constructor (data: T, hasDealloc: bool)
      ensures next == null && prev == null && dataPtr == data && this.hasDealloc == hasDealloc && live
    {
      next, prev, dataPtr, this.hasDealloc, live := null, null, data, hasDealloc, true;
    }

    ghost method Free()
      requires live
      modifies this`live
      ensures !live
    {
      live := false;
    }
  }

  /** The data of a sequence of elements. */
  ghost function DataOf<T>(elems: seq<Element<T>>): (r: seq<T>)
    ensures |r| == |elems| && forall i | 0 <= i < |elems| :: r[i] == elems[i].dataPtr
  {
    seq(|elems|, i requires 0 <= i < |elems| => elems[i].dataPtr)
  }

  lemma DataCons<T>(elem: Element<T>, elems: seq<Element<T>>)
    ensures DataOf([elem] + elems) == [elem.dataPtr] + DataOf(elems)
  {
  }

  /** The data of the elements that were added with a dealloc function, in order. */
  ghost function Deallocs<T>(elems: seq<Element<T>>): seq<T> {
    if elems == [] then []
    else (if elems[0].hasDealloc then [elems[0].dataPtr] else []) + Deallocs(elems[1..])
  }

  lemma DeallocsStep<T>(elems: seq<Element<T>>, k: nat)
    requires k < |elems|
    ensures Deallocs(elems[k..]) ==
            (if elems[k].hasDealloc then [elems[k].dataPtr] else []) + Deallocs(elems[k + 1..])
  {
    assert elems[k..][1..] == elems[k + 1..];
  }

  /** The position of the first datum equal to data0, counted from the head, or |s| if there is none. */
  function FirstMatch<T>(equal: (T, T) -> bool, data0: T, s: seq<T>): (k: nat)
    ensures k <= |s|
    ensures forall i | 0 <= i < k :: !equal(data0, s[i])
    ensures k < |s| ==> equal(data0, s[k])
  {
    if s == [] then 0 else if equal(data0, s[0]) then 0 else 1 + FirstMatch(equal, data0, s[1..])
  }

  function Without<T>(s: seq<T>, k: nat): seq<T>
    requires k < |s|
  {
    s[..k] + s[k + 1..]
  }

  ghost predicate Linked<T>(es: seq<Element<T>>)
    reads es
  {
    forall i, j | 0 <= i < |es| && 0 <= j < |es| && j == i + 1 :: es[i].next == es[j] && es[j].prev == es[i]
  }

  lemma DistinctWithout<T>(s: seq<T>, k: nat)
    requires Distinct(s) && k < |s|
    ensures Distinct(Without(s, k)) && s[k] !in Without(s, k)
  {
    var w := Without(s, k);
    assert forall i | 0 <= i < |w| :: w[i] == if i < k then s[i] else s[i + 1];
  }

  class List<T> {
    var head: Element?<T>
    var tail: Element?<T>
    ghost var elems: seq<Element<T>>
    ghost var deallocated: seq<T>

    /** The data from head (newest) to tail (oldest). */
    ghost function Contents(): seq<T>
      reads this
    {
      DataOf(elems)
    }

    /** Head and tail are the ends, next and prev mirror each other, and nothing is freed or doubled. */
    ghost predicate Valid()
      reads this, elems
    {
      && Distinct(elems)
      && (forall i | 0 <= i < |elems| :: elems[i].live)
      && (elems == [] ==> head == null && tail == null)
      && (elems != [] ==> Ends(elems[0], elems[|elems| - 1]))
      && Linked(elems)
    }

    ghost predicate Ends(first: Element<T>, last: Element<T>)
      reads this, first, last
    {
      head == first && tail == last && first.prev == null && last.next == null
    }

    constructor ()
      ensures Valid() && elems == [] && Contents() == [] && deallocated == []
    {
      head, tail, elems, deallocated := null, null, [], [];
    }

    /** linked_list_add; canAlloc says whether malloc succeeds. */
    method Add(dataObj: Option<T>, hasDealloc: bool, canAlloc: bool) returns (rv: Err)
      requires Valid()
      modifies this`head, this`tail, this`elems, elems`prev
      ensures Valid()
      ensures rv == if dataObj.None? then InvalidParameter else if canAlloc then Success else FailureGeneral
      ensures rv != Success ==> elems == old(elems)
      ensures rv == Success ==>
                && |elems| == 1 + |old(elems)| && fresh(elems[0]) && elems[1..] == old(elems)
                && elems[0].hasDealloc == hasDealloc
                && Contents() == Applied(old(Contents()), OpAdd(dataObj.value)).0
    {
      if dataObj.None? {
        return InvalidParameter;
      }
      if !canAlloc {
        return FailureGeneral;
      }
      var elem := new Element(dataObj.value, hasDealloc);
      DataCons(elem, elems);
      LinkInFront(elem);
      return Success;
    }

    method LinkInFront(elem: Element<T>)
      requires Valid() && elem !in elems && elem.prev == null && elem.live
      modifies this`head, this`tail, this`elems, elem`next, elems`prev
      ensures Valid() && elems == [elem] + old(elems)
    {
      var tmp := head;
      head := elem;
      head.next := tmp;
      if tmp != null {
        assert tmp == elems[0];
        tmp.prev := head;
      } else {
        tail := head;
      }
      elems := [elem] + elems;
    }

    /** linked_list_remove: takes the oldest element out. */
    method Remove() returns (rv: Err, dataObj: Option<T>)
      requires Valid()
      modifies this`head, this`tail, this`elems, elems`next, elems`live
      ensures Valid()
      ensures old(elems) == [] ==> rv == UnavailableResource && (Contents(), dataObj) == Applied(old(Contents()), OpRemove)
      ensures old(elems) != [] ==>
                && rv == Success
                && (Contents(), dataObj) == Applied(old(Contents()), OpRemove)
                && elems == old(elems)[..|old(elems)| - 1]
                && !old(elems)[|old(elems)| - 1].live
    {
      if tail == null {
        return UnavailableResource, None;
      }
      ghost var n := |elems| - 1;
      var tmp := tail;
      tail := tmp.prev;
      if tail != null {
        assert tail == elems[n - 1];
        tail.next := null;
      } else {
        head := tail;
      }
      dataObj := Some(tmp.dataPtr);
      tmp.Free();
      elems := elems[..n];
      assert Contents() == old(Contents())[..n];
      return Success, dataObj;
    }

    method Empty() returns (empty: bool)
      requires Valid()
      ensures empty <==> Contents() == []
    {
      return head == null;
    }

    /** linked_list_flush: every element is freed once, and every dealloc given is called once. */
    method Flush() returns (rv: Err)
      requires Valid()
      modifies this, elems`live
      ensures Valid() && rv == Success && elems == [] && Contents() == []
      ensures forall e | e in old(elems) :: !e.live
      ensures deallocated == old(deallocated) + Deallocs(old(elems))
    {
      ghost var k := 0;
      while head != null
        invariant 0 <= k <= |elems| && elems == old(elems)
        invariant if k < |elems| then head == elems[k] else head == null
        invariant forall i | 0 <= i < |elems| :: elems[i].live <==> k <= i
        invariant deallocated + Deallocs(elems[k..]) == old(deallocated) + Deallocs(elems)
        decreases |elems| - k
      {
        assert k + 1 < |elems| ==> head.next == elems[k + 1];
        DeallocsStep(elems, k);
        FreeHead();
        k := k + 1;
      }
      tail := null;
      elems := [];
      return Success;
    }

    // The element at the head is freed, and head moves on.
    method FreeHead()
      requires head != null && head.live
      modifies this`head, this`deallocated, head`live
      ensures head == old(head.next) && !old(head).live
      ensures deallocated == old(deallocated) + if old(head).hasDealloc then [old(head).dataPtr] else []
    {
      var tmp := head.next;
      if head.hasDealloc {
        deallocated := deallocated + [head.dataPtr];
      }
      head.Free();
      head := tmp;
    }

    /**
     linked_list_search from the head. A caller that wants the datum back passes the address of a
     variable, which holds `before`; dataP is what it holds afterwards: the match, or NULL, or on an
     empty list still what it held. With rmIfFound the match is unlinked and freed, and its
     dealloc is called exactly when the datum was not copied out.
     */
    method Search(equal: (T, T) -> bool, data0: T, wantData: bool, before: Option<T>, rmIfFound: bool)
      returns (rv: Err, dataP: Option<T>)
      requires Valid()
      modifies this, elems
      ensures Valid()
      ensures old(elems) == [] ==>
                rv == UnavailableResource && elems == [] && dataP == before && deallocated == old(deallocated)
      ensures old(elems) != [] ==> rv == Success
      ensures var k := FirstMatch(equal, data0, old(Contents()));
              && (old(elems) != [] ==>
                    dataP == if !wantData then before else if k < |old(elems)| then Some(old(Contents())[k]) else None)
              && (k == |old(elems)| || !rmIfFound ==>
                    elems == old(elems) && deallocated == old(deallocated))
              && (k < |old(elems)| && rmIfFound ==>
                    && Contents() == Without(old(Contents()), k)
                    && elems == Without(old(elems), k) && !old(elems)[k].live
                    && deallocated == old(deallocated) +
                         if !wantData && old(elems)[k].hasDealloc then [old(Contents())[k]] else [])
    {
      dataP := before;
      if tail == null {
        return UnavailableResource, dataP;
      }
      if wantData {
        dataP := None;
      }
      ghost var k := FirstMatch(equal, data0, Contents());
      var tmp := head;
      ghost var i := 0;
      while tmp != null
        invariant 0 <= i <= k
        invariant if i < |elems| then tmp == elems[i] else tmp == null
        invariant dataP == if wantData then None else before
        decreases |elems| - i
      {
        assert tmp.dataPtr == Contents()[i];
        if equal(data0, tmp.dataPtr) {
          if wantData {
            dataP := Some(tmp.dataPtr);
          }
          if rmIfFound {
            Discard(tmp, i, wantData);
          }
          return Success, dataP;
        } else {
          tmp := tmp.next;
          i := i + 1;
        }
      }
      return Success, dataP;
    }

    // Unlink and free the k-th element, and its datum too unless that was copied out.
    method Discard(tmp: Element<T>, ghost k: nat, copiedOut: bool)
      requires Valid() && k < |elems| && tmp == elems[k]
      modifies this, elems
      ensures Valid() && elems == Without(old(elems), k) && !tmp.live
      ensures Contents() == Without(old(Contents()), k)
      ensures deallocated == old(deallocated) + if !copiedOut && tmp.hasDealloc then [tmp.dataPtr] else []
    {
      Unlink(tmp, k);
      if !copiedOut && tmp.hasDealloc {
        deallocated := deallocated + [tmp.dataPtr];
      }
      tmp.Free();
    }

    // The neighbours of the k-th element are linked to each other.
    method Bypass(tmp: Element<T>, ghost k: nat)
      requires Valid() && k < |elems| && tmp == elems[k]
      modifies this`head, this`tail, elems`next, elems`prev
      ensures Linked(Without(elems, k))
      ensures var es := Without(elems, k);
              if es == [] then head == null && tail == null else Ends(es[0], es[|es| - 1])
    {
      ghost var es := Without(elems, k);
      assert forall i | 0 <= i < |es| :: es[i] == if i < k then elems[i] else elems[i + 1];
      assert k > 0 ==> tmp.prev == elems[k - 1];
      assert k + 1 < |elems| ==> tmp.next == elems[k + 1];
      if tmp.prev == null {
        head := tmp.next;
      } else {
        tmp.prev.next := tmp.next;
      }
      if tmp.next == null {
        tail := tmp.prev;
      } else {
        tmp.next.prev := tmp.prev;
      }
      tmp.prev, tmp.next := null, null;
    }

    // Take the k-th element out of the chain.
    method Unlink(tmp: Element<T>, ghost k: nat)
      requires Valid() && k < |elems| && tmp == elems[k]
      modifies this`head, this`tail, this`elems, elems`next, elems`prev
      ensures Valid() && elems == Without(old(elems), k) && tmp !in elems
    {
      DistinctWithout(elems, k);
      Bypass(tmp, k);
      elems := Without(elems, k);
    }
  }

  // ----- the list as a FIFO ------------------------------------------------------------------

  datatype Op<T> = OpAdd(x: T) | OpRemove

  /** What one call leaves in the list (newest first), and what it hands out. */
  function Applied<T>(contents: seq<T>, op: Op<T>): (seq<T>, Option<T>) {
    match op
    case OpAdd(x) => ([x] + contents, None)
    case OpRemove =>
      if contents == [] then (contents, None) else (contents[..|contents| - 1], Some(contents[|contents| - 1]))
  }

  /** What a run of adds and removes leaves in the list (newest first) and what it handed out. */
  function RunOps<T>(ops: seq<Op<T>>): (r: (seq<T>, seq<T>))
  {
    if ops == [] then ([], [])
    else
      var (contents, out) := RunOps(ops[..|ops| - 1]);
      var (contents', x) := Applied(contents, ops[|ops| - 1]);
      (contents', if x.None? then out else out + [x.value])
  }

  function Added<T>(ops: seq<Op<T>>): seq<T> {
    if ops == [] then []
    else Added(ops[..|ops| - 1]) + match ops[|ops| - 1] case OpAdd(x) => [x] case OpRemove => []
  }

  function Reverse<T>(s: seq<T>): seq<T> {
    if s == [] then [] else Reverse(s[1..]) + [s[0]]
  }

  lemma {:induction false} ReverseSnoc<T>(s: seq<T>, x: T)
    ensures Reverse(s + [x]) == [x] + Reverse(s)
  {
    if s != [] {
      ReverseSnoc(s[1..], x);
      assert (s + [x])[1..] == s[1..] + [x];
    }
  }

  /** First in, first out: what came out, then what is left oldest first, is what went in. */
  lemma {:induction false} FifoOrder<T>(ops: seq<Op<T>>)
    ensures RunOps(ops).1 + Reverse(RunOps(ops).0) == Added(ops)
  {
    if ops != [] {
      var init := ops[..|ops| - 1];
      FifoOrder(init);
      var (contents, out) := RunOps(init);
      match ops[|ops| - 1]
      case OpAdd(x) =>
        assert ([x] + contents)[1..] == contents;
      case OpRemove =>
        if contents != [] {
          var n := |contents| - 1;
          ReverseSnoc(contents[..n], contents[n]);
          assert contents == contents[..n] + [contents[n]];
        }
    }
  }
}
