/**
 The adapter table of LocApiBase (gps/core/LocApiBase.cpp): an array of a fixed capacity whose used
 entries are kept at the front, changed in place by addAdapter and removeAdapter. `Added` and
 `Removed` are the same operations on the used entries; the lemmas show what any sequence of calls
 leaves in the table, and what the event masks that are sent out say.
 */
module LocApiBase {

  import opened Wrappers

  /** LOC_API_ADAPTER_EVENT_MASK_T as the set of its bits: | is union, & ~ is difference. */
  type Bit = b: nat | b < 32
  type Mask = set<Bit>

  class LocAdapterBase {
    var evtMask: Mask

    constructor (evtMask: Mask)
      ensures this.evtMask == evtMask
    {
      this.evtMask := evtMask;
    }
  }

  /** What the table tells the modem interface: a LocOpenMsg with a mask, or close(). */
  datatype ApiCall = Open(mask: Mask) | Close

  // ----- the used entries of the table -----------------------------------------------------------

  function Added<T(==)>(t: seq<T>, a: T, capacity: nat): seq<T> {
    if a in t || |t| >= capacity then t else t + [a]
  }

  /** The last entry takes the place of the one removed. */
  function Removed<T(==)>(t: seq<T>, a: T): seq<T> {
    if a !in t then t
    else
      var j := IndexOf(t, a);
      t[j := t[|t| - 1]][..|t| - 1]
  }

  function IndexOf<T(==)>(t: seq<T>, a: T): (j: nat)
    requires a in t
    ensures j < |t| && t[j] == a && forall i | 0 <= i < j :: t[i] != a
  {
    if t[0] == a then 0 else 1 + IndexOf(t[1..], a)
  }

  /** A new adapter takes the first free entry; with none left, or if it is there already, nothing changes. */
  lemma AddedTakesFirstFree<T>(t: seq<T>, a: T, capacity: nat)
    ensures t <= Added(t, a, capacity)
    ensures a !in t && |t| < capacity ==> |Added(t, a, capacity)| == |t| + 1 && Added(t, a, capacity)[|t|] == a
    ensures a in t || |t| >= capacity ==> Added(t, a, capacity) == t
  {
  }

  lemma RemovedTakesExactlyOne<T>(t: seq<T>, a: T)
    requires Distinct(t) && a in t
    ensures Distinct(Removed(t, a)) && a !in Removed(t, a)
    ensures multiset(Removed(t, a)) + multiset{a} == multiset(t)
  {
    var j := IndexOf(t, a);
    var n := |t| - 1;
    var r := Removed(t, a);
    assert forall i | 0 <= i < n :: r[i] == if i == j then t[n] else t[i];
    SameElements(t, j);
  }

  lemma SameElements<T>(t: seq<T>, j: nat)
    requires j < |t|
    ensures multiset(t[j := t[|t| - 1]][..|t| - 1]) + multiset{t[j]} == multiset(t)
  {
    var n := |t| - 1;
    assert t == t[..n] + [t[n]];
    var r := t[j := t[n]][..n];
    if j == n {
      assert r == t[..n];
    } else {
      assert r == t[..n][j := t[n]];
    }
  }

  lemma RemovedAt<T>(t: seq<T>, a: T, i: nat)
    requires i < |t| && t[i] == a && forall k | 0 <= k < i :: t[k] != a
    ensures Removed(t, a) == t[i := t[|t| - 1]][..|t| - 1]
  {
    assert IndexOf(t, a) == i;
  }

  datatype Op<T> = Add(a: T) | Remove(a: T)

  function Run<T(==)>(ops: seq<Op<T>>, capacity: nat): seq<T> {
    if ops == [] then []
    else
      var t := Run(ops[..|ops| - 1], capacity);
      match ops[|ops| - 1]
      case Add(a) => Added(t, a, capacity)
      case Remove(a) => Removed(t, a)
  }

  /** The same calls on a set of adapters that refuses to grow beyond the capacity. */
  function RunSet<T(==)>(ops: seq<Op<T>>, capacity: nat): set<T> {
    if ops == [] then {}
    else
      var s := RunSet(ops[..|ops| - 1], capacity);
      match ops[|ops| - 1]
      case Add(a) => if |s| < capacity then s + {a} else s
      case Remove(a) => s - {a}
  }

  ghost predicate Represents<T(!new)>(t: seq<T>, s: set<T>) {
    Distinct(t) && |t| == |s| && forall a :: a in t <==> a in s
  }

  lemma AddedRepresents<T(!new)>(t: seq<T>, s: set<T>, a: T, capacity: nat)
    requires Represents(t, s) && |s| <= capacity
    ensures Represents(Added(t, a, capacity), if |s| < capacity then s + {a} else s)
  {
    if a in t {
      assert s + {a} == s;
    }
  }

  lemma RemovedRepresents<T(!new)>(t: seq<T>, s: set<T>, a: T)
    requires Represents(t, s)
    ensures Represents(Removed(t, a), s - {a})
  {
    if a in t {
      RemovedTakesExactlyOne(t, a);
      var r := Removed(t, a);
      forall b ensures b in r <==> b in s - {a} {
        if b != a {
          assert b in r <==> b in multiset(r);
          assert b in t <==> b in multiset(t);
        }
      }
    } else {
      assert s - {a} == s;
    }
  }

  lemma RemovedShrinks<T>(t: seq<T>, a: T)
    ensures a in t <==> |Removed(t, a)| < |t|
    ensures a !in t ==> Removed(t, a) == t
  {
  }

  /** After any calls the table holds every adapter of the set exactly once, and nothing else. */
  lemma {:induction false} TableIsSet<T(!new)>(ops: seq<Op<T>>, capacity: nat)
    ensures |RunSet(ops, capacity)| <= capacity
    ensures Represents(Run(ops, capacity), RunSet(ops, capacity))
  {
    if ops != [] {
      var before := ops[..|ops| - 1];
      TableIsSet(before, capacity);
      match ops[|ops| - 1]
      case Add(a) => AddedRepresents(Run(before, capacity), RunSet(before, capacity), a, capacity);
      case Remove(a) => RemovedRepresents(Run(before, capacity), RunSet(before, capacity), a);
    }
  }

  // ----- masks -----------------------------------------------------------------------------------

  /** The OR of the first n masks. */
  function OrOf(masks: seq<Mask>, n: nat): Mask
    requires n <= |masks|
  {
    if n == 0 then {} else OrOf(masks, n - 1) + masks[n - 1]
  }

  /** A bit is in the OR exactly when some adapter asks for it, in whatever order they stand. */
  lemma {:induction false} OrOfBits(masks: seq<Mask>, n: nat, b: Bit)
    requires n <= |masks|
    ensures b in OrOf(masks, n) <==> exists i :: 0 <= i < n && b in masks[i]
  {
    if n > 0 {
      OrOfBits(masks, n - 1, b);
    }
  }

  /** What is sent is the same for any two tables that hold the same adapters. */
  lemma EvtMaskIgnoresOrder(masks: seq<Mask>, others: seq<Mask>, excluded: Mask)
    requires forall m :: m in masks <==> m in others
    ensures OrOf(masks, |masks|) - excluded == OrOf(others, |others|) - excluded
  {
    forall b: Bit
      ensures b in OrOf(masks, |masks|) <==> b in OrOf(others, |others|)
    {
      OrOfBits(masks, |masks|, b);
      OrOfBits(others, |others|, b);
      if i :| 0 <= i < |masks| && b in masks[i] {
        assert masks[i] in others;
      }
      if i :| 0 <= i < |others| && b in others[i] {
        assert others[i] in masks;
      }
    }
  }

  // ----- the object ------------------------------------------------------------------------------

  class LocApiBase {
    const mExcludedMask: Mask
    const mLocAdapters: array<LocAdapterBase?>
    var sent: seq<ApiCall>
    ghost var used: nat

    ghost predicate Valid()
      reads this`used, mLocAdapters
    {
      && used <= mLocAdapters.Length
      && (forall i :: 0 <= i < mLocAdapters.Length ==> (mLocAdapters[i] == null <==> used <= i))
      && Distinct(mLocAdapters[..used])
    }

    ghost function Table(): (t: seq<LocAdapterBase?>)
      requires Valid()
      reads this`used, mLocAdapters
    {
      mLocAdapters[..used]
    }

    ghost function Masks(n: nat): (masks: seq<Mask>)
      requires n <= mLocAdapters.Length && forall i :: 0 <= i < n ==> mLocAdapters[i] != null
      reads mLocAdapters, mLocAdapters[..n]
      ensures |masks| == n && forall i :: 0 <= i < n ==> masks[i] == mLocAdapters[i].evtMask
    {
      if n == 0 then [] else Masks(n - 1) + [mLocAdapters[n - 1].evtMask]
    }

    // The call that follows a removal.
    ghost function Told(): ApiCall
      requires Valid()
      reads this`used, mLocAdapters, mLocAdapters[..used]
    {
      if used == 0 then Close else Open(OrOf(Masks(used), used) - mExcludedMask)
    }

    /** Close with nobody left; else a mask with just the bits that somebody left has and that are not excluded. */
    ghost predicate Tells(call: ApiCall)
      requires Valid()
      reads this`used, mLocAdapters, mLocAdapters[..used]
    {
      if Table() == [] then call == Close
      else call.Open? && forall b: Bit ::
             b in call.mask <==> b !in mExcludedMask && exists i :: 0 <= i < used && b in mLocAdapters[i].evtMask
    }

    lemma ToldTells()
      requires Valid()
      ensures Tells(Told())
    {
      forall b: Bit
        ensures b in OrOf(Masks(used), used) <==> exists i :: 0 <= i < used && b in mLocAdapters[i].evtMask
      {
        OrOfBits(Masks(used), used, b);
        if i :| 0 <= i < used && b in Masks(used)[i] {
          assert b in mLocAdapters[i].evtMask;
        }
        if i :| 0 <= i < used && b in mLocAdapters[i].evtMask {
          assert b in Masks(used)[i];
        }
      }
    }

    constructor (capacity: nat, excludedMask: Mask)
      ensures Valid() && fresh(mLocAdapters) && Table() == [] && sent == []
      ensures mLocAdapters.Length == capacity && mExcludedMask == excludedMask
    {
      mLocAdapters := new LocAdapterBase?[capacity](_ => null);
      mExcludedMask, sent, used := excludedMask, [], 0;
    }

    method GetEvtMask() returns (mask: Mask)
      requires Valid()
      ensures mask == OrOf(Masks(used), used) - mExcludedMask
    {
      mask := {};
      var i := 0;
      ghost var masks := Masks(used);
      while i < mLocAdapters.Length && mLocAdapters[i] != null
        invariant 0 <= i <= used
        invariant mask == OrOf(masks, i)
      {
        mask := mask + mLocAdapters[i].evtMask;
        i := i + 1;
      }
      mask := mask - mExcludedMask;
    }

    method AddAdapter(adapter: LocAdapterBase?)
      requires Valid()
      modifies this`sent, this`used, mLocAdapters
      ensures Valid()
      ensures Table() == if adapter == null then old(Table()) else Added(old(Table()), adapter, mLocAdapters.Length)
      ensures sent == if used == old(used) then old(sent) else old(sent) + [Open(adapter.evtMask)]
    {
      var i := 0;
      while i < mLocAdapters.Length && mLocAdapters[i] != adapter
        invariant 0 <= i <= used
        invariant forall k | 0 <= k < i :: mLocAdapters[k] != adapter
        invariant Valid() && used == old(used) && sent == old(sent) && mLocAdapters[..] == old(mLocAdapters[..])
      {
        if mLocAdapters[i] == null {
          mLocAdapters[i] := adapter;
          sent := sent + [Open(adapter.evtMask)];
          used := used + 1;
          assert Table() == old(Table()) + [adapter];
          return;
        }
        i := i + 1;
      }
    }

    // The entry at j gives way to the last one, whose index is returned.
    method FillHole(j: nat) returns (i: nat)
      requires Valid() && j < used
      modifies this`used, mLocAdapters
      ensures Valid() && i == used == old(used) - 1
      ensures Table() == old(Table())[j := old(Table()[used - 1])][..i]
    {
      ghost var t := Table();
      mLocAdapters[j] := null;
      i := j + 1;
      while i < mLocAdapters.Length && mLocAdapters[i] != null
        invariant j < i <= used
      {
        i := i + 1;
      }
      i := i - 1;
      mLocAdapters[j] := mLocAdapters[i];
      mLocAdapters[i] := null;
      used := i;
      assert forall k | 0 <= k < i :: mLocAdapters[k] == if k == j then t[i] else t[k];
    }

    // With no adapter left the modem interface is closed, else it is told the new mask.
    method Tell(last: nat)
      requires Valid() && last == used
      modifies this`sent
      ensures sent == old(sent) + [Told()]
    {
      if last == 0 {
        sent := sent + [Close];
      } else {
        var mask := GetEvtMask();
        sent := sent + [Open(mask)];
      }
    }

    method RemoveAdapter(adapter: LocAdapterBase?)
      requires Valid()
      modifies this`sent, this`used, mLocAdapters
      ensures Valid()
      ensures Table() == Removed(old(Table()), adapter)
      ensures if adapter !in old(Table()) then sent == old(sent)
              else |sent| == |old(sent)| + 1 && sent[..|old(sent)|] == old(sent) && Tells(sent[|old(sent)|])
    {
      var i := 0;
      ghost var t := Table();
      while i < mLocAdapters.Length && mLocAdapters[i] != null
        invariant 0 <= i <= mLocAdapters.Length && i <= |t|
        invariant Valid()
        invariant used == |t| ==> sent == old(sent) && Table() == t && forall k | 0 <= k < i :: t[k] != adapter
        invariant used != |t| ==> i == |t| && Table() == Removed(t, adapter) && sent == old(sent) + [Told()]
      {
        if mLocAdapters[i] == adapter {
          RemovedAt(t, adapter, i);
          i := FillHole(i);
          Tell(i);
        }
        i := i + 1;
      }
      RemovedShrinks(t, adapter);
      if used != |t| {
        ToldTells();
      }
    }
  }
}
