/**
 QCameraQueue (camera/QCamera2/util/QCameraQueue.cpp): a list under a lock, with a function that is
 called for everything a flush throws away. canAlloc says whether malloc succeeds.
 */
module CameraQueue {

  import opened Wrappers

  /** Of the first n entries of q, those that stay in a flush, and those that go. */
  function Kept<T>(q: seq<T>, m: T -> bool, n: nat): (r: seq<T>)
    requires n <= |q|
    ensures |r| <= n
  {
    if n == 0 then [] else if m(q[n - 1]) then Kept(q, m, n - 1) else Kept(q, m, n - 1) + [q[n - 1]]
  }

  function Dropped<T>(q: seq<T>, m: T -> bool, n: nat): (r: seq<T>)
    requires n <= |q|
    ensures |r| <= n
  {
    if n == 0 then [] else if m(q[n - 1]) then Dropped(q, m, n - 1) + [q[n - 1]] else Dropped(q, m, n - 1)
  }

  lemma CountSnoc<T>(q: seq<T>, x: T, e: T)
    ensures multiset(q + [x])[e] == multiset(q)[e] + if x == e then 1 else 0
  {
  }

  lemma CountNext<T>(q: seq<T>, n: nat, e: T)
    requires 0 < n <= |q|
    ensures multiset(q[..n])[e] == multiset(q[..n - 1])[e] + if q[n - 1] == e then 1 else 0
  {
    assert q[..n] == q[..n - 1] + [q[n - 1]];
    CountSnoc(q[..n - 1], q[n - 1], e);
  }

  lemma FlushStep<T>(q: seq<T>, m: T -> bool, n: nat, e: T)
    requires 0 < n <= |q|
    ensures multiset(Kept(q, m, n))[e] + multiset(Dropped(q, m, n))[e]
         == multiset(Kept(q, m, n - 1))[e] + multiset(Dropped(q, m, n - 1))[e] + if q[n - 1] == e then 1 else 0
  {
    if m(q[n - 1]) {
      CountSnoc(Dropped(q, m, n - 1), q[n - 1], e);
    } else {
      CountSnoc(Kept(q, m, n - 1), q[n - 1], e);
    }
  }

  lemma {:induction false} FlushCounts<T>(q: seq<T>, m: T -> bool, n: nat, e: T)
    requires n <= |q|
    ensures multiset(q[..n])[e] == multiset(Kept(q, m, n))[e] + multiset(Dropped(q, m, n))[e]
  {
    if n > 0 {
      FlushCounts(q, m, n - 1, e);
      CountNext(q, n, e);
      FlushStep(q, m, n, e);
    }
  }

  lemma FlushSplits<T(!new)>(q: seq<T>, m: T -> bool)
    ensures multiset(q) == multiset(Kept(q, m, |q|)) + multiset(Dropped(q, m, |q|))
  {
    assert q[..|q|] == q;
    forall e: T
      ensures multiset(q)[e] == multiset(Kept(q, m, |q|))[e] + multiset(Dropped(q, m, |q|))[e]
    {
      FlushCounts(q, m, |q|, e);
    }
  }

  lemma {:induction false} NothingDropped<T>(q: seq<T>, m: T -> bool, n: nat)
    requires n <= |q| && Dropped(q, m, n) == []
    ensures Kept(q, m, n) == q[..n]
  {
    if n > 0 {
      NothingDropped(q, m, n - 1);
    }
  }

  /** f lists, in increasing order, the places in q of the entries of k. */
  ghost predicate Picks<T(!new)>(k: seq<T>, q: seq<T>, f: seq<nat>) {
    && |f| == |k|
    && (forall i | 0 <= i < |k| :: f[i] < |q| && k[i] == q[f[i]])
    && (forall i, j | 0 <= i < j < |k| :: f[i] < f[j])
  }

  lemma {:induction false} FlushSides<T>(q: seq<T>, m: T -> bool, n: nat)
    requires n <= |q|
    ensures (forall x | x in Dropped(q, m, n) :: m(x)) && (forall x | x in Kept(q, m, n) :: !m(x))
  {
    if n > 0 {
      FlushSides(q, m, n - 1);
    }
  }

  lemma {:induction false} FlushFinds<T>(q: seq<T>, m: T -> bool, n: nat, k: nat)
    requires k < n <= |q|
    ensures q[k] in if m(q[k]) then Dropped(q, m, n) else Kept(q, m, n)
  {
    if k < n - 1 {
      FlushFinds(q, m, n - 1, k);
    }
  }

  lemma PicksSnoc<T(!new)>(k: seq<T>, q: seq<T>, f: seq<nat>, n: nat)
    requires Picks(k, q, f) && n < |q| && forall i | 0 <= i < |f| :: f[i] < n
    ensures Picks(k + [q[n]], q, f + [n])
  {
  }

  lemma {:induction false} KeptOrder<T(!new)>(q: seq<T>, m: T -> bool, n: nat) returns (f: seq<nat>)
    requires n <= |q|
    ensures Picks(Kept(q, m, n), q, f) && forall i | 0 <= i < |f| :: f[i] < n
  {
    f := [];
    if n > 0 {
      f := KeptOrder(q, m, n - 1);
      if !m(q[n - 1]) {
        PicksSnoc(Kept(q, m, n - 1), q, f, n - 1);
        f := f + [n - 1];
      }
    }
  }

  lemma {:induction false} DroppedOrder<T(!new)>(q: seq<T>, m: T -> bool, n: nat) returns (f: seq<nat>)
    requires n <= |q|
    ensures Picks(Dropped(q, m, n), q, f) && forall i | 0 <= i < |f| :: f[i] < n
  {
    f := [];
    if n > 0 {
      f := DroppedOrder(q, m, n - 1);
      if m(q[n - 1]) {
        PicksSnoc(Dropped(q, m, n - 1), q, f, n - 1);
        f := f + [n - 1];
      }
    }
  }

  /** What goes matches, what stays does not, and both keep the order of the queue. */
  lemma FlushTakesMatches<T(!new)>(q: seq<T>, m: T -> bool)
    ensures (forall x | x in Dropped(q, m, |q|) :: m(x)) && (forall x | x in Kept(q, m, |q|) :: !m(x))
    ensures forall x | x in q :: x in if m(x) then Dropped(q, m, |q|) else Kept(q, m, |q|)
    ensures (exists f :: Picks(Kept(q, m, |q|), q, f)) && (exists f :: Picks(Dropped(q, m, |q|), q, f))
  {
    FlushSides(q, m, |q|);
    var kept := KeptOrder(q, m, |q|);
    var dropped := DroppedOrder(q, m, |q|);
    forall x | x in q ensures x in if m(x) then Dropped(q, m, |q|) else Kept(q, m, |q|) {
      var k :| 0 <= k < |q| && q[k] == x;
      FlushFinds(q, m, |q|, k);
    }
  }

  class QCameraQueue<T> {
    var nodes: seq<T>        // the list from its head
    var size: int
    var active: bool
    var released: seq<T>     // what the release function has been called for

    ghost predicate Valid()
      reads this
    {
      size == |nodes|
    }

    constructor ()
      ensures Valid() && nodes == [] && active && released == []
    {
      nodes, size, active, released := [], 0, true, [];
    }

    method Enqueue(data: T, canAlloc: bool) returns (rc: bool)
      requires Valid()
      modifies this`nodes, this`size
      ensures Valid() && rc == (canAlloc && active)
      ensures nodes == if rc then old(nodes) + [data] else old(nodes)
    {
      if !canAlloc {
        return false;
      }
      rc := active;
      if active {
        nodes := nodes + [data];
        size := size + 1;
      }
    }

    method EnqueueWithPriority(data: T, canAlloc: bool) returns (rc: bool)
      requires Valid()
      modifies this`nodes, this`size
      ensures Valid() && rc == (canAlloc && active)
      ensures nodes == if rc then [data] + old(nodes) else old(nodes)
    {
      if !canAlloc {
        return false;
      }
      rc := active;
      if active {
        nodes := [data] + nodes;
        size := size + 1;
      }
    }

    method Dequeue(fromHead: bool) returns (data: Option<T>)
      requires Valid()
      modifies this`nodes, this`size
      ensures Valid()
      ensures if !active || old(nodes) == [] then data == None && nodes == old(nodes)
              else data.Some? && old(nodes) == if fromHead then [data.value] + nodes else nodes + [data.value]
    {
      data := None;
      if active && nodes != [] {
        var last := |nodes| - 1;
        if fromHead {
          data := Some(nodes[0]);
          nodes := nodes[1..];
        } else {
          data := Some(nodes[last]);
          nodes := nodes[..last];
        }
        size := size - 1;
      }
    }

    /** Everything goes, and nothing is accepted or handed out from then on. */
    method Flush()
      requires Valid()
      modifies this
      ensures Valid() && !active
      ensures nodes == if old(active) then [] else old(nodes)
      ensures released == if old(active) then old(released) + old(nodes) else old(released)
    {
      if active {
        while nodes != []
          invariant Valid() && active && released + nodes == old(released) + old(nodes)
          decreases |nodes|
        {
          released := released + [nodes[0]];
          nodes := nodes[1..];
          size := size - 1;
        }
        size := 0;
        active := false;
      }
    }

    /** What matches goes, in order; the rest keeps its order. */
    method FlushNodes(match_: T -> bool)
      requires Valid()
      modifies this`nodes, this`size, this`released
      ensures Valid()
      ensures nodes == if active then Kept(old(nodes), match_, |old(nodes)|) else old(nodes)
      ensures released == old(released) + if active then Dropped(old(nodes), match_, |old(nodes)|) else []
    {
      if active {
        ghost var q := nodes;
        ghost var seen, kept, rest := 0, [], nodes;
        var pos := 0;
        while pos < |nodes|
          invariant Valid() && seen <= |q| && pos == |kept|
          invariant nodes == kept + rest && kept == Kept(q, match_, seen) && rest == q[seen..]
          invariant released == old(released) + Dropped(q, match_, seen)
          decreases |rest|
        {
          AtNode(kept, rest);
          assert q[seen + 1..] == rest[1..];
          if match_(nodes[pos]) {
            released := released + [nodes[pos]];
            nodes := nodes[..pos] + nodes[pos + 1..];
            size := size - 1;
          } else {
            kept := kept + [nodes[pos]];
            pos := pos + 1;
          }
          seen, rest := seen + 1, rest[1..];
        }
      }
    }
  }

  lemma AtNode<T>(before: seq<T>, rest: seq<T>)
    requires rest != []
    ensures var all := before + rest; var n := |before|;
      all[..n] == before && all[n] == rest[0] && all[n + 1..] == rest[1..] && all == before + [rest[0]] + rest[1..]
  {
  }
}
