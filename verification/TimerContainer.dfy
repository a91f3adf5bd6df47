/**
 LocTimerContainer (gps/utils/LocTimer.cpp): a heap of timer delegates together with the timerfd
 and its membership in the poll set. First the value a container stands for and what each message
 does to it, then the container as an object over the linked LocHeap.
 */
module TimerContainer {

  import opened Wrappers
  import opened TimerTime
  import opened HeapSpec
  import LocHeap

  /** A delegate as the heap sees it: its identity and its mFutureTime, which never changes. */
  datatype TimerRef = TimerRef(id: nat, time: Timespec)

  /** LocTimerDelegate::ranks. */
  function Rank(a: TimerRef, b: TimerRef): int {
    RankTimes(a.time, b.time)
  }

  const ranks: (TimerRef, TimerRef) -> int := (a: TimerRef, b: TimerRef) => Rank(a, b)

  datatype Container = Container(
    heap: Tree<TimerRef>,
    armed: Option<Timespec>,  // the absolute time the timerfd is set to, None when disarmed
    inPoll: bool)             // the fd is in the epoll set

  function Top(h: Tree<TimerRef>): Option<TimerRef> {
    if h.Nil? then None else Some(h.data)
  }

  /** timerfd_settime with TFD_TIMER_ABSTIME: the zero time disarms. */
  function SetTime(t: Timespec): Option<Timespec> {
    if t == Time(0, 0) then None else Some(t)
  }

  // ----- updateSoonestTime ----------------------------------------------------------------------

  /** What updateSoonestTime() decides to do: nothing, or its two system calls. */
  datatype Update = Keep | Clear | Arm(time: Timespec)

  function UpdateFor(h: Tree<TimerRef>, priorTop: Option<TimerRef>): Update {
    var curTop := Top(h);
    if curTop == priorTop then Keep
    else if curTop.None? then Clear
    else if priorTop.None? || OutRanks(ranks, curTop.value, priorTop.value) then Arm(curTop.value.time)
    else Keep
  }

  /** The first call, of epoll_ctl, */
  function PollCall(c: Container, u: Update): Container {
    if u.Keep? then c else c.(inPoll := u.Arm?)
  }

  /** and the second, of timerfd_settime. */
  function SetCall(c: Container, u: Update): Container {
    match u
    case Keep => c
    case Clear => c.(armed := None)
    case Arm(t) => c.(armed := SetTime(t))
  }

  function SoonestUpdated(c: Container, priorTop: Option<TimerRef>): Container {
    var u := UpdateFor(c.heap, priorTop);
    SetCall(PollCall(c, u), u)
  }

  // ----- the messages ---------------------------------------------------------------------------

  /** What MsgTimerPush asks for after its push. */
  function PushUpdate(h: Tree<TimerRef>, t: TimerRef): Update {
    UpdateFor(Push(ranks, h, t), Top(h))
  }

  function HeapAfterRemove(h: Tree<TimerRef>, t: TimerRef): Tree<TimerRef> {
    var r := Remove(ranks, h, t);
    if r.Some? then r.value else h
  }

  /** MsgTimerRemove asks for an update only if the object removed was the top. */
  function RemoveUpdate(h: Tree<TimerRef>, t: TimerRef): Update {
    var removed := if Remove(ranks, h, t).Some? then Some(t) else None;
    if Top(h) == removed then UpdateFor(HeapAfterRemove(h, t), None) else Keep
  }

  function Updated(c: Container, h: Tree<TimerRef>, u: Update): Container {
    SetCall(PollCall(c.(heap := h), u), u)
  }

  /** MsgTimerPush. */
  function ProcPush(c: Container, t: TimerRef): Container {
    Updated(c, Push(ranks, c.heap, t), PushUpdate(c.heap, t))
  }

  /** MsgTimerRemove, up to the deletion of the delegate. */
  function ProcRemove(c: Container, t: TimerRef): Container {
    Updated(c, HeapAfterRemove(c.heap, t), RemoveUpdate(c.heap, t))
  }

  /** The loop condition of MsgTimerExpire: the first pop is unconditional. */
  predicate Pops(h: Tree<TimerRef>, now: Timespec, first: bool) {
    h.Node? && (first || RankTimes(now, h.data.time) <= 0)
  }

  /** The delegates that one MsgTimerExpire pops, in order, and the heap it leaves. */
  function Batch(h: Tree<TimerRef>, now: Timespec, first: bool): (seq<TimerRef>, Tree<TimerRef>)
    decreases |Elems(h)|
  {
    if !Pops(h, now, first) then ([], h)
    else
      PopElems(ranks, h);
      var (ps, h') := Batch(Pop(ranks, h), now, false);
      ([h.data] + ps, h')
  }

  // ----- the order ---------------------------------------------------------------------------

  lemma RanksIsStrictWeakOrder()
    ensures StrictWeakOrder(ranks)
  {
    forall a, b: TimerRef ensures Asymmetric(ranks, a, b) {
      RanksIsTimeOrder(a.time, b.time);
      RanksIsTimeOrder(b.time, a.time);
    }
    forall a, b, c: TimerRef ensures Transitive(ranks, a, b, c) {
      RanksIsTimeOrder(a.time, b.time);
      RanksIsTimeOrder(b.time, c.time);
      RanksIsTimeOrder(a.time, c.time);
    }
  }

  /** a is due no later than b. */
  predicate NotLater(a: Timespec, b: Timespec) {
    Nanos(a) <= Nanos(b)
  }

  lemma OutRanksIsEarlier(a: TimerRef, b: TimerRef)
    ensures OutRanks(ranks, a, b) <==> !NotLater(b.time, a.time)
  {
    RanksIsTimeOrder(a.time, b.time);
  }

  lemma PopsIsDue(h: Tree<TimerRef>, now: Timespec, first: bool)
    ensures Pops(h, now, first) <==> h.Node? && (first || NotLater(h.data.time, now))
  {
    if h.Node? {
      RanksIsTimeOrder(now, h.data.time);
    }
  }

  /** The top of the heap is due no later than anything in it. */
  lemma TopIsSoonest(h: Tree<TimerRef>, t: TimerRef)
    requires Heap(ranks, h) && t in Elems(h)
    ensures h.Node? && NotLater(h.data.time, t.time)
  {
    RanksIsStrictWeakOrder();
    OrderedIsDominated(ranks, h);
    OutRanksIsEarlier(t, h.data);
  }

  // ----- one expiry ---------------------------------------------------------------------------

  lemma BatchUnfolds(h: Tree<TimerRef>, now: Timespec, first: bool)
    requires Pops(h, now, first)
    ensures Batch(h, now, first).0 == [h.data] + Batch(Pop(ranks, h), now, false).0
    ensures Batch(h, now, first).1 == Batch(Pop(ranks, h), now, false).1
    ensures |Elems(Pop(ranks, h))| < |Elems(h)|
  {
    PopElems(ranks, h);
  }

  /** A batch pops without loss, and leaves a heap. */
  lemma {:induction false} BatchConserves(h: Tree<TimerRef>, now: Timespec, first: bool)
    requires Heap(ranks, h)
    ensures Heap(ranks, Batch(h, now, first).1)
    ensures Elems(h) == multiset(Batch(h, now, first).0) + Elems(Batch(h, now, first).1)
    decreases |Elems(h)|
  {
    if Pops(h, now, first) {
      BatchUnfolds(h, now, first);
      RanksIsStrictWeakOrder();
      PopRemovesTop(ranks, h);
      PopElems(ranks, h);
      BatchConserves(Pop(ranks, h), now, false);
    }
  }

  /** What a batch that popped anything leaves is strictly later than now. */
  lemma {:induction false} BatchLeavesLater(h: Tree<TimerRef>, now: Timespec, first: bool)
    requires Heap(ranks, h)
    ensures forall t | t in Elems(Batch(h, now, first).1) :: !NotLater(t.time, now)
    decreases |Elems(h)|
  {
    PopsIsDue(h, now, first);
    if Pops(h, now, first) {
      BatchUnfolds(h, now, first);
      RanksIsStrictWeakOrder();
      PopRemovesTop(ranks, h);
      BatchLeavesLater(Pop(ranks, h), now, false);
    } else {
      forall t | t in Elems(h) ensures !NotLater(t.time, now) {
        TopIsSoonest(h, t);
      }
    }
  }

  // The top is due no later than what is popped after it.
  lemma {:induction false} TopBeforeBatch(h: Tree<TimerRef>, now: Timespec)
    requires h.Node? && Heap(ranks, h)
    ensures forall p | p in Batch(Pop(ranks, h), now, false).0 :: NotLater(h.data.time, p.time)
  {
    RanksIsStrictWeakOrder();
    PopRemovesTop(ranks, h);
    var rest := Pop(ranks, h);
    forall p | p in Batch(rest, now, false).0 ensures NotLater(h.data.time, p.time) {
      BatchHolds(rest, now, false, p);
      TopIsSoonest(h, p);
    }
  }

  /** The delegates popped come out in non-decreasing time order, and all after the first are due. */
  lemma {:induction false} BatchOrder(h: Tree<TimerRef>, now: Timespec, first: bool)
    requires Heap(ranks, h)
    ensures var ps := Batch(h, now, first).0;
            && (forall i, j | 0 <= i < j < |ps| :: NotLater(ps[i].time, ps[j].time))
            && (forall i | 0 <= i < |ps| && (i > 0 || !first) :: NotLater(ps[i].time, now))
    decreases |Elems(h)|
  {
    PopsIsDue(h, now, first);
    if Pops(h, now, first) {
      BatchUnfolds(h, now, first);
      RanksIsStrictWeakOrder();
      PopRemovesTop(ranks, h);
      BatchOrder(Pop(ranks, h), now, false);
      TopBeforeBatch(h, now);
      PrependInOrder(h.data, Batch(Pop(ranks, h), now, false).0, now);
    }
  }

  lemma PrependInOrder(t: TimerRef, ps: seq<TimerRef>, now: Timespec)
    requires forall i | 0 <= i < |ps| :: NotLater(t.time, ps[i].time) && NotLater(ps[i].time, now)
    requires forall i, j | 0 <= i < j < |ps| :: NotLater(ps[i].time, ps[j].time)
    ensures var all := [t] + ps;
            && (forall i, j | 0 <= i < j < |all| :: NotLater(all[i].time, all[j].time))
            && (forall i | 0 < i < |all| :: NotLater(all[i].time, now))
  {
  }

  lemma BatchHolds(h: Tree<TimerRef>, now: Timespec, first: bool, p: TimerRef)
    requires Heap(ranks, h) && p in Batch(h, now, first).0
    ensures p in Elems(h)
  {
    BatchConserves(h, now, first);
    assert p in multiset(Batch(h, now, first).0);
  }

  /** An expiry pops only due timers exactly when the heap was empty or its top was due already. */
  lemma {:induction false} BatchPopsOnlyDue(h: Tree<TimerRef>, now: Timespec)
    requires Heap(ranks, h)
    ensures (forall p | p in Batch(h, now, true).0 :: NotLater(p.time, now)) <==>
            h.Nil? || NotLater(h.data.time, now)
  {
    BatchOrder(h, now, true);
    if h.Node? {
      BatchUnfolds(h, now, true);
      assert Batch(h, now, true).0[0] == h.data;
    }
  }

  /** If the top was due, the batch is exactly the timers that are due. */
  lemma {:induction false} BatchIsTheDue(h: Tree<TimerRef>, now: Timespec, t: TimerRef)
    requires Heap(ranks, h) && h.Node? && NotLater(h.data.time, now)
    ensures multiset(Batch(h, now, true).0)[t] == if NotLater(t.time, now) then Elems(h)[t] else 0
  {
    BatchConserves(h, now, true);
    BatchLeavesLater(h, now, true);
    BatchPopsOnlyDue(h, now);
    var (ps, h') := Batch(h, now, true);
    assert Elems(h)[t] == multiset(ps)[t] + Elems(h')[t];
    if t in multiset(ps) {
      assert t in ps;
    }
    if t in Elems(h') {
      assert !NotLater(t.time, now);
    }
  }

  // What the loop of an expiry still hands out once it holds `timer`, and the heap it ends with.
  ghost function Upcoming(timer: Option<TimerRef>, h: Tree<TimerRef>, now: Timespec): (seq<TimerRef>, Tree<TimerRef>) {
    if timer.None? then ([], h) else ([timer.value] + Batch(h, now, false).0, Batch(h, now, false).1)
  }

  // One pop: the next timer, if there is one to hand out, and the heap without it.
  function PopNext(h: Tree<TimerRef>, now: Timespec, first: bool): (Option<TimerRef>, Tree<TimerRef>) {
    if Pops(h, now, first) then (Some(h.data), Pop(ranks, h)) else (None, h)
  }

  lemma UpcomingUnfolds(h: Tree<TimerRef>, now: Timespec, first: bool)
    ensures Batch(h, now, first) == Upcoming(PopNext(h, now, first).0, PopNext(h, now, first).1, now)
    ensures Pops(h, now, first) ==> |Elems(PopNext(h, now, first).1)| < |Elems(h)|
  {
    if Pops(h, now, first) {
      BatchUnfolds(h, now, first);
    }
  }

  lemma UpcomingStep(before: seq<TimerRef>, timer: TimerRef, h: Tree<TimerRef>, now: Timespec)
    ensures before + Upcoming(Some(timer), h, now).0
         == before + [timer] + Upcoming(PopNext(h, now, false).0, PopNext(h, now, false).1, now).0
    ensures Upcoming(Some(timer), h, now).1 == Upcoming(PopNext(h, now, false).0, PopNext(h, now, false).1, now).1
    ensures PopNext(h, now, false).0.Some? ==> |Elems(PopNext(h, now, false).1)| < |Elems(h)|
  {
    UpcomingUnfolds(h, now, false);
  }

  // ----- the timerfd follows the top ------------------------------------------------------------

  /** The fd is polled and set to the time of the soonest timer. */
  predicate Armed(c: Container) {
    c.heap.Node? ==> c.inPoll && c.armed == Some(c.heap.data.time)
  }

  predicate NonZeroTimes(c: Container) {
    c.heap.Node? ==> Nanos(c.heap.data.time) > 0
  }

  /** With no prior top given, the container is armed afterwards whatever it was before. */
  lemma UpdateFromNullArms(c: Container)
    requires NonZeroTimes(c)
    ensures Armed(SoonestUpdated(c, None))
    ensures SoonestUpdated(c, None).heap == c.heap
  {
  }

  lemma PushKeepsArmed(c: Container, t: TimerRef)
    requires Armed(c) && NonZeroTimes(c) && Nanos(t.time) > 0
    ensures Armed(ProcPush(c, t))
  {
    PushTop(ranks, c.heap, t);
  }

  lemma RemoveKeepsArmed(c: Container, t: TimerRef)
    requires Armed(c) && NonZeroTimes(ProcRemove(c, t))
    ensures Armed(ProcRemove(c, t))
  {
  }

  /**
   Which messages touch the fd: a Push of a timer that goes before the top, a Remove of the top, and
   an expiry, if they leave any timer; they arm it. Nobody asks to clear it,
   */
  lemma {:induction false} OnlyNewTopsArm(h: Tree<TimerRef>, t: TimerRef)
    ensures PushUpdate(h, t) == if h.Nil? || OutRanks(ranks, t, h.data) then Arm(t.time) else Keep
    ensures var rest := HeapAfterRemove(h, t);
            RemoveUpdate(h, t) == if h.Node? && t == h.data && rest.Node? then Arm(rest.data.time) else Keep
    ensures UpdateFor(h, None) == if h.Node? then Arm(h.data.time) else Keep
  {
    PushTop(ranks, h, t);
    RanksIsStrictWeakOrder();
    if h.Node? {
      assert Asymmetric(ranks, t, h.data);
    }
  }

  /** so a heap that becomes empty leaves its fd as it was. */
  lemma RemoveOfLastLeavesFd(c: Container, t: TimerRef)
    requires c.heap.Node? && ProcRemove(c, t).heap.Nil?
    ensures ProcRemove(c, t) == c.(heap := Nil)
  {
  }

  // ----- the container object -------------------------------------------------------------------

  class LocTimerContainer {
    const heap: LocHeap.LocHeap<TimerRef>
    var armed: Option<Timespec>
    var inPoll: bool

    ghost predicate Valid()
      reads this, heap, heap.mTree, heap.Nodes()
    {
      heap.Valid() && heap.ranks == ranks
    }

    ghost function St(): Container
      reads this, heap, heap.mTree
    {
      Container(heap.Tree(), armed, inPoll)
    }

    constructor ()
      ensures Valid() && St() == Container(Nil, None, false)
      ensures fresh(heap) && heap.Nodes() == {}
    {
      heap := new LocHeap.LocHeap(ranks);
      armed, inPoll := None, false;
    }

    method GetSoonestTimer() returns (top: Option<TimerRef>)
      requires Valid()
      ensures top == Top(heap.Tree())
    {
      top := heap.Peek();
    }

    // The tests of updateSoonestTime().
    method SoonestUpdate(priorTop: Option<TimerRef>) returns (u: Update)
      requires Valid()
      ensures u == UpdateFor(heap.Tree(), priorTop)
    {
      u := Keep;
      var curTop := GetSoonestTimer();
      if curTop != priorTop {
        if curTop.None? {
          u := Clear;
        } else if priorTop.None? || OutRanks(ranks, curTop.value, priorTop.value) {
          u := Arm(curTop.value.time);
        }
      }
    }

    // addPoll() or removePoll().
    method ControlPoll(u: Update)
      requires Valid()
      modifies this`inPoll
      ensures Valid() && St() == PollCall(old(St()), u)
    {
      if !u.Keep? {
        inPoll := u.Arm?;
      }
    }

    // timerfd_settime with the soonest time, or with zero.
    method SetTimer(u: Update)
      requires Valid()
      modifies this`armed
      ensures Valid() && St() == SetCall(old(St()), u)
    {
      if !u.Keep? {
        var delay := if u.Arm? then u.time else Time(0, 0);
        armed := SetTime(delay);
      }
    }

    method UpdateSoonestTime(priorTop: Option<TimerRef>)
      requires Valid()
      modifies this
      ensures Valid() && St() == SoonestUpdated(old(St()), priorTop)
    {
      var u := SoonestUpdate(priorTop);
      ControlPoll(u);
      SetTimer(u);
    }

    // MsgTimerPush::proc up to the system calls.
    method Insert(timer: TimerRef) returns (u: Update)
      requires Valid()
      modifies heap, heap.Nodes()
      ensures Valid() && fresh(heap.Nodes() - old(heap.Nodes()))
      ensures heap.Tree() == HeapSpec.Push(ranks, old(heap.Tree()), timer) && u == PushUpdate(old(heap.Tree()), timer)
    {
      var priorTop := GetSoonestTimer();
      heap.Push(timer);
      u := SoonestUpdate(priorTop);
    }

    /** MsgTimerPush::proc. */
    method Push(timer: TimerRef)
      requires Valid()
      modifies this, heap, heap.Nodes()
      ensures Valid() && fresh(heap.Nodes() - old(heap.Nodes()))
      ensures St() == ProcPush(old(St()), timer)
    {
      var u := Insert(timer);
      ControlPoll(u);
      SetTimer(u);
    }

    // MsgTimerRemove::proc up to the system calls.
    method Extract(timer: TimerRef) returns (u: Update)
      requires Valid()
      modifies heap, heap.Nodes()
      ensures Valid() && heap.Nodes() <= old(heap.Nodes())
      ensures heap.Tree() == HeapAfterRemove(old(heap.Tree()), timer) && u == RemoveUpdate(old(heap.Tree()), timer)
    {
      u := Keep;
      var priorTop := GetSoonestTimer();
      var removed := heap.Remove(timer);
      if priorTop == removed {
        u := SoonestUpdate(None);
      }
    }

    /** MsgTimerRemove::proc; the caller deletes the delegate afterwards. */
    method Remove(timer: TimerRef)
      requires Valid()
      modifies this, heap, heap.Nodes()
      ensures Valid() && heap.Nodes() <= old(heap.Nodes())
      ensures St() == ProcRemove(old(St()), timer)
    {
      var u := Extract(timer);
      ControlPoll(u);
      SetTimer(u);
    }

    method PopIfOutRanks(now: Timespec) returns (popped: Option<TimerRef>)
      requires Valid()
      modifies heap, heap.Nodes()
      ensures Valid() && heap.Nodes() <= old(heap.Nodes())
      ensures (popped, heap.Tree()) == PopNext(old(heap.Tree()), now, false)
    {
      popped := None;
      var top := heap.Peek();
      if top.Some? && !(RankTimes(now, top.value.time) > 0) {
        popped := heap.Pop();
      }
    }

    // The loop of an expiry, from the first delegate popped on.
    method ExpireLoop(first: Option<TimerRef>, now: Timespec) returns (expired: seq<TimerRef>)
      requires Valid()
      modifies heap, heap.Nodes()
      ensures Valid() && heap.Nodes() <= old(heap.Nodes())
      ensures expired == Upcoming(first, old(heap.Tree()), now).0
      ensures heap.Tree() == Upcoming(first, old(heap.Tree()), now).1
    {
      expired := [];
      var timer := first;
      ghost var h := heap.Tree();
      ghost var all := Upcoming(first, h, now);
      while timer.Some?
        invariant Valid() && heap.Nodes() <= old(heap.Nodes())
        invariant h == heap.Tree()
        invariant all.0 == expired + Upcoming(timer, h, now).0
        invariant all.1 == Upcoming(timer, h, now).1
        decreases timer.Some?, |Elems(h)|
      {
        UpcomingStep(expired, timer.value, h, now);
        expired := expired + [timer.value];
        timer := PopIfOutRanks(now);
        h := heap.Tree();
      }
    }

    method PopBatch(now: Timespec) returns (expired: seq<TimerRef>)
      requires Valid()
      modifies heap, heap.Nodes()
      ensures Valid() && heap.Nodes() <= old(heap.Nodes())
      ensures (expired, heap.Tree()) == Batch(old(heap.Tree()), now, true)
    {
      UpcomingUnfolds(heap.Tree(), now, true);
      var timer := heap.Pop();
      expired := ExpireLoop(timer, now);
    }

    /** MsgTimerExpire::proc; `expired` are the delegates whose expire() is called, in order. */
    method Expire(now: Timespec) returns (expired: seq<TimerRef>)
      requires Valid()
      modifies this, heap, heap.Nodes()
      ensures Valid() && heap.Nodes() <= old(heap.Nodes())
      ensures expired == Batch(old(heap.Tree()), now, true).0
      ensures St() == SoonestUpdated(
                        old(St()).(heap := Batch(old(heap.Tree()), now, true).1), None)
    {
      expired := PopBatch(now);
      UpdateSoonestTime(None);
    }
  }
}
