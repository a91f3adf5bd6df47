/**
 The blocking queue of gps/utils/msg_q.c as a monitor. The mutex makes every stretch between
 lock and unlock (or between lock and pthread_cond_wait) one atomic step; a receiver that waits
 is first in `waiting`, and moves to `woken` when a signal, a broadcast or a spurious wakeup
 reaches it, until it holds the mutex again. Any number of threads may send and receive.
 */
module MsgQ {

  import opened Wrappers
  import LinkedList

  type Tid = nat

  datatype Err =
    | Success
    | FailureGeneral
    | InvalidParameter
    | InvalidHandle
    | UnavailableResource
    | InsufficientBuffer

  /** How an accepted message left the queue. */
  datatype Exit<T> = Delivered(msg: T, to: Tid) | Flushed(msg: T)

  /** All sequences are newest first, as the list is from head to tail. */
  datatype QState<T> = QState(
    queue: seq<T>,
    unblocked: bool,
    waiting: set<Tid>,
    woken: set<Tid>,
    accepted: seq<T>,
    exits: seq<Exit<T>>)

  /** The atomic steps; `signalled` are the waiters that pthread_cond_signal releases. */
  datatype Event<T> =
    | Snd(msg: Option<T>, canAlloc: bool, signalled: set<Tid>)
    | RcvEnter(t: Tid)
    | RcvResume(t: Tid)
    | Spurious(t: Tid)
    | Flush
    | Unblock

  datatype Outcome<T> = Blocked | Returned(rv: Err, msg: Option<T>)

  function Init<T>(): QState<T> {
    QState([], false, {}, {}, [], [])
  }

  /** Signal wakes at least one waiter when there is one. */
  predicate Enabled<T>(s: QState<T>, e: Event<T>) {
    match e
    case Snd(_, _, signalled) => signalled <= s.waiting && (s.waiting != {} ==> signalled != {})
    case RcvEnter(t) => t !in s.waiting && t !in s.woken
    case RcvResume(t) => t in s.woken
    case Spurious(t) => t in s.waiting
    case Flush => true
    case Unblock => true
  }

  function FlushedAll<T>(queue: seq<T>): (r: seq<Exit<T>>)
    ensures Messages(r) == queue
  {
    if queue == [] then [] else [Flushed(queue[0])] + FlushedAll(queue[1..])
  }

  function Messages<T>(exits: seq<Exit<T>>): (r: seq<T>)
    ensures |r| == |exits| && forall i | 0 <= i < |exits| :: r[i] == exits[i].msg
  {
    if exits == [] then [] else [exits[0].msg] + Messages(exits[1..])
  }

  /** linked_list_remove on behalf of t: the oldest message leaves the queue. */
  function Take<T>(s: QState<T>, t: Tid): QState<T> {
    if s.queue == [] then s
    else
      var n := |s.queue| - 1;
      s.(queue := s.queue[..n], exits := [Delivered(s.queue[n], t)] + s.exits)
  }

  function TakeOutcome<T>(s: QState<T>): Outcome<T> {
    if s.queue == [] then Returned(UnavailableResource, None)
    else Returned(Success, Some(s.queue[|s.queue| - 1]))
  }

  function Next<T>(s: QState<T>, e: Event<T>): QState<T>
    requires Enabled(s, e)
  {
    match e
    case Snd(msg, canAlloc, signalled) =>
      if msg.None? || s.unblocked then s
      else
        var s1 := if canAlloc then s.(queue := [msg.value] + s.queue, accepted := [msg.value] + s.accepted) else s;
        s1.(waiting := s.waiting - signalled, woken := s.woken + signalled)
    case RcvEnter(t) =>
      if s.unblocked then s
      else if s.queue == [] then s.(waiting := s.waiting + {t})
      else Take(s, t)
    case RcvResume(t) =>
      if s.queue == [] && !s.unblocked
      then s.(woken := s.woken - {t}, waiting := s.waiting + {t})
      else Take(s.(woken := s.woken - {t}), t)
    case Spurious(t) => s.(waiting := s.waiting - {t}, woken := s.woken + {t})
    case Flush => s.(queue := [], exits := FlushedAll(s.queue) + s.exits)
    case Unblock =>
      if s.unblocked then s else s.(unblocked := true, waiting := {}, woken := s.woken + s.waiting)
  }

  /** What the call that performs the step returns, or Blocked while it waits. */
  function Result<T>(s: QState<T>, e: Event<T>): Outcome<T>
    requires Enabled(s, e)
  {
    match e
    case Snd(msg, canAlloc, _) =>
      if msg.None? then Returned(InvalidParameter, None)
      else if s.unblocked then Returned(UnavailableResource, None)
      else if canAlloc then Returned(Success, None) else Returned(FailureGeneral, None)
    case RcvEnter(t) =>
      if s.unblocked then Returned(UnavailableResource, None)
      else if s.queue == [] then Blocked else TakeOutcome(s)
    case RcvResume(t) => if s.queue == [] && !s.unblocked then Blocked else TakeOutcome(s)
    case Spurious(_) => Blocked
    case Flush => Returned(Success, None)
    case Unblock => if s.unblocked then Returned(UnavailableResource, None) else Returned(Success, None)
  }

  // ----- runs --------------------------------------------------------------------------------

  predicate Feasible<T>(s: QState<T>, es: seq<Event<T>>)
    decreases |es|
  {
    es != [] ==> Enabled(s, es[0]) && Feasible(Next(s, es[0]), es[1..])
  }

  function Run<T>(s: QState<T>, es: seq<Event<T>>): QState<T>
    requires Feasible(s, es)
    decreases |es|
  {
    if es == [] then s else Run(Next(s, es[0]), es[1..])
  }

  ghost predicate Inv<T>(s: QState<T>) {
    && s.waiting !! s.woken
    && (s.waiting != {} ==> |s.woken| >= |s.queue|)
    && (s.unblocked ==> s.waiting == {})
    && s.accepted == s.queue + Messages(s.exits)
  }

  lemma MessagesConcat<T>(a: seq<Exit<T>>, b: seq<Exit<T>>)
    ensures Messages(a + b) == Messages(a) + Messages(b)
  {
  }

  /** Every step keeps the invariant. */
  lemma {:induction false} InvStep<T>(s: QState<T>, e: Event<T>)
    requires Inv(s) && Enabled(s, e)
    ensures Inv(Next(s, e))
  {
    StepConserves(s, e);
    match e
    case Snd(_, _, signalled) => SignalCounts(s.woken, signalled);
    case RcvEnter(t) =>
    case RcvResume(t) => SignalCounts(s.woken - {t}, {t});
    case Spurious(t) => SignalCounts(s.woken, {t});
    case Flush =>
    case Unblock =>
  }

  lemma SignalCounts(woken: set<Tid>, signalled: set<Tid>)
    requires woken !! signalled
    ensures |woken + signalled| == |woken| + |signalled|
    ensures signalled != {} ==> |signalled| >= 1
  {
  }

  lemma {:induction false} StepConserves<T>(s: QState<T>, e: Event<T>)
    requires s.accepted == s.queue + Messages(s.exits) && Enabled(s, e)
    ensures Next(s, e).accepted == Next(s, e).queue + Messages(Next(s, e).exits)
  {
    match e
    case Snd(_, _, _) =>
    case RcvEnter(t) => TakeConserves(s, t);
    case RcvResume(t) => TakeConserves(s.(woken := s.woken - {t}), t);
    case Spurious(t) =>
    case Flush => MessagesConcat(FlushedAll(s.queue), s.exits);
    case Unblock =>
  }

  lemma {:induction false} TakeConserves<T>(s: QState<T>, t: Tid)
    requires s.accepted == s.queue + Messages(s.exits)
    ensures Take(s, t).accepted == Take(s, t).queue + Messages(Take(s, t).exits)
  {
    if s.queue != [] {
      var n := |s.queue| - 1;
      MessagesConcat([Delivered(s.queue[n], t)], s.exits);
      assert Messages([Delivered(s.queue[n], t)]) == [s.queue[n]];
      assert s.queue == s.queue[..n] + [s.queue[n]];
    }
  }

  /** Every reachable state satisfies the invariant, whatever the schedule and the wakeups. */
  lemma {:induction false} InvRun<T>(s: QState<T>, es: seq<Event<T>>)
    requires Inv(s) && Feasible(s, es)
    ensures Inv(Run(s, es))
    decreases |es|
  {
    if es != [] {
      InvStep(s, es[0]);
      InvRun(Next(s, es[0]), es[1..]);
    }
  }

  // ----- no lost wakeup ------------------------------------------------------------------------

  /**
   In no run does a message lie in the queue while every receiver sleeps: some receiver is awake,
   and any awake receiver that gets the mutex takes the oldest message.
   */
  lemma {:induction false} NoLostWakeup<T>(es: seq<Event<T>>)
    requires Feasible(Init(), es)
    ensures var s := Run(Init(), es);
            s.queue != [] && s.waiting != {} ==>
              && s.woken != {}
              && |s.woken| >= |s.queue|
              && forall t | t in s.woken ::
                   Result(s, RcvResume(t)) == Returned(Success, Some(s.queue[|s.queue| - 1]))
  {
    InvRun(Init(), es);
  }

  function Resumes<T>(ts: seq<Tid>): (es: seq<Event<T>>)
    ensures |es| == |ts|
    ensures forall i | 0 <= i < |es| :: es[i] == RcvResume(ts[i])
  {
    if ts == [] then [] else [RcvResume(ts[0])] + Resumes(ts[1..])
  }

  ghost predicate Lists(ts: seq<Tid>, threads: set<Tid>) {
    (forall i, j | 0 <= i < j < |ts| :: ts[i] != ts[j]) && (forall t :: t in ts <==> t in threads)
  }

  lemma {:induction false} ListsTail(ts: seq<Tid>, threads: set<Tid>)
    requires Lists(ts, threads) && ts != []
    ensures ts[0] in threads && Lists(ts[1..], threads - {ts[0]})
  {
    var rest := ts[1..];
    assert forall i | 0 <= i < |rest| :: rest[i] == ts[i + 1] && rest[i] != ts[0];
    forall t ensures t in rest <==> t in threads - {ts[0]} {
      assert t in ts <==> t == ts[0] || t in rest;
    }
  }

  /** While somebody sleeps, letting each awake receiver run once empties the queue. */
  lemma {:induction false} AwakeReceiversDrain<T>(s: QState<T>, ts: seq<Tid>)
    requires Inv(s) && s.waiting != {} && !s.unblocked && Lists(ts, s.woken)
    ensures Feasible(s, Resumes(ts))
    ensures Run(s, Resumes(ts)).queue == []
    decreases |ts|
  {
    var es: seq<Event<T>> := Resumes(ts);
    if ts == [] {
      assert s.woken == {};
    } else {
      ListsTail(ts, s.woken);
      var s1 := Next(s, es[0]);
      InvStep(s, es[0]);
      assert es[1..] == Resumes(ts[1..]);
      AwakeReceiversDrain(s1, ts[1..]);
    }
  }

  // ----- unblock -------------------------------------------------------------------------------

  ghost function Resumed<T>(es: seq<Event<T>>): set<Tid> {
    if es == [] then {} else (if es[0].RcvResume? then {es[0].t} else {}) + Resumed(es[1..])
  }

  lemma {:induction false} UnblockedStays<T>(s: QState<T>, es: seq<Event<T>>)
    requires Inv(s) && s.unblocked && Feasible(s, es)
    ensures var s' := Run(s, es);
            && s'.unblocked && s'.waiting == {}
            && s'.woken == s.woken - Resumed(es)
            && s'.accepted == s.accepted
    decreases |es|
  {
    if es != [] {
      InvStep(s, es[0]);
      UnblockedStep(s, es[0]);
      UnblockedStays(Next(s, es[0]), es[1..]);
    }
  }

  lemma {:induction false} UnblockedStep<T>(s: QState<T>, e: Event<T>)
    requires s.unblocked && s.waiting == {} && Enabled(s, e)
    ensures var s' := Next(s, e);
            && s'.unblocked && s'.waiting == {} && s'.accepted == s.accepted
            && s'.woken == s.woken - (if e.RcvResume? then {e.t} else {})
  {
    match e
    case Snd(_, _, _) => case RcvEnter(_) => case RcvResume(_) => case Spurious(_) => case Flush => case Unblock =>
  }

  lemma {:induction false} FlagIsEvent<T>(s: QState<T>, es: seq<Event<T>>)
    requires Feasible(s, es)
    ensures Run(s, es).unblocked <==> s.unblocked || Unblock in es
    decreases |es|
  {
    if es != [] {
      FlagIsEvent(Next(s, es[0]), es[1..]);
      match es[0]
      case Snd(_, _, _) => case RcvEnter(_) => case RcvResume(_) => case Spurious(_) => case Flush => case Unblock =>
    }
  }

  lemma {:induction false} RunConcat<T>(s: QState<T>, es: seq<Event<T>>, more: seq<Event<T>>)
    requires Feasible(s, es + more)
    ensures Feasible(s, es) && Feasible(Run(s, es), more) && Run(s, es + more) == Run(Run(s, es), more)
    decreases |es|
  {
    if es == [] {
      assert es + more == more;
    } else {
      assert (es + more)[0] == es[0] && (es + more)[1..] == es[1..] + more;
      RunConcat(Next(s, es[0]), es[1..], more);
    }
  }

  /** The queue is unblocked exactly if msg_q_unblock has been called, and the first call alone reports success. */
  lemma {:induction false} UnblockedExactly<T>(es: seq<Event<T>>)
    requires Feasible(Init(), es)
    ensures Run(Init(), es).unblocked <==> Unblock in es
    ensures Result(Run(Init(), es), Unblock) == Returned(if Unblock in es then UnavailableResource else Success, None)
  {
    FlagIsEvent(Init(), es);
  }

  /**
   After a call of msg_q_unblock nobody waits any more, in any continuation: the receivers still
   inside are exactly those that were inside and have not run since, and no message is accepted.
   */
  lemma {:induction false} UnblockedForGood<T>(es: seq<Event<T>>, more: seq<Event<T>>)
    requires Feasible(Init(), es + [Unblock] + more)
    ensures Feasible(Init(), es)
    ensures var s, s' := Run(Init(), es), Run(Init(), es + [Unblock] + more);
            && s'.waiting == {}
            && s'.woken == s.woken + s.waiting - Resumed(more)
            && s'.accepted == s.accepted
  {
    var s0 := Init<T>();
    RunConcat(s0, es + [Unblock], more);
    RunConcat(s0, es, [Unblock]);
    InvRun(s0, es);
    var s := Run(s0, es);
    InvStep(s, Unblock);
    assert Run(s, [Event<T>.Unblock]) == Next(s, Unblock) && Next(s, Unblock).unblocked;
    UnblockedStays(Next(s, Unblock), more);
  }

  /** What was accepted, was accepted before the call. */
  lemma {:induction false} NothingAcceptedBehind<T>(es: seq<Event<T>>, more: seq<Event<T>>)
    requires Feasible(Init(), es + [Unblock] + more)
    ensures Feasible(Init(), es)
    ensures AcceptedBy(Init(), es + [Unblock] + more) == AcceptedBy(Init(), es)
  {
    UnblockedForGood(es, more);
    var s0 := Init<T>();
    AcceptedIsHistory(s0, es + [Unblock] + more);
    AcceptedIsHistory(s0, es);
    assert AcceptedBy(s0, es) + s0.accepted == AcceptedBy(s0, es);
    assert AcceptedBy(s0, es + [Unblock] + more) + s0.accepted == AcceptedBy(s0, es + [Unblock] + more);
  }

  /** Once msg_q_unblock has been called, every receive call that runs returns and every send is refused. */
  lemma {:induction false} UnblockedReturns<T>(es: seq<Event<T>>, e: Event<T>)
    requires Feasible(Init(), es) && Unblock in es && Enabled(Run(Init(), es), e)
    ensures var s := Run(Init(), es);
            && (!e.Spurious? ==> Result(s, e).Returned?)
            && (e.RcvEnter? ==> Result(s, e) == Returned(UnavailableResource, None))
            && (e.Snd? ==> Next(s, e) == s && Result(s, e).rv != Success)
            && !e.Spurious?
  {
    FlagIsEvent(Init(), es);
    InvRun(Init(), es);
  }

  /**
   A send succeeds exactly with a message, with memory and before msg_q_unblock; then it is the newest.
   Without memory it wakes a receiver all the same.
   */
  lemma {:induction false} SendSucceedsExactly<T>(es: seq<Event<T>>, e: Event<T>)
    requires Feasible(Init(), es) && Enabled(Run(Init(), es), e) && e.Snd?
    ensures var s := Run(Init(), es);
            && (Result(s, e) == Returned(Success, None) <==> e.msg.Some? && e.canAlloc && Unblock !in es)
            && Next(s, e).queue == (if Result(s, e).rv == Success then [e.msg.value] + s.queue else s.queue)
            && (e.msg.Some? && Unblock !in es ==>
                  Next(s, e).waiting == s.waiting - e.signalled && Next(s, e).woken == s.woken + e.signalled)
  {
    FlagIsEvent(Init(), es);
  }

  /** A flush empties the queue, and everything in it is flushed, in its order. */
  lemma {:induction false} FlushTakesAll<T>(s: QState<T>)
    ensures var s' := Next(s, Event<T>.Flush); var n := |s.queue|;
            && s'.queue == [] && |s'.exits| == n + |s.exits| && s'.exits[n..] == s.exits
            && forall i | 0 <= i < n :: s'.exits[i] == Flushed(s.queue[i])
  {
    FlushedAllIs(s.queue);
  }

  lemma {:induction false} FlushedAllIs<T>(queue: seq<T>)
    ensures |FlushedAll(queue)| == |queue| && forall i | 0 <= i < |queue| :: FlushedAll(queue)[i] == Flushed(queue[i])
  {
    if queue != [] {
      FlushedAllIs(queue[1..]);
    }
  }

  /** A receive on a valid queue fails only once the queue is unblocked, and then only when empty or on entry. */
  lemma {:induction false} ReceiveFailsOnlyUnblocked<T>(s: QState<T>, e: Event<T>)
    requires Inv(s) && Enabled(s, e) && (e.RcvEnter? || e.RcvResume?)
    ensures Result(s, e).Returned? && Result(s, e).rv != Success <==>
              s.unblocked && (e.RcvEnter? || s.queue == [])
  {
  }

  // ----- conservation ----------------------------------------------------------------------------

  ghost function AcceptedBy<T>(s: QState<T>, es: seq<Event<T>>): seq<T>
    requires Feasible(s, es)
    decreases |es|
  {
    if es == [] then []
    else
      AcceptedBy(Next(s, es[0]), es[1..]) +
      if es[0].Snd? && Result(s, es[0]) == Returned(Success, None) then [es[0].msg.value] else []
  }

  /**
   The messages whose send succeeded are, newest first, those still queued followed by those that
   left; each of the latter was handed to one receiver or flushed. Without a flush the receivers
   together got the oldest ones, in order.
   */
  lemma {:induction false} Conservation<T>(es: seq<Event<T>>)
    requires Feasible(Init(), es)
    ensures var s := Run(Init(), es);
            && AcceptedBy(Init(), es) == s.queue + Messages(s.exits)
            && (Flush !in es ==> forall x | x in s.exits :: x.Delivered?)
  {
    InvRun(Init<T>(), es);
    AcceptedIsHistory(Init<T>(), es);
    if Flush !in es {
      NoFlushNoLoss(Init<T>(), es);
    }
  }

  lemma {:induction false} AcceptedIsHistory<T>(s: QState<T>, es: seq<Event<T>>)
    requires Feasible(s, es)
    ensures Run(s, es).accepted == AcceptedBy(s, es) + s.accepted
    decreases |es|
  {
    if es != [] {
      AcceptedIsHistory(Next(s, es[0]), es[1..]);
    }
  }

  lemma {:induction false} NoFlushNoLoss<T>(s: QState<T>, es: seq<Event<T>>)
    requires Feasible(s, es) && Flush !in es
    requires forall x | x in s.exits :: x.Delivered?
    ensures forall x | x in Run(s, es).exits :: x.Delivered?
    decreases |es|
  {
    if es != [] {
      assert es[0] in es;
      NoFlushNoLoss(Next(s, es[0]), es[1..]);
    }
  }

  /** A receiver's own successful return is recorded as its delivery. */
  lemma {:induction false} ReturnIsDelivery<T>(s: QState<T>, e: Event<T>)
    requires Enabled(s, e) && (e.RcvEnter? || e.RcvResume?)
    ensures Result(s, e).Returned? && Result(s, e).rv == Success <==> |Next(s, e).exits| > |s.exits|
    ensures Result(s, e).Returned? && Result(s, e).rv == Success ==>
              && Result(s, e).msg.Some?
              && Next(s, e).exits == [Delivered(Result(s, e).msg.value, e.t)] + s.exits
              && Next(s, e).queue + [Result(s, e).msg.value] == s.queue
  {
  }

  // ----- the queue object ------------------------------------------------------------------------

  function Convert(v: LinkedList.Err): (r: Err)
    ensures r == Success <==> v == LinkedList.Success
    ensures r == UnavailableResource <==> v == LinkedList.UnavailableResource
  {
    match v
    case Success => Success
    case InvalidParameter => InvalidParameter
    case InvalidHandle => InvalidHandle
    case UnavailableResource => UnavailableResource
    case InsufficientBuffer => InsufficientBuffer
    case FailureGeneral => FailureGeneral
  }

  lemma {:induction false} FlushNext<T>(s: QState<T>)
    ensures Next(s, Event<T>.Flush) == s.(queue := [], exits := FlushedAll(s.queue) + s.exits)
  {
  }

  /**
   Each method is one stretch of a call that runs under the mutex. `waiting` and `woken` are the
   state of the condition variable; the histories are ghost.
   */
  class MsgQueue<T> {
    const list: LinkedList.List<T>
    var unblocked: bool
    var waiting: set<Tid>
    var woken: set<Tid>
    ghost var accepted: seq<T>
    ghost var exits: seq<Exit<T>>

    ghost predicate Valid()
      reads this, list, list.elems
    {
      list.Valid()
    }

    ghost function St(): QState<T>
      reads this, list
    {
      QState(list.Contents(), unblocked, waiting, woken, accepted, exits)
    }

    constructor ()
      ensures Valid() && fresh(list) && list.elems == [] && St() == Init()
    {
      list := new LinkedList.List<T>();
      unblocked, waiting, woken, accepted, exits := false, {}, {}, [], [];
    }

    method Snd(msgObj: Option<T>, hasDealloc: bool, canAlloc: bool, signalled: set<Tid>) returns (rv: Err)
      requires Valid() && Enabled(St(), Event.Snd(msgObj, canAlloc, signalled))
      modifies this, list, list.elems
      ensures Valid() && fresh(set e | e in list.elems && e !in old(list.elems))
      ensures St() == Next(old(St()), Event.Snd(msgObj, canAlloc, signalled))
      ensures Returned(rv, None) == Result(old(St()), Event.Snd(msgObj, canAlloc, signalled))
    {
      if msgObj.None? {
        return InvalidParameter;
      }
      if unblocked {
        return UnavailableResource;
      }
      var added := list.Add(msgObj, hasDealloc, canAlloc);
      rv := Convert(added);
      if added == LinkedList.Success {
        accepted := [msgObj.value] + accepted;
      }
      waiting, woken := waiting - signalled, woken + signalled;
    }

    /** msg_q_rcv from its lock up to its return or its first wait. */
    method RcvEnter(t: Tid) returns (o: Outcome<T>)
      requires Valid() && Enabled(St(), Event.RcvEnter(t))
      modifies this, list, list.elems
      ensures Valid() && (forall e | e in list.elems :: e in old(list.elems))
      ensures St() == Next(old(St()), Event.RcvEnter(t))
      ensures o == Result(old(St()), Event.RcvEnter(t))
    {
      if unblocked {
        return Returned(UnavailableResource, None);
      }
      o := LoopAndRemove(t);
    }

    /** msg_q_rcv from the return of pthread_cond_wait. */
    method RcvResume(t: Tid) returns (o: Outcome<T>)
      requires Valid() && Enabled(St(), Event.RcvResume(t))
      modifies this, list, list.elems
      ensures Valid() && (forall e | e in list.elems :: e in old(list.elems))
      ensures St() == Next(old(St()), Event.RcvResume(t))
      ensures o == Result(old(St()), Event.RcvResume(t))
    {
      woken := woken - {t};
      o := LoopAndRemove(t);
    }

    // The wait loop's test, and the removal once it lets the receiver through.
    method LoopAndRemove(t: Tid) returns (o: Outcome<T>)
      requires Valid()
      modifies this, list, list.elems
      ensures Valid() && (forall e | e in list.elems :: e in old(list.elems))
      ensures if old(St()).queue == [] && !old(unblocked)
              then o == Blocked && St() == old(St()).(waiting := old(waiting) + {t})
              else o == TakeOutcome(old(St())) && St() == Take(old(St()), t)
    {
      var empty := list.Empty();
      if empty && !unblocked {
        waiting := waiting + {t};
        return Blocked;
      }
      ghost var queue := list.Contents();
      var removed, msg := list.Remove();
      assert queue == [] <==> msg.None?;
      if msg.Some? {
        assert list.Contents() == queue[..|queue| - 1];
        exits := [Delivered(msg.value, t)] + exits;
      }
      return Returned(Convert(removed), msg);
    }

    method Flush() returns (rv: Err)
      requires Valid()
      modifies this, list, list.elems
      ensures Valid() && rv == Success && list.elems == []
      ensures St() == Next(old(St()), Event<T>.Flush)
    {
      FlushNext(St());
      ghost var gone := FlushedAll(list.Contents());
      rv := EmptyList();
      exits := gone + exits;
    }

    method EmptyList() returns (rv: Err)
      requires list.Valid()
      modifies list, list.elems
      ensures list.Valid() && rv == Success && list.elems == [] && list.Contents() == []
    {
      var flushed := list.Flush();
      rv := Convert(flushed);
    }

    method Unblock() returns (rv: Err)
      requires Valid()
      modifies this
      ensures Valid() && list.elems == old(list.elems) && unblocked && (!old(unblocked) ==> waiting == {})
      ensures St() == Next(old(St()), Event<T>.Unblock)
      ensures Returned(rv, None) == Result(old(St()), Event<T>.Unblock)
    {
      if unblocked {
        return UnavailableResource;
      }
      unblocked := true;
      waiting, woken := {}, woken + waiting;
      return Success;
    }
  }
}
