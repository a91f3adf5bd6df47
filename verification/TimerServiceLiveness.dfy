/**
 What the two threads of the timer service achieve by themselves. When the clients and the clock
 stand still, in whatever state that happens, every schedule of the message thread and the poll
 thread comes to an end, and then every timer that was due has timed out, but for those whose
 messages were lost.
 The proof is a rank that each of their steps lowers. A message that can arm a timerfd is worth more
 than the wake-up that may follow, and that more than the poll thread's statements and the Expire
 message they lead to; a running timer is worth more than the Remove that its expiry sends.
 */
module TimerServiceLiveness {

  import opened Wrappers
  import opened TimerTime
  import opened HeapSpec
  import opened TimerContainer
  import opened TimerService
  import opened TimerServiceProofs
  import opened TimerServiceTheorems
  import opened TimerServiceFiring

  /** A step of the message thread or of the poll thread. */
  predicate Internal(a: Act) {
    a.ADeliver? || a.AProc? || a.AWake? || a.APoll?
  }

  // ----- the rank ---------------------------------------------------------------------------------

  function MsgRank(m: Msg): nat {
    if m.MsgExpire? then 5 else 24
  }

  function QueueRank(q: seq<Msg>): nat {
    if q == [] then 0 else MsgRank(q[0]) + QueueRank(q[1..])
  }

  lemma {:induction false} QueueRankSnoc(q: seq<Msg>, m: Msg)
    ensures QueueRank(q + [m]) == QueueRank(q) + MsgRank(m)
  {
    if q == [] {
      assert [m][1..] == [];
    } else {
      QueueRankSnoc(q[1..], m);
      assert (q + [m])[1..] == q[1..] + [m];
    }
  }

  function RunningIds(ds: Delegates): set<nat> {
    set id | id in ds && ds[id].mClient.Some?
  }

  predicate DueAt(armed: Option<Timespec>, now: Clock) {
    armed.Some? && NotLater(armed.value, now)
  }

  /** The poll thread has still to disarm the container. */
  predicate ToDisarm(poll: seq<bool>, stage: Stage, w: bool) {
    w in poll && (stage == Disarm || w in poll[1..])
  }

  /** A container that epoll_wait can report next, or once it is polled. */
  function WakeRank(armed: Option<Timespec>, now: Clock, poll: seq<bool>, stage: Stage, w: bool): nat {
    if DueAt(armed, now) && !ToDisarm(poll, stage, w) then 17 else 0
  }

  function PollRank(poll: seq<bool>, stage: Stage): nat {
    if poll == [] then 0
    else 8 * |poll| - match stage case Disarm => 0 case RemovePoll => 1 case SendExpire => 2
  }

  function UpdateRank(u: Update, now: Clock): nat {
    if u.Arm? && NotLater(u.time, now) then 17 else 0
  }

  /** An expiry that began before now may leave a timer that is due by now. */
  function ProcRank(proc: Proc, now: Clock): nat {
    match proc
    case Idle => 0
    case Deleting(_) => 1
    case Setting(_, u, _) => 2 + UpdateRank(u, now)
    case Polling(_, u, _) => 3 + UpdateRank(u, now)
    case Expiring(_, cutoff, _, _, _) => (if cutoff == now then 4 else 21) + CallRank(proc)
  }

  ghost function OneRank(c: Container, now: Clock, poll: seq<bool>, stage: Stage, w: bool): nat {
    3 * |Elems(c.heap)| + WakeRank(c.armed, now, poll, stage, w)
  }

  ghost function BothRank(cs: Containers, now: Clock, poll: seq<bool>, stage: Stage): nat {
    OneRank(cs.sw, now, poll, stage, false) + OneRank(cs.hw, now, poll, stage, true)
  }

  ghost function Rank(s: State): nat {
    QueueRank(s.queue) + 33 * |RunningIds(s.delegates)| + ProcRank(s.proc, s.now)
    + PollRank(s.poll, s.stage) + BothRank(s.cs, s.now, s.poll, s.stage) + B(!s.fault)
  }

  lemma {:induction false} SplitRank(cs: Containers, now: Clock, poll: seq<bool>, stage: Stage, w: bool)
    ensures BothRank(cs, now, poll, stage)
         == OneRank(cs.Get(w), now, poll, stage, w) + OneRank(cs.Get(!w), now, poll, stage, !w)
  {
  }

  // ----- each step lowers it ------------------------------------------------------------------------

  // One container is exchanged, and nothing that decides on wake-ups.
  lemma {:induction false} ContainerChange(cs: Containers, now: Clock, poll: seq<bool>, stage: Stage, w: bool, c: Container)
    ensures BothRank(cs.Set(w, c), now, poll, stage) - BothRank(cs, now, poll, stage)
         == OneRank(c, now, poll, stage, w) - OneRank(cs.Get(w), now, poll, stage, w)
  {
    SplitRank(cs, now, poll, stage, w);
    SplitRank(cs.Set(w, c), now, poll, stage, w);
  }

  // The heap alone.
  lemma {:induction false} HeapChange(s: State, w: bool, h: Tree<TimerRef>)
    ensures BothRank(SetHeap(s, w, h).cs, s.now, s.poll, s.stage) - BothRank(s.cs, s.now, s.poll, s.stage)
         == 3 * |Elems(h)| - 3 * |Elems(s.cs.Get(w).heap)|
  {
    ContainerChange(s.cs, s.now, s.poll, s.stage, w, s.cs.Get(w).(heap := h));
  }

  // A Push or Remove message has gone, heap h is in the place of container w's.
  ghost predicate Handled(s: State, s': State, w: bool, h: Tree<TimerRef>) {
    && s.queue != [] && !s.queue[0].MsgExpire? && s'.queue == s.queue[1..]
    && s'.cs == SetHeap(s, w, h).cs && |Elems(h)| <= |Elems(s.cs.Get(w).heap)| + 1
    && s'.delegates == s.delegates && s'.now == s.now && s'.poll == s.poll && s'.stage == s.stage
    && s.proc.Idle? && !s'.proc.Expiring? && !s'.proc.Setting?
  }

  lemma {:induction false} HandledLowers(s: State, s': State, w: bool, h: Tree<TimerRef>)
    requires Handled(s, s', w, h) && !s.fault
    ensures Rank(s') < Rank(s)
  {
    HeapChange(s, w, h);
    assert ProcRank(s'.proc, s'.now) <= 20;
  }

  lemma {:induction false} PushLowers(s: State, w: bool, t: TimerRef)
    requires s.proc.Idle? && s.queue != [] && s.queue[0] == MsgPush(w, t) && !s.fault && t.id in s.delegates
    ensures Rank(Deliver(s)) < Rank(s)
  {
    var h := Push(ranks, s.cs.Get(w).heap, t);
    PushElems(ranks, s.cs.Get(w).heap, t);
    assert |Elems(h)| == |Elems(s.cs.Get(w).heap)| + 1;
    HandledLowers(s, Deliver(s), w, h);
  }

  lemma {:induction false} RemoveShrinks(h: Tree<TimerRef>, t: TimerRef)
    requires Sized(h)
    ensures |Elems(HeapAfterRemove(h, t))| <= |Elems(h)|
  {
    if Remove(ranks, h, t).Some? {
      RemoveSound(ranks, h, t);
      assert |Elems(h)| == |Elems(HeapAfterRemove(h, t)) + multiset{t}|;
    }
  }

  lemma {:induction false} RemoveLowers(s: State, w: bool, t: TimerRef)
    requires s.proc.Idle? && s.queue != [] && s.queue[0] == MsgRemove(w, t) && !s.fault && t.id in s.delegates
    requires Sized(s.cs.Get(w).heap)
    ensures Rank(Deliver(s)) < Rank(s)
  {
    RemoveShrinks(s.cs.Get(w).heap, t);
    HandledLowers(s, Deliver(s), w, HeapAfterRemove(s.cs.Get(w).heap, t));
  }

  lemma {:induction false} ExpireBeginsLower(s: State, w: bool)
    requires s.proc.Idle? && s.queue != [] && s.queue[0] == MsgExpire(w)
    ensures Rank(Deliver(s)) < Rank(s)
  {
  }

  lemma {:induction false} DeliverLowers(s: State)
    requires Inv(s) && s.proc.Idle? && s.queue != [] && !s.fault
    ensures Rank(Deliver(s)) < Rank(s)
  {
    HeadOk(s);
    match s.queue[0]
    case MsgPush(w, t) => PushLowers(s, w, t);
    case MsgRemove(w, t) =>
      assert HeapOk(s.delegates, s.queue, s.lost, w, s.cs.Get(w).heap);
      RemoveLowers(s, w, t);
    case MsgExpire(w) => ExpireBeginsLower(s, w);
  }

  lemma {:induction false} PopLowersRank(s: State)
    requires s.proc.Expiring? && s.proc.call.NoCall? && PopsNext(s) && s.cs.Get(s.proc.w).heap.data.id in s.delegates
    ensures Rank(PopAndRead(s)) < Rank(s)
  {
    var h := s.cs.Get(s.proc.w).heap;
    PopElems(ranks, h);
    assert |Elems(h)| == |Elems(Pop(ranks, h))| + 1;
    HeapChange(s, s.proc.w, Pop(ranks, h));
  }

  lemma {:induction false} StoppedIsOneLess(ds: Delegates, id: nat)
    requires id in ds && ds[id].mClient.Some?
    ensures |RunningIds(Detached(ds, id))| == |RunningIds(ds)| - 1
  {
    assert RunningIds(Detached(ds, id)) == RunningIds(ds) - {id};
  }

  // The delegate loses its client and may send a Remove.
  lemma {:induction false} StopReadLowersRank(s: State, c: ClientId, id: nat, sent: bool)
    requires Owners(s) && s.proc.Expiring? && s.proc.call == ToStop(c) && c in s.clients && s.clients[c] == Some(id)
    requires !s.fault
    ensures Rank(StopRead(s, c, sent)) < Rank(s)
  {
    StopIs(s, c, id, sent);
    StoppedIsOneLess(s.delegates, id);
    QueueRankSnoc(s.queue, MsgRemove(s.delegates[id].wake, Canon(s.delegates, id)));
  }

  lemma {:induction false} NoStopLowersRank(s: State, c: ClientId, sent: bool)
    requires s.proc.Expiring? && s.proc.call == ToStop(c) && c in s.locks && !s.fault
    requires c in s.clients ==> s.clients[c].None?
    ensures Rank(StopRead(s, c, sent)) < Rank(s)
  {
  }

  lemma {:induction false} CallBackLowers(s: State, c: ClientId, id: nat)
    requires s.proc.Expiring? && s.proc.call == ToCallBack(c, id) && !s.fault
    ensures Rank(CallBack(s, c, id)) < Rank(s)
  {
  }

  // An expiry with the present time leaves nothing due; an older one has paid for what it leaves.
  lemma {:induction false} ExpireEndLowers(s: State, sent: bool)
    requires s.proc.Expiring? && s.proc.call.NoCall? && !PopsNext(s)
    ensures Rank(ExpireStep(s, sent)) < Rank(s)
  {
    var h := s.cs.Get(s.proc.w).heap;
    if h.Node? {
      OnlyNewTopsArm(h, h.data);
      PopsIsDue(h, s.proc.cutoff, s.proc.popped == []);
    }
  }

  lemma {:induction false} ExpireLowersRank(s: State, sent: bool)
    requires Inv(s) && s.proc.Expiring? && !s.fault
    ensures Rank(ExpireStep(s, sent)) < Rank(s)
  {
    match s.proc.call
    case NoCall =>
      if PopsNext(s) {
        HeapTimes(s, s.proc.w);
        PopLowersRank(s);
      } else {
        ExpireEndLowers(s, sent);
      }
    case ToStop(c) =>
      HeldKeepsLock(s, c);
      if c in s.clients && s.clients[c].Some? {
        StopReadLowersRank(s, c, s.clients[c].value, sent);
      } else {
        NoStopLowersRank(s, c, sent);
      }
    case ToCallBack(c, id) => CallBackLowers(s, c, id);
  }

  // The first call leaves the time of the fd alone,
  lemma {:induction false} PollingLowersRank(s: State)
    requires s.proc.Polling?
    ensures Rank(PollSetStep(s)) < Rank(s)
  {
    ContainerChange(s.cs, s.now, s.poll, s.stage, s.proc.w, PollCall(s.cs.Get(s.proc.w), s.proc.update));
  }

  // and the second was paid for.
  lemma {:induction false} SetWakes(c: Container, t: Timespec, now: Clock, poll: seq<bool>, stage: Stage, w: bool)
    ensures OneRank(SetCall(c, Arm(t)), now, poll, stage, w) <= 3 * |Elems(c.heap)| + UpdateRank(Arm(t), now)
  {
  }

  lemma {:induction false} SettingIs(s: State)
    requires s.proc.Setting?
    ensures var s' := PollSetStep(s);
      && s'.cs == s.cs.Set(s.proc.w, SetCall(s.cs.Get(s.proc.w), s.proc.update)) && ProcRank(s'.proc, s.now) <= 1
      && s' == s.(cs := s'.cs, proc := s'.proc)
  {
  }

  lemma {:induction false} SettingLowersRank(s: State)
    requires s.proc.Setting? && s.proc.update.Arm?
    ensures Rank(PollSetStep(s)) < Rank(s)
  {
    var w, c := s.proc.w, s.cs.Get(s.proc.w);
    SettingIs(s);
    ContainerChange(s.cs, s.now, s.poll, s.stage, w, SetCall(c, s.proc.update));
    SetWakes(c, s.proc.update.time, s.now, s.poll, s.stage, w);
  }

  lemma {:induction false} DeletingLowersRank(s: State, id: nat)
    requires s.proc == Deleting(id) && id in s.delegates && s.delegates[id].mClient.None? && s.delegates[id].mLock in s.locks
    ensures Rank(DeleteDelegate(s, id)) < Rank(s)
  {
    assert RunningIds(s.delegates - {id}) == RunningIds(s.delegates);
  }

  lemma {:induction false} ProcLowersRank(s: State, sent: bool)
    requires Inv(s) && !s.proc.Idle? && !s.fault
    ensures Rank(ProcStep(s, sent)) < Rank(s)
  {
    if s.proc.Expiring? {
      ExpireLowersRank(s, sent);
    } else if s.proc.Deleting? {
      DoomedOk(s);
      DeletingLowersRank(s, s.proc.id);
    } else if s.proc.Polling? {
      PollingLowersRank(s);
    } else {
      SettingLowersRank(s);
    }
  }

  // What the poll thread does to the first container of its list is nothing to the other.
  lemma {:induction false} OtherWakes(poll: seq<bool>, stage: Stage, armed: Option<Timespec>, now: Clock)
    requires poll != []
    ensures var v := !poll[0];
      && (stage == SendExpire ==> WakeRank(armed, now, poll[1..], Disarm, v) == WakeRank(armed, now, poll, stage, v))
      && (stage == Disarm ==> WakeRank(armed, now, poll, RemovePoll, v) == WakeRank(armed, now, poll, stage, v))
      && (stage == RemovePoll ==> WakeRank(armed, now, poll, SendExpire, v) == WakeRank(armed, now, poll, stage, v))
  {
    OtherInTail(poll);
  }

  lemma {:induction false} PollKeepsContainers(s: State, sent: bool)
    requires s.poll != []
    ensures var s' := PollStep(s, sent);
      BothRank(s'.cs, s'.now, s'.poll, s'.stage) <= BothRank(s.cs, s.now, s.poll, s.stage)
  {
    var w := s.poll[0];
    var s' := PollStep(s, sent);
    SplitRank(s.cs, s.now, s.poll, s.stage, w);
    SplitRank(s'.cs, s'.now, s'.poll, s'.stage, w);
    OtherWakes(s.poll, s.stage, s.cs.Get(!w).armed, s.now);
    assert s'.cs.Get(!w) == s.cs.Get(!w) && s'.cs.Get(w).heap == s.cs.Get(w).heap;
  }

  lemma {:induction false} PollLowersRank(s: State, sent: bool)
    requires s.poll != []
    ensures Rank(PollStep(s, sent)) < Rank(s)
  {
    PollKeepsContainers(s, sent);
    QueueRankSnoc(s.queue, MsgExpire(s.poll[0]));
    match s.stage case Disarm => case RemovePoll => case SendExpire =>
  }

  // A readable container counts no more once its event is with the poll thread.
  lemma {:induction false} WakesOnce(c: Container, now: Clock, ready: seq<bool>, w: bool)
    ensures OneRank(c, now, ready, Disarm, w) <= OneRank(c, now, [], Disarm, w)
    ensures w in ready && DueAt(c.armed, now) ==>
              OneRank(c, now, ready, Disarm, w) == OneRank(c, now, [], Disarm, w) - 17
  {
  }

  lemma {:induction false} WakeRanks(cs: Containers, now: Clock, ready: seq<bool>)
    requires 1 <= |ready| <= 2 && forall w | w in ready :: DueAt(cs.Get(w).armed, now)
    ensures BothRank(cs, now, ready, Disarm) + PollRank(ready, Disarm) < BothRank(cs, now, [], Disarm)
  {
    var w := ready[0];
    SplitRank(cs, now, [], Disarm, w);
    SplitRank(cs, now, ready, Disarm, w);
    WakesOnce(cs.Get(w), now, ready, w);
    WakesOnce(cs.Get(!w), now, ready, !w);
  }

  lemma {:induction false} WakeLowers(s: State, ready: seq<bool>)
    requires Enabled(s, AWake(ready))
    ensures Rank(Next(s, AWake(ready))) < Rank(s)
  {
    assert forall w | w in ready :: Readable(s, w);
    WakeRanks(s.cs, s.now, ready);
    assert BothRank(s.cs, s.now, [], s.stage) == BothRank(s.cs, s.now, [], Disarm);
  }

  lemma {:induction false} StepLowersRank(s: State, a: Act)
    requires Inv(s) && Enabled(s, a) && Internal(a)
    ensures Rank(Next(s, a)) < Rank(s)
  {
    match a
    case ADeliver => DeliverLowers(s);
    case AProc(sent) => ProcLowersRank(s, sent);
    case AWake(ready) => WakeLowers(s, ready);
    case APoll(sent) => PollLowersRank(s, sent);
  }

  // ----- schedules of the two threads ---------------------------------------------------------------

  ghost predicate IsSchedule(ss: seq<State>, acts: seq<Act>) {
    && |ss| == |acts| + 1
    && forall i | 0 <= i < |acts| :: Internal(acts[i]) && Enabled(ss[i], acts[i]) && ss[i + 1] == Next(ss[i], acts[i])
  }

  /** Neither thread has a step left. */
  ghost predicate Stuck(s: State) {
    forall a | Internal(a) :: !Enabled(s, a)
  }

  /** What the two threads leave as it was: the clock, the due times, and what clients started and stopped. */
  ghost predicate Settles(s: State, s': State) {
    && s'.now == s.now
    && s'.nextId == s.nextId
    && s'.clients.Keys == s.clients.Keys
    && (forall id | id in s'.delegates :: id in s.delegates && Canon(s'.delegates, id) == Canon(s.delegates, id)
                                           && s'.delegates[id].wake == s.delegates[id].wake)
    && (forall id | Stopped(id) in s'.log :: Stopped(id) in s.log)
    && (forall m | m in s'.lost && m.MsgPush? :: m in s.lost)
  }

  lemma {:induction false} StopReadSettles(s: State, c: ClientId, sent: bool)
    requires s.proc.Expiring?
    ensures Settles(s, StopRead(s, c, sent))
  {
    if c in s.clients {
      var log := LogIfRunning(s, c, true);
      assert forall e | e in log :: e in s.log || e.TimedOut?;
    }
  }

  lemma {:induction false} DeletingSettles(s: State, id: nat)
    ensures Settles(s, DeleteDelegate(s, id))
  {
  }

  lemma {:induction false} UpdateSettles(s: State)
    requires s.proc.Polling? || s.proc.Setting?
    ensures Settles(s, PollSetStep(s))
  {
  }

  lemma {:induction false} PopSettles(s: State)
    requires s.proc.Expiring? && s.cs.Get(s.proc.w).heap.Node?
    ensures Settles(s, PopAndRead(s))
  {
  }

  lemma {:induction false} ExpireSettles(s: State, sent: bool)
    requires s.proc.Expiring?
    ensures Settles(s, ExpireStep(s, sent))
  {
    match s.proc.call
    case ToStop(c) => StopReadSettles(s, c, sent);
    case ToCallBack(_, _) =>
    case NoCall =>
      if PopsNext(s) {
        PopSettles(s);
      }
  }

  lemma {:induction false} ProcSettles(s: State, sent: bool)
    requires !s.proc.Idle?
    ensures Settles(s, ProcStep(s, sent))
  {
    if s.proc.Expiring? {
      ExpireSettles(s, sent);
    } else if s.proc.Deleting? {
      DeletingSettles(s, s.proc.id);
    } else {
      UpdateSettles(s);
    }
  }

  lemma {:induction false} StepSettles(s: State, a: Act)
    requires Enabled(s, a) && Internal(a)
    ensures Settles(s, Next(s, a))
  {
    match a
    case ADeliver => match s.queue[0] { case MsgPush(_, _) => case MsgRemove(_, _) => case MsgExpire(_) => }
    case AProc(sent) => ProcSettles(s, sent);
    case AWake(_) =>
    case APoll(_) => match s.stage { case Disarm => case RemovePoll => case SendExpire => }
  }

  /** No schedule is longer than the rank of the state it starts from. */
  lemma {:induction false} EveryScheduleEnds(ss: seq<State>, acts: seq<Act>)
    requires IsSchedule(ss, acts) && Inv(ss[0])
    ensures |acts| + Rank(ss[|acts|]) <= Rank(ss[0])
    ensures Inv(ss[|acts|]) && Settles(ss[0], ss[|acts|])
  {
    if acts != [] {
      var n := |acts| - 1;
      EveryScheduleEnds(ss[..n + 1], acts[..n]);
      assert ss[..n + 1][n] == ss[n] && ss[..n + 1][0] == ss[0];
      StepLowersRank(ss[n], acts[n]);
      StepKeepsInv(ss[n], acts[n]);
      StepSettles(ss[n], acts[n]);
    }
  }

  /** And there is one that runs until neither thread has a step left. */
  lemma {:induction false} SomeScheduleEnds(s: State) returns (ss: seq<State>, acts: seq<Act>)
    requires Inv(s)
    ensures IsSchedule(ss, acts) && ss[0] == s && Stuck(ss[|acts|])
    decreases Rank(s)
  {
    if Stuck(s) {
      ss, acts := [s], [];
    } else {
      var a :| Internal(a) && Enabled(s, a);
      StepLowersRank(s, a);
      StepKeepsInv(s, a);
      var rest, more := SomeScheduleEnds(Next(s, a));
      ss, acts := [s] + rest, [a] + more;
      Prepend(s, a, rest, more);
    }
  }

  lemma {:induction false} Prepend(s: State, a: Act, rest: seq<State>, more: seq<Act>)
    requires Enabled(s, a) && Internal(a) && IsSchedule(rest, more) && rest[0] == Next(s, a)
    ensures IsSchedule([s] + rest, [a] + more) && ([s] + rest)[|more| + 1] == rest[|more|]
  {
    var ss, acts := [s] + rest, [a] + more;
    forall i | 0 <= i < |acts|
      ensures Internal(acts[i]) && Enabled(ss[i], acts[i]) && ss[i + 1] == Next(ss[i], acts[i])
    {
      if i > 0 {
        assert acts[i] == more[i - 1] && ss[i] == rest[i - 1] && ss[i + 1] == rest[i];
      }
    }
  }

  lemma {:induction false} StuckIsQuiet(s: State)
    requires Stuck(s) && !s.fault
    ensures Quiet(s) && !Readable(s, false) && !Readable(s, true)
  {
    assert !Enabled(s, ADeliver) && !Enabled(s, AProc(true)) && !Enabled(s, APoll(true));
    WakeOne(s, false);
    WakeOne(s, true);
    assert !Enabled(s, AWake([false])) && !Enabled(s, AWake([true]));
  }

  /**
   With neither thread able to step, every delegate left is without client exactly if its Remove was
   lost, and otherwise runs: not in its heap exactly if its Push was lost, or not yet due, or due in
   a container that is not polled because an Expire message was lost.
   */
  lemma {:induction false} NothingDueIsLeft(s: State, id: nat)
    requires Inv(s) && Stuck(s) && !s.fault && id in s.delegates
    ensures LeftBehind(s, id)
    ensures s.delegates[id].mClient.Some? ==>
              || !NotLater(s.delegates[id].mFutureTime, s.now)
              || MsgPush(s.delegates[id].wake, Canon(s.delegates, id)) in s.lost
              || s.delegates[id].wake in s.blind
  {
    StuckIsQuiet(s);
    QuietLeaves(s, id);
    var w := s.delegates[id].wake;
    var h := s.cs.Get(w).heap;
    assert HeapOk(s.delegates, s.queue, s.lost, w, h);
    if Canon(s.delegates, id) in Elems(h) && NotLater(s.delegates[id].mFutureTime, s.now) {
      TopIsSoonest(h, Canon(s.delegates, id));
      QuietIsSeen(s, w);
    }
  }

  /**
   From any reachable state, with clients and clock standing still, every schedule of the two
   threads ends. When it has ended, every timer due by then that was running has timed out and been
   called back, unless its Push was lost before or its container is left unpolled by a lost Expire
   message; and a delegate due by then is deleted unless one of its three messages was lost.
   */
  lemma {:induction false} DueTimersEnd(ss: seq<State>, acts: seq<Act>, id: nat)
    requires IsSchedule(ss, acts) && Reachable(ss[0])
    requires id in ss[0].delegates && NotLater(ss[0].delegates[id].mFutureTime, ss[0].now)
    ensures |acts| <= Rank(ss[0])
    ensures var s, s' := ss[0], ss[|acts|];
            var d := s.delegates[id];
            Stuck(s') && !s'.fault ==>
              && (d.mClient.Some? ==>
                    || (TimedOut(id) in s'.log && CalledBack(id) in s'.log)
                    || MsgPush(d.wake, Canon(s.delegates, id)) in s.lost
                    || d.wake in s'.blind)
              && (id in s'.delegates ==>
                    || MsgRemove(d.wake, Canon(s.delegates, id)) in s'.lost
                    || MsgPush(d.wake, Canon(s.delegates, id)) in s.lost
                    || d.wake in s'.blind)
  {
    var s, s' := ss[0], ss[|acts|];
    ReachableInv(s);
    EveryScheduleEnds(ss, acts);
    if Stuck(s') && !s'.fault {
      if id in s'.delegates {
        NothingDueIsLeft(s', id);
      }
      StuckIsQuiet(s');
      if s.delegates[id].mClient.Some? && (id !in s'.delegates || s'.delegates[id].mClient.None?) {
        NowTimedOut(s, s', id);
      }
    }
  }

  // A running timer has timed out once it has lost its client to the two threads.
  lemma {:induction false} NowTimedOut(s: State, s': State, id: nat)
    requires Owners(s) && Owners(s') && Settles(s, s') && s'.proc.Idle? && id in s.delegates && s.delegates[id].mClient.Some?
    requires id !in s'.delegates || s'.delegates[id].mClient.None?
    ensures TimedOut(id) in s'.log && CalledBack(id) in s'.log
  {
    assert DelegateOk(s.clients, s.delegates[id], id, s.nextId);
    assert LifeOk(s.delegates, s.log, id, PendingId(s.proc));
    assert LifeOk(s'.delegates, s'.log, id, PendingId(s'.proc));
  }

  /** The two threads by themselves fault only if the message thread points to a deleted client already. */
  lemma {:induction false} OnlyOldFaults(ss: seq<State>, acts: seq<Act>)
    requires IsSchedule(ss, acts) && Calm(ss[0])
    ensures Calm(ss[|acts|])
  {
    if acts != [] {
      var n := |acts| - 1;
      OnlyOldFaults(ss[..n + 1], acts[..n]);
      assert ss[..n + 1][n] == ss[n] && ss[..n + 1][0] == ss[0];
      InternalKeepsCalm(ss[n], acts[n]);
    }
  }

  lemma {:induction false} InternalKeepsCalm(s: State, a: Act)
    requires Calm(s) && Enabled(s, a) && Internal(a)
    ensures Calm(Next(s, a))
  {
    StepKeepsInv(s, a);
    FaultIsDeadClient(s, a);
    if HeldClient(Next(s, a).proc).Some? {
      OnlyDeleteTakes(s, a, HeldClient(Next(s, a).proc).value);
    }
  }
}
