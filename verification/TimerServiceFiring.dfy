/**
 From a quiet state the service fires exactly the due timers, once the poll thread and the message
 thread have run. And runs in which something else happens: a timer fires early, because an Expire
 message pops its first timer unconditionally, or because expire() stops whatever timer its client
 runs by then; a due timer never fires, because its Expire message is lost; and expire() follows a
 pointer to a client that has been deleted.
 */
module TimerServiceFiring {

  import opened Wrappers
  import opened TimerTime
  import opened HeapSpec
  import opened TimerContainer
  import opened TimerService
  import opened TimerServiceProofs
  import opened TimerServiceTheorems

  // ----- the message thread alone -----------------------------------------------------------------

  /** The client that the message thread points to, if any, is there. */
  ghost predicate Calm(s: State) {
    Inv(s) && !s.fault && (HeldClient(s.proc).Some? ==> HeldClient(s.proc).value in s.clients)
  }

  lemma {:induction false} CalmStep(s: State, sent: bool)
    requires Calm(s) && !s.proc.Idle?
    ensures Calm(ProcStep(s, sent))
  {
    var a := AProc(sent);
    StepKeepsInv(s, a);
    FaultIsDeadClient(s, a);
    if HeldClient(Next(s, a).proc).Some? {
      OnlyDeleteTakes(s, a, HeldClient(Next(s, a).proc).value);
    }
  }

  function PhaseRank(p: Proc): nat {
    match p
    case Idle => 0
    case Deleting(_) => 1
    case Setting(_, _, _) => 2
    case Polling(_, _, _) => 3
    case Expiring(_, _, _, _, _) => 4
  }

  function CallRank(p: Proc): nat {
    if !p.Expiring? || p.call.NoCall? then 0 else if p.call.ToStop? then 2 else 1
  }

  ghost function LoopRank(s: State): nat {
    if s.proc.Expiring? then |Elems(s.cs.Get(s.proc.w).heap)| else 0
  }

  lemma {:induction false} StopReadLowers(s: State, c: ClientId, sent: bool)
    requires s.proc.Expiring? && s.proc.call == ToStop(c) && c in s.clients
    ensures var s' := StopRead(s, c, sent);
      s'.proc.Expiring? && s'.proc.w == s.proc.w && s'.cs == s.cs && CallRank(s'.proc) < CallRank(s.proc)
  {
  }

  lemma {:induction false} PopLowers(s: State)
    requires s.proc.Expiring? && s.proc.call.NoCall? && PopsNext(s) && s.cs.Get(s.proc.w).heap.data.id in s.delegates
    ensures var s' := PopAndRead(s); s'.proc.Expiring? && s'.proc.w == s.proc.w && LoopRank(s') < LoopRank(s)
  {
    PopElems(ranks, s.cs.Get(s.proc.w).heap);
  }

  // What a state's rank is made of goes down, the first part first.
  ghost predicate Lower(s': State, s: State) {
    || PhaseRank(s'.proc) < PhaseRank(s.proc)
    || (PhaseRank(s'.proc) == PhaseRank(s.proc) && LoopRank(s') < LoopRank(s))
    || (PhaseRank(s'.proc) == PhaseRank(s.proc) && LoopRank(s') == LoopRank(s) && CallRank(s'.proc) < CallRank(s.proc))
  }

  lemma {:induction false} ExpireLowers(s: State, sent: bool)
    requires s.proc.Expiring? && (HeldClient(s.proc).Some? ==> HeldClient(s.proc).value in s.clients)
    requires s.cs.Get(s.proc.w).heap.Node? ==> s.cs.Get(s.proc.w).heap.data.id in s.delegates
    ensures Lower(ExpireStep(s, sent), s)
  {
    match s.proc.call
    case NoCall =>
      if PopsNext(s) {
        PopLowers(s);
      }
    case ToStop(c) => StopReadLowers(s, c, sent);
    case ToCallBack(_, _) =>
  }

  lemma {:induction false} UpdateLowers(s: State)
    requires s.proc.Polling? || s.proc.Setting?
    ensures PhaseRank(PollSetStep(s).proc) < PhaseRank(s.proc)
  {
  }

  lemma {:induction false} DeletingLowers(s: State)
    requires Owners(s) && MailOf(s) && s.proc.Deleting?
    ensures DeleteDelegate(s, s.proc.id).proc.Idle?
  {
    DoomedOk(s);
  }

  lemma {:induction false} ProcLowers(s: State, sent: bool)
    requires Calm(s) && !s.proc.Idle?
    ensures Lower(ProcStep(s, sent), s)
  {
    if s.proc.Deleting? {
      DeletingLowers(s);
    } else if s.proc.Expiring? {
      HeapTimes(s, s.proc.w);
      ExpireLowers(s, sent);
    } else {
      UpdateLowers(s);
    }
  }

  /** It finishes its message. */
  ghost function Finish(s: State): State
    requires Calm(s)
    decreases PhaseRank(s.proc), LoopRank(s), CallRank(s.proc)
  {
    if s.proc.Idle? then s
    else
      CalmStep(s, true);
      ProcLowers(s, true);
      Finish(ProcStep(s, true))
  }

  /** id is among ps and still has its client. */
  ghost predicate Fires(ds: Delegates, ps: seq<TimerRef>, id: nat) {
    id in ds && ds[id].mClient.Some? && Canon(ds, id) in ps
  }

  /** id is the timer that expire() is about to stop, or one that the loop will pop. */
  ghost predicate WillTimeOut(s: State, id: nat) {
    s.proc.Expiring? &&
    (|| (s.proc.call.ToStop? && s.proc.call.c in s.clients && s.clients[s.proc.call.c] == Some(id))
     || Fires(s.delegates, Batch(s.cs.Get(s.proc.w).heap, s.proc.cutoff, s.proc.popped == []).0, id))
  }

  // The delegate popped runs for its client, if it still has one.
  predicate TopRuns(s: State, t: TimerRef) {
    && t.id in s.delegates && t == Canon(s.delegates, t.id)
    && (s.delegates[t.id].mClient.Some? ==>
          var c := s.delegates[t.id].mClient.value; c in s.clients && s.clients[c] == Some(t.id))
  }

  lemma {:induction false} PopIs(s: State)
    requires s.proc.Expiring? && s.proc.call.NoCall? && PopsNext(s) && s.cs.Get(s.proc.w).heap.data.id in s.delegates
    ensures var s' := PopAndRead(s);
            var h := s.cs.Get(s.proc.w).heap;
            var client := s.delegates[h.data.id].mClient;
      && s'.cs.Get(s.proc.w).heap == Pop(ranks, h)
      && s'.log == s.log && s'.delegates == s.delegates && s'.clients == s.clients
      && s'.proc == s.proc.(popped := s.proc.popped + [h.data],
                            call := if client.None? then NoCall else ToStop(client.value))
      && s'.proc.popped != []
  {
  }

  lemma FiresSplit(ds: Delegates, t: TimerRef, rest: seq<TimerRef>, id: nat)
    ensures Fires(ds, [t] + rest, id) <==> Fires(ds, [t], id) || Fires(ds, rest, id)
  {
  }

  lemma {:induction false} PopTimesOut(s: State, id: nat)
    requires s.proc.Expiring? && s.proc.call.NoCall? && PopsNext(s) && TopRuns(s, s.cs.Get(s.proc.w).heap.data)
    ensures PopAndRead(s).log == s.log
    ensures WillTimeOut(PopAndRead(s), id) <==> WillTimeOut(s, id)
  {
    var h := s.cs.Get(s.proc.w).heap;
    PopIs(s);
    BatchUnfolds(h, s.proc.cutoff, s.proc.popped == []);
    FiresSplit(s.delegates, h.data, Batch(Pop(ranks, h), s.proc.cutoff, false).0, id);
    assert Fires(s.delegates, [h.data], id) <==> s.delegates[h.data.id].mClient.Some? && id == h.data.id;
  }

  lemma {:induction false} TopIsRunning(s: State)
    requires Inv(s) && s.proc.Expiring? && PopsNext(s)
    ensures TopRuns(s, s.cs.Get(s.proc.w).heap.data)
  {
    var t := s.cs.Get(s.proc.w).heap.data;
    HeapTimes(s, s.proc.w);
    assert DelegateOk(s.clients, s.delegates[t.id], t.id, s.nextId);
  }

  lemma {:induction false} StopTimesOut(s: State, c: ClientId, id: nat)
    requires Inv(s) && s.proc.Expiring? && s.proc.call == ToStop(c) && c in s.clients && !s.fault
    ensures var s' := StopRead(s, c, true);
      TimedOut(id) in s'.log || WillTimeOut(s', id) <==> TimedOut(id) in s.log || WillTimeOut(s, id)
  {
    if s.clients[c].Some? {
      StopIs(s, c, s.clients[c].value, true);
    }
  }

  lemma {:induction false} StepTimesOut(s: State, id: nat)
    requires Calm(s) && !s.proc.Idle?
    ensures var s' := ProcStep(s, true);
      TimedOut(id) in s'.log || WillTimeOut(s', id) <==> TimedOut(id) in s.log || WillTimeOut(s, id)
  {
    if s.proc.Deleting? {
      DoomedOk(s);
    } else if s.proc.Expiring? {
      match s.proc.call
      case NoCall =>
        if PopsNext(s) {
          TopIsRunning(s);
          PopTimesOut(s, id);
        }
      case ToStop(c) => StopTimesOut(s, c, id);
      case ToCallBack(_, _) =>
    }
  }

  /** The message thread finishes its message by timing out just those, and has called them back. */
  lemma {:induction false} FinishFires(s: State, id: nat)
    requires Calm(s)
    ensures var s' := Finish(s);
            && Calm(s') && s'.proc.Idle?
            && (TimedOut(id) in s'.log <==> TimedOut(id) in s.log || WillTimeOut(s, id))
    decreases PhaseRank(s.proc), LoopRank(s), CallRank(s.proc)
  {
    if !s.proc.Idle? {
      CalmStep(s, true);
      ProcLowers(s, true);
      StepTimesOut(s, id);
      FinishFires(ProcStep(s, true), id);
    }
  }

  // ----- one round of both threads ----------------------------------------------------------------

  /** Nothing in flight: no message, no event, the message thread idle. */
  predicate Quiet(s: State) {
    s.queue == [] && s.poll == [] && s.proc.Idle?
  }

  /** epoll_wait returns, the poll thread runs expire(), the message thread takes the message. */
  function AfterWake(s: State, w: bool): State {
    s.(stage := Disarm,
       cs := s.cs.Set(w, s.cs.Get(w).(armed := None, inPoll := false)),
       proc := Expiring(w, s.now, [], s.cs.Get(w).heap, NoCall))
  }

  lemma {:induction false} PollRoundIs(s: State, w: bool)
    requires s.poll == [w] && s.stage == Disarm
    ensures PollStep(s, true).poll == [w] && PollStep(PollStep(s, true), true).poll == [w]
    ensures PollStep(PollStep(PollStep(s, true), true), true)
         == s.(poll := [], cs := s.cs.Set(w, s.cs.Get(w).(armed := None, inPoll := false)),
               queue := s.queue + [MsgExpire(w)])
  {
  }

  lemma {:induction false} PollRound(s: State, w: bool)
    requires Inv(s) && s.poll == [w] && s.stage == Disarm && !s.fault
    ensures PollStep(s, true).poll == [w] && PollStep(PollStep(s, true), true).poll == [w]
    ensures Inv(PollStep(PollStep(PollStep(s, true), true), true))
  {
    PollRoundIs(s, w);
    PollKeepsInv(s, true);
    PollTwice(PollStep(s, true));
  }

  lemma {:induction false} PollTwice(s: State)
    requires Inv(s) && s.poll != [] && PollStep(s, true).poll != [] && !s.fault
    ensures Inv(PollStep(PollStep(s, true), true))
  {
    PollKeepsInv(s, true);
    PollKeepsInv(PollStep(s, true), true);
  }

  lemma {:induction false} WakeSteps(s: State, w: bool)
    requires Inv(s) && Quiet(s) && Enabled(s, AWake([w]))
    ensures Calm(AfterWake(s, w))
    ensures AfterWake(s, w) == Deliver(PollStep(PollStep(PollStep(Next(s, AWake([w])), true), true), true))
  {
    var s1 := Next(s, AWake([w]));
    StepKeepsInv(s, AWake([w]));
    PollRoundIs(s1, w);
    PollRound(s1, w);
    RoundDelivered(PollStep(PollStep(PollStep(s1, true), true), true), w);
  }

  lemma {:induction false} RoundDelivered(s: State, w: bool)
    requires Inv(s) && s.queue == [MsgExpire(w)] && s.proc.Idle?
    ensures Deliver(s) == s.(queue := [], proc := Expiring(w, s.now, [], s.cs.Get(w).heap, NoCall)) && Calm(Deliver(s))
  {
    DeliverKeepsInv(s);
  }

  // In a quiet state the batch takes exactly the running timers of its container that are due.
  lemma {:induction false} DueIsInBatch(s: State, w: bool, id: nat)
    requires Inv(s) && Quiet(s) && id in s.delegates
    requires s.cs.Get(w).heap.Node? && NotLater(s.cs.Get(w).heap.data.time, s.now)
    ensures Fires(s.delegates, Batch(s.cs.Get(w).heap, s.now, true).0, id) <==> DueIn(s, w, id)
  {
    var h := s.cs.Get(w).heap;
    var t := Canon(s.delegates, id);
    QuietLeaves(s, id);
    assert HeapOk(s.delegates, s.queue, s.lost, w, h);
    assert t in Elems(h) ==> NodeOk(s.delegates, s.queue, s.lost, w, h, t);
    BatchIsTheDue(h, s.now, t);
    var ps := Batch(h, s.now, true).0;
    assert t in ps <==> t in multiset(ps);
  }

  /** A running timer of container w whose Push was delivered and whose time has come. */
  predicate DueIn(s: State, w: bool, id: nat)
    requires id in s.delegates
  {
    var d := s.delegates[id];
    d.mClient.Some? && d.wake == w && NotLater(d.mFutureTime, s.now) && MsgPush(w, Canon(s.delegates, id)) !in s.lost
  }

  /**
   In a quiet state in which the soonest timer of container w is due, the fd is readable unless an
   Expire message was lost, and then one round of the two threads times out exactly the timers that
   are in w and due.
   */
  lemma {:induction false} DueTimersFire(s: State, w: bool, id: nat)
    requires Inv(s) && Quiet(s) && id in s.delegates
    requires s.cs.Get(w).heap.Node? && NotLater(s.cs.Get(w).heap.data.time, s.now)
    ensures Enabled(s, AWake([w])) <==> w !in s.blind
    ensures w !in s.blind ==>
              && Calm(AfterWake(s, w))
              && var s' := Finish(AfterWake(s, w));
              && Calm(s') && s'.proc.Idle?
              && (TimedOut(id) in s'.log <==> TimedOut(id) in s.log || DueIn(s, w, id))
  {
    WakeOne(s, w);
    QuietIsSeen(s, w);
    if w !in s.blind {
      WakeSteps(s, w);
      FinishFires(AfterWake(s, w), id);
      DueIsInBatch(s, w, id);
    }
  }

  lemma {:induction false} QuietIsSeen(s: State, w: bool)
    requires Inv(s) && Quiet(s)
    requires s.cs.Get(w).heap.Node? && NotLater(s.cs.Get(w).heap.data.time, s.now)
    ensures !s.fault && (Readable(s, w) <==> w !in s.blind)
  {
    assert Watched(s.cs.Get(w), w, s.poll, s.stage, s.queue, s.proc, s.blind);
  }

  // ----- runs -------------------------------------------------------------------------------------

  ghost predicate Reachable(s: State) {
    exists ss, acts :: IsRun(ss, acts) && ss[|acts|] == s
  }

  lemma ReachableStep(s: State, a: Act)
    requires Reachable(s) && Enabled(s, a)
    ensures Reachable(Next(s, a))
  {
    var ss, acts :| IsRun(ss, acts) && ss[|acts|] == s;
    var ss', acts' := ss + [Next(s, a)], acts + [a];
    forall i | 0 <= i < |acts'|
      ensures Enabled(ss'[i], acts'[i]) && ss'[i + 1] == Next(ss'[i], acts'[i])
    {
      if i < |acts| {
        assert acts'[i] == acts[i] && ss'[i] == ss[i] && ss'[i + 1] == ss[i + 1];
      }
    }
    assert IsRun(ss', acts') && ss'[|acts'|] == Next(s, a);
  }

  lemma {:induction false} ReachableInv(s: State)
    requires Reachable(s)
    ensures Inv(s)
  {
    var ss, acts :| IsRun(ss, acts) && ss[|acts|] == s;
    RunKeepsInv(ss, acts, |acts|);
  }

  lemma InitReachable(now: Clock)
    requires Nanos(now) > 0
    ensures Reachable(Init(now))
  {
    var none: seq<Act> := [];
    assert IsRun([Init(now)], none) && [Init(now)][|none|] == Init(now);
  }

  // start(), the delivery of its Push into an empty container, and the two calls that arm it.
  lemma StartPushed(s: State, c: ClientId, ms: Uint32, due: Timespec) returns (s': State)
    requires Reachable(s) && !s.fault && s.queue == [] && s.cs.sw.heap.Nil? && s.proc.Idle?
    requires c in s.clients && s.clients[c].None? && c in s.locks && due == DueTime(s.now, ms) && Nanos(due) > 0
    ensures Reachable(s')
    ensures s' == Start(s, c, due, false, true).(
                    queue := [], blind := s.blind - {false},
                    cs := s.cs.(sw := Container(Leaf(TimerRef(s.nextId, due)), Some(due), true)))
  {
    var t := TimerRef(s.nextId, due);
    ReachableStep(s, AStart(c, ms, false, true));
    var s1 := Next(s, AStart(c, ms, false, true));
    assert s1.queue == [MsgPush(false, t)];
    OnlyNewTopsArm(s1.cs.sw.heap, t);
    ReachableStep(s1, ADeliver);
    var s2 := Next(s1, ADeliver);
    assert s2.proc == Polling(false, Arm(due), None) && s2.queue == [] && s2.cs.sw.heap == Leaf(t);
    s' := UpdateDone(s2);
  }

  // The two system calls.
  lemma UpdateDone(s: State) returns (s': State)
    requires Reachable(s) && !s.fault && s.proc.Polling? && s.proc.update.Arm? && s.proc.removed.None?
    requires Nanos(s.proc.update.time) > 0
    ensures Reachable(s')
    ensures var w, c := s.proc.w, s.cs.Get(s.proc.w);
            s' == s.(cs := s.cs.Set(w, Container(c.heap, Some(s.proc.update.time), true)),
                     blind := s.blind - {w}, proc := Idle)
  {
    ReachableStep(s, AProc(true));
    var s1 := Next(s, AProc(true));
    ReachableStep(s1, AProc(true));
    s' := Next(s1, AProc(true));
  }

  lemma TimeComes(s: State, t: Clock) returns (s': State)
    requires Reachable(s) && !s.fault && NotLater(s.now, t) && s.poll == []
    requires s.cs.sw.inPoll && s.cs.sw.armed == Some(t)
    ensures Reachable(s') && s' == s.(now := t, poll := [false], stage := Disarm)
  {
    ReachableStep(s, ATick(t));
    ReachableStep(s.(now := t), AWake([false]));
    s' := Next(s.(now := t), AWake([false]));
  }

  // A timer is started and pushed, and its fd armed.
  lemma FirstTimer() returns (s: State)
    ensures Reachable(s) && Quiet(s) && !s.fault && s.blind == {} && s.lost == {}
    ensures s.clients == map[0 := Some(0)] && s.locks == map[0 := 2] && s.nextId == 1 && s.now == Time(100, 0)
    ensures s.delegates == map[0 := Delegate(Some(0), 0, Time(101, 0), false, true)]
    ensures s.cs.sw == Container(Leaf(TimerRef(0, Time(101, 0))), Some(Time(101, 0)), true) && s.cs.hw.heap.Nil?
  {
    var s0 := Init(Time(100, 0));
    InitReachable(s0.now);
    ReachableStep(s0, ANew(0));
    s := StartPushed(Next(s0, ANew(0)), 0, 1000, Time(101, 0));
  }

  /** What DueTimersFire asks for, and a timer that it speaks of. */
  predicate QuietAndDue(s: State, id: nat) {
    && Quiet(s) && id in s.delegates && DueIn(s, false, id)
    && s.cs.sw.heap.Node? && NotLater(s.cs.sw.heap.data.time, s.now)
  }

  /** There are such states. */
  lemma {:induction false} DueTimersAreReached()
    ensures exists s: State, id: nat :: Reachable(s) && QuietAndDue(s, id) && false !in s.blind
  {
    var s := FirstTimer();
    ReachableStep(s, ATick(Time(101, 0)));
    var s' := Next(s, ATick(Time(101, 0)));
    assert Reachable(s') && QuietAndDue(s', 0) && false !in s'.blind;
  }

  // ----- an early expiry ------------------------------------------------------------------------

  predicate FiredEarly(s: State, id: nat) {
    id in s.delegates && CalledBack(id) in s.log && !NotLater(s.delegates[id].mFutureTime, s.now)
  }

  // stop(), the delivery of its Remove to a container with just that timer, and the deletion.
  lemma StopRemoved(s: State, c: ClientId, id: nat) returns (s': State)
    requires Reachable(s) && !s.fault && s.queue == [] && s.proc.Idle?
    requires c in s.clients && s.clients[c] == Some(id) && id in s.delegates && c in s.locks
    requires s.delegates[id] == Delegate(Some(c), c, s.delegates[id].mFutureTime, false, true)
    requires s.cs.sw.heap == Leaf(Ref(s, id)) && s.locks[c] == 2
    ensures Reachable(s')
    ensures s' == s.(clients := s.clients[c := None], locks := s.locks[c := 1],
                     cs := s.cs.(sw := s.cs.sw.(heap := Nil)), delegates := s.delegates - {id}, log := s'.log)
  {
    var t := Ref(s, id);
    ReachableStep(s, AStop(c, true));
    var s1 := Next(s, AStop(c, true));
    assert s1.queue == [MsgRemove(false, t)];
    OnlyNewTopsArm(s1.cs.sw.heap, t);
    ReachableStep(s1, ADeliver);
    var s2 := Next(s1, ADeliver);
    assert s2.proc == Deleting(id) && s2.queue == [] && s2.cs.sw.heap == Nil;
    ReachableStep(s2, AProc(true));
    s' := Next(s2, AProc(true));
    assert s'.delegates == s.delegates - {id};
  }

  // The poll thread is through, and the message thread has popped the only timer and read its client.
  lemma PollReads(s: State, c: ClientId, id: nat) returns (s': State)
    requires Reachable(s) && !s.fault && s.queue == [] && s.poll == [false] && s.stage == Disarm && s.proc.Idle?
    requires id in s.delegates && s.delegates[id].mClient == Some(c) && s.cs.sw.heap == Leaf(Ref(s, id))
    ensures Reachable(s')
    ensures s' == s.(poll := [], cs := s.cs.(sw := Container(Nil, None, false)), proc := s'.proc)
    ensures s'.proc.Expiring? && s'.proc.call == ToStop(c)
  {
    var s1 := UnpollSteps(s);
    ReachableStep(s1, APoll(true));
    var s2 := Next(s1, APoll(true));
    assert s2.queue == [MsgExpire(false)];
    ReachableStep(s2, ADeliver);
    var s3 := Next(s2, ADeliver);
    assert s3.cs.sw.heap == Leaf(Ref(s, id)) && s3.proc.popped == [] && s3.queue == [];
    ReachableStep(s3, AProc(true));
    s' := Next(s3, AProc(true));
  }

  lemma UnpollSteps(s: State) returns (s': State)
    requires Reachable(s) && !s.fault && s.poll == [false] && s.stage == Disarm
    ensures Reachable(s')
    ensures s' == s.(cs := s.cs.(sw := Container(s.cs.sw.heap, None, false)), stage := SendExpire)
  {
    ReachableStep(s, APoll(true));
    var s1 := Next(s, APoll(true));
    ReachableStep(s1, APoll(true));
    s' := Next(s1, APoll(true));
  }

  // expire() goes on: it stops the timer that its client runs by now, and calls back.
  lemma ReadFires(s: State, c: ClientId, id: nat) returns (s': State)
    requires Reachable(s) && !s.fault && s.proc.Expiring? && s.proc.call == ToStop(c)
    requires c in s.clients && c in s.locks && s.clients[c] == Some(id) && id in s.delegates
    ensures Reachable(s') && CalledBack(id) in s'.log && s'.now == s.now && forall m | m in s.queue :: m in s'.queue
    ensures id in s'.delegates && s'.delegates[id].mFutureTime == s.delegates[id].mFutureTime
  {
    ReachableStep(s, AProc(true));
    var s1 := Next(s, AProc(true));
    ReachableStep(s1, AProc(true));
    s' := Next(s1, AProc(true));
    assert CalledBack(id) in s'.log;
  }

  /**
   A timer can time out before its time: the fd fires for a timer that is stopped and replaced by a
   later one before the poll thread has sent its Expire message,
   */
  lemma {:induction false} TimerMayFireEarly()
    ensures exists s: State, id: nat :: Reachable(s) && FiredEarly(s, id)
  {
    var s0 := FirstTimer();
    var s1 := TimeComes(s0, Time(101, 0));
    var s2 := StopRemoved(s1, 0, 0);
    var s3 := StartPushed(s2, 0, 10000, Time(111, 0));
    var s4 := PollReads(s3, 0, 1);
    var s5 := ReadFires(s4, 0, 1);
    assert FiredEarly(s5, 1);
  }

  lemma Restarted(s: State) returns (s': State)
    requires Reachable(s) && !s.fault && s.clients == map[0 := Some(0)] && 0 in s.locks && s.nextId == 1
    requires 0 in s.delegates && s.now == Time(101, 0)
    ensures Reachable(s') && !s'.fault && s'.proc == s.proc && s'.now == s.now && 0 in s'.locks
    ensures s'.clients == map[0 := Some(1)] && 1 in s'.delegates && s'.delegates[1].mFutureTime == Time(111, 0)
    ensures MsgPush(false, Ref(s', 1)) in s'.queue
  {
    ReachableStep(s, AStop(0, true));
    var s1 := Next(s, AStop(0, true));
    assert s1.clients == map[0 := None] && !s1.fault && s1.proc == s.proc;
    ReachableStep(s1, AStart(0, 10000, false, true));
    s' := Next(s1, AStart(0, 10000, false, true));
    assert s'.queue[|s1.queue|] == MsgPush(false, TimerRef(1, Time(111, 0)));
  }

  /** or the client stops and starts again between the reading of mClient and the stop(). */
  lemma {:induction false} RestartMayFireEarly()
    ensures exists s: State, id: nat :: Reachable(s) && FiredEarly(s, id) && MsgPush(false, Ref(s, id)) in s.queue
  {
    var s0 := FirstTimer();
    var s1 := TimeComes(s0, Time(101, 0));
    var s2 := PollReads(s1, 0, 0);
    var s4 := Restarted(s2);
    var s5 := ReadFires(s4, 0, 1);
    assert FiredEarly(s5, 1);
    assert MsgPush(false, Ref(s5, 1)) in s5.queue;
  }

  // ----- what a lost message and a deleted client do ----------------------------------------------

  /** The Expire message of a due timer is lost, and nothing will ever fire it. */
  lemma {:induction false} LostExpireStrands()
    ensures exists s: State, id: nat :: Reachable(s) && QuietAndDue(s, id) && false in s.blind
  {
    var s0 := FirstTimer();
    var s1 := TimeComes(s0, Time(101, 0));
    var s2 := UnpollSteps(s1);
    ReachableStep(s2, APoll(false));
    var s3 := Next(s2, APoll(false));
    assert Reachable(s3) && QuietAndDue(s3, 0) && false in s3.blind;
  }

  /** A client is deleted after expire() has read it, and expire() goes on to stop it. */
  lemma {:induction false} DeletedClientIsUsed()
    ensures exists s: State :: Reachable(s) && s.fault
  {
    var s0 := FirstTimer();
    var s1 := TimeComes(s0, Time(101, 0));
    var s2 := PollReads(s1, 0, 0);
    ReachableInv(s2);
    ReachableStep(s2, ADelete(0, true));
    var s3 := Next(s2, ADelete(0, true));
    DeleteKeepsInv(s2, 0, true);
    assert 0 !in s3.clients && s3.proc == s2.proc;
    ReachableStep(s3, AProc(true));
    assert Next(s3, AProc(true)).fault;
  }
}
