/**
 The timer service as an object: the fields that LocTimer, LocTimerDelegate, LocSharedLock,
 LocTimerContainer and the two threads update in place, the containers being the objects of
 TimerContainer with their linked heaps. Each public method runs the statements of one step of
 TimerService.Next and is proved to take the state where that step's function does. A method follows
 every pointer without looking, so it asks that its step raise no fault; when that is so in a run
 is TimerServiceTheorems.FaultsExactly. `sent` is the outcome of the malloc for a message.
 */
module LocTimer {

  import opened Wrappers
  import opened TimerTime
  import opened HeapSpec
  import opened TimerContainer
  import opened Service = TimerService

  /** What the message thread has on its stack. */
  datatype Task =
    | NoTask
    | InLoop(w: bool, cutoff: Timespec, popped: seq<TimerRef>, call: Call)
    | BeforePoll(w: bool, update: Update, removed: Option<nat>)
    | BeforeSet(w: bool, update: Update, removed: Option<nat>)
    | BeforeDelete(id: nat)

  ghost function ProcOf(task: Task, start: Tree<TimerRef>): Proc {
    match task
    case NoTask => Idle
    case InLoop(w, cutoff, popped, call) => Expiring(w, cutoff, popped, start, call)
    case BeforePoll(w, u, r) => Polling(w, u, r)
    case BeforeSet(w, u, r) => Setting(w, u, r)
    case BeforeDelete(id) => Deleting(id)
  }

  // What a round of the expiry loop takes from a heap, and the update it asks for at the end.
  function NextOf(h: Tree<TimerRef>, cutoff: Timespec, first: bool): (Option<TimerRef>, Tree<TimerRef>, Update) {
    if Pops(h, cutoff, first) then (Some(h.data), Pop(ranks, h), Keep) else (None, h, UpdateFor(h, None))
  }

  method TakeNext(container: LocTimerContainer, cutoff: Timespec, first: bool) returns (timer: Option<TimerRef>, u: Update)
    requires container.Valid()
    modifies container.heap, container.heap.Nodes()
    ensures container.Valid() && container.heap.Nodes() <= old(container.heap.Nodes())
    ensures (timer, container.heap.Tree(), u) == NextOf(old(container.heap.Tree()), cutoff, first)
  {
    if first {
      timer := container.heap.Pop();
    } else {
      timer := container.PopIfOutRanks(cutoff);
    }
    u := Keep;
    if timer.None? {
      u := container.SoonestUpdate(None);
    }
  }

  class LocTimerService {
    var mTimer: map<ClientId, Option<nat>>
    var mRef: map<ClientId, int>
    var delegates: map<nat, Delegate>
    var nextId: nat
    var queue: seq<Msg>
    ghost var lost: set<Msg>
    ghost var blind: set<bool>
    const sw: LocTimerContainer
    const hw: LocTimerContainer
    var poll: seq<bool>
    var stage: Stage
    var task: Task
    ghost var start: Tree<TimerRef>
    var now: Clock
    ghost var log: seq<Event>

    ghost predicate Valid()
      reads sw, sw.heap, sw.heap.mTree, sw.heap.Nodes(), hw, hw.heap, hw.heap.mTree, hw.heap.Nodes()
    {
      && sw.Valid() && hw.Valid()
      && sw != hw && sw.heap != hw.heap && sw.heap.Nodes() !! hw.heap.Nodes()
    }

    ghost function Boxes(): Containers
      reads sw, sw.heap, sw.heap.mTree, hw, hw.heap, hw.heap.mTree
    {
      Containers(sw.St(), hw.St())
    }

    ghost function St(): State
      reads this, sw, sw.heap, sw.heap.mTree, hw, hw.heap, hw.heap.mTree
    {
      State(mTimer, mRef, delegates, nextId, queue, lost, blind, Boxes(), poll, stage, ProcOf(task, start), now, log, false)
    }

    constructor (now: Clock)
      ensures Valid() && St() == Init(now)
    {
      mTimer, mRef, delegates, nextId, queue, lost, blind := map[], map[], map[], 0, [], {}, {};
      sw := new LocTimerContainer();
      hw := new LocTimerContainer();
      poll, stage, task, this.now, log := [], Disarm, NoTask, now, [];
      start := Nil;
    }

    // MsgTask::sendMsg, which does not report whether msg_q_snd succeeded.
    method SendMsg(m: Msg, sent: bool)
      modifies this`queue, this`lost
      ensures St() == Send(old(St()), m, sent)
    {
      if sent {
        queue := queue + [m];
      } else {
        lost := lost + {m};
      }
    }

    // LocTimer::LocTimer.
    method NewTimer(c: ClientId)
      requires Valid() && Enabled(St(), ANew(c))
      modifies this`mTimer, this`mRef
      ensures Valid() && St() == Next(old(St()), ANew(c))
    {
      mTimer := mTimer[c := None];
      mRef := mRef[c := 1];
    }

    /** LocTimer::start. */
    method Start(c: ClientId, timeOutInMs: Uint32, wakeOnExpire: bool, sent: bool) returns (success: bool)
      requires Valid() && Enabled(St(), AStart(c, timeOutInMs, wakeOnExpire, sent))
      requires !Next(St(), AStart(c, timeOutInMs, wakeOnExpire, sent)).fault
      modifies this`mTimer, this`mRef, this`delegates, this`nextId, this`queue, this`lost, this`log
      ensures Valid() && St() == Next(old(St()), AStart(c, timeOutInMs, wakeOnExpire, sent))
      ensures c in mTimer && mTimer[c].Some? && (success <==> old(mTimer)[c].None?)
      ensures success ==> RunsFor(c, timeOutInMs, wakeOnExpire, sent)
      ensures !success ==> mTimer == old(mTimer) && delegates == old(delegates) && queue == old(queue) && lost == old(lost)
    {
      success := false;
      if mTimer[c].None? {
        var futureTime := FutureTime(now, timeOutInMs);
        Launch(c, futureTime, wakeOnExpire, sent);
        success := true;
      }
    }

    /** c's timer is due timeOutInMs from now, in the container asked for, and its Push is sent there, or lost. */
    ghost predicate RunsFor(c: ClientId, timeOutInMs: Uint32, wakeOnExpire: bool, sent: bool)
      requires c in mTimer && mTimer[c].Some?
      reads this
    {
      var id := mTimer[c].value;
      && id in delegates && delegates[id].mClient == Some(c) && delegates[id].wake == wakeOnExpire
      && Nanos(delegates[id].mFutureTime) == Nanos(now) + timeOutInMs * 1_000_000
      && var m := MsgPush(wakeOnExpire, TimerRef(id, delegates[id].mFutureTime));
         if sent then queue != [] && queue[|queue| - 1] == m else m in lost
    }

    method Launch(c: ClientId, futureTime: Timespec, wakeOnExpire: bool, sent: bool)
      requires c in mTimer && c in mRef && mTimer[c].None?
      modifies this`mTimer, this`mRef, this`delegates, this`nextId, this`queue, this`lost, this`log
      ensures St() == Service.Start(old(St()), c, futureTime, wakeOnExpire, sent)
    {
      var id := NewDelegate(c, futureTime, wakeOnExpire);
      SendMsg(MsgPush(wakeOnExpire, TimerRef(id, futureTime)), sent);
      mTimer := mTimer[c := Some(id)];
      log := log + [Started(id)];
    }

    // LocTimerDelegate's constructor up to the Push that it sends; it shares the lock.
    method NewDelegate(c: ClientId, futureTime: Timespec, wakeOnExpire: bool) returns (id: nat)
      requires c in mRef
      modifies this`mRef, this`delegates, this`nextId
      ensures id == old(nextId) && nextId == id + 1
      ensures mRef == old(mRef)[c := old(mRef)[c] + 1]
      ensures delegates == old(delegates)[id := Delegate(Some(c), c, futureTime, wakeOnExpire, true)]
    {
      id := nextId;
      nextId := nextId + 1;
      mRef := mRef[c := mRef[c] + 1];
      delegates := delegates[id := Delegate(Some(c), c, futureTime, wakeOnExpire, true)];
    }

    /** LocTimer::stop as a client calls it. */
    method StopTimer(c: ClientId, sent: bool) returns (success: bool)
      requires Valid() && Enabled(St(), AStop(c, sent)) && !Next(St(), AStop(c, sent)).fault
      modifies this`mTimer, this`delegates, this`queue, this`lost, this`log
      ensures Valid() && St() == Next(old(St()), AStop(c, sent)) && c in mTimer && mTimer[c].None?
      ensures success <==> old(mTimer)[c].Some?
    {
      success := StopAndLog(c, sent);
    }

    // LocTimer::stop, for the record.
    method StopAndLog(c: ClientId, sent: bool) returns (success: bool)
      requires Valid() && c in mTimer && !ClientStop(St(), c, sent).fault
      modifies this`mTimer, this`delegates, this`queue, this`lost, this`log
      ensures Valid() && St() == ClientStop(old(St()), c, sent)
      ensures success <==> old(mTimer)[c].Some?
    {
      ghost var ended := LogIfRunning(St(), c, false);
      success := Stop(c, sent);
      log := ended;
    }

    // LocTimer::stop.
    method Stop(c: ClientId, sent: bool) returns (success: bool)
      requires Valid() && c in mTimer && !Service.Stop(St(), c, sent).fault
      modifies this`mTimer, this`delegates, this`queue, this`lost
      ensures St() == Service.Stop(old(St()), c, sent)
      ensures success <==> old(mTimer)[c].Some?
    {
      success := false;
      if mTimer[c].Some? {
        var timer := mTimer[c].value;
        mTimer := mTimer[c := None];
        DestroyLocked(timer, sent);
        success := true;
      }
    }

    // LocTimerDelegate::destroyLocked.
    method DestroyLocked(id: nat, sent: bool)
      requires id in delegates
      modifies this`delegates, this`queue, this`lost
      ensures var d := old(delegates)[id];
              var s := old(St()).(delegates := old(delegates)[id := d.(mClient := None, hasContainer := false)]);
              St() == if d.hasContainer then Send(s, MsgRemove(d.wake, TimerRef(id, d.mFutureTime)), sent) else s
    {
      var had := delegates[id].hasContainer;
      delegates := delegates[id := delegates[id].(mClient := None, hasContainer := false)];
      if had {
        SendMsg(MsgRemove(delegates[id].wake, TimerRef(id, delegates[id].mFutureTime)), sent);
      }
    }

    // LocSharedLock::drop.
    method DropLock(c: ClientId)
      requires c in mRef
      modifies this`mRef
      ensures mRef == Drop(old(mRef), c)
    {
      var was := mRef[c];
      mRef := mRef[c := was - 1];
      if was == 1 {
        mRef := mRef - {c};
      }
    }

    /** LocTimer::~LocTimer. */
    method DeleteTimer(c: ClientId, sent: bool)
      requires Valid() && Enabled(St(), ADelete(c, sent)) && !Next(St(), ADelete(c, sent)).fault
      modifies this`mTimer, this`mRef, this`delegates, this`queue, this`lost, this`log
      ensures Valid() && St() == Next(old(St()), ADelete(c, sent)) && c !in mTimer
    {
      StopAndDrop(c, sent);
    }

    // The statements of the destructor.
    method StopAndDrop(c: ClientId, sent: bool)
      requires Valid() && c in mTimer && !Delete(St(), c, sent).fault
      modifies this`mTimer, this`mRef, this`delegates, this`queue, this`lost, this`log
      ensures Valid() && St() == Delete(old(St()), c, sent)
    {
      var _ := StopAndLog(c, sent);
      DropLock(c);
      mTimer := mTimer - {c};
    }

    /** One message off the queue, up to the first system call or to the loop of an Expire message. */
    method Deliver()
      requires Valid() && Enabled(St(), ADeliver) && !Next(St(), ADeliver).fault
      modifies this`queue, this`task, this`start, sw.heap, sw.heap.Nodes(), hw.heap, hw.heap.Nodes()
      ensures Valid() && fresh(sw.heap.Nodes() + hw.heap.Nodes() - old(sw.heap.Nodes() + hw.heap.Nodes()))
      ensures St() == Next(old(St()), ADeliver)
    {
      TakeMessage();
    }

    // msg_q_rcv, and msg->proc() up to there.
    method TakeMessage()
      requires Valid() && task.NoTask? && queue != [] && !Service.Deliver(St()).fault
      modifies this`queue, this`task, this`start, sw.heap, sw.heap.Nodes(), hw.heap, hw.heap.Nodes()
      ensures Valid() && fresh(sw.heap.Nodes() + hw.heap.Nodes() - old(sw.heap.Nodes() + hw.heap.Nodes()))
      ensures St() == Service.Deliver(old(St()))
    {
      var msg := Dequeue();
      match msg
      case MsgPush(w, t) => BeginPush(w, t);
      case MsgRemove(w, t) => BeginRemove(w, t);
      case MsgExpire(w) => BeginExpire(w);
    }

    method Dequeue() returns (msg: Msg)
      requires queue != []
      modifies this`queue
      ensures msg == old(queue)[0] && St() == old(St()).(queue := old(queue)[1..])
    {
      msg := queue[0];
      queue := queue[1..];
    }

    method BeginPush(w: bool, t: TimerRef)
      requires Valid() && task.NoTask? && t.id in delegates
      modifies this`task, sw.heap, sw.heap.Nodes(), hw.heap, hw.heap.Nodes()
      ensures Valid() && fresh(sw.heap.Nodes() + hw.heap.Nodes() - old(sw.heap.Nodes() + hw.heap.Nodes()))
      ensures St() == DeliverPush(old(St()), w, t)
    {
      var u := InsertInto(w, t);
      Continue(if u.Keep? then NoTask else BeforePoll(w, u, None));
    }

    method BeginRemove(w: bool, t: TimerRef)
      requires Valid() && task.NoTask? && t.id in delegates
      modifies this`task, sw.heap, sw.heap.Nodes(), hw.heap, hw.heap.Nodes()
      ensures Valid() && sw.heap.Nodes() <= old(sw.heap.Nodes()) && hw.heap.Nodes() <= old(hw.heap.Nodes())
      ensures St() == DeliverRemove(old(St()), w, t)
    {
      var u := ExtractFrom(w, t);
      Continue(if u.Keep? then BeforeDelete(t.id) else BeforePoll(w, u, Some(t.id)));
    }

    method BeginExpire(w: bool)
      requires Valid()
      modifies this`task, this`start
      ensures St() == old(St()).(proc := Expiring(w, now, [], Boxes().Get(w).heap, NoCall))
    {
      task := InLoop(w, now, [], NoCall);
      start := Boxes().Get(w).heap;
    }

    method Continue(next: Task)
      modifies this`task
      ensures task == next && St() == old(St()).(proc := ProcOf(next, start))
    {
      task := next;
    }

    // The heap of the container that a message points to.
    method InsertInto(w: bool, t: TimerRef) returns (u: Update)
      requires Valid()
      modifies sw.heap, sw.heap.Nodes(), hw.heap, hw.heap.Nodes()
      ensures Valid() && fresh(sw.heap.Nodes() + hw.heap.Nodes() - old(sw.heap.Nodes() + hw.heap.Nodes()))
      ensures St() == SetHeap(old(St()), w, HeapSpec.Push(ranks, old(Boxes()).Get(w).heap, t))
      ensures u == PushUpdate(old(Boxes()).Get(w).heap, t)
    {
      if w {
        u := hw.Insert(t);
      } else {
        u := sw.Insert(t);
      }
    }

    method ExtractFrom(w: bool, t: TimerRef) returns (u: Update)
      requires Valid()
      modifies sw.heap, sw.heap.Nodes(), hw.heap, hw.heap.Nodes()
      ensures Valid() && sw.heap.Nodes() <= old(sw.heap.Nodes()) && hw.heap.Nodes() <= old(hw.heap.Nodes())
      ensures St() == SetHeap(old(St()), w, HeapAfterRemove(old(Boxes()).Get(w).heap, t))
      ensures u == RemoveUpdate(old(Boxes()).Get(w).heap, t)
    {
      if w {
        u := hw.Extract(t);
      } else {
        u := sw.Extract(t);
      }
    }

    // The delegate that the loop takes next, or the update that the message ends with.
    method NextTimer(w: bool, cutoff: Timespec, first: bool) returns (timer: Option<TimerRef>, u: Update)
      requires Valid()
      modifies sw.heap, sw.heap.Nodes(), hw.heap, hw.heap.Nodes()
      ensures Valid() && sw.heap.Nodes() <= old(sw.heap.Nodes()) && hw.heap.Nodes() <= old(hw.heap.Nodes())
      ensures var next := NextOf(old(Boxes()).Get(w).heap, cutoff, first);
              timer == next.0 && u == next.2 && St() == SetHeap(old(St()), w, next.1)
    {
      if w {
        timer, u := TakeNext(hw, cutoff, first);
      } else {
        timer, u := TakeNext(sw, cutoff, first);
      }
    }

    /** One round of the loop of an Expire message with the reading of mClient, or its end. */
    method ExpireRound()
      requires Valid() && task.InLoop? && task.call.NoCall? && !Next(St(), AProc(true)).fault
      modifies this`task, sw.heap, sw.heap.Nodes(), hw.heap, hw.heap.Nodes()
      ensures Valid() && sw.heap.Nodes() <= old(sw.heap.Nodes()) && hw.heap.Nodes() <= old(hw.heap.Nodes())
      ensures forall sent :: St() == Next(old(St()), AProc(sent))
    {
      LoopRound();
    }

    // pop() or popIfOutRanks(), and the first statement of LocTimerDelegate::expire().
    method LoopRound()
      requires Valid() && task.InLoop? && task.call.NoCall? && !ExpireStep(St(), true).fault
      modifies this`task, sw.heap, sw.heap.Nodes(), hw.heap, hw.heap.Nodes()
      ensures Valid() && sw.heap.Nodes() <= old(sw.heap.Nodes()) && hw.heap.Nodes() <= old(hw.heap.Nodes())
      ensures forall sent :: St() == ExpireStep(old(St()), sent)
    {
      var timer, u := NextTimer(task.w, task.cutoff, task.popped == []);
      if timer.Some? {
        ReadClient(timer.value);
      } else {
        Continue(if u.Keep? then NoTask else BeforePoll(task.w, u, None));
      }
    }

    method ReadClient(timer: TimerRef)
      requires task.InLoop? && timer.id in delegates
      modifies this`task
      ensures var client := delegates[timer.id].mClient;
              var s := old(St());
              St() == s.(proc := s.proc.(popped := s.proc.popped + [timer],
                                         call := if client.None? then NoCall else ToStop(client.value)))
    {
      var client := delegates[timer.id].mClient;
      task := task.(popped := task.popped + [timer], call := if client.None? then NoCall else ToStop(client.value));
    }

    /** expire() goes on with the client that it has read: first stop(), */
    method StopClient(sent: bool)
      requires Valid() && task.InLoop? && task.call.ToStop? && !Next(St(), AProc(sent)).fault
      modifies this`mTimer, this`delegates, this`queue, this`lost, this`log, this`task
      ensures Valid() && St() == Next(old(St()), AProc(sent))
    {
      StopHeld(sent);
    }

    // client->stop().
    method StopHeld(sent: bool)
      requires Valid() && task.InLoop? && task.call.ToStop? && !ExpireStep(St(), sent).fault
      modifies this`mTimer, this`delegates, this`queue, this`lost, this`log, this`task
      ensures Valid() && St() == ExpireStep(old(St()), sent)
    {
      var client := task.call.c;
      ghost var ended := LogIfRunning(St(), client, true);
      var timer := mTimer[client];
      var stopped := Stop(client, sent);
      log := ended;
      Continue(task.(call := if stopped then ToCallBack(client, timer.value) else NoCall));
    }

    /** and, if that returned true, timeOutCallback(). */
    method CallClient()
      requires Valid() && task.InLoop? && task.call.ToCallBack? && !Next(St(), AProc(true)).fault
      modifies this`log, this`task
      ensures Valid() && forall sent :: St() == Next(old(St()), AProc(sent))
    {
      log := log + [CalledBack(task.call.id)];
      Continue(task.(call := NoCall));
    }

    /** The next system call of updateSoonestTime(). */
    method UpdateNext()
      requires Valid() && (task.BeforePoll? || task.BeforeSet?)
      modifies this`task, this`blind, sw`inPoll, sw`armed, hw`inPoll, hw`armed
      ensures Valid() && forall sent :: St() == Next(old(St()), AProc(sent))
    {
      UpdateCall();
    }

    // addPoll() or removePoll(), and then timerfd_settime().
    method UpdateCall()
      requires Valid() && (task.BeforePoll? || task.BeforeSet?)
      modifies this`task, this`blind, sw`inPoll, sw`armed, hw`inPoll, hw`armed
      ensures Valid() && St() == PollSetStep(old(St()))
    {
      if task.BeforePoll? {
        ControlPoll(task.w, task.update);
        Sighted(task.w, task.update);
        Continue(BeforeSet(task.w, task.update, task.removed));
      } else {
        SetTimer(task.w, task.update);
        Continue(if task.removed.None? then NoTask else BeforeDelete(task.removed.value));
      }
    }

    ghost method Sighted(w: bool, u: Update)
      modifies this`blind
      ensures St() == old(St()).(blind := if u.Arm? then old(blind) - {w} else old(blind))
    {
      blind := if u.Arm? then blind - {w} else blind;
    }

    method ControlPoll(w: bool, u: Update)
      requires Valid()
      modifies sw`inPoll, hw`inPoll
      ensures Valid() && St() == old(St()).(cs := old(Boxes()).Set(w, PollCall(old(Boxes()).Get(w), u)))
    {
      if w {
        hw.ControlPoll(u);
      } else {
        sw.ControlPoll(u);
      }
    }

    method SetTimer(w: bool, u: Update)
      requires Valid()
      modifies sw`armed, hw`armed
      ensures Valid() && St() == old(St()).(cs := old(Boxes()).Set(w, SetCall(old(Boxes()).Get(w), u)))
    {
      if w {
        hw.SetTimer(u);
      } else {
        sw.SetTimer(u);
      }
    }

    /** The end of a Remove message: LocTimerDelegate's destructor. */
    method DeleteRemoved()
      requires Valid() && task.BeforeDelete? && !Next(St(), AProc(true)).fault
      modifies this`delegates, this`mRef, this`log, this`task
      ensures Valid() && forall sent :: St() == Next(old(St()), AProc(sent))
    {
      var id := task.id;
      DropLock(delegates[id].mLock);
      delegates := delegates - {id};
      log := log + [Deleted(id)];
      Continue(NoTask);
    }

    /** epoll_wait returns in LocTimerPollTask::run(). */
    method Wake(ready: seq<bool>)
      requires Valid() && Enabled(St(), AWake(ready))
      modifies this`poll, this`stage
      ensures Valid() && St() == Next(old(St()), AWake(ready))
    {
      PollOn(ready, Disarm);
    }

    /** The next statement of LocTimerContainer::expire() in the poll thread. */
    method PollNext(sent: bool)
      requires Valid() && poll != []
      modifies this`queue, this`blind, this`poll, this`stage, sw`inPoll, sw`armed, hw`inPoll, hw`armed
      ensures Valid() && St() == Next(old(St()), APoll(sent))
    {
      PollStatement(sent);
    }

    // The statements of LocTimerContainer::expire().
    method PollStatement(sent: bool)
      requires Valid() && poll != []
      modifies this`queue, this`blind, this`poll, this`stage, sw`inPoll, sw`armed, hw`inPoll, hw`armed
      ensures Valid() && St() == PollStep(old(St()), sent)
    {
      var w := poll[0];
      match stage
      case Disarm =>
        SetTimer(w, Clear);
        PollOn(poll, RemovePoll);
      case RemovePoll =>
        ControlPoll(w, Clear);
        PollOn(poll, SendExpire);
      case SendExpire =>
        SendExpireMsg(w, sent);
        PollOn(poll[1..], Disarm);
    }

    method PollOn(rest: seq<bool>, next: Stage)
      modifies this`poll, this`stage
      ensures St() == old(St()).(poll := rest, stage := next)
    {
      poll, stage := rest, next;
    }

    // sendMsg() of an Expire message; `blind` records what its loss means.
    method SendExpireMsg(w: bool, sent: bool)
      modifies this`queue, this`blind
      ensures var s := old(St());
              St() == s.(queue := if sent then s.queue + [MsgExpire(w)] else s.queue,
                         blind := if sent || s.cs.Get(w).inPoll then s.blind else s.blind + {w})
    {
      blind := if sent || Boxes().Get(w).inPoll then blind else blind + {w};
      if sent {
        queue := queue + [MsgExpire(w)];
      }
    }
  }
}
