/**
 The timer service of gps/utils/LocTimer.cpp as a step system. Clients start, stop, create and
 delete LocTimer objects; the message thread takes one message at a time off its queue, makes the
 system calls of updateSoonestTime() one by one, and runs an Expire message pop by pop, with the
 reading of mClient, the stop() and the callback apart; the poll thread wakes on readable timerfds
 and goes through the three statements of LocTimerContainer::expire(); the clock moves on. Steps of
 different threads interleave in any order. What runs under a client's LocSharedLock is one step.
 A message may find no memory in the queue. sendMsg() does not report that, and the message is lost.
 Objects are named by numbers. `fault` is raised by any step that would follow a pointer to an
 object that has been deleted, and then the run is over.
 */
module TimerService {

  import opened Wrappers
  import opened TimerTime
  import opened HeapSpec
  import opened TimerContainer

  type ClientId = nat

  datatype Delegate = Delegate(
    mClient: Option<ClientId>,
    mLock: ClientId,           // the lock is named by the client that made it
    mFutureTime: Timespec,
    wake: bool,                // which container mContainer points to, while it is not NULL
    hasContainer: bool)

  datatype Msg =
    | MsgPush(w: bool, t: TimerRef)
    | MsgRemove(w: bool, t: TimerRef)
    | MsgExpire(w: bool)

  /** What LocTimerDelegate::expire() has still to do with the client that it has read. */
  datatype Call = NoCall | ToStop(c: ClientId) | ToCallBack(c: ClientId, id: nat)

  /**
   The message thread: between messages, inside the loop of an Expire message, before either system
   call of an update, or about to delete the delegate of a Remove message.
   */
  datatype Proc =
    | Idle
    | Expiring(w: bool, cutoff: Timespec, popped: seq<TimerRef>, start: Tree<TimerRef>, call: Call)
    | Polling(w: bool, update: Update, removed: Option<nat>)
    | Setting(w: bool, update: Update, removed: Option<nat>)
    | Deleting(id: nat)

  /** The statements of LocTimerContainer::expire() that the poll thread has still to run. */
  datatype Stage = Disarm | RemovePoll | SendExpire

  datatype Event =
    | Started(id: nat)
    | Stopped(id: nat)         // stop() returned true to a client
    | TimedOut(id: nat)        // stop() returned true to expire()
    | CalledBack(id: nat)      // timeOutCallback() was called
    | Deleted(id: nat)

  datatype Containers = Containers(sw: Container, hw: Container) {
    function Get(w: bool): Container { if w then hw else sw }

    function Set(w: bool, c: Container): Containers {
      if w then this.(hw := c) else this.(sw := c)
    }
  }

  datatype State = State(
    clients: map<ClientId, Option<nat>>,  // the live LocTimer objects and their mTimer
    locks: map<ClientId, int>,            // the live LocSharedLock objects and their mRef
    delegates: map<nat, Delegate>,        // the live LocTimerDelegate objects
    nextId: nat,
    queue: seq<Msg>,                      // oldest message first
    lost: set<Msg>,                       // the Push and Remove messages that found no memory
    blind: set<bool>,                     // containers out of the poll set since an Expire message was lost
    cs: Containers,
    poll: seq<bool>,                      // containers whose event the poll thread has still to handle
    stage: Stage,                         // how far it is with the first of them
    proc: Proc,
    now: Clock,
    log: seq<Event>,
    fault: bool)

  function Init(now: Clock): State {
    var c := Container(Nil, None, false);
    State(map[], map[], map[], 0, [], {}, {}, Containers(c, c), [], Disarm, Idle, now, [], false)
  }

  function Ref(s: State, id: nat): TimerRef
    requires id in s.delegates
  {
    TimerRef(id, s.delegates[id].mFutureTime)
  }

  /** MsgTask::sendMsg, for a Push or a Remove. */
  function Send(s: State, m: Msg, sent: bool): State {
    if sent then s.(queue := s.queue + [m]) else s.(lost := s.lost + {m})
  }

  // ----- client operations ---------------------------------------------------------------------

  /** LocTimer::LocTimer. */
  function New(s: State, c: ClientId): State {
    s.(clients := s.clients[c := None], locks := s.locks[c := 1])
  }

  /** LocTimer::start with the delegate's constructor; nothing happens while a timer is running. */
  function Start(s: State, c: ClientId, due: Timespec, wake: bool, sent: bool): State
    requires c in s.clients
  {
    if c !in s.locks then s.(fault := true)
    else if s.clients[c].Some? then s
    else
      var id := s.nextId;
      Send(s.(clients := s.clients[c := Some(id)],
              locks := s.locks[c := s.locks[c] + 1],
              delegates := s.delegates[id := Delegate(Some(c), c, due, wake, true)],
              nextId := id + 1,
              log := s.log + [Started(id)]),
           MsgPush(wake, TimerRef(id, due)), sent)
  }

  /** LocTimer::stop with destroyLocked; it returns true exactly when c's mTimer was set. */
  function Stop(s: State, c: ClientId, sent: bool): State
    requires c in s.clients
  {
    if c !in s.locks then s.(fault := true)
    else if s.clients[c].None? then s
    else
      var id := s.clients[c].value;
      if id !in s.delegates then s.(fault := true)
      else
        var d := s.delegates[id];
        var s' := s.(clients := s.clients[c := None],
                     delegates := s.delegates[id := d.(mClient := None, hasContainer := false)]);
        if d.hasContainer then Send(s', MsgRemove(d.wake, Ref(s, id)), sent) else s'
  }

  function LogIfRunning(s: State, c: ClientId, timedOut: bool): seq<Event>
    requires c in s.clients
  {
    if s.clients[c].None? then s.log
    else s.log + [if timedOut then TimedOut(s.clients[c].value) else Stopped(s.clients[c].value)]
  }

  function ClientStop(s: State, c: ClientId, sent: bool): State
    requires c in s.clients
  {
    Stop(s, c, sent).(log := LogIfRunning(s, c, false))
  }

  /** LocSharedLock::drop. */
  function Drop(locks: map<ClientId, int>, c: ClientId): map<ClientId, int>
    requires c in locks
  {
    if locks[c] == 1 then locks - {c} else locks[c := locks[c] - 1]
  }

  /** LocTimer::~LocTimer. */
  function Delete(s: State, c: ClientId, sent: bool): State
    requires c in s.clients
  {
    var s1 := ClientStop(s, c, sent);
    if c !in s1.locks then s1.(fault := true)
    else s1.(clients := s1.clients - {c}, locks := Drop(s1.locks, c))
  }

  // ----- the message thread --------------------------------------------------------------------

  function SetHeap(s: State, w: bool, h: Tree<TimerRef>): State {
    s.(cs := s.cs.Set(w, s.cs.Get(w).(heap := h)))
  }

  /** MsgTimerPush and MsgTimerRemove look at the delegate; here up to the first system call. */
  function DeliverPush(s: State, w: bool, t: TimerRef): State {
    var h := s.cs.Get(w).heap;
    var u := PushUpdate(h, t);
    if t.id !in s.delegates then s.(fault := true)
    else SetHeap(s, w, Push(ranks, h, t)).(proc := if u.Keep? then Idle else Polling(w, u, None))
  }

  function DeliverRemove(s: State, w: bool, t: TimerRef): State {
    var h := s.cs.Get(w).heap;
    var u := RemoveUpdate(h, t);
    if t.id !in s.delegates then s.(fault := true)
    else SetHeap(s, w, HeapAfterRemove(h, t)).(proc := if u.Keep? then Deleting(t.id) else Polling(w, u, Some(t.id)))
  }

  function Deliver(s: State): State
    requires s.queue != []
  {
    var s1 := s.(queue := s.queue[1..]);
    match s.queue[0]
    case MsgPush(w, t) => DeliverPush(s1, w, t)
    case MsgRemove(w, t) => DeliverRemove(s1, w, t)
    case MsgExpire(w) => s1.(proc := Expiring(w, s.now, [], s.cs.Get(w).heap, NoCall))
  }

  /** The next delegate is popped, and expire() reads its client. */
  function PopAndRead(s: State): State
    requires s.proc.Expiring? && s.cs.Get(s.proc.w).heap.Node?
  {
    var h := s.cs.Get(s.proc.w).heap;
    if h.data.id !in s.delegates then s.(fault := true)
    else
      var client := s.delegates[h.data.id].mClient;
      SetHeap(s, s.proc.w, Pop(ranks, h)).(
        proc := s.proc.(popped := s.proc.popped + [h.data],
                        call := if client.None? then NoCall else ToStop(client.value)))
  }

  /** The client that was read is stopped, whichever of its timers runs now. */
  function StopRead(s: State, c: ClientId, sent: bool): State
    requires s.proc.Expiring?
  {
    if c !in s.clients then s.(fault := true)
    else
      var call := if s.clients[c].None? then NoCall else ToCallBack(c, s.clients[c].value);
      Stop(s, c, sent).(log := LogIfRunning(s, c, true), proc := s.proc.(call := call))
  }

  function CallBack(s: State, c: ClientId, id: nat): State
    requires s.proc.Expiring?
  {
    if c !in s.clients then s.(fault := true)
    else s.(log := s.log + [CalledBack(id)], proc := s.proc.(call := NoCall))
  }

  predicate PopsNext(s: State)
    requires s.proc.Expiring?
  {
    Pops(s.cs.Get(s.proc.w).heap, s.proc.cutoff, s.proc.popped == [])
  }

  /** The next statement of MsgTimerExpire and of the expire() that it calls. */
  function ExpireStep(s: State, sent: bool): State
    requires s.proc.Expiring?
  {
    match s.proc.call
    case ToStop(c) => StopRead(s, c, sent)
    case ToCallBack(c, id) => CallBack(s, c, id)
    case NoCall =>
      if PopsNext(s) then PopAndRead(s)
      else
        var u := UpdateFor(s.cs.Get(s.proc.w).heap, None);
        s.(proc := if u.Keep? then Idle else Polling(s.proc.w, u, None))
  }

  /** The two system calls of an update, */
  function PollSetStep(s: State): State
    requires s.proc.Polling? || s.proc.Setting?
  {
    var w := s.proc.w;
    match s.proc
    case Polling(_, u, r) =>
      s.(cs := s.cs.Set(w, PollCall(s.cs.Get(w), u)),
         blind := if u.Arm? then s.blind - {w} else s.blind,
         proc := Setting(w, u, r))
    case Setting(_, u, r) =>
      s.(cs := s.cs.Set(w, SetCall(s.cs.Get(w), u)),
         proc := if r.None? then Idle else Deleting(r.value))
  }

  /** and the deletion of a delegate, which drops its lock. */
  function DeleteDelegate(s: State, id: nat): State {
    if id !in s.delegates || s.delegates[id].mLock !in s.locks then s.(fault := true)
    else s.(delegates := s.delegates - {id},
            locks := Drop(s.locks, s.delegates[id].mLock),
            log := s.log + [Deleted(id)],
            proc := Idle)
  }

  /** The message thread goes on with its message. */
  function ProcStep(s: State, sent: bool): State
    requires !s.proc.Idle?
  {
    match s.proc
    case Expiring(_, _, _, _, _) => ExpireStep(s, sent)
    case Polling(_, _, _) => PollSetStep(s)
    case Setting(_, _, _) => PollSetStep(s)
    case Deleting(id) => DeleteDelegate(s, id)
  }

  // ----- the poll thread -----------------------------------------------------------------------

  /** epoll_wait reports the fd: polled, armed, and the time has come. */
  predicate Readable(s: State, w: bool) {
    var c := s.cs.Get(w);
    c.inPoll && c.armed.Some? && NotLater(c.armed.value, s.now)
  }

  /** Without its Expire message a container that is not polled again stays so. */
  function PollStep(s: State, sent: bool): State
    requires s.poll != []
  {
    var w := s.poll[0];
    match s.stage
    case Disarm => s.(cs := s.cs.Set(w, s.cs.Get(w).(armed := None)), stage := RemovePoll)
    case RemovePoll => s.(cs := s.cs.Set(w, s.cs.Get(w).(inPoll := false)), stage := SendExpire)
    case SendExpire =>
      s.(queue := if sent then s.queue + [MsgExpire(w)] else s.queue,
         blind := if sent || s.cs.Get(w).inPoll then s.blind else s.blind + {w},
         poll := s.poll[1..], stage := Disarm)
  }

  // ----- steps and runs ------------------------------------------------------------------------

  /** `sent` says whether a message that the step sends finds memory. */
  datatype Act =
    | ANew(c: ClientId)
    | AStart(c: ClientId, ms: Uint32, wake: bool, sent: bool)
    | AStop(c: ClientId, sent: bool)
    | ADelete(c: ClientId, sent: bool)
    | ADeliver
    | AProc(sent: bool)
    | AWake(ready: seq<bool>)
    | APoll(sent: bool)
    | ATick(t: Clock)

  /** epoll_wait reports one or both containers. */
  predicate Enabled(s: State, a: Act) {
    !s.fault &&
    match a
    case ANew(c) => c !in s.clients && c !in s.locks
    case AStart(c, _, _, _) => c in s.clients
    case AStop(c, _) => c in s.clients
    case ADelete(c, _) => c in s.clients
    case ADeliver => s.proc.Idle? && s.queue != []
    case AProc(_) => !s.proc.Idle?
    case AWake(ready) => s.poll == [] && 1 <= |ready| <= 2 && forall w | w in ready :: Readable(s, w)
    case APoll(_) => s.poll != []
    case ATick(t) => NotLater(s.now, t)
  }

  function Next(s: State, a: Act): State
    requires Enabled(s, a)
  {
    match a
    case ANew(c) => New(s, c)
    case AStart(c, ms, wake, sent) => Start(s, c, DueTime(s.now, ms), wake, sent)
    case AStop(c, sent) => ClientStop(s, c, sent)
    case ADelete(c, sent) => Delete(s, c, sent)
    case ADeliver => Deliver(s)
    case AProc(sent) => ProcStep(s, sent)
    case AWake(ready) => s.(poll := ready, stage := Disarm)
    case APoll(sent) => PollStep(s, sent)
    case ATick(t) => s.(now := t)
  }

  /** ss are the states of a run and acts its steps, in any interleaving. */
  ghost predicate IsRun(ss: seq<State>, acts: seq<Act>) {
    && |ss| == |acts| + 1
    && (exists now: Clock :: Nanos(now) > 0 && ss[0] == Init(now))
    && (forall i | 0 <= i < |acts| :: Enabled(ss[i], acts[i]) && ss[i + 1] == Next(ss[i], acts[i]))
  }
}
