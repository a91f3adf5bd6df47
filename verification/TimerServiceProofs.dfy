/**
 What every step of the timer service keeps, and what follows for whole runs.
 */
module TimerServiceProofs {

  import opened Wrappers
  import opened TimerTime
  import opened HeapSpec
  import opened TimerContainer
  import opened TimerService

  type Delegates = map<nat, Delegate>
  type Clients = map<ClientId, Option<nat>>
  type Locks = map<ClientId, int>

  // ----- the invariant, component by component --------------------------------------------------

  function Canon(ds: Delegates, id: nat): TimerRef
    requires id in ds
  {
    TimerRef(id, ds[id].mFutureTime)
  }

  /** mTimer and mClient mirror each other. */
  ghost predicate ObjInv(cl: Clients, ds: Delegates, nextId: nat) {
    && (forall c | c in cl && cl[c].Some? :: cl[c].value in ds && ds[cl[c].value].mClient == Some(c))
    && (forall id | id in ds :: DelegateOk(cl, ds[id], id, nextId))
  }

  ghost predicate DelegateOk(cl: Clients, d: Delegate, id: nat, nextId: nat) {
    && id < nextId
    && Nanos(d.mFutureTime) > 0
    && (d.hasContainer <==> d.mClient.Some?)
    && (d.mClient.Some? ==> d.mClient.value in cl && cl[d.mClient.value] == Some(id) && d.mLock == d.mClient.value)
  }

  function Holders(ds: Delegates, c: ClientId): set<nat> {
    set id | id in ds && ds[id].mLock == c
  }

  /** mRef counts the live LocTimer and the live delegates that share the lock. */
  ghost predicate LockInv(cl: Clients, locks: Locks, ds: Delegates) {
    && (forall c | c in cl :: c in locks)
    && (forall id | id in ds :: ds[id].mLock in locks)
    && (forall c | c in locks :: LockOk(cl, locks, ds, c))
  }

  ghost predicate LockOk(cl: Clients, locks: Locks, ds: Delegates, c: ClientId)
    requires c in locks
  {
    locks[c] >= 1 && locks[c] == (if c in cl then 1 else 0) + |Holders(ds, c)|
  }

  // ----- what the message thread holds

  /** The delegate that it is about to delete. */
  function Doomed(p: Proc): Option<nat> {
    match p
    case Polling(_, _, r) => r
    case Setting(_, _, r) => r
    case Deleting(id) => Some(id)
    case Idle => None
    case Expiring(_, _, _, _, _) => None
  }

  /** The delegate whose client it has read and not yet stopped. */
  function ReadId(p: Proc): Option<nat> {
    if p.Expiring? && p.call.ToStop? && p.popped != [] then Some(p.popped[|p.popped| - 1].id) else None
  }

  /** The delegate whose client it has stopped and not yet called back. */
  function PendingId(p: Proc): Option<nat> {
    if p.Expiring? && p.call.ToCallBack? then Some(p.call.id) else None
  }

  /** The client to which it has a pointer. */
  function HeldClient(p: Proc): Option<ClientId> {
    if p.Expiring? && !p.call.NoCall? then Some(p.call.c) else None
  }

  // ----- the messages

  /** Two messages about one delegate are its Push followed by its Remove. */
  predicate Compatible(a: Msg, b: Msg) {
    a.MsgExpire? || b.MsgExpire? || a.t.id != b.t.id || (a.MsgPush? && b.MsgRemove?)
  }

  /** A message refers to a live delegate; a Remove to one that was stopped. */
  predicate MsgOk(ds: Delegates, m: Msg) {
    m.MsgExpire? ||
    (m.t.id in ds && m.t == Canon(ds, m.t.id) && m.w == ds[m.t.id].wake && (m.MsgRemove? ==> ds[m.t.id].mClient.None?))
  }

  predicate Mailed(q: seq<Msg>, lost: set<Msg>, m: Msg) {
    m in q || m in lost
  }

  /** Once stopped, a delegate's Remove is queued, or lost, or being handled. */
  ghost predicate QueueInv(ds: Delegates, q: seq<Msg>, lost: set<Msg>, doomed: Option<nat>) {
    && (forall i, j | 0 <= i < j < |q| :: Compatible(q[i], q[j]))
    && (forall m | m in q :: MsgOk(ds, m))
    && (forall id | id in ds && ds[id].mClient.None? ::
          Mailed(q, lost, MsgRemove(ds[id].wake, Canon(ds, id))) || doomed == Some(id))
  }

  /** A delegate whose Remove is lost stays. */
  ghost predicate LostInv(ds: Delegates, nextId: nat, q: seq<Msg>, lost: set<Msg>) {
    forall m | m in lost :: !m.MsgExpire? && m.t.id < nextId && m !in q && (m.MsgRemove? ==> MsgOk(ds, m))
  }

  /** The delegate to be deleted is stopped and nobody refers to it any more. */
  ghost predicate DoomInv(ds: Delegates, q: seq<Msg>, lost: set<Msg>, cs: Containers, doomed: Option<nat>) {
    doomed.Some? ==>
      var id := doomed.value;
      && id in ds && ds[id].mClient.None?
      && (forall m | m in q && !m.MsgExpire? :: m.t.id != id)
      && MsgRemove(ds[id].wake, Canon(ds, id)) !in lost
      && (forall t | t in Elems(cs.sw.heap) :: t.id != id)
      && (forall t | t in Elems(cs.hw.heap) :: t.id != id)
  }

  /** A heap holds live delegates of its own container, each once and none whose Push is not delivered. */
  ghost predicate HeapOk(ds: Delegates, q: seq<Msg>, lost: set<Msg>, w: bool, h: Tree<TimerRef>) {
    && Heap(ranks, h)
    && (forall t | t in Elems(h) :: NodeOk(ds, q, lost, w, h, t))
  }

  ghost predicate NodeOk(ds: Delegates, q: seq<Msg>, lost: set<Msg>, w: bool, h: Tree<TimerRef>, t: TimerRef) {
    && t.id in ds && t == Canon(ds, t.id) && ds[t.id].wake == w
    && Elems(h)[t] == 1
    && !Mailed(q, lost, MsgPush(w, t))
  }

  ghost predicate HeapInv(ds: Delegates, q: seq<Msg>, lost: set<Msg>, cs: Containers, read: Option<nat>) {
    && HeapOk(ds, q, lost, false, cs.sw.heap)
    && HeapOk(ds, q, lost, true, cs.hw.heap)
    && (forall id | id in ds && ds[id].mClient.Some? :: Ticking(ds, q, lost, cs, id) || read == Some(id))
  }

  /** The delegate is in its heap, or its Push is under way or lost. */
  ghost predicate Ticking(ds: Delegates, q: seq<Msg>, lost: set<Msg>, cs: Containers, id: nat)
    requires id in ds
  {
    || Mailed(q, lost, MsgPush(ds[id].wake, Canon(ds, id)))
    || Canon(ds, id) in Elems(cs.Get(ds[id].wake).heap)
  }

  ghost predicate Mail(
      ds: Delegates, nextId: nat, q: seq<Msg>, lost: set<Msg>, cs: Containers, doomed: Option<nat>, read: Option<nat>)
  {
    && QueueInv(ds, q, lost, doomed)
    && LostInv(ds, nextId, q, lost)
    && DoomInv(ds, q, lost, cs, doomed)
    && HeapInv(ds, q, lost, cs, read)
  }

  // ----- the timerfds

  /** The poll thread has still to disarm the container, or to take it out of the poll set. */
  predicate Claimed(poll: seq<bool>, stage: Stage, w: bool) {
    w in poll && (stage != SendExpire || w in poll[1..])
  }

  /** The message thread is in a message of this container that leads to both calls, or to the second only. */
  predicate WillPoll(proc: Proc, w: bool) {
    (proc.Expiring? || proc.Polling?) && proc.w == w
  }

  predicate WillSet(proc: Proc, w: bool) {
    WillPoll(proc, w) || (proc.Setting? && proc.w == w)
  }

  /**
   A polled fd is armed with the soonest time, unless one of the threads is about to change that.
   A fd that is not polled will be, or an Expire message has been lost.
   */
  predicate Watched(c: Container, w: bool, poll: seq<bool>, stage: Stage, q: seq<Msg>, proc: Proc, blind: set<bool>) {
    && (c.heap.Node? && c.inPoll && !Claimed(poll, stage, w) && !WillSet(proc, w) ==> Armed(c))
    && (c.heap.Node? && !c.inPoll && !WillPoll(proc, w) ==> w in poll || MsgExpire(w) in q || w in blind)
    && (w in blind ==> !c.inPoll)
  }

  predicate UpdateOk(cs: Containers, proc: Proc) {
    proc.Polling? || proc.Setting? ==>
      cs.Get(proc.w).heap.Node? && proc.update == Arm(cs.Get(proc.w).heap.data.time)
  }

  ghost predicate Fds(
      cs: Containers, poll: seq<bool>, stage: Stage, q: seq<Msg>, proc: Proc, blind: set<bool>)
  {
    && Watched(cs.sw, false, poll, stage, q, proc, blind)
    && Watched(cs.hw, true, poll, stage, q, proc, blind)
    && UpdateOk(cs, proc)
  }

  // ----- the history

  function Phase(e: Event): nat {
    match e
    case Started(_) => 0
    case Stopped(_) => 1
    case TimedOut(_) => 1
    case CalledBack(_) => 2
    case Deleted(_) => 3
  }

  ghost predicate LogInv(ds: Delegates, nextId: nat, log: seq<Event>, pending: Option<nat>) {
    && (forall i, j | 0 <= i < j < |log| && log[i].id == log[j].id :: Phase(log[i]) < Phase(log[j]))
    && (forall e | e in log :: e.id < nextId)
    && (forall id: nat | id < nextId :: LifeOk(ds, log, id, pending))
  }

  ghost predicate LifeOk(ds: Delegates, log: seq<Event>, id: nat, pending: Option<nat>) {
    && Started(id) in log
    && (Deleted(id) in log <==> id !in ds)
    && (Stopped(id) in log || TimedOut(id) in log <==> id !in ds || ds[id].mClient.None?)
    && (CalledBack(id) in log <==> TimedOut(id) in log && pending != Some(id))
  }

  // ----- an expiry

  /**
   What an Expire message has popped and will pop is the batch of the heap it started with, and
   no delegate it popped keeps its client, but for the last while its client is read.
   */
  ghost predicate BatchInv(ds: Delegates, nextId: nat, cs: Containers, proc: Proc) {
    proc.Expiring? ==>
      && Heap(ranks, proc.start)
      && Batch(proc.start, proc.cutoff, true).0 ==
           proc.popped + Batch(cs.Get(proc.w).heap, proc.cutoff, proc.popped == []).0
      && Batch(proc.start, proc.cutoff, true).1 ==
           Batch(cs.Get(proc.w).heap, proc.cutoff, proc.popped == []).1
      && forall p | p in proc.popped :: Ended(ds, nextId, p.id) || ReadId(proc) == Some(p.id)
  }

  predicate Ended(ds: Delegates, nextId: nat, id: nat) {
    id < nextId && (id in ds ==> ds[id].mClient.None?)
  }

  /** The delegate whose client is held keeps the lock of that client, if not the client, alive. */
  predicate CallOk(ds: Delegates, log: seq<Event>, proc: Proc) {
    proc.Expiring? ==>
      match proc.call
      case NoCall => true
      case ToStop(c) =>
        proc.popped != [] &&
        var id := proc.popped[|proc.popped| - 1].id;
        && id in ds && proc.popped[|proc.popped| - 1] == Canon(ds, id)
        && ds[id].mLock == c && (ds[id].mClient.None? || ds[id].mClient == Some(c))
      case ToCallBack(c, id) =>
        id in ds && ds[id].mLock == c && ds[id].mClient.None? && TimedOut(id) in log
  }

  ghost predicate Owners(s: State) {
    && ObjInv(s.clients, s.delegates, s.nextId)
    && LockInv(s.clients, s.locks, s.delegates)
    && LogInv(s.delegates, s.nextId, s.log, PendingId(s.proc))
  }

  /** The only pointer that may dangle is to a client read by expire(). */
  predicate FaultOk(s: State) {
    s.fault ==> HeldClient(s.proc).Some? && HeldClient(s.proc).value !in s.clients
  }

  ghost predicate MailOf(s: State) {
    Mail(s.delegates, s.nextId, s.queue, s.lost, s.cs, Doomed(s.proc), ReadId(s.proc))
  }

  ghost predicate FdsOf(s: State) {
    Fds(s.cs, s.poll, s.stage, s.queue, s.proc, s.blind)
  }

  ghost predicate ExpiryOf(s: State) {
    && BatchInv(s.delegates, s.nextId, s.cs, s.proc)
    && CallOk(s.delegates, s.log, s.proc)
  }

  ghost predicate Inv(s: State) {
    Owners(s) && MailOf(s) && FdsOf(s) && ExpiryOf(s) && FaultOk(s) && Nanos(s.now) > 0
  }

  lemma InitInv(s: State, now: Clock)
    requires s == Init(now) && Nanos(now) > 0
    ensures Inv(s)
  {
  }

  // Without client and container, as destroyLocked leaves it.
  function Detached(ds: Delegates, id: nat): Delegates
    requires id in ds
  {
    ds[id := ds[id].(mClient := None, hasContainer := false)]
  }

  function Queued(q: seq<Msg>, m: Msg, sent: bool): seq<Msg> {
    if sent then q + [m] else q
  }

  function LostTo(lost: set<Msg>, m: Msg, sent: bool): set<Msg> {
    if sent then lost else lost + {m}
  }

  // ----- stop ---------------------------------------------------------------------------------

  lemma {:induction false} StopKeepsObjects(cl: Clients, ds: Delegates, nextId: nat, c: ClientId, id: nat)
    requires ObjInv(cl, ds, nextId) && c in cl && cl[c] == Some(id)
    ensures id in ds && ds[id].mClient == Some(c) && ds[id].hasContainer
    ensures ObjInv(cl[c := None], Detached(ds, id), nextId)
  {
    assert DelegateOk(cl, ds[id], id, nextId);
    var cl' := cl[c := None];
    var ds' := Detached(ds, id);
    forall i | i in ds' ensures DelegateOk(cl', ds'[i], i, nextId) {
      assert DelegateOk(cl, ds[i], i, nextId);
    }
  }

  /** Same delegates, same locks: the holders are the same. */
  lemma HoldersSame(ds: Delegates, ds': Delegates, c: ClientId)
    requires ds.Keys == ds'.Keys && forall id | id in ds :: ds'[id].mLock == ds[id].mLock
    ensures Holders(ds', c) == Holders(ds, c)
  {
  }

  lemma {:induction false} StopKeepsLocks(cl: Clients, locks: Locks, ds: Delegates, c: ClientId, id: nat)
    requires LockInv(cl, locks, ds) && c in cl && id in ds
    ensures LockInv(cl[c := None], locks, Detached(ds, id))
  {
    var ds' := Detached(ds, id);
    forall k | k in locks ensures LockOk(cl[c := None], locks, ds', k) {
      assert LockOk(cl, locks, ds, k);
      HoldersSame(ds, ds', k);
    }
  }

  lemma {:induction false} StopKeepsQueue(
      ds: Delegates, q: seq<Msg>, lost: set<Msg>, doomed: Option<nat>, id: nat, sent: bool)
    requires QueueInv(ds, q, lost, doomed) && id in ds && ds[id].mClient.Some?
    ensures var m := MsgRemove(ds[id].wake, Canon(ds, id));
            QueueInv(Detached(ds, id), Queued(q, m, sent), LostTo(lost, m, sent), doomed)
  {
    var ds' := Detached(ds, id);
    var m := MsgRemove(ds[id].wake, Canon(ds, id));
    var q', lost' := Queued(q, m, sent), LostTo(lost, m, sent);
    forall i, j | 0 <= i < j < |q'| ensures Compatible(q'[i], q'[j]) {
      if j == |q| {
        assert q[i] in q;
        assert MsgOk(ds, q[i]);
      }
    }
    forall x | x in q' ensures MsgOk(ds', x) {
      if x in q {
        assert MsgOk(ds, x);
      }
    }
    forall i | i in ds' && ds'[i].mClient.None?
      ensures Mailed(q', lost', MsgRemove(ds'[i].wake, Canon(ds', i))) || doomed == Some(i)
    {
      if i != id {
        assert Mailed(q, lost, MsgRemove(ds[i].wake, Canon(ds, i))) || doomed == Some(i);
      }
    }
  }

  lemma {:induction false} StopKeepsLost(ds: Delegates, nextId: nat, q: seq<Msg>, lost: set<Msg>, id: nat, sent: bool)
    requires LostInv(ds, nextId, q, lost) && id in ds && ds[id].mClient.Some? && id < nextId
    requires forall m | m in q :: MsgOk(ds, m)
    ensures var m := MsgRemove(ds[id].wake, Canon(ds, id));
            LostInv(Detached(ds, id), nextId, Queued(q, m, sent), LostTo(lost, m, sent))
  {
    var m := MsgRemove(ds[id].wake, Canon(ds, id));
    assert !MsgOk(ds, m);
  }

  /** Heaps look at identity, time and container of a delegate, and at Push messages only. */
  ghost predicate SameForHeaps(ds: Delegates, q: seq<Msg>, lost: set<Msg>, ds': Delegates, q': seq<Msg>, lost': set<Msg>) {
    && (forall id | id in ds :: id in ds' && Canon(ds', id) == Canon(ds, id) && ds'[id].wake == ds[id].wake)
    && (forall w, t :: Mailed(q', lost', MsgPush(w, t)) <==> Mailed(q, lost, MsgPush(w, t)))
  }

  lemma {:induction false} HeapOkFrame(
      ds: Delegates, q: seq<Msg>, lost: set<Msg>, ds': Delegates, q': seq<Msg>, lost': set<Msg>, w: bool, h: Tree<TimerRef>)
    requires HeapOk(ds, q, lost, w, h) && SameForHeaps(ds, q, lost, ds', q', lost')
    ensures HeapOk(ds', q', lost', w, h)
  {
    forall t | t in Elems(h) ensures NodeOk(ds', q', lost', w, h, t) {
      assert NodeOk(ds, q, lost, w, h, t);
    }
  }

  lemma {:induction false} HeapFrame(
      ds: Delegates, q: seq<Msg>, lost: set<Msg>, ds': Delegates, q': seq<Msg>, lost': set<Msg>,
      cs: Containers, read: Option<nat>)
    requires HeapInv(ds, q, lost, cs, read) && SameForHeaps(ds, q, lost, ds', q', lost')
    requires forall id | id in ds' && ds'[id].mClient.Some? :: id in ds && ds[id].mClient.Some?
    ensures HeapInv(ds', q', lost', cs, read)
  {
    HeapOkFrame(ds, q, lost, ds', q', lost', false, cs.sw.heap);
    HeapOkFrame(ds, q, lost, ds', q', lost', true, cs.hw.heap);
    forall id | id in ds' && ds'[id].mClient.Some? ensures Ticking(ds', q', lost', cs, id) || read == Some(id) {
      assert Ticking(ds, q, lost, cs, id) || read == Some(id);
    }
  }

  lemma {:induction false} StopMail(
      ds: Delegates, nextId: nat, q: seq<Msg>, lost: set<Msg>, cs: Containers, doomed: Option<nat>, read: Option<nat>,
      id: nat, sent: bool)
    requires Mail(ds, nextId, q, lost, cs, doomed, read) && id in ds && ds[id].mClient.Some? && id < nextId
    ensures var m := MsgRemove(ds[id].wake, Canon(ds, id));
            Mail(Detached(ds, id), nextId, Queued(q, m, sent), LostTo(lost, m, sent), cs, doomed, read)
  {
    var m := MsgRemove(ds[id].wake, Canon(ds, id));
    StopKeepsQueue(ds, q, lost, doomed, id, sent);
    StopKeepsLost(ds, nextId, q, lost, id, sent);
    HeapFrame(ds, q, lost, Detached(ds, id), Queued(q, m, sent), LostTo(lost, m, sent), cs, read);
  }

  lemma {:induction false} EndKeepsLog(
      ds: Delegates, nextId: nat, log: seq<Event>, pending: Option<nat>, id: nat, timedOut: bool)
    requires LogInv(ds, nextId, log, pending) && id in ds && id < nextId && ds[id].mClient.Some?
    requires timedOut ==> pending.None?
    ensures LogInv(Detached(ds, id), nextId, log + [if timedOut then TimedOut(id) else Stopped(id)],
                   if timedOut then Some(id) else pending)
  {
    var ds' := Detached(ds, id);
    var log' := log + [if timedOut then TimedOut(id) else Stopped(id)];
    var pending' := if timedOut then Some(id) else pending;
    assert LifeOk(ds, log, id, pending);
    forall i, j | 0 <= i < j < |log'| && log'[i].id == log'[j].id ensures Phase(log'[i]) < Phase(log'[j]) {
      if j == |log| {
        assert log[i] in log;
      }
    }
    forall k: nat | k < nextId ensures LifeOk(ds', log', k, pending') {
      assert LifeOk(ds, log, k, pending);
    }
  }

  lemma {:induction false} StopKeepsBatch(ds: Delegates, nextId: nat, cs: Containers, proc: Proc, id: nat)
    requires BatchInv(ds, nextId, cs, proc) && id in ds
    ensures BatchInv(Detached(ds, id), nextId, cs, proc)
  {
    if proc.Expiring? {
      forall p | p in proc.popped ensures Ended(Detached(ds, id), nextId, p.id) || ReadId(proc) == Some(p.id) {
        assert Ended(ds, nextId, p.id) || ReadId(proc) == Some(p.id);
      }
    }
  }

  // ----- start --------------------------------------------------------------------------------

  lemma {:induction false} StartKeepsObjects(cl: Clients, ds: Delegates, id: nat, c: ClientId, d: Delegate)
    requires ObjInv(cl, ds, id) && c in cl && cl[c].None?
    requires d.mClient == Some(c) && d.mLock == c && d.hasContainer && Nanos(d.mFutureTime) > 0
    ensures id !in ds && ObjInv(cl[c := Some(id)], ds[id := d], id + 1)
  {
    var cl', ds' := cl[c := Some(id)], ds[id := d];
    forall i | i in ds ensures i != id {
      assert DelegateOk(cl, ds[i], i, id);
    }
    forall i | i in ds' ensures DelegateOk(cl', ds'[i], i, id + 1) {
      if i != id {
        assert DelegateOk(cl, ds[i], i, id);
      }
    }
  }

  lemma {:induction false} StartAddsHolder(ds: Delegates, id: nat, d: Delegate, k: ClientId)
    requires id !in ds
    ensures |Holders(ds[id := d], k)| == |Holders(ds, k)| + if k == d.mLock then 1 else 0
  {
    assert Holders(ds[id := d], k) == if k == d.mLock then Holders(ds, k) + {id} else Holders(ds, k);
  }

  lemma {:induction false} StartKeepsLocks(cl: Clients, locks: Locks, ds: Delegates, id: nat, c: ClientId, d: Delegate)
    requires LockInv(cl, locks, ds) && c in cl && id !in ds && d.mLock == c
    ensures LockInv(cl[c := Some(id)], locks[c := locks[c] + 1], ds[id := d])
  {
    var cl', locks', ds' := cl[c := Some(id)], locks[c := locks[c] + 1], ds[id := d];
    forall k | k in locks' ensures LockOk(cl', locks', ds', k) {
      assert LockOk(cl, locks, ds, k);
      StartAddsHolder(ds, id, d, k);
    }
  }

  lemma {:induction false} StartKeepsQueue(
      ds: Delegates, q: seq<Msg>, lost: set<Msg>, doomed: Option<nat>, id: nat, d: Delegate, sent: bool)
    requires QueueInv(ds, q, lost, doomed) && id !in ds && d.mClient.Some?
    ensures var m := MsgPush(d.wake, TimerRef(id, d.mFutureTime));
            QueueInv(ds[id := d], Queued(q, m, sent), LostTo(lost, m, sent), doomed)
  {
    var ds' := ds[id := d];
    var m := MsgPush(d.wake, TimerRef(id, d.mFutureTime));
    var q', lost' := Queued(q, m, sent), LostTo(lost, m, sent);
    forall i, j | 0 <= i < j < |q'| ensures Compatible(q'[i], q'[j]) {
      if j == |q| {
        assert q[i] in q;
        assert MsgOk(ds, q[i]);
      }
    }
    forall x | x in q' ensures MsgOk(ds', x) {
      if x in q {
        assert MsgOk(ds, x);
      }
    }
    forall i | i in ds' && ds'[i].mClient.None?
      ensures Mailed(q', lost', MsgRemove(ds'[i].wake, Canon(ds', i))) || doomed == Some(i)
    {
      assert Mailed(q, lost, MsgRemove(ds[i].wake, Canon(ds, i))) || doomed == Some(i);
    }
  }

  lemma {:induction false} StartKeepsLost(
      ds: Delegates, q: seq<Msg>, lost: set<Msg>, id: nat, d: Delegate, sent: bool)
    requires LostInv(ds, id, q, lost) && id !in ds
    requires forall m | m in q :: MsgOk(ds, m)
    ensures var m := MsgPush(d.wake, TimerRef(id, d.mFutureTime));
            LostInv(ds[id := d], id + 1, Queued(q, m, sent), LostTo(lost, m, sent))
  {
    var m := MsgPush(d.wake, TimerRef(id, d.mFutureTime));
    assert !MsgOk(ds, m);
  }

  lemma {:induction false} StartKeepsHeapOk(
      ds: Delegates, q: seq<Msg>, lost: set<Msg>, w: bool, h: Tree<TimerRef>, id: nat, d: Delegate, sent: bool)
    requires HeapOk(ds, q, lost, w, h) && id !in ds
    ensures var m := MsgPush(d.wake, TimerRef(id, d.mFutureTime));
            HeapOk(ds[id := d], Queued(q, m, sent), LostTo(lost, m, sent), w, h)
  {
    var m := MsgPush(d.wake, TimerRef(id, d.mFutureTime));
    forall t | t in Elems(h) ensures NodeOk(ds[id := d], Queued(q, m, sent), LostTo(lost, m, sent), w, h, t) {
      assert NodeOk(ds, q, lost, w, h, t);
    }
  }

  lemma {:induction false} StartKeepsHeaps(
      ds: Delegates, q: seq<Msg>, lost: set<Msg>, cs: Containers, read: Option<nat>, id: nat, d: Delegate, sent: bool)
    requires HeapInv(ds, q, lost, cs, read) && id !in ds
    ensures var m := MsgPush(d.wake, TimerRef(id, d.mFutureTime));
            HeapInv(ds[id := d], Queued(q, m, sent), LostTo(lost, m, sent), cs, read)
  {
    var m := MsgPush(d.wake, TimerRef(id, d.mFutureTime));
    var ds', q', lost' := ds[id := d], Queued(q, m, sent), LostTo(lost, m, sent);
    StartKeepsHeapOk(ds, q, lost, false, cs.sw.heap, id, d, sent);
    StartKeepsHeapOk(ds, q, lost, true, cs.hw.heap, id, d, sent);
    forall i | i in ds' && ds'[i].mClient.Some? ensures Ticking(ds', q', lost', cs, i) || read == Some(i) {
      if i != id {
        assert Ticking(ds, q, lost, cs, i) || read == Some(i);
      }
    }
  }

  lemma {:induction false} StartMail(
      ds: Delegates, id: nat, q: seq<Msg>, lost: set<Msg>, cs: Containers, doomed: Option<nat>, read: Option<nat>,
      d: Delegate, sent: bool)
    requires Mail(ds, id, q, lost, cs, doomed, read) && id !in ds && d.mClient.Some?
    ensures var m := MsgPush(d.wake, TimerRef(id, d.mFutureTime));
            Mail(ds[id := d], id + 1, Queued(q, m, sent), LostTo(lost, m, sent), cs, doomed, read)
  {
    StartKeepsQueue(ds, q, lost, doomed, id, d, sent);
    StartKeepsLost(ds, q, lost, id, d, sent);
    StartKeepsHeaps(ds, q, lost, cs, read, id, d, sent);
  }

  lemma {:induction false} StartKeepsLog(ds: Delegates, id: nat, log: seq<Event>, pending: Option<nat>, d: Delegate)
    requires LogInv(ds, id, log, pending) && id !in ds && d.mClient.Some?
    ensures LogInv(ds[id := d], id + 1, log + [Started(id)], pending)
  {
    var ds', log' := ds[id := d], log + [Started(id)];
    forall i | 0 <= i < |log| ensures log[i].id != id {
      assert log[i] in log;
    }
    forall k: nat | k < id + 1 ensures LifeOk(ds', log', k, pending) {
      if k < id {
        assert LifeOk(ds, log, k, pending);
      } else {
        assert forall e | e in log :: e.id < id;
      }
    }
  }

  lemma {:induction false} StartKeepsBatch(ds: Delegates, id: nat, cs: Containers, proc: Proc, d: Delegate)
    requires BatchInv(ds, id, cs, proc)
    ensures BatchInv(ds[id := d], id + 1, cs, proc)
  {
    if proc.Expiring? {
      forall p | p in proc.popped ensures Ended(ds[id := d], id + 1, p.id) || ReadId(proc) == Some(p.id) {
        assert Ended(ds, id, p.id) || ReadId(proc) == Some(p.id);
      }
    }
  }

  // ----- client objects and their locks ---------------------------------------------------------

  lemma {:induction false} NewKeepsLocks(cl: Clients, locks: Locks, ds: Delegates, c: ClientId)
    requires LockInv(cl, locks, ds) && c !in cl && c !in locks
    ensures LockInv(cl[c := None], locks[c := 1], ds)
  {
    var locks' := locks[c := 1];
    assert Holders(ds, c) == {};
    forall k | k in locks' ensures LockOk(cl[c := None], locks', ds, k) {
      if k != c {
        assert LockOk(cl, locks, ds, k);
      }
    }
  }

  lemma {:induction false} NewKeepsObjects(cl: Clients, ds: Delegates, nextId: nat, c: ClientId)
    requires ObjInv(cl, ds, nextId) && c !in cl
    ensures ObjInv(cl[c := None], ds, nextId)
  {
    forall i | i in ds ensures DelegateOk(cl[c := None], ds[i], i, nextId) {
      assert DelegateOk(cl, ds[i], i, nextId);
    }
  }

  lemma {:induction false} ClientDrops(cl: Clients, locks: Locks, ds: Delegates, c: ClientId)
    requires LockInv(cl, locks, ds) && c in cl
    ensures LockInv(cl - {c}, Drop(locks, c), ds)
  {
    var locks' := Drop(locks, c);
    assert LockOk(cl, locks, ds, c);
    forall id | id in ds ensures ds[id].mLock in locks' {
      if ds[id].mLock == c {
        assert id in Holders(ds, c);
      }
    }
    forall k | k in locks' ensures LockOk(cl - {c}, locks', ds, k) {
      assert LockOk(cl, locks, ds, k);
    }
  }

  lemma {:induction false} ClientGone(cl: Clients, ds: Delegates, nextId: nat, c: ClientId)
    requires ObjInv(cl, ds, nextId) && c in cl && cl[c].None?
    ensures ObjInv(cl - {c}, ds, nextId)
  {
    forall i | i in ds ensures DelegateOk(cl - {c}, ds[i], i, nextId) {
      assert DelegateOk(cl, ds[i], i, nextId);
    }
  }

  lemma {:induction false} DelegateDrops(cl: Clients, locks: Locks, ds: Delegates, id: nat)
    requires LockInv(cl, locks, ds) && id in ds
    ensures LockInv(cl, Drop(locks, ds[id].mLock), ds - {id})
  {
    var c := ds[id].mLock;
    var locks' := Drop(locks, c);
    assert LockOk(cl, locks, ds, c);
    assert Holders(ds - {id}, c) == Holders(ds, c) - {id} && id in Holders(ds, c);
    assert |Holders(ds - {id}, c)| == |Holders(ds, c)| - 1;
    forall i | i in ds - {id} ensures ds[i].mLock in locks' {
      if ds[i].mLock == c {
        assert i in Holders(ds - {id}, c);
      }
    }
    forall k | k in locks' ensures LockOk(cl, locks', ds - {id}, k) {
      assert LockOk(cl, locks, ds, k);
      assert k != c ==> Holders(ds - {id}, k) == Holders(ds, k);
    }
  }

  // ----- messages -----------------------------------------------------------------------------

  lemma InTail(q: seq<Msg>, m: Msg)
    requires q != [] && m in q && m != q[0]
    ensures m in q[1..]
  {
  }

  lemma {:induction false} TailKeepsQueue(ds: Delegates, q: seq<Msg>, lost: set<Msg>, doomed: Option<nat>)
    requires QueueInv(ds, q, lost, None) && q != []
    requires q[0].MsgRemove? ==> doomed == Some(q[0].t.id)
    ensures QueueInv(ds, q[1..], lost, doomed)
  {
    forall id | id in ds && ds[id].mClient.None?
      ensures Mailed(q[1..], lost, MsgRemove(ds[id].wake, Canon(ds, id))) || doomed == Some(id)
    {
      var m := MsgRemove(ds[id].wake, Canon(ds, id));
      assert Mailed(q, lost, m);
      if m in q && m != q[0] {
        InTail(q, m);
      }
    }
  }

  lemma {:induction false} HeadPushIsLast(ds: Delegates, q: seq<Msg>, lost: set<Msg>, doomed: Option<nat>)
    requires QueueInv(ds, q, lost, doomed) && q != [] && q[0].MsgPush?
    ensures q[0] !in q[1..]
  {
    forall i | 1 <= i < |q| ensures q[i] != q[0] {
      assert Compatible(q[0], q[i]);
    }
  }

  lemma {:induction false} PushKeepsHeapOk(
      ds: Delegates, nextId: nat, q: seq<Msg>, lost: set<Msg>, w: bool, h: Tree<TimerRef>, t: TimerRef)
    requires HeapOk(ds, q, lost, w, h) && QueueInv(ds, q, lost, None) && LostInv(ds, nextId, q, lost)
    requires q != [] && q[0] == MsgPush(w, t)
    ensures HeapOk(ds, q[1..], lost, w, Push(ranks, h, t))
  {
    RanksIsStrictWeakOrder();
    PushAdds(ranks, h, t);
    HeadPushIsLast(ds, q, lost, None);
    forall x | x in Elems(h) ensures x != t {
      assert NodeOk(ds, q, lost, w, h, x);
    }
    assert MsgOk(ds, q[0]);
    forall x | x in Elems(Push(ranks, h, t)) ensures NodeOk(ds, q[1..], lost, w, Push(ranks, h, t), x) {
      if x != t {
        assert NodeOk(ds, q, lost, w, h, x);
      }
    }
  }

  lemma {:induction false} TailKeepsHeapOk(ds: Delegates, q: seq<Msg>, lost: set<Msg>, w: bool, h: Tree<TimerRef>)
    requires HeapOk(ds, q, lost, w, h) && q != []
    ensures HeapOk(ds, q[1..], lost, w, h)
  {
    forall x | x in Elems(h) ensures NodeOk(ds, q[1..], lost, w, h, x) {
      assert NodeOk(ds, q, lost, w, h, x);
    }
  }

  lemma {:induction false} PushMail(
      ds: Delegates, nextId: nat, q: seq<Msg>, lost: set<Msg>, cs: Containers, w: bool, t: TimerRef, cs': Containers)
    requires Mail(ds, nextId, q, lost, cs, None, None) && q != [] && q[0] == MsgPush(w, t)
    requires cs'.Get(w).heap == Push(ranks, cs.Get(w).heap, t) && cs'.Get(!w) == cs.Get(!w)
    ensures Mail(ds, nextId, q[1..], lost, cs', None, None)
  {
    TailKeepsQueue(ds, q, lost, None);
    PushKeepsHeapOk(ds, nextId, q, lost, w, cs.Get(w).heap, t);
    TailKeepsHeapOk(ds, q, lost, !w, cs.Get(!w).heap);
    PushElems(ranks, cs.Get(w).heap, t);
    assert MsgOk(ds, q[0]);
    forall id | id in ds && ds[id].mClient.Some? ensures Ticking(ds, q[1..], lost, cs', id) {
      assert Ticking(ds, q, lost, cs, id);
      var m := MsgPush(ds[id].wake, Canon(ds, id));
      if m in q && m != q[0] {
        InTail(q, m);
      }
    }
  }

  /** After the search for t the heap holds everything else, and t no more. */
  lemma {:induction false} RemoveTakesOut(
      ds: Delegates, q: seq<Msg>, lost: set<Msg>, w: bool, h: Tree<TimerRef>, t: TimerRef)
    requires HeapOk(ds, q, lost, w, h)
    ensures var h' := HeapAfterRemove(h, t);
            && Heap(ranks, h') && t !in Elems(h')
            && forall x | x != t :: Elems(h')[x] == Elems(h)[x]
  {
    RanksIsStrictWeakOrder();
    RemoveComplete(ranks, h, t);
    if t in Elems(h) {
      assert NodeOk(ds, q, lost, w, h, t);
    }
  }

  // Of the container v of the Remove message t goes, and in the other no node has its number.
  lemma {:induction false} RemoveKeepsHeapOk(
      ds: Delegates, q: seq<Msg>, lost: set<Msg>, w: bool, h: Tree<TimerRef>, v: bool, t: TimerRef, h': Tree<TimerRef>)
    requires HeapOk(ds, q, lost, w, h) && q != [] && q[0] == MsgRemove(v, t) && MsgOk(ds, q[0])
    requires h' == if v == w then HeapAfterRemove(h, t) else h
    ensures HeapOk(ds, q[1..], lost, w, h') && forall x | x in Elems(h') :: x.id != t.id
  {
    RemoveTakesOut(ds, q, lost, w, h, t);
    forall x | x in Elems(h') ensures NodeOk(ds, q[1..], lost, w, h', x) && x.id != t.id {
      assert NodeOk(ds, q, lost, w, h, x);
    }
  }

  // No other running timer leaves its heap or its Push behind.
  lemma {:induction false} RemoveKeepsTicking(
      ds: Delegates, q: seq<Msg>, lost: set<Msg>, cs: Containers, w: bool, t: TimerRef, cs': Containers, id: nat)
    requires HeapOk(ds, q, lost, w, cs.Get(w).heap) && q != [] && q[0] == MsgRemove(w, t) && MsgOk(ds, q[0])
    requires cs'.Get(w).heap == HeapAfterRemove(cs.Get(w).heap, t) && cs'.Get(!w) == cs.Get(!w)
    requires id in ds && ds[id].mClient.Some? && Ticking(ds, q, lost, cs, id)
    ensures Ticking(ds, q[1..], lost, cs', id)
  {
    RemoveTakesOut(ds, q, lost, w, cs.Get(w).heap, t);
    var m := MsgPush(ds[id].wake, Canon(ds, id));
    if m in q {
      InTail(q, m);
    }
  }

  lemma {:induction false} HeadRemoveIsLast(ds: Delegates, q: seq<Msg>, lost: set<Msg>, doomed: Option<nat>)
    requires QueueInv(ds, q, lost, doomed) && q != [] && q[0].MsgRemove?
    ensures forall m | m in q[1..] && !m.MsgExpire? :: m.t.id != q[0].t.id
  {
    forall m | m in q[1..] && !m.MsgExpire? ensures m.t.id != q[0].t.id {
      var i :| 0 < i < |q| && q[i] == m;
      assert Compatible(q[0], q[i]);
    }
  }

  lemma {:induction false} RemoveMail(
      ds: Delegates, nextId: nat, q: seq<Msg>, lost: set<Msg>, cs: Containers, w: bool, t: TimerRef, cs': Containers)
    requires Mail(ds, nextId, q, lost, cs, None, None) && q != [] && q[0] == MsgRemove(w, t)
    requires cs'.Get(w).heap == HeapAfterRemove(cs.Get(w).heap, t) && cs'.Get(!w) == cs.Get(!w)
    ensures Mail(ds, nextId, q[1..], lost, cs', Some(t.id), None)
  {
    assert MsgOk(ds, q[0]);
    TailKeepsQueue(ds, q, lost, Some(t.id));
    HeadRemoveIsLast(ds, q, lost, None);
    RemoveKeepsHeapOk(ds, q, lost, false, cs.sw.heap, w, t, cs'.sw.heap);
    RemoveKeepsHeapOk(ds, q, lost, true, cs.hw.heap, w, t, cs'.hw.heap);
    forall id | id in ds && ds[id].mClient.Some? ensures Ticking(ds, q[1..], lost, cs', id) {
      RemoveKeepsTicking(ds, q, lost, cs, w, t, cs', id);
    }
  }

  lemma {:induction false} DeletedKeepsHeapOk(
      ds: Delegates, q: seq<Msg>, lost: set<Msg>, w: bool, h: Tree<TimerRef>, id: nat)
    requires HeapOk(ds, q, lost, w, h) && forall t | t in Elems(h) :: t.id != id
    ensures HeapOk(ds - {id}, q, lost, w, h)
  {
    forall t | t in Elems(h) ensures NodeOk(ds - {id}, q, lost, w, h, t) {
      assert NodeOk(ds, q, lost, w, h, t);
    }
  }

  /** What is deleted was referred to by nobody. */
  lemma {:induction false} DeletedMail(
      ds: Delegates, nextId: nat, q: seq<Msg>, lost: set<Msg>, cs: Containers, id: nat)
    requires Mail(ds, nextId, q, lost, cs, Some(id), None)
    ensures Mail(ds - {id}, nextId, q, lost, cs, None, None)
  {
    var ds' := ds - {id};
    DeletedKeepsHeapOk(ds, q, lost, false, cs.sw.heap, id);
    DeletedKeepsHeapOk(ds, q, lost, true, cs.hw.heap, id);
    forall k | k in ds' && ds'[k].mClient.None? ensures Mailed(q, lost, MsgRemove(ds'[k].wake, Canon(ds', k))) {
      assert Mailed(q, lost, MsgRemove(ds[k].wake, Canon(ds, k)));
    }
    forall k | k in ds' && ds'[k].mClient.Some? ensures Ticking(ds', q, lost, cs, k) {
      assert Ticking(ds, q, lost, cs, k);
    }
    forall m | m in q ensures MsgOk(ds', m) {
      assert MsgOk(ds, m);
    }
    forall m | m in lost ensures m.MsgRemove? ==> MsgOk(ds', m) {
      assert m.MsgRemove? ==> MsgOk(ds, m);
    }
  }

  lemma {:induction false} RemoveKeepsObjects(cl: Clients, ds: Delegates, nextId: nat, id: nat)
    requires ObjInv(cl, ds, nextId) && id in ds && ds[id].mClient.None?
    ensures ObjInv(cl, ds - {id}, nextId)
  {
    forall i | i in ds - {id} ensures DelegateOk(cl, (ds - {id})[i], i, nextId) {
      assert DelegateOk(cl, ds[i], i, nextId);
    }
  }

  lemma {:induction false} RemoveKeepsLog(ds: Delegates, nextId: nat, log: seq<Event>, id: nat)
    requires LogInv(ds, nextId, log, None) && id in ds && id < nextId && ds[id].mClient.None?
    ensures LogInv(ds - {id}, nextId, log + [Deleted(id)], None)
  {
    var log' := log + [Deleted(id)];
    assert LifeOk(ds, log, id, None);
    forall i, j | 0 <= i < j < |log'| && log'[i].id == log'[j].id ensures Phase(log'[i]) < Phase(log'[j]) {
      if j == |log| {
        assert log[i] in log;
      }
    }
    forall k: nat | k < nextId ensures LifeOk(ds - {id}, log', k, None) {
      assert LifeOk(ds, log, k, None);
    }
  }

  lemma {:induction false} ExpireMail(ds: Delegates, nextId: nat, q: seq<Msg>, lost: set<Msg>, cs: Containers)
    requires Mail(ds, nextId, q, lost, cs, None, None) && q != [] && q[0].MsgExpire?
    ensures Mail(ds, nextId, q[1..], lost, cs, None, None)
  {
    TailKeepsQueue(ds, q, lost, None);
    TailKeepsHeapOk(ds, q, lost, false, cs.sw.heap);
    TailKeepsHeapOk(ds, q, lost, true, cs.hw.heap);
    forall id | id in ds && ds[id].mClient.Some? ensures Ticking(ds, q[1..], lost, cs, id) {
      assert Ticking(ds, q, lost, cs, id);
      var m := MsgPush(ds[id].wake, Canon(ds, id));
      if m in q {
        InTail(q, m);
      }
    }
  }

  lemma {:induction false} ExpireSentMail(
      ds: Delegates, nextId: nat, q: seq<Msg>, lost: set<Msg>, cs: Containers, doomed: Option<nat>, read: Option<nat>,
      w: bool)
    requires Mail(ds, nextId, q, lost, cs, doomed, read)
    ensures Mail(ds, nextId, q + [MsgExpire(w)], lost, cs, doomed, read)
  {
    var q' := q + [MsgExpire(w)];
    HeapFrame(ds, q, lost, ds, q', lost, cs, read);
    forall m | m in q' ensures MsgOk(ds, m) {
      if m in q {
        assert MsgOk(ds, m);
      }
    }
    forall id | id in ds && ds[id].mClient.None?
      ensures Mailed(q', lost, MsgRemove(ds[id].wake, Canon(ds, id))) || doomed == Some(id)
    {
      assert Mailed(q, lost, MsgRemove(ds[id].wake, Canon(ds, id))) || doomed == Some(id);
    }
  }

  // The timerfd and the poll set are no part of the heaps.
  lemma {:induction false} SameHeapsMail(
      ds: Delegates, nextId: nat, q: seq<Msg>, lost: set<Msg>, cs: Containers, doomed: Option<nat>, read: Option<nat>,
      cs': Containers)
    requires Mail(ds, nextId, q, lost, cs, doomed, read)
    requires cs'.sw.heap == cs.sw.heap && cs'.hw.heap == cs.hw.heap
    ensures Mail(ds, nextId, q, lost, cs', doomed, read)
  {
    forall id | id in ds && ds[id].mClient.Some? ensures Ticking(ds, q, lost, cs', id) || read == Some(id) {
      assert Ticking(ds, q, lost, cs, id) || read == Some(id);
    }
  }

  // ----- expiry -------------------------------------------------------------------------------

  lemma {:induction false} PopKeepsHeapOk(ds: Delegates, q: seq<Msg>, lost: set<Msg>, w: bool, h: Tree<TimerRef>)
    requires HeapOk(ds, q, lost, w, h) && h.Node?
    ensures HeapOk(ds, q, lost, w, Pop(ranks, h))
    ensures h.data in Elems(h) && forall x | x != h.data :: Elems(Pop(ranks, h))[x] == Elems(h)[x]
  {
    RanksIsStrictWeakOrder();
    PopRemovesTop(ranks, h);
    TopInElems(h);
    forall x | x in Elems(Pop(ranks, h)) ensures NodeOk(ds, q, lost, w, Pop(ranks, h), x) {
      assert NodeOk(ds, q, lost, w, h, x);
      assert NodeOk(ds, q, lost, w, h, h.data);
    }
  }

  /** A delegate whose client is gone, or has been read, may leave the heap. */
  lemma {:induction false} PopMail(
      ds: Delegates, nextId: nat, q: seq<Msg>, lost: set<Msg>, cs: Containers, w: bool, cs': Containers, read: Option<nat>)
    requires Mail(ds, nextId, q, lost, cs, None, None) && cs.Get(w).heap.Node?
    requires var id := cs.Get(w).heap.data.id; id in ds && ds[id].mClient.Some? ==> read == Some(id)
    requires cs'.Get(w).heap == Pop(ranks, cs.Get(w).heap) && cs'.Get(!w) == cs.Get(!w)
    ensures Mail(ds, nextId, q, lost, cs', None, read)
  {
    var h := cs.Get(w).heap;
    PopKeepsHeapOk(ds, q, lost, w, h);
    assert HeapOk(ds, q, lost, !w, cs.Get(!w).heap);
    forall id | id in ds && ds[id].mClient.Some? ensures Ticking(ds, q, lost, cs', id) || read == Some(id) {
      assert Ticking(ds, q, lost, cs, id);
    }
  }

  /** The client that was read has been stopped. */
  lemma {:induction false} ReadMail(
      ds: Delegates, nextId: nat, q: seq<Msg>, lost: set<Msg>, cs: Containers, read: Option<nat>)
    requires Mail(ds, nextId, q, lost, cs, None, read)
    requires read.Some? && read.value in ds ==> ds[read.value].mClient.None?
    ensures Mail(ds, nextId, q, lost, cs, None, None)
  {
  }

  /** The top of a heap is a live delegate with a positive time. */
  lemma {:induction false} TopIsLive(
      cl: Clients, ds: Delegates, nextId: nat, q: seq<Msg>, lost: set<Msg>, w: bool, h: Tree<TimerRef>)
    requires ObjInv(cl, ds, nextId) && HeapOk(ds, q, lost, w, h) && h.Node?
    ensures h.data.id in ds && h.data == Canon(ds, h.data.id) && Nanos(h.data.time) > 0
  {
    TopInElems(h);
    assert NodeOk(ds, q, lost, w, h, h.data);
    assert DelegateOk(cl, ds[h.data.id], h.data.id, nextId);
  }

  // ----- the timerfds ---------------------------------------------------------------------------

  lemma {:induction false} SendKeepsFds(
      cs: Containers, poll: seq<bool>, stage: Stage, q: seq<Msg>, proc: Proc, blind: set<bool>, m: Msg, sent: bool)
    requires Fds(cs, poll, stage, q, proc, blind)
    ensures Fds(cs, poll, stage, Queued(q, m, sent), proc, blind)
  {
  }

  // Between two messages; the message that is taken is no Expire message.
  lemma {:induction false} TailKeepsWatched(
      c: Container, w: bool, poll: seq<bool>, stage: Stage, q: seq<Msg>, blind: set<bool>, proc: Proc)
    requires Watched(c, w, poll, stage, q, Idle, blind) && q != [] && !q[0].MsgExpire?
    ensures Watched(c, w, poll, stage, q[1..], proc, blind)
  {
    if MsgExpire(w) in q {
      InTail(q, MsgExpire(w));
    }
  }

  // A message leaves the top as it is, or asks for the new top to be armed.
  lemma {:induction false} HeapChangeKeepsWatched(
      c: Container, h: Tree<TimerRef>, u: Update, w: bool, poll: seq<bool>, stage: Stage, q: seq<Msg>,
      blind: set<bool>, proc: Proc)
    requires Watched(c, w, poll, stage, q, Idle, blind) && q != [] && !q[0].MsgExpire?
    requires if u.Keep? then Top(h) == Top(c.heap) || h.Nil? else proc.Polling? && proc.w == w
    ensures Watched(c.(heap := h), w, poll, stage, q[1..], proc, blind)
  {
    if MsgExpire(w) in q {
      InTail(q, MsgExpire(w));
    }
  }

  lemma {:induction false} KeepKeepsTop(h: Tree<TimerRef>, t: TimerRef)
    ensures PushUpdate(h, t).Keep? ==> Top(Push(ranks, h, t)) == Top(h)
    ensures RemoveUpdate(h, t).Keep? ==> HeapAfterRemove(h, t).Nil? || Top(HeapAfterRemove(h, t)) == Top(h)
    ensures PushUpdate(h, t).Keep? || (PushUpdate(h, t) == Arm(t.time) && Top(Push(ranks, h, t)) == Some(t))
    ensures var rest := HeapAfterRemove(h, t);
            RemoveUpdate(h, t).Keep? || (rest.Node? && RemoveUpdate(h, t) == Arm(rest.data.time))
  {
    OnlyNewTopsArm(h, t);
    PushTop(ranks, h, t);
  }

  // The two messages that change the heap h of container w, which asks for u.
  lemma {:induction false} MessageKeepsFds(
      cs: Containers, w: bool, h: Tree<TimerRef>, u: Update, poll: seq<bool>, stage: Stage, q: seq<Msg>,
      blind: set<bool>, proc: Proc)
    requires Fds(cs, poll, stage, q, Idle, blind) && q != [] && !q[0].MsgExpire?
    requires if u.Keep? then (Top(h) == Top(cs.Get(w).heap) || h.Nil?) && (proc.Idle? || proc.Deleting?)
             else h.Node? && u == Arm(h.data.time) && proc.Polling? && proc.w == w && proc.update == u
    ensures Fds(cs.Set(w, cs.Get(w).(heap := h)), poll, stage, q[1..], proc, blind)
  {
    var cs' := cs.Set(w, cs.Get(w).(heap := h));
    HeapChangeKeepsWatched(cs.Get(w), h, u, w, poll, stage, q, blind, proc);
    TailKeepsWatched(cs.Get(!w), !w, poll, stage, q, blind, proc);
    assert cs'.Get(!w) == cs.Get(!w);
  }

  lemma {:induction false} ExpireBeginKeepsFds(
      cs: Containers, w: bool, poll: seq<bool>, stage: Stage, q: seq<Msg>, blind: set<bool>, proc: Proc)
    requires Fds(cs, poll, stage, q, Idle, blind) && q != [] && q[0] == MsgExpire(w) && proc.Expiring? && proc.w == w
    ensures Fds(cs, poll, stage, q[1..], proc, blind)
  {
    if MsgExpire(!w) in q {
      InTail(q, MsgExpire(!w));
    }
  }

  // Inside the loop of an expiry the fd is not looked at.
  lemma {:induction false} ExpiringKeepsFds(
      cs: Containers, poll: seq<bool>, stage: Stage, q: seq<Msg>, proc: Proc, blind: set<bool>, cs': Containers, proc': Proc)
    requires Fds(cs, poll, stage, q, proc, blind) && proc.Expiring? && cs'.Get(!proc.w) == cs.Get(!proc.w)
    requires cs'.Get(proc.w).inPoll == cs.Get(proc.w).inPoll
    requires proc'.Idle? ==> cs'.Get(proc.w).heap.Nil?
    requires proc'.Polling? ==> cs'.Get(proc.w).heap.Node? && proc'.update == Arm(cs'.Get(proc.w).heap.data.time)
    requires proc'.Idle? || ((proc'.Polling? || proc'.Expiring?) && proc'.w == proc.w)
    ensures Fds(cs', poll, stage, q, proc', blind)
  {
  }

  lemma {:induction false} PollCallKeepsFds(s: State)
    requires FdsOf(s) && s.proc.Polling?
    ensures FdsOf(PollSetStep(s))
  {
  }

  lemma {:induction false} SetCallKeepsFds(s: State)
    requires FdsOf(s) && s.proc.Setting? && NonZeroTimes(s.cs.Get(s.proc.w))
    ensures FdsOf(PollSetStep(s))
  {
  }

  lemma {:induction false} DisarmKeepsFds(s: State, sent: bool)
    requires FdsOf(s) && s.poll != [] && s.stage == Disarm
    ensures FdsOf(PollStep(s, sent))
  {
  }

  lemma {:induction false} UnpollKeepsFds(s: State, sent: bool)
    requires FdsOf(s) && s.poll != [] && s.stage == RemovePoll
    ensures FdsOf(PollStep(s, sent))
  {
  }

  lemma {:induction false} OtherInTail(poll: seq<bool>)
    requires poll != []
    ensures !poll[0] in poll <==> !poll[0] in poll[1..]
  {
  }

  lemma {:induction false} SendExpireKeepsFds(s: State, sent: bool)
    requires FdsOf(s) && s.poll != [] && s.stage == SendExpire
    ensures FdsOf(PollStep(s, sent))
  {
    OtherInTail(s.poll);
  }

  // ----- every step -----------------------------------------------------------------------------

  // What stop() comes to when c runs timer id.
  lemma {:induction false} StopIs(s: State, c: ClientId, id: nat, sent: bool)
    requires Owners(s) && c in s.clients && s.clients[c] == Some(id)
    ensures id in s.delegates && s.delegates[id].mClient == Some(c) && s.delegates[id].mLock == c && id < s.nextId
    ensures Stop(s, c, sent) == Send(s.(clients := s.clients[c := None], delegates := Detached(s.delegates, id)),
                                     MsgRemove(s.delegates[id].wake, Canon(s.delegates, id)), sent)
  {
    assert c in s.locks;
    assert DelegateOk(s.clients, s.delegates[id], id, s.nextId);
  }

  lemma {:induction false} StopOwns(s: State, c: ClientId, id: nat, timedOut: bool, sent: bool, proc: Proc)
    requires Owners(s) && c in s.clients && s.clients[c] == Some(id)
    requires if timedOut then PendingId(s.proc).None? && PendingId(proc) == Some(id) else proc == s.proc
    ensures Owners(Stop(s, c, sent).(log := LogIfRunning(s, c, timedOut), proc := proc))
  {
    StopIs(s, c, id, sent);
    StopKeepsObjects(s.clients, s.delegates, s.nextId, c, id);
    StopKeepsLocks(s.clients, s.locks, s.delegates, c, id);
    EndKeepsLog(s.delegates, s.nextId, s.log, PendingId(s.proc), id, timedOut);
  }

  lemma {:induction false} StopMails(s: State, c: ClientId, id: nat, sent: bool)
    requires Owners(s) && MailOf(s) && c in s.clients && s.clients[c] == Some(id)
    ensures MailOf(Stop(s, c, sent))
  {
    StopIs(s, c, id, sent);
    StopMail(s.delegates, s.nextId, s.queue, s.lost, s.cs, Doomed(s.proc), ReadId(s.proc), id, sent);
  }

  lemma {:induction false} StopFds(s: State, c: ClientId, id: nat, sent: bool)
    requires Owners(s) && FdsOf(s) && c in s.clients && s.clients[c] == Some(id)
    ensures FdsOf(Stop(s, c, sent))
  {
    StopIs(s, c, id, sent);
    SendKeepsFds(s.cs, s.poll, s.stage, s.queue, s.proc, s.blind,
                 MsgRemove(s.delegates[id].wake, Canon(s.delegates, id)), sent);
  }

  lemma {:induction false} StopKeepsCall(ds: Delegates, log: seq<Event>, proc: Proc, id: nat, log': seq<Event>)
    requires CallOk(ds, log, proc) && id in ds && forall e | e in log :: e in log'
    ensures CallOk(Detached(ds, id), log', proc)
  {
  }

  lemma {:induction false} StopExpiry(s: State, c: ClientId, id: nat, timedOut: bool, sent: bool)
    requires Owners(s) && ExpiryOf(s) && c in s.clients && s.clients[c] == Some(id)
    ensures ExpiryOf(Stop(s, c, sent).(log := LogIfRunning(s, c, timedOut)))
  {
    StopIs(s, c, id, sent);
    StopKeepsBatch(s.delegates, s.nextId, s.cs, s.proc, id);
    StopKeepsCall(s.delegates, s.log, s.proc, id, LogIfRunning(s, c, timedOut));
  }

  lemma {:induction false} StopKeepsInv(s: State, c: ClientId, sent: bool)
    requires Inv(s) && c in s.clients && !s.fault
    ensures Inv(ClientStop(s, c, sent)) && !ClientStop(s, c, sent).fault
    ensures ClientStop(s, c, sent).clients == s.clients[c := None]
  {
    assert c in s.locks;
    if s.clients[c].Some? {
      var id := s.clients[c].value;
      StopIs(s, c, id, sent);
      StopOwns(s, c, id, false, sent, s.proc);
      StopMails(s, c, id, sent);
      StopFds(s, c, id, sent);
      StopExpiry(s, c, id, false, sent);
    } else {
      assert s.clients[c := None] == s.clients;
    }
  }

  // What start() comes to when c runs no timer.
  lemma {:induction false} StartIs(s: State, c: ClientId, due: Timespec, wake: bool, sent: bool)
    requires Owners(s) && c in s.clients && s.clients[c].None?
    ensures c in s.locks && s.nextId !in s.delegates
    ensures Start(s, c, due, wake, sent) == Started1(s, c, Delegate(Some(c), c, due, wake, true), sent)
  {
    assert c in s.locks;
    assert s.nextId in s.delegates ==> DelegateOk(s.clients, s.delegates[s.nextId], s.nextId, s.nextId);
  }

  function Started1(s: State, c: ClientId, d: Delegate, sent: bool): State
    requires c in s.locks
  {
    var m := MsgPush(d.wake, TimerRef(s.nextId, d.mFutureTime));
    s.(clients := s.clients[c := Some(s.nextId)], locks := s.locks[c := s.locks[c] + 1],
       delegates := s.delegates[s.nextId := d], nextId := s.nextId + 1, log := s.log + [Started(s.nextId)],
       queue := Queued(s.queue, m, sent), lost := LostTo(s.lost, m, sent))
  }

  lemma {:induction false} StartOwns(s: State, c: ClientId, d: Delegate, sent: bool)
    requires Owners(s) && c in s.clients && s.clients[c].None? && c in s.locks
    requires d.mClient == Some(c) && d.mLock == c && d.hasContainer && Nanos(d.mFutureTime) > 0
    ensures Owners(Started1(s, c, d, sent))
  {
    StartKeepsObjects(s.clients, s.delegates, s.nextId, c, d);
    StartKeepsLocks(s.clients, s.locks, s.delegates, s.nextId, c, d);
    StartKeepsLog(s.delegates, s.nextId, s.log, PendingId(s.proc), d);
  }

  lemma {:induction false} StartRest(s: State, c: ClientId, d: Delegate, sent: bool)
    requires MailOf(s) && FdsOf(s) && ExpiryOf(s) && c in s.locks && s.nextId !in s.delegates && d.mClient.Some?
    ensures MailOf(Started1(s, c, d, sent)) && FdsOf(Started1(s, c, d, sent)) && ExpiryOf(Started1(s, c, d, sent))
  {
    StartMail(s.delegates, s.nextId, s.queue, s.lost, s.cs, Doomed(s.proc), ReadId(s.proc), d, sent);
    SendKeepsFds(s.cs, s.poll, s.stage, s.queue, s.proc, s.blind, MsgPush(d.wake, TimerRef(s.nextId, d.mFutureTime)), sent);
    StartKeepsBatch(s.delegates, s.nextId, s.cs, s.proc, d);
  }

  lemma {:induction false} StartKeepsInv(s: State, c: ClientId, due: Timespec, wake: bool, sent: bool)
    requires Inv(s) && c in s.clients && Nanos(due) > 0 && !s.fault
    ensures Inv(Start(s, c, due, wake, sent)) && !Start(s, c, due, wake, sent).fault
  {
    assert c in s.locks;
    if s.clients[c].None? {
      var d := Delegate(Some(c), c, due, wake, true);
      StartIs(s, c, due, wake, sent);
      StartOwns(s, c, d, sent);
      StartRest(s, c, d, sent);
    }
  }

  lemma {:induction false} DeleteKeepsInv(s: State, c: ClientId, sent: bool)
    requires Inv(s) && c in s.clients && !s.fault
    ensures Inv(Delete(s, c, sent)) && !Delete(s, c, sent).fault
  {
    StopKeepsInv(s, c, sent);
    var s1 := ClientStop(s, c, sent);
    assert c in s1.locks;
    ClientDrops(s1.clients, s1.locks, s1.delegates, c);
    ClientGone(s1.clients, s1.delegates, s1.nextId, c);
  }

  lemma {:induction false} NewKeepsInv(s: State, c: ClientId)
    requires Inv(s) && c !in s.clients && c !in s.locks && !s.fault
    ensures Inv(New(s, c))
  {
    NewKeepsObjects(s.clients, s.delegates, s.nextId, c);
    NewKeepsLocks(s.clients, s.locks, s.delegates, c);
  }

  // A heap that holds live delegates only has positive times on top.
  lemma {:induction false} HeapTimes(s: State, w: bool)
    requires Owners(s) && MailOf(s)
    ensures NonZeroTimes(s.cs.Get(w))
    ensures s.cs.Get(w).heap.Node? ==>
              var t := s.cs.Get(w).heap.data;
              t.id in s.delegates && t == Canon(s.delegates, t.id) && t.id < s.nextId
  {
    assert HeapOk(s.delegates, s.queue, s.lost, w, s.cs.Get(w).heap);
    if s.cs.Get(w).heap.Node? {
      TopIsLive(s.clients, s.delegates, s.nextId, s.queue, s.lost, w, s.cs.Get(w).heap);
      assert DelegateOk(s.clients, s.delegates[s.cs.Get(w).heap.data.id], s.cs.Get(w).heap.data.id, s.nextId);
    }
  }

  lemma {:induction false} DeliverPushMails(s: State, w: bool, t: TimerRef)
    requires MailOf(s) && s.proc.Idle? && s.queue != [] && s.queue[0] == MsgPush(w, t)
    ensures t.id in s.delegates && MailOf(Deliver(s))
  {
    assert MsgOk(s.delegates, s.queue[0]);
    PushMail(s.delegates, s.nextId, s.queue, s.lost, s.cs, w, t, Deliver(s).cs);
  }

  lemma {:induction false} DeliverPushFds(s: State, w: bool, t: TimerRef)
    requires FdsOf(s) && s.proc.Idle? && s.queue != [] && s.queue[0] == MsgPush(w, t) && t.id in s.delegates
    ensures FdsOf(Deliver(s))
  {
    var h := s.cs.Get(w).heap;
    KeepKeepsTop(h, t);
    MessageKeepsFds(s.cs, w, Push(ranks, h, t), PushUpdate(h, t), s.poll, s.stage, s.queue, s.blind, Deliver(s).proc);
  }

  lemma {:induction false} DeliverRemoveIs(s: State, w: bool, t: TimerRef)
    requires s.proc.Idle? && s.queue != [] && s.queue[0] == MsgRemove(w, t) && t.id in s.delegates
    ensures var s' := Deliver(s);
      && s' == s.(queue := s.queue[1..], cs := s'.cs, proc := s'.proc)
      && s'.cs.Get(w).heap == HeapAfterRemove(s.cs.Get(w).heap, t) && s'.cs.Get(!w) == s.cs.Get(!w)
      && Doomed(s'.proc) == Some(t.id) && ReadId(s'.proc).None? && PendingId(s'.proc).None? && !s'.proc.Expiring?
  {
  }

  lemma {:induction false} HeadOk(s: State)
    requires MailOf(s) && s.queue != []
    ensures s.queue[0].MsgExpire? || s.queue[0].t.id in s.delegates
  {
    assert MsgOk(s.delegates, s.queue[0]);
  }

  lemma {:induction false} DeliverRemoveMails(s: State, w: bool, t: TimerRef)
    requires MailOf(s) && s.proc.Idle? && s.queue != [] && s.queue[0] == MsgRemove(w, t) && t.id in s.delegates
    ensures MailOf(Deliver(s))
  {
    var cs' := Deliver(s).cs;
    DeliverRemoveIs(s, w, t);
    RemoveMail(s.delegates, s.nextId, s.queue, s.lost, s.cs, w, t, cs');
  }

  lemma {:induction false} DeliverRemoveFds(s: State, w: bool, t: TimerRef)
    requires FdsOf(s) && s.proc.Idle? && s.queue != [] && s.queue[0] == MsgRemove(w, t) && t.id in s.delegates
    ensures FdsOf(Deliver(s))
  {
    var h := s.cs.Get(w).heap;
    KeepKeepsTop(h, t);
    MessageKeepsFds(s.cs, w, HeapAfterRemove(h, t), RemoveUpdate(h, t), s.poll, s.stage, s.queue, s.blind, Deliver(s).proc);
  }

  lemma {:induction false} DeliverExpireMails(s: State, w: bool)
    requires MailOf(s) && FdsOf(s) && s.proc.Idle? && s.queue != [] && s.queue[0] == MsgExpire(w)
    ensures MailOf(Deliver(s)) && FdsOf(Deliver(s)) && ExpiryOf(Deliver(s))
  {
    ExpireMail(s.delegates, s.nextId, s.queue, s.lost, s.cs);
    ExpireBeginKeepsFds(s.cs, w, s.poll, s.stage, s.queue, s.blind, Deliver(s).proc);
    assert HeapOk(s.delegates, s.queue, s.lost, w, s.cs.Get(w).heap);
  }

  lemma {:induction false} DeliverPushKeepsInv(s: State, w: bool, t: TimerRef)
    requires Inv(s) && s.proc.Idle? && s.queue != [] && s.queue[0] == MsgPush(w, t) && !s.fault
    ensures Inv(Deliver(s)) && !Deliver(s).fault
  {
    DeliverPushMails(s, w, t);
    DeliverPushFds(s, w, t);
  }

  lemma {:induction false} DeliverRemoveKeepsInv(s: State, w: bool, t: TimerRef)
    requires Inv(s) && s.proc.Idle? && s.queue != [] && s.queue[0] == MsgRemove(w, t) && !s.fault
    ensures Inv(Deliver(s)) && !Deliver(s).fault
  {
    HeadOk(s);
    DeliverRemoveMails(s, w, t);
    DeliverRemoveFds(s, w, t);
    DeliverRemoveIs(s, w, t);
  }

  lemma {:induction false} DeliverExpireKeepsInv(s: State, w: bool)
    requires Inv(s) && s.proc.Idle? && s.queue != [] && s.queue[0] == MsgExpire(w) && !s.fault
    ensures Inv(Deliver(s)) && !Deliver(s).fault
  {
    DeliverExpireMails(s, w);
  }

  lemma {:induction false} DeliverKeepsInv(s: State)
    requires Inv(s) && s.proc.Idle? && s.queue != [] && !s.fault
    ensures Inv(Deliver(s)) && !Deliver(s).fault
  {
    match s.queue[0]
    case MsgPush(w, t) => DeliverPushKeepsInv(s, w, t);
    case MsgRemove(w, t) => DeliverRemoveKeepsInv(s, w, t);
    case MsgExpire(w) => DeliverExpireKeepsInv(s, w);
  }

  // The batch taken so far and the batch to come, one pop later.
  lemma {:induction false} BatchShifts(popped: seq<TimerRef>, h: Tree<TimerRef>, cutoff: Timespec)
    requires Pops(h, cutoff, popped == [])
    ensures var more := popped + [h.data];
            && more != []
            && popped + Batch(h, cutoff, popped == []).0 == more + Batch(Pop(ranks, h), cutoff, false).0
            && Batch(h, cutoff, popped == []).1 == Batch(Pop(ranks, h), cutoff, false).1
  {
    BatchUnfolds(h, cutoff, popped == []);
    var rest := Batch(Pop(ranks, h), cutoff, false).0;
    assert popped + ([h.data] + rest) == (popped + [h.data]) + rest;
  }

  lemma {:induction false} BatchGoesOn(s: State)
    requires s.proc.Expiring? && s.proc.call.NoCall? && PopsNext(s) && ExpiryOf(s)
    requires var id := s.cs.Get(s.proc.w).heap.data.id;
             && id in s.delegates && id < s.nextId && s.cs.Get(s.proc.w).heap.data == Canon(s.delegates, id)
             && (s.delegates[id].mClient.None? || s.delegates[id].mClient == Some(s.delegates[id].mLock))
    ensures ExpiryOf(PopAndRead(s))
  {
    var s' := PopAndRead(s);
    BatchShifts(s.proc.popped, s.cs.Get(s.proc.w).heap, s.proc.cutoff);
    forall p | p in s'.proc.popped ensures Ended(s.delegates, s.nextId, p.id) || ReadId(s'.proc) == Some(p.id) {
      if p in s.proc.popped {
        assert Ended(s.delegates, s.nextId, p.id);
      }
    }
  }

  lemma {:induction false} PopMails(s: State)
    requires MailOf(s) && FdsOf(s) && s.proc.Expiring? && s.proc.call.NoCall? && PopsNext(s)
    requires s.cs.Get(s.proc.w).heap.data.id in s.delegates
    ensures MailOf(PopAndRead(s)) && FdsOf(PopAndRead(s))
  {
    var s' := PopAndRead(s);
    PopMail(s.delegates, s.nextId, s.queue, s.lost, s.cs, s.proc.w, s'.cs, ReadId(s'.proc));
    ExpiringKeepsFds(s.cs, s.poll, s.stage, s.queue, s.proc, s.blind, s'.cs, s'.proc);
  }

  lemma {:induction false} PopKeepsInv(s: State)
    requires Inv(s) && s.proc.Expiring? && s.proc.call.NoCall? && PopsNext(s) && !s.fault
    ensures Inv(PopAndRead(s)) && !PopAndRead(s).fault
  {
    HeapTimes(s, s.proc.w);
    var id := s.cs.Get(s.proc.w).heap.data.id;
    assert DelegateOk(s.clients, s.delegates[id], id, s.nextId);
    PopMails(s);
    BatchGoesOn(s);
  }

  // Whichever timer the client runs now, the one that was popped has ended then.
  lemma {:induction false} ReadEnds(s: State, c: ClientId)
    requires Owners(s) && ExpiryOf(s) && s.proc.Expiring? && s.proc.call == ToStop(c) && c in s.clients
    ensures var id := s.proc.popped[|s.proc.popped| - 1].id;
            && ReadId(s.proc) == Some(id) && id in s.delegates && id < s.nextId && s.delegates[id].mLock == c
            && (s.delegates[id].mClient.None? || s.clients[c] == Some(id))
  {
    var id := s.proc.popped[|s.proc.popped| - 1].id;
    assert DelegateOk(s.clients, s.delegates[id], id, s.nextId);
  }

  // After it nothing is read any more.
  lemma {:induction false} CallChange(s: State, call: Call)
    requires MailOf(s) && FdsOf(s) && s.proc.Expiring? && BatchInv(s.delegates, s.nextId, s.cs, s.proc) && !call.ToStop?
    requires ReadId(s.proc).Some? ==> Ended(s.delegates, s.nextId, ReadId(s.proc).value)
    ensures var s' := s.(proc := s.proc.(call := call));
            MailOf(s') && FdsOf(s') && BatchInv(s'.delegates, s'.nextId, s'.cs, s'.proc)
  {
    ReadMail(s.delegates, s.nextId, s.queue, s.lost, s.cs, ReadId(s.proc));
    ExpiringKeepsFds(s.cs, s.poll, s.stage, s.queue, s.proc, s.blind, s.cs, s.proc.(call := call));
  }

  lemma {:induction false} StopReadKeepsInv(s: State, c: ClientId, id: nat, sent: bool)
    requires Inv(s) && s.proc.Expiring? && s.proc.call == ToStop(c) && !s.fault
    requires c in s.clients && s.clients[c] == Some(id)
    ensures Inv(StopRead(s, c, sent)) && !StopRead(s, c, sent).fault
  {
    var s1 := Stop(s, c, sent).(log := LogIfRunning(s, c, true));
    ReadEnds(s, c);
    StopIs(s, c, id, sent);
    StopOwns(s, c, id, true, sent, s.proc.(call := ToCallBack(c, id)));
    StopMails(s, c, id, sent);
    StopFds(s, c, id, sent);
    StopExpiry(s, c, id, true, sent);
    CallChange(s1, ToCallBack(c, id));
    assert StopRead(s, c, sent) == s1.(proc := s.proc.(call := ToCallBack(c, id)));
  }

  lemma {:induction false} StopNothingKeepsInv(s: State, c: ClientId, sent: bool)
    requires Inv(s) && s.proc.Expiring? && s.proc.call == ToStop(c) && !s.fault
    requires c in s.clients && s.clients[c].None?
    ensures Inv(StopRead(s, c, sent)) && !StopRead(s, c, sent).fault
  {
    ReadEnds(s, c);
    assert c in s.locks;
    CallChange(s, NoCall);
  }

  lemma {:induction false} CallBackKeepsLog(ds: Delegates, nextId: nat, log: seq<Event>, id: nat)
    requires LogInv(ds, nextId, log, Some(id)) && id in ds && id < nextId && TimedOut(id) in log
    ensures LogInv(ds, nextId, log + [CalledBack(id)], None)
  {
    var log' := log + [CalledBack(id)];
    assert LifeOk(ds, log, id, Some(id));
    forall i, j | 0 <= i < j < |log'| && log'[i].id == log'[j].id ensures Phase(log'[i]) < Phase(log'[j]) {
      if j == |log| {
        assert log[i] in log;
      }
    }
    forall k: nat | k < nextId ensures LifeOk(ds, log', k, None) {
      assert LifeOk(ds, log, k, Some(id));
    }
  }

  lemma {:induction false} CallBackKeepsInv(s: State, c: ClientId, id: nat)
    requires Inv(s) && s.proc.Expiring? && s.proc.call == ToCallBack(c, id) && c in s.clients && !s.fault
    ensures Inv(CallBack(s, c, id)) && !CallBack(s, c, id).fault
  {
    assert DelegateOk(s.clients, s.delegates[id], id, s.nextId);
    CallBackKeepsLog(s.delegates, s.nextId, s.log, id);
    CallChange(s, NoCall);
  }

  lemma {:induction false} ExpireEndKeepsInv(s: State, sent: bool)
    requires Inv(s) && s.proc.Expiring? && s.proc.call.NoCall? && !PopsNext(s) && !s.fault
    ensures Inv(ExpireStep(s, sent))
  {
    var h := s.cs.Get(s.proc.w).heap;
    if h.Node? {
      OnlyNewTopsArm(h, h.data);
    }
    ExpiringKeepsFds(s.cs, s.poll, s.stage, s.queue, s.proc, s.blind, s.cs, ExpireStep(s, sent).proc);
  }

  lemma {:induction false} ExpireKeepsInv(s: State, sent: bool)
    requires Inv(s) && s.proc.Expiring? && !s.fault
    ensures Inv(ExpireStep(s, sent))
  {
    match s.proc.call
    case NoCall =>
      if PopsNext(s) {
        PopKeepsInv(s);
      } else {
        ExpireEndKeepsInv(s, sent);
      }
    case ToStop(c) =>
      if c in s.clients {
        if s.clients[c].None? {
          StopNothingKeepsInv(s, c, sent);
        } else {
          StopReadKeepsInv(s, c, s.clients[c].value, sent);
        }
      }
    case ToCallBack(c, id) =>
      if c in s.clients {
        CallBackKeepsInv(s, c, id);
      }
  }

  lemma {:induction false} PollSetIs(s: State)
    requires s.proc.Polling? || s.proc.Setting?
    ensures var s' := PollSetStep(s);
      && s' == s.(cs := s'.cs, blind := s'.blind, proc := s'.proc)
      && s'.cs.sw.heap == s.cs.sw.heap && s'.cs.hw.heap == s.cs.hw.heap
      && Doomed(s'.proc) == Doomed(s.proc) && ReadId(s'.proc).None? && ReadId(s.proc).None?
  {
  }

  lemma {:induction false} PollSetMails(s: State)
    requires MailOf(s) && (s.proc.Polling? || s.proc.Setting?)
    ensures MailOf(PollSetStep(s))
  {
    var s' := PollSetStep(s);
    PollSetIs(s);
    SameHeapsMail(s.delegates, s.nextId, s.queue, s.lost, s.cs, Doomed(s.proc), None, s'.cs);
    assert Mail(s.delegates, s.nextId, s.queue, s.lost, s'.cs, Doomed(s'.proc), ReadId(s'.proc));
  }

  lemma {:induction false} PollSetKeepsInv(s: State)
    requires Inv(s) && (s.proc.Polling? || s.proc.Setting?) && !s.fault
    ensures Inv(PollSetStep(s))
  {
    HeapTimes(s, s.proc.w);
    PollSetMails(s);
    if s.proc.Polling? {
      PollCallKeepsFds(s);
    } else {
      SetCallKeepsFds(s);
    }
  }

  lemma {:induction false} DoomedOk(s: State)
    requires Owners(s) && MailOf(s) && Doomed(s.proc).Some?
    ensures var id := Doomed(s.proc).value;
            id in s.delegates && id < s.nextId && s.delegates[id].mClient.None? && s.delegates[id].mLock in s.locks
  {
    var id := Doomed(s.proc).value;
    assert DelegateOk(s.clients, s.delegates[id], id, s.nextId);
  }

  lemma {:induction false} DeletingOwns(s: State, id: nat)
    requires Owners(s) && s.proc == Deleting(id) && id in s.delegates && id < s.nextId
    requires s.delegates[id].mClient.None? && s.delegates[id].mLock in s.locks
    ensures Owners(DeleteDelegate(s, id))
  {
    RemoveKeepsObjects(s.clients, s.delegates, s.nextId, id);
    DelegateDrops(s.clients, s.locks, s.delegates, id);
    RemoveKeepsLog(s.delegates, s.nextId, s.log, id);
  }

  lemma {:induction false} DeletingMails(s: State)
    requires MailOf(s) && s.proc.Deleting?
    ensures MailOf(DeleteDelegate(s, s.proc.id))
  {
    DeletedMail(s.delegates, s.nextId, s.queue, s.lost, s.cs, s.proc.id);
  }

  lemma {:induction false} DeletingKeepsInv(s: State)
    requires Inv(s) && s.proc.Deleting? && !s.fault
    ensures Inv(DeleteDelegate(s, s.proc.id)) && !DeleteDelegate(s, s.proc.id).fault
  {
    DoomedOk(s);
    DeletingOwns(s, s.proc.id);
    DeletingMails(s);
  }

  lemma {:induction false} PollMails(s: State, sent: bool)
    requires MailOf(s) && s.poll != []
    ensures MailOf(PollStep(s, sent))
  {
    if s.stage == SendExpire {
      ExpireSentMail(s.delegates, s.nextId, s.queue, s.lost, s.cs, Doomed(s.proc), ReadId(s.proc), s.poll[0]);
    } else {
      SameHeapsMail(s.delegates, s.nextId, s.queue, s.lost, s.cs, Doomed(s.proc), ReadId(s.proc), PollStep(s, sent).cs);
    }
  }

  lemma {:induction false} PollKeepsInv(s: State, sent: bool)
    requires Inv(s) && s.poll != [] && !s.fault
    ensures Inv(PollStep(s, sent)) && !PollStep(s, sent).fault
  {
    PollMails(s, sent);
    match s.stage
    case Disarm => DisarmKeepsFds(s, sent);
    case RemovePoll => UnpollKeepsFds(s, sent);
    case SendExpire => SendExpireKeepsFds(s, sent);
  }

  lemma {:induction false} WakeKeepsInv(s: State, ready: seq<bool>)
    requires Inv(s) && Enabled(s, AWake(ready))
    ensures Inv(Next(s, AWake(ready)))
  {
  }

  lemma {:induction false} ProcKeepsInv(s: State, sent: bool)
    requires Inv(s) && !s.proc.Idle? && !s.fault
    ensures Inv(ProcStep(s, sent))
  {
    if s.proc.Expiring? {
      ExpireKeepsInv(s, sent);
    } else if s.proc.Deleting? {
      DeletingKeepsInv(s);
    } else {
      PollSetKeepsInv(s);
    }
  }

  lemma {:induction false} ClientKeepsInv(s: State, a: Act)
    requires Inv(s) && Enabled(s, a) && (a.ANew? || a.AStart? || a.AStop? || a.ADelete?)
    ensures Inv(Next(s, a)) && !Next(s, a).fault
  {
    match a
    case ANew(c) => NewKeepsInv(s, c);
    case AStart(c, ms, wake, sent) => StartKeepsInv(s, c, DueTime(s.now, ms), wake, sent);
    case AStop(c, sent) => StopKeepsInv(s, c, sent);
    case ADelete(c, sent) => DeleteKeepsInv(s, c, sent);
  }

  /** Every step of every thread keeps the invariant. */
  lemma {:induction false} StepKeepsInv(s: State, a: Act)
    requires Inv(s) && Enabled(s, a)
    ensures Inv(Next(s, a))
  {
    match a
    case ANew(_) => ClientKeepsInv(s, a);
    case AStart(_, _, _, _) => ClientKeepsInv(s, a);
    case AStop(_, _) => ClientKeepsInv(s, a);
    case ADelete(_, _) => ClientKeepsInv(s, a);
    case ADeliver => DeliverKeepsInv(s);
    case AProc(sent) => ProcKeepsInv(s, sent);
    case AWake(ready) => WakeKeepsInv(s, ready);
    case APoll(sent) => PollKeepsInv(s, sent);
    case ATick(_) =>
  }

  lemma {:induction false} RunKeepsInv(ss: seq<State>, acts: seq<Act>, i: nat)
    requires IsRun(ss, acts) && i < |ss|
    ensures Inv(ss[i])
  {
    if i == 0 {
      var now: Clock :| Nanos(now) > 0 && ss[0] == Init(now);
      InitInv(ss[0], now);
    } else {
      RunKeepsInv(ss, acts, i - 1);
      StepKeepsInv(ss[i - 1], acts[i - 1]);
    }
  }
}
