/**
 What holds in every state of every run of the timer service, whatever the interleaving.
 */
module TimerServiceTheorems {

  import opened Wrappers
  import opened HeapSpec
  import opened TimerContainer
  import opened TimerService
  import opened TimerServiceProofs

  /** Something of container w is under way: its event, an Expire message, or a message being handled. */
  predicate InFlight(s: State, w: bool) {
    w in s.poll || MsgExpire(w) in s.queue || WillSet(s.proc, w)
  }

  /**
   No lost expiry: while a container holds timers and nothing of it is under way, its timerfd is in
   the poll set and armed with exactly the soonest time, if and only if no Expire message was lost
   while the fd was out of the poll set, or the fd has been polled again since.
   */
  lemma {:induction false} NoLostExpiry(ss: seq<State>, acts: seq<Act>, i: nat, w: bool)
    requires IsRun(ss, acts) && i < |ss| && ss[i].cs.Get(w).heap.Node?
    ensures var c := ss[i].cs.Get(w);
            InFlight(ss[i], w) || (c.inPoll && c.armed == Some(c.heap.data.time) <==> w !in ss[i].blind)
    ensures forall t | t in Elems(ss[i].cs.Get(w).heap) :: NotLater(ss[i].cs.Get(w).heap.data.time, t.time)
  {
    RunKeepsInv(ss, acts, i);
    var s := ss[i];
    assert Watched(s.cs.Get(w), w, s.poll, s.stage, s.queue, s.proc, s.blind);
    assert HeapOk(s.delegates, s.queue, s.lost, w, s.cs.Get(w).heap);
    forall t | t in Elems(s.cs.Get(w).heap) ensures NotLater(s.cs.Get(w).heap.data.time, t.time) {
      TopIsSoonest(s.cs.Get(w).heap, t);
    }
  }

  /** Hence a due timer is seen by epoll_wait, under the same condition. */
  lemma {:induction false} DueTimerIsSeen(ss: seq<State>, acts: seq<Act>, i: nat, w: bool, t: TimerRef)
    requires IsRun(ss, acts) && i < |ss| && !ss[i].fault
    requires t in Elems(ss[i].cs.Get(w).heap) && NotLater(t.time, ss[i].now)
    requires ss[i].poll == [] && !InFlight(ss[i], w)
    ensures Enabled(ss[i], AWake([w])) <==> w !in ss[i].blind
  {
    NoLostExpiry(ss, acts, i, w);
    if w in ss[i].blind {
      NeverPolledBlind(ss, acts, i, w);
    }
    WakeOne(ss[i], w);
  }

  lemma {:induction false} NeverPolledBlind(ss: seq<State>, acts: seq<Act>, i: nat, w: bool)
    requires IsRun(ss, acts) && i < |ss| && w in ss[i].blind
    ensures !ss[i].cs.Get(w).inPoll
  {
    RunKeepsInv(ss, acts, i);
    assert Watched(ss[i].cs.Get(w), w, ss[i].poll, ss[i].stage, ss[i].queue, ss[i].proc, ss[i].blind);
  }

  lemma WakeOne(s: State, w: bool)
    ensures Enabled(s, AWake([w])) <==> !s.fault && s.poll == [] && Readable(s, w)
  {
    assert w in [w];
  }

  /**
   Nothing that can reach a delegate refers to a deleted one: no heap node, no queued message, no
   message being handled, no client's mTimer. mTimer and mClient mirror each other.
   */
  lemma {:induction false} NothingDangles(ss: seq<State>, acts: seq<Act>, i: nat)
    requires IsRun(ss, acts) && i < |ss|
    ensures var s := ss[i];
            && (forall w, t | t in Elems(s.cs.Get(w).heap) :: t.id in s.delegates && t == Canon(s.delegates, t.id))
            && (forall m | m in s.queue && !m.MsgExpire? :: m.t.id in s.delegates)
            && (Doomed(s.proc).Some? ==> Doomed(s.proc).value in s.delegates)
            && (forall c, id | c in s.clients && id in s.delegates ::
                  s.clients[c] == Some(id) <==> s.delegates[id].mClient == Some(c))
            && (forall c | c in s.clients && s.clients[c].Some? :: s.clients[c].value in s.delegates)
  {
    RunKeepsInv(ss, acts, i);
    var s := ss[i];
    forall w, t | t in Elems(s.cs.Get(w).heap) ensures t.id in s.delegates && t == Canon(s.delegates, t.id) {
      assert HeapOk(s.delegates, s.queue, s.lost, w, s.cs.Get(w).heap);
      assert NodeOk(s.delegates, s.queue, s.lost, w, s.cs.Get(w).heap, t);
    }
    forall m | m in s.queue && !m.MsgExpire? ensures m.t.id in s.delegates {
      assert MsgOk(s.delegates, m);
    }
    forall c, id | c in s.clients && id in s.delegates
      ensures s.clients[c] == Some(id) <==> s.delegates[id].mClient == Some(c)
    {
      assert DelegateOk(s.clients, s.delegates[id], id, s.nextId);
    }
  }

  // ----- the client that expire() has read ------------------------------------------------------

  // The client that the message thread points to keeps its lock, so its number is not used again.
  lemma {:induction false} HeldKeepsLock(s: State, c: ClientId)
    requires Inv(s) && HeldClient(s.proc) == Some(c)
    ensures c in s.locks
  {
  }

  // Clients come and go by their own constructor and destructor only.
  lemma {:induction false} DeleteIs(s: State, d: ClientId, sent: bool)
    requires d in s.clients && !Delete(s, d, sent).fault
    ensures Delete(s, d, sent).clients.Keys == s.clients.Keys - {d} && Delete(s, d, sent).proc == s.proc
  {
    assert Stop(s, d, sent).clients.Keys == s.clients.Keys;
  }

  lemma {:induction false} StopReadKeepsClients(s: State, c: ClientId, sent: bool)
    requires s.proc.Expiring?
    ensures StopRead(s, c, sent).clients.Keys == s.clients.Keys
  {
  }

  lemma {:induction false} ProcKeepsClients(s: State, sent: bool)
    requires !s.proc.Idle?
    ensures ProcStep(s, sent).clients.Keys == s.clients.Keys
  {
    match s.proc
    case Expiring(_, _, _, _, call) => {
      match call
      case NoCall => case ToCallBack(_, _) =>
      case ToStop(c) => StopReadKeepsClients(s, c, sent);
    }
    case Polling(_, _, _) => case Setting(_, _, _) => case Deleting(_) =>
  }

  lemma {:induction false} ClientStepKeepsClients(s: State, a: Act, c: ClientId)
    requires Enabled(s, a) && c in s.locks && !Next(s, a).fault
    requires a.ANew? || a.AStart? || a.AStop? || a.ADelete?
    ensures c in Next(s, a).clients <==> c in s.clients && !(a.ADelete? && a.c == c)
    ensures Next(s, a).proc == s.proc
  {
    match a
    case ADelete(d, sent) => DeleteIs(s, d, sent);
    case ANew(_) => case AStart(_, _, _, _) => case AStop(_, _) =>
  }

  lemma {:induction false} StepKeepsClients(s: State, a: Act, c: ClientId)
    requires Enabled(s, a) && c in s.locks && !Next(s, a).fault
    ensures c in Next(s, a).clients <==> c in s.clients && !(a.ADelete? && a.c == c)
  {
    match a
    case ANew(_) => ClientStepKeepsClients(s, a, c);
    case AStart(_, _, _, _) => ClientStepKeepsClients(s, a, c);
    case AStop(_, _) => ClientStepKeepsClients(s, a, c);
    case ADelete(_, _) => ClientStepKeepsClients(s, a, c);
    case AProc(sent) => ProcKeepsClients(s, sent);
    case ADeliver => DeliverKeepsClients(s);
    case AWake(_) => case APoll(_) => case ATick(_) =>
  }

  lemma {:induction false} DeliverKeepsClients(s: State)
    requires s.proc.Idle? && s.queue != []
    ensures Deliver(s).clients == s.clients && HeldClient(Deliver(s).proc).None?
  {
    match s.queue[0] case MsgPush(_, _) => case MsgRemove(_, _) => case MsgExpire(_) =>
  }

  lemma {:induction false} ReadsTop(s: State, sent: bool, c: ClientId)
    requires s.proc.Expiring? && s.proc.call.NoCall? && HeldClient(ExpireStep(s, sent).proc) == Some(c)
    requires s.cs.Get(s.proc.w).heap.Node? ==> s.cs.Get(s.proc.w).heap.data.id in s.delegates
    ensures ExpireStep(s, sent).clients == s.clients && s.cs.Get(s.proc.w).heap.Node?
    ensures s.delegates[s.cs.Get(s.proc.w).heap.data.id].mClient == Some(c)
  {
  }

  // A client is read off a delegate, and is live then.
  lemma {:induction false} ReadIsLive(s: State, sent: bool, c: ClientId)
    requires Owners(s) && MailOf(s) && s.proc.Expiring? && s.proc.call.NoCall? && !s.fault
    requires HeldClient(ExpireStep(s, sent).proc) == Some(c)
    ensures c in ExpireStep(s, sent).clients
  {
    HeapTimes(s, s.proc.w);
    ReadsTop(s, sent, c);
    var id := s.cs.Get(s.proc.w).heap.data.id;
    assert DelegateOk(s.clients, s.delegates[id], id, s.nextId);
  }

  lemma {:induction false} ProcHolds(s: State, sent: bool)
    requires !s.proc.Idle? && HeldClient(ProcStep(s, sent).proc).Some?
    ensures s.proc.Expiring? && (s.proc.call.NoCall? || HeldClient(ProcStep(s, sent).proc) == HeldClient(s.proc))
  {
    match s.proc
    case Expiring(_, _, _, _, call) => match call { case NoCall => case ToCallBack(_, _) => case ToStop(_) => }
    case Polling(_, _, _) => case Setting(_, _, _) => case Deleting(_) =>
  }

  // The message thread alone takes a client up.
  lemma {:induction false} OnlyProcHolds(s: State, a: Act)
    requires Enabled(s, a) && !Next(s, a).fault && HeldClient(Next(s, a).proc).Some?
    ensures HeldClient(Next(s, a).proc) == HeldClient(s.proc) || (a.AProc? && s.proc.Expiring? && s.proc.call.NoCall?)
  {
    match a
    case ADelete(d, sent) => DeleteIs(s, d, sent);
    case AProc(sent) => ProcHolds(s, sent);
    case ADeliver => DeliverKeepsClients(s);
    case ANew(_) => case AStart(_, _, _, _) => case AStop(_, _) =>
    case AWake(_) => case APoll(_) => case ATick(_) =>
  }

  /** One step takes the client c that is held away exactly if it is c's deletion. */
  lemma {:induction false} OnlyDeleteTakes(s: State, a: Act, c: ClientId)
    requires Inv(s) && Enabled(s, a) && !Next(s, a).fault && HeldClient(Next(s, a).proc) == Some(c)
    ensures if HeldClient(s.proc) == Some(c) then c in Next(s, a).clients <==> c in s.clients && !(a.ADelete? && a.c == c)
            else c in Next(s, a).clients
  {
    OnlyProcHolds(s, a);
    if HeldClient(s.proc) == Some(c) {
      HeldKeepsLock(s, c);
      StepKeepsClients(s, a, c);
    } else {
      ReadIsLive(s, a.sent, c);
    }
  }

  /** A step follows a dangling pointer exactly if it is expire()'s and its client is gone. */
  lemma {:induction false} FaultIsDeadClient(s: State, a: Act)
    requires Inv(s) && Enabled(s, a)
    ensures Next(s, a).fault <==> a.AProc? && HeldClient(s.proc).Some? && HeldClient(s.proc).value !in s.clients
  {
    match a
    case ANew(_) => ClientKeepsInv(s, a);
    case AStart(_, _, _, _) => ClientKeepsInv(s, a);
    case AStop(_, _) => ClientKeepsInv(s, a);
    case ADelete(_, _) => ClientKeepsInv(s, a);
    case ADeliver => DeliverKeepsInv(s);
    case AProc(sent) => ProcFaults(s, sent);
    case AWake(_) => case APoll(_) => case ATick(_) =>
  }

  lemma {:induction false} ProcFaults(s: State, sent: bool)
    requires Inv(s) && !s.proc.Idle? && !s.fault
    ensures ProcStep(s, sent).fault <==> HeldClient(s.proc).Some? && HeldClient(s.proc).value !in s.clients
  {
    if s.proc.Deleting? {
      DeletingKeepsInv(s);
    } else if s.proc.Expiring? {
      match s.proc.call
      case NoCall =>
        if PopsNext(s) {
          PopKeepsInv(s);
        }
      case ToStop(c) =>
        if c in s.clients {
          if s.clients[c].None? {
            StopNothingKeepsInv(s, c, sent);
          } else {
            StopReadKeepsInv(s, c, s.clients[c].value, sent);
          }
        }
      case ToCallBack(_, _) =>
    }
  }

  /** From step j to state i, with client c in the message thread's hands, c was deleted. */
  ghost predicate DeletedWhileHeld(ss: seq<State>, acts: seq<Act>, j: nat, i: nat, c: ClientId) {
    && j < i <= |acts| && i < |ss|
    && acts[j].ADelete? && acts[j].c == c
    && forall k | j <= k <= i :: HeldClient(ss[k].proc) == Some(c)
  }

  lemma {:induction false} RunStep(ss: seq<State>, acts: seq<Act>, i: nat)
    requires IsRun(ss, acts) && i < |acts|
    ensures Inv(ss[i]) && Enabled(ss[i], acts[i]) && ss[i + 1] == Next(ss[i], acts[i])
  {
    RunKeepsInv(ss, acts, i);
  }

  lemma {:induction false} NotOver(ss: seq<State>, acts: seq<Act>, i: nat)
    requires IsRun(ss, acts) && i < |acts|
    ensures !ss[i].fault
  {
    assert Enabled(ss[i], acts[i]);
  }

  // What one step of a run does to the client held after it.
  lemma {:induction false} RunTakes(ss: seq<State>, acts: seq<Act>, i: nat, c: ClientId)
    requires IsRun(ss, acts) && i < |acts| && !ss[i + 1].fault && HeldClient(ss[i + 1].proc) == Some(c)
    ensures if HeldClient(ss[i].proc) == Some(c)
            then c in ss[i + 1].clients <==> c in ss[i].clients && !(acts[i].ADelete? && acts[i].c == c)
            else c in ss[i + 1].clients
  {
    RunStep(ss, acts, i);
    OnlyDeleteTakes(ss[i], acts[i], c);
  }

  lemma {:induction false} NothingHeldFirst(ss: seq<State>, acts: seq<Act>)
    requires IsRun(ss, acts)
    ensures HeldClient(ss[0].proc).None?
  {
  }

  lemma {:induction false} HeldOn(ss: seq<State>, acts: seq<Act>, j: nat, i: nat, c: ClientId)
    requires 0 < i <= |acts| && i < |ss| && DeletedWhileHeld(ss, acts, j, i - 1, c) && HeldClient(ss[i].proc) == Some(c)
    ensures DeletedWhileHeld(ss, acts, j, i, c)
  {
  }

  lemma {:induction false} GoneWasDeleted(ss: seq<State>, acts: seq<Act>, i: nat, c: ClientId) returns (j: nat)
    requires IsRun(ss, acts) && i < |ss| && !ss[i].fault && HeldClient(ss[i].proc) == Some(c) && c !in ss[i].clients
    ensures DeletedWhileHeld(ss, acts, j, i, c)
  {
    NothingHeldFirst(ss, acts);
    RunTakes(ss, acts, i - 1, c);
    if c in ss[i - 1].clients {
      j := i - 1;
    } else {
      NotOver(ss, acts, i - 1);
      j := GoneWasDeleted(ss, acts, i - 1, c);
      HeldOn(ss, acts, j, i, c);
    }
  }

  // c stays away from one state to the next, and goes at its deletion.
  ghost predicate GoneAt(ss: seq<State>, acts: seq<Act>, m: nat, c: ClientId)
    requires m + 1 < |ss| && m < |acts|
  {
    c !in ss[m].clients || (acts[m].ADelete? && acts[m].c == c) ==> c !in ss[m + 1].clients
  }

  lemma {:induction false} GoneOn(ss: seq<State>, acts: seq<Act>, j: nat, i: nat, c: ClientId)
    requires j < i <= |acts| && i < |ss| && acts[j].ADelete? && acts[j].c == c
    requires forall m: nat | j <= m < i :: GoneAt(ss, acts, m, c)
    ensures c !in ss[i].clients
  {
    assert GoneAt(ss, acts, i - 1, c);
    if j < i - 1 {
      GoneOn(ss, acts, j, i - 1, c);
    }
  }

  lemma {:induction false} DeletedIsGone(ss: seq<State>, acts: seq<Act>, j: nat, i: nat, c: ClientId)
    requires IsRun(ss, acts) && DeletedWhileHeld(ss, acts, j, i, c) && !ss[i].fault
    ensures c !in ss[i].clients
  {
    forall m: nat | j <= m < i ensures GoneAt(ss, acts, m, c) {
      if m + 1 < i {
        NotOver(ss, acts, m + 1);
      }
      RunTakes(ss, acts, m, c);
    }
    GoneOn(ss, acts, j, i, c);
  }

  /**
   A run follows a dangling pointer in its last step if and only if that is a step of the message
   thread whose client was deleted after expire() had read mClient and before that step.
   */
  lemma {:induction false} FaultsExactly(ss: seq<State>, acts: seq<Act>, i: nat)
    requires IsRun(ss, acts) && i < |acts|
    ensures ss[i + 1].fault <==> acts[i].AProc? && exists j: nat, c: ClientId :: DeletedWhileHeld(ss, acts, j, i, c)
  {
    RunFaults(ss, acts, i);
    NotOver(ss, acts, i);
    if ss[i + 1].fault {
      var c := HeldClient(ss[i].proc).value;
      var j := GoneWasDeleted(ss, acts, i, c);
    }
    if acts[i].AProc? && exists j: nat, c: ClientId :: DeletedWhileHeld(ss, acts, j, i, c) {
      var j: nat, c: ClientId :| DeletedWhileHeld(ss, acts, j, i, c);
      DeletedIsGone(ss, acts, j, i, c);
      assert HeldClient(ss[i].proc) == Some(c);
    }
  }

  lemma {:induction false} RunFaults(ss: seq<State>, acts: seq<Act>, i: nat)
    requires IsRun(ss, acts) && i < |acts|
    ensures ss[i + 1].fault <==>
              acts[i].AProc? && HeldClient(ss[i].proc).Some? && HeldClient(ss[i].proc).value !in ss[i].clients
  {
    RunStep(ss, acts, i);
    FaultIsDeadClient(ss[i], acts[i]);
  }

  // ----- the life of a timer --------------------------------------------------------------------

  function B(b: bool): nat { if b then 1 else 0 }

  /**
   The life of the delegate of each successful start(): it ends at most once, by a stop() that
   returned true or by a time-out and never by both; it has ended exactly when it has lost its
   client; a time-out is followed by one callback; and it is deleted at most once, exactly when it
   is no longer live.
   */
  lemma {:induction false} EachTimerEndsOnce(ss: seq<State>, acts: seq<Act>, i: nat, id: nat)
    requires IsRun(ss, acts) && i < |ss| && id < ss[i].nextId
    ensures var s := ss[i];
            var log := multiset(s.log);
            && log[Started(id)] == 1
            && log[Stopped(id)] + log[TimedOut(id)] == B(id !in s.delegates || s.delegates[id].mClient.None?)
            && log[CalledBack(id)] == (if PendingId(s.proc) == Some(id) then 0 else log[TimedOut(id)])
            && log[Deleted(id)] == B(id !in s.delegates)
  {
    RunKeepsInv(ss, acts, i);
    LogCounts(ss[i].delegates, ss[i].nextId, ss[i].log, PendingId(ss[i].proc), id);
  }

  lemma {:induction false} LogCounts(ds: Delegates, nextId: nat, log: seq<Event>, pending: Option<nat>, id: nat)
    requires LogInv(ds, nextId, log, pending) && id < nextId
    ensures multiset(log)[Started(id)] == 1
    ensures multiset(log)[Stopped(id)] + multiset(log)[TimedOut(id)] == B(id !in ds || ds[id].mClient.None?)
    ensures multiset(log)[CalledBack(id)] == if pending == Some(id) then 0 else multiset(log)[TimedOut(id)]
    ensures multiset(log)[Deleted(id)] == B(id !in ds)
  {
    assert LifeOk(ds, log, id, pending);
    OncePerPhase(log, Started(id), Started(id));
    OncePerPhase(log, Stopped(id), TimedOut(id));
    OncePerPhase(log, TimedOut(id), TimedOut(id));
    OncePerPhase(log, CalledBack(id), CalledBack(id));
    OncePerPhase(log, Deleted(id), Deleted(id));
  }

  lemma {:induction false} OncePerPhase(log: seq<Event>, a: Event, b: Event)
    requires a.id == b.id && Phase(a) == Phase(b)
    requires forall j, k | 0 <= j < k < |log| && log[j].id == log[k].id :: Phase(log[j]) < Phase(log[k])
    ensures multiset(log)[a] + (if a == b then 0 else multiset(log)[b]) == B(a in log || b in log)
  {
    if log != [] {
      var n := |log| - 1;
      var init := log[..n];
      OncePerPhase(init, a, b);
      assert log == init + [log[n]];
      if log[n] == a || log[n] == b {
        assert forall j | 0 <= j < n :: init[j] == log[j] && init[j] != a && init[j] != b;
      }
    }
  }

  /**
   A shared lock lives exactly as long as somebody can still lock it: its count is one for the
   live LocTimer plus one for each live delegate that shares it.
   */
  lemma {:induction false} LockCountsItsHolders(ss: seq<State>, acts: seq<Act>, i: nat, c: ClientId)
    requires IsRun(ss, acts) && i < |ss|
    ensures var s := ss[i];
            && (c in s.locks <==> c in s.clients || exists id :: id in s.delegates && s.delegates[id].mLock == c)
            && (c in s.locks ==> s.locks[c] == B(c in s.clients) + |Holders(s.delegates, c)|)
  {
    RunKeepsInv(ss, acts, i);
    var s := ss[i];
    if c in s.locks {
      assert LockOk(s.clients, s.locks, s.delegates, c);
      if c !in s.clients {
        var id :| id in Holders(s.delegates, c);
      }
    }
  }

  /**
   What leaks: when the message thread is idle and its queue is empty, a delegate without a client
   is left if and only if its Remove was lost; a running one stands in its heap if and only if its
   Push was not lost; and the heaps hold nothing else.
   */
  lemma {:induction false} QuietMeansTicking(ss: seq<State>, acts: seq<Act>, i: nat, id: nat)
    requires IsRun(ss, acts) && i < |ss| && ss[i].queue == [] && ss[i].proc.Idle?
    ensures id in ss[i].delegates ==> LeftBehind(ss[i], id)
    ensures id !in ss[i].delegates ==>
              && (forall w, t | t in Elems(ss[i].cs.Get(w).heap) :: t.id != id)
              && (forall m | m in ss[i].lost && m.MsgRemove? :: m.t.id != id)
  {
    RunKeepsInv(ss, acts, i);
    var s := ss[i];
    if id in s.delegates {
      QuietLeaves(s, id);
    } else {
      forall w, t | t in Elems(s.cs.Get(w).heap) ensures t.id != id {
        assert HeapOk(s.delegates, s.queue, s.lost, w, s.cs.Get(w).heap);
        assert NodeOk(s.delegates, s.queue, s.lost, w, s.cs.Get(w).heap, t);
      }
      assert forall m | m in s.lost && m.MsgRemove? :: MsgOk(s.delegates, m);
    }
  }

  /** Why a delegate is there although no message is left. */
  ghost predicate LeftBehind(s: State, id: nat)
    requires id in s.delegates
  {
    var d := s.delegates[id];
    var t := Canon(s.delegates, id);
    && (d.mClient.None? <==> MsgRemove(d.wake, t) in s.lost)
    && (d.mClient.Some? ==>
          && d.mClient.value in s.clients && s.clients[d.mClient.value] == Some(id)
          && (t in Elems(s.cs.Get(d.wake).heap) <==> MsgPush(d.wake, t) !in s.lost))
  }

  lemma {:induction false} QuietLeaves(s: State, id: nat)
    requires Inv(s) && s.queue == [] && s.proc.Idle? && id in s.delegates
    ensures LeftBehind(s, id)
  {
    var d := s.delegates[id];
    var t := Canon(s.delegates, id);
    assert DelegateOk(s.clients, d, id, s.nextId);
    if d.mClient.None? {
      assert Mailed(s.queue, s.lost, MsgRemove(d.wake, t));
    } else {
      assert Ticking(s.delegates, s.queue, s.lost, s.cs, id);
      assert !MsgOk(s.delegates, MsgRemove(d.wake, t));
      var h := s.cs.Get(d.wake).heap;
      assert HeapOk(s.delegates, s.queue, s.lost, d.wake, h);
      assert t in Elems(h) ==> NodeOk(s.delegates, s.queue, s.lost, d.wake, h, t);
    }
  }

  /**
   When the loop of an Expire message is finished, the delegates it popped are exactly the batch of
   the heap it found, at the time it read; each of them has ended; and every timer left is later
   than that.
   */
  lemma {:induction false} ExpiryPopsItsBatch(ss: seq<State>, acts: seq<Act>, i: nat)
    requires IsRun(ss, acts) && i < |acts| && ss[i].proc.Expiring? && !ss[i + 1].proc.Expiring?
    ensures var p := ss[i].proc;
            && Heap(ranks, p.start)
            && Batch(p.start, p.cutoff, true) == (p.popped, ss[i + 1].cs.Get(p.w).heap)
            && (forall t | t in p.popped :: Stopped(t.id) in ss[i + 1].log || TimedOut(t.id) in ss[i + 1].log)
            && (forall t | t in Elems(ss[i + 1].cs.Get(p.w).heap) :: !NotLater(t.time, p.cutoff))
            && ((forall t | t in p.popped :: NotLater(t.time, p.cutoff)) <==>
                  p.start.Nil? || NotLater(p.start.data.time, p.cutoff))
  {
    RunKeepsInv(ss, acts, i);
    var s := ss[i];
    var p := s.proc;
    ExpiringGoesOn(s, acts[i]);
    LoopEnds(s);
    assert p.popped + [] == p.popped;
    BatchLeavesLater(p.start, p.cutoff, true);
    BatchPopsOnlyDue(p.start, p.cutoff);
    forall t | t in p.popped ensures Stopped(t.id) in s.log || TimedOut(t.id) in s.log {
      assert Ended(s.delegates, s.nextId, t.id);
      assert LifeOk(s.delegates, s.log, t.id, PendingId(p));
    }
  }

  /**
   When expire() is about to stop timer id, that timer's time is still to come exactly if it was the
   first that the message popped and the heap's top was not due, provided it is the timer popped;
   if it is another one, the timer popped has ended meanwhile.
   */
  lemma {:induction false} TimesOutEarlyExactly(ss: seq<State>, acts: seq<Act>, i: nat, c: ClientId, id: nat)
    requires IsRun(ss, acts) && i < |ss| && ss[i].proc.Expiring? && ss[i].proc.call == ToStop(c)
    requires c in ss[i].clients && ss[i].clients[c] == Some(id)
    ensures var s, p := ss[i], ss[i].proc;
            && id in s.delegates && p.popped != []
            && var popped := p.popped[|p.popped| - 1];
            && (popped.id == id ==>
                  (!NotLater(s.delegates[id].mFutureTime, p.cutoff) <==>
                     |p.popped| == 1 && p.start.Node? && !NotLater(p.start.data.time, p.cutoff)))
            && (popped.id != id ==> popped.id in s.delegates && s.delegates[popped.id].mClient.None?)
  {
    RunKeepsInv(ss, acts, i);
    StopIs(ss[i], c, id, true);
    ReadEnds(ss[i], c);
    PoppedIsDue(ss[i].proc, ss[i].cs.Get(ss[i].proc.w).heap);
  }

  lemma {:induction false} PoppedIsDue(p: Proc, h: Tree<TimerRef>)
    requires p.Expiring? && p.popped != [] && Heap(ranks, p.start)
    requires Batch(p.start, p.cutoff, true).0 == p.popped + Batch(h, p.cutoff, false).0
    ensures !NotLater(p.popped[|p.popped| - 1].time, p.cutoff) <==>
              |p.popped| == 1 && p.start.Node? && !NotLater(p.start.data.time, p.cutoff)
  {
    var ps := Batch(p.start, p.cutoff, true).0;
    assert ps[|p.popped| - 1] == p.popped[|p.popped| - 1];
    BatchOrder(p.start, p.cutoff, true);
    BatchUnfolds(p.start, p.cutoff, true);
  }

  // Only the loop's last test leaves it.
  lemma ExpiringGoesOn(s: State, a: Act)
    requires s.proc.Expiring? && Enabled(s, a) && !Next(s, a).proc.Expiring?
    ensures a.AProc? && s.proc.call.NoCall? && !PopsNext(s)
    ensures Next(s, a).log == s.log && Next(s, a).cs == s.cs
  {
  }

  lemma LoopEnds(s: State)
    requires s.proc.Expiring? && !PopsNext(s)
    ensures Batch(s.cs.Get(s.proc.w).heap, s.proc.cutoff, s.proc.popped == []) == ([], s.cs.Get(s.proc.w).heap)
  {
  }
}
