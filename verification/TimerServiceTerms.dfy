/**
 What the calls of a client mean over whole runs of the timer service: which time and which container
 start() gives a timer, and that it keeps them; that stop() and the destructor end it; and that the
 poll thread handles every event that it was told of.
 */
module TimerServiceTerms {

  import opened Wrappers
  import opened TimerTime
  import opened HeapSpec
  import opened TimerContainer
  import opened TimerService
  import opened TimerServiceProofs

  // ----- start ------------------------------------------------------------------------------------

  predicate IsMsgOf(m: Msg, id: nat) {
    !m.MsgExpire? && m.t.id == id
  }

  /** Timer id is one of container w, due at `due` nanoseconds, wherever it is found. */
  ghost predicate HasTerms(s: State, id: nat, w: bool, due: int) {
    && (id in s.delegates ==> s.delegates[id].wake == w && Nanos(s.delegates[id].mFutureTime) == due)
    && (forall v, t | t in Elems(s.cs.Get(v).heap) && t.id == id :: v == w && Nanos(t.time) == due)
    && (forall m | m in s.queue && IsMsgOf(m, id) :: m.w == w && Nanos(m.t.time) == due)
    && (forall m | m in s.lost && IsMsgOf(m, id) :: m.w == w && Nanos(m.t.time) == due)
  }

  // The part of it that the invariant does not give.
  ghost predicate Terms(ds: Delegates, lost: set<Msg>, id: nat, w: bool, due: int) {
    && (id in ds ==> ds[id].wake == w && Nanos(ds[id].mFutureTime) == due)
    && (forall m | m in lost && IsMsgOf(m, id) :: m.w == w && Nanos(m.t.time) == due)
  }

  lemma {:induction false} NodeHasTerms(s: State, v: bool, t: TimerRef)
    requires MailOf(s) && t in Elems(s.cs.Get(v).heap)
    ensures t.id in s.delegates && t == Canon(s.delegates, t.id) && s.delegates[t.id].wake == v
  {
    assert HeapOk(s.delegates, s.queue, s.lost, v, s.cs.Get(v).heap);
    assert NodeOk(s.delegates, s.queue, s.lost, v, s.cs.Get(v).heap, t);
  }

  lemma {:induction false} TermsEverywhere(s: State, id: nat, w: bool, due: int)
    requires MailOf(s) && Terms(s.delegates, s.lost, id, w, due)
    ensures HasTerms(s, id, w, due)
  {
    forall v, t | t in Elems(s.cs.Get(v).heap) && t.id == id ensures v == w && Nanos(t.time) == due {
      NodeHasTerms(s, v, t);
    }
    forall m | m in s.queue && IsMsgOf(m, id) ensures m.w == w && Nanos(m.t.time) == due {
      QueuedIsOk(s, m);
    }
  }

  lemma {:induction false} QueuedIsOk(s: State, m: Msg)
    requires MailOf(s) && m in s.queue
    ensures MsgOk(s.delegates, m)
  {
  }

  /** What a start() that finds no timer running does. */
  ghost predicate StartedWith(s: State, s': State, c: ClientId, ms: Uint32, w: bool, sent: bool)
    requires c in s.clients
  {
    var id := s.nextId;
    && s'.nextId == id + 1 && s'.clients == s.clients[c := Some(id)]
    && id in s'.delegates
    && var d := s'.delegates[id];
    && d.mClient == Some(c) && d.mLock == c && d.wake == w && d.hasContainer
    && Nanos(d.mFutureTime) == Nanos(s.now) + ms * 1_000_000
    && var push := MsgPush(w, TimerRef(id, d.mFutureTime));
    && s'.queue == (if sent then s.queue + [push] else s.queue)
    && s'.lost == (if sent then s.lost else s.lost + {push})
    && s'.log == s.log + [Started(id)]
  }

  lemma {:induction false} StartGives(s: State, c: ClientId, ms: Uint32, w: bool, sent: bool)
    requires Owners(s) && Enabled(s, AStart(c, ms, w, sent))
    ensures var s' := Next(s, AStart(c, ms, w, sent));
            if s.clients[c].Some? then s' == s else StartedWith(s, s', c, ms, w, sent)
  {
    assert c in s.locks;
  }

  lemma {:induction false} StopKeepsTerms(s: State, c: ClientId, sent: bool, id: nat, w: bool, due: int)
    requires c in s.clients && Terms(s.delegates, s.lost, id, w, due)
    ensures Terms(Stop(s, c, sent).delegates, Stop(s, c, sent).lost, id, w, due)
    ensures Stop(s, c, sent).nextId == s.nextId
  {
  }

  lemma {:induction false} ProcKeepsTerms(s: State, sent: bool, id: nat, w: bool, due: int)
    requires !s.proc.Idle? && Terms(s.delegates, s.lost, id, w, due)
    ensures Terms(ProcStep(s, sent).delegates, ProcStep(s, sent).lost, id, w, due)
    ensures ProcStep(s, sent).nextId == s.nextId
  {
    if s.proc.Expiring? {
      ExpireKeepsTerms(s, sent, id, w, due);
    }
  }

  lemma {:induction false} ExpireKeepsTerms(s: State, sent: bool, id: nat, w: bool, due: int)
    requires s.proc.Expiring? && Terms(s.delegates, s.lost, id, w, due)
    ensures Terms(ExpireStep(s, sent).delegates, ExpireStep(s, sent).lost, id, w, due)
    ensures ExpireStep(s, sent).nextId == s.nextId
  {
    match s.proc.call
    case NoCall => case ToCallBack(_, _) =>
    case ToStop(c) =>
      if c in s.clients {
        StopKeepsTerms(s, c, sent, id, w, due);
      }
  }

  lemma {:induction false} StepKeepsTerms(s: State, a: Act, id: nat, w: bool, due: int)
    requires Enabled(s, a) && id < s.nextId && Terms(s.delegates, s.lost, id, w, due)
    ensures Terms(Next(s, a).delegates, Next(s, a).lost, id, w, due) && id < Next(s, a).nextId
  {
    match a
    case AStop(c, sent) => StopKeepsTerms(s, c, sent, id, w, due);
    case ADelete(c, sent) => StopKeepsTerms(s, c, sent, id, w, due);
    case AProc(sent) => ProcKeepsTerms(s, sent, id, w, due);
    case ADeliver => match s.queue[0] { case MsgPush(_, _) => case MsgRemove(_, _) => case MsgExpire(_) => }
    case ANew(_) => case AStart(_, _, _, _) => case AWake(_) => case APoll(_) => case ATick(_) =>
  }

  // At the start nothing carries the new number yet.
  lemma {:induction false} TermsBegin(s: State, c: ClientId, ms: Uint32, w: bool, sent: bool)
    requires Inv(s) && Enabled(s, AStart(c, ms, w, sent)) && s.clients[c].None?
    ensures var s' := Next(s, AStart(c, ms, w, sent));
            Terms(s'.delegates, s'.lost, s.nextId, w, Nanos(s.now) + ms * 1_000_000) && s.nextId < s'.nextId
  {
    StartGives(s, c, ms, w, sent);
    forall m | m in s.lost ensures !IsMsgOf(m, s.nextId) {
      assert m.t.id < s.nextId;
    }
  }

  lemma {:induction false} TermsGoOn(ss: seq<State>, acts: seq<Act>, i: nat, j: nat, id: nat, w: bool, due: int)
    requires IsRun(ss, acts) && i <= j < |ss| && id < ss[i].nextId && Terms(ss[i].delegates, ss[i].lost, id, w, due)
    ensures id < ss[j].nextId && Terms(ss[j].delegates, ss[j].lost, id, w, due)
    decreases j
  {
    if i < j {
      TermsGoOn(ss, acts, i, j - 1, id, w, due);
      StepKeepsTerms(ss[j - 1], acts[j - 1], id, w, due);
    }
  }

  /**
   start() of a client that has no timer gives it a new one, in the container that wakeOnExpire names
   and due timeOutInMs after now; and with that container and that time it is found in every later
   state, as a delegate, in a heap or in a message. start() of another client does nothing.
   */
  lemma {:induction false} TimerKeepsItsTerms(ss: seq<State>, acts: seq<Act>, i: nat, j: nat)
    requires IsRun(ss, acts) && i < j < |ss| && acts[i].AStart?
    ensures var c := acts[i].c;
            && c in ss[i].clients
            && if ss[i].clients[c].Some? then ss[i + 1] == ss[i]
               else && StartedWith(ss[i], ss[i + 1], c, acts[i].ms, acts[i].wake, acts[i].sent)
                    && HasTerms(ss[j], ss[i].nextId, acts[i].wake, Nanos(ss[i].now) + acts[i].ms * 1_000_000)
  {
    StartAt(ss, acts, i);
    if ss[i].clients[acts[i].c].None? {
      var id, due := ss[i].nextId, Nanos(ss[i].now) + acts[i].ms * 1_000_000;
      TermsGoOn(ss, acts, i + 1, j, id, acts[i].wake, due);
      RunKeepsInv(ss, acts, j);
      TermsEverywhere(ss[j], id, acts[i].wake, due);
    }
  }

  lemma {:induction false} StartAt(ss: seq<State>, acts: seq<Act>, i: nat)
    requires IsRun(ss, acts) && i < |acts| && acts[i].AStart?
    ensures var c := acts[i].c; var id := ss[i].nextId;
            && c in ss[i].clients
            && if ss[i].clients[c].Some? then ss[i + 1] == ss[i]
               else && StartedWith(ss[i], ss[i + 1], c, acts[i].ms, acts[i].wake, acts[i].sent)
                    && id < ss[i + 1].nextId
                    && Terms(ss[i + 1].delegates, ss[i + 1].lost, id, acts[i].wake,
                             Nanos(ss[i].now) + acts[i].ms * 1_000_000)
  {
    RunKeepsInv(ss, acts, i);
    var a := acts[i];
    assert Enabled(ss[i], a) && ss[i + 1] == Next(ss[i], a) && a == AStart(a.c, a.ms, a.wake, a.sent);
    StartGives(ss[i], a.c, a.ms, a.wake, a.sent);
    if ss[i].clients[a.c].None? {
      TermsBegin(ss[i], a.c, a.ms, a.wake, a.sent);
    }
  }

  // ----- stop -------------------------------------------------------------------------------------

  /** The client's timer id has been stopped, and its Remove is on its way or lost. */
  ghost predicate WasStopped(s: State, s': State, id: nat, sent: bool)
    requires id in s.delegates
  {
    var remove := MsgRemove(s.delegates[id].wake, Canon(s.delegates, id));
    && id in s'.delegates && s'.delegates[id].mClient.None?
    && s'.log == s.log + [Stopped(id)]
    && s'.queue == (if sent then s.queue + [remove] else s.queue)
    && s'.lost == (if sent then s.lost else s.lost + {remove})
  }

  /** Client c is stopped, or deleted; its timer, if any, ends, and every other is left alone. */
  ghost predicate Ends(s: State, s': State, c: ClientId, deleted: bool, sent: bool) {
    && c in s.clients
    && s'.clients == (if deleted then s.clients - {c} else s.clients[c := None])
    && (s.clients[c].Some? ==> s.clients[c].value in s.delegates && WasStopped(s, s', s.clients[c].value, sent))
    && (s.clients[c].None? ==> s'.log == s.log && s'.queue == s.queue && s'.lost == s.lost)
    && (forall id | id in s.delegates && s.clients[c] != Some(id) ::
          id in s'.delegates && s'.delegates[id] == s.delegates[id])
  }

  lemma {:induction false} DeleteEnds(s: State, c: ClientId, sent: bool)
    requires Owners(s) && c in s.clients && !Delete(s, c, sent).fault
    ensures Ends(s, Delete(s, c, sent), c, true, sent)
  {
    StopIsMeant(s, c, sent);
    DeleteMore(s, c, sent);
    assert s.clients[c := None] - {c} == s.clients - {c};
  }

  lemma {:induction false} StopEndsStep(s: State, a: Act)
    requires Inv(s) && Enabled(s, a) && (a.AStop? || a.ADelete?)
    ensures Ends(s, Next(s, a), a.c, a.ADelete?, a.sent)
  {
    if a.ADelete? {
      DeleteKeepsInv(s, a.c, a.sent);
      DeleteEnds(s, a.c, a.sent);
    } else {
      StopIsMeant(s, a.c, a.sent);
    }
  }

  /** A stop() or the destructor ends the timer that its client runs, and leaves every other alone. */
  lemma {:induction false} StopEnds(ss: seq<State>, acts: seq<Act>, i: nat)
    requires IsRun(ss, acts) && i < |acts| && (acts[i].AStop? || acts[i].ADelete?)
    ensures Ends(ss[i], ss[i + 1], acts[i].c, acts[i].ADelete?, acts[i].sent)
  {
    RunKeepsInv(ss, acts, i);
    StopEndsStep(ss[i], acts[i]);
  }

  lemma {:induction false} StopIsMeant(s: State, c: ClientId, sent: bool)
    requires Owners(s) && c in s.clients
    ensures var s' := ClientStop(s, c, sent);
            && s'.clients == s.clients[c := None]
            && (s.clients[c].Some? ==> s.clients[c].value in s.delegates && WasStopped(s, s', s.clients[c].value, sent))
            && (s.clients[c].None? ==> s' == s)
            && (forall id | id in s.delegates && s.clients[c] != Some(id) ::
                  id in s'.delegates && s'.delegates[id] == s.delegates[id])
  {
    assert c in s.locks;
    if s.clients[c].Some? {
      StopIs(s, c, s.clients[c].value, sent);
    } else {
      assert s.clients[c := None] == s.clients;
    }
  }

  lemma {:induction false} DeleteMore(s: State, c: ClientId, sent: bool)
    requires c in s.clients && !Delete(s, c, sent).fault
    ensures var s1, s' := ClientStop(s, c, sent), Delete(s, c, sent);
            s' == s1.(clients := s1.clients - {c}, locks := s'.locks)
  {
  }

  // ----- the poll thread's round --------------------------------------------------------------------

  /** The poll thread alone, until it waits again. */
  function FinishPoll(s: State): State
    decreases 3 * |s.poll| - match s.stage case Disarm => 0 case RemovePoll => 1 case SendExpire => 2
  {
    if s.poll == [] then s else FinishPoll(PollStep(s, true))
  }

  function Expires(poll: seq<bool>): (q: seq<Msg>)
    ensures |q| == |poll| && forall i | 0 <= i < |poll| :: q[i] == MsgExpire(poll[i])
  {
    seq(|poll|, i requires 0 <= i < |poll| => MsgExpire(poll[i]))
  }

  function Unarmed(c: Container): Container {
    c.(armed := None, inPoll := false)
  }

  function AllUnarmed(cs: Containers, poll: seq<bool>): Containers
    decreases |poll|
  {
    if poll == [] then cs else AllUnarmed(cs.Set(poll[0], Unarmed(cs.Get(poll[0]))), poll[1..])
  }

  lemma {:induction false} AllUnarmedAt(cs: Containers, poll: seq<bool>, w: bool)
    ensures AllUnarmed(cs, poll).Get(w) == if w in poll then Unarmed(cs.Get(w)) else cs.Get(w)
    decreases |poll|
  {
    if poll != [] {
      AllUnarmedAt(cs.Set(poll[0], Unarmed(cs.Get(poll[0]))), poll[1..], w);
    }
  }

  lemma {:induction false} FinishPollIs(s: State)
    requires s.stage == Disarm
    ensures FinishPoll(s) == s.(poll := [], queue := s.queue + Expires(s.poll), cs := AllUnarmed(s.cs, s.poll))
    decreases |s.poll|
  {
    if s.poll == [] {
      assert s.queue + Expires([]) == s.queue;
    } else {
      var s1 := OneEvent(s);
      FinishPollIs(s1);
      assert s.queue + [MsgExpire(s.poll[0])] + Expires(s.poll[1..]) == s.queue + Expires(s.poll);
    }
  }

  /** Every container that epoll_wait reported is disarmed and taken out of the poll set, and gets its Expire message. */
  lemma {:induction false} EveryEventIsHandled(s: State, w: bool)
    requires s.stage == Disarm
    ensures var s' := FinishPoll(s);
            && s'.poll == [] && s'.queue == s.queue + Expires(s.poll)
            && s'.cs.Get(w) == if w in s.poll then s.cs.Get(w).(armed := None, inPoll := false) else s.cs.Get(w)
  {
    FinishPollIs(s);
    AllUnarmedAt(s.cs, s.poll, w);
  }

  lemma {:induction false} OneEvent(s: State) returns (s': State)
    requires s.stage == Disarm && s.poll != []
    ensures s' == s.(cs := s.cs.Set(s.poll[0], Unarmed(s.cs.Get(s.poll[0]))),
                     queue := s.queue + [MsgExpire(s.poll[0])], poll := s.poll[1..])
    ensures FinishPoll(s) == FinishPoll(s')
  {
    var s1 := PollStep(s, true);
    var s2 := PollStep(s1, true);
    s' := PollStep(s2, true);
    assert FinishPoll(s) == FinishPoll(s1);
    assert FinishPoll(s1) == FinishPoll(s2);
    assert FinishPoll(s2) == FinishPoll(s');
  }
}
