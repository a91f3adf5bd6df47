/**
 QCameraCbNotifier (camera/QCamera2/HAL/QCamera2HWICallbacks.cpp) with its two QCameraQueues and its
 QCameraCmdThread, as a step system. Any number of threads are inside notifyCallback, one statement
 at a time; others send START, STOP and EXIT or flush; the callback thread takes one command per
 step. The queues' operations are atomic under their locks. What the callback thread does between
 taking a callback off the queue and deleting it touches nothing that others see, so it is one step.
 */
module CbNotifier {

  import opened Wrappers
  import opened CameraQueue

  datatype CbType = NotifyCb | DataCb | TimestampCb | SnapshotCb | UnknownCb

  datatype MsgType = PreviewFrame | VideoFrame | OtherMsg

  /** qcamera_callback_argm_t; `id` tells accepted callbacks apart. */
  datatype Cb = Cb(id: nat, cbType: CbType, msgType: MsgType)

  datatype Cmd = StartProc | StopProc | NextJob | Exit

  datatype Status = NoError | BadValue | InvalidOperation | FailedTransaction

  /** Which of the application's three callback functions are set. */
  datatype Handlers = Handlers(notify: bool, data: bool, timestamp: bool)

  datatype Event =
    | Started(expected: nat, longshot: bool)
    | Stopped
    | Done                                 // QCAMERA_SM_EVT_SNAPSHOT_DONE raised
    | Delivered(cb: Cb)                    // handed to the application
    | Released(cb: Cb, status: Status)     // release_cb called, where there is one, and cb deleted

  // ----- flushing -----------------------------------------------------------------------------------

  datatype Match = SnapshotCbs | PreviewCbs | TimestampCbs {
    predicate Has(cb: Cb) {
      match this
      case SnapshotCbs => cb.cbType.SnapshotCb?
      case PreviewCbs => cb.cbType.DataCb? && cb.msgType.PreviewFrame?
      case TimestampCbs => cb.cbType.TimestampCb? && cb.msgType.VideoFrame?
    }
  }

  function ReleaseAll(cbs: seq<Cb>): (r: seq<Event>)
    ensures |r| == |cbs|
    ensures forall i | 0 <= i < |cbs| :: r[i] == Released(cbs[i], FailedTransaction)
  {
    seq(|cbs|, i requires 0 <= i < |cbs| => Released(cbs[i], FailedTransaction))
  }

  // ----- the state ------------------------------------------------------------------------------------

  /** The local variables of cbNotifyRoutine. */
  datatype Locals = Locals(running: bool, snapshotActive: bool, longshot: bool, expected: nat, received: nat)

  datatype State = State(
    handlers: Handlers,
    mActive: bool,
    dataQ: seq<Cb>,
    dataActive: bool,        // mDataQ has not been flushed for good
    cmdQ: seq<Cmd>,
    sem: nat,                // cmd_sem
    checked: nat,            // callers of notifyCallback that have found mActive true
    holding: nat,            // callers that have enqueued, but not yet sent DO_NEXT_JOB
    posting: nat,            // callers of sendCmd that have still to post cmd_sem
    lost: nat,               // DO_NEXT_JOB commands that sendCmd found no memory for
    locals: Locals,
    accepted: seq<Cb>,
    log: seq<Event>)

  /** After setCallbacks. */
  function Init(handlers: Handlers): State {
    State(handlers, true, [], true, [], 0, 0, 0, 0, 0, Locals(true, false, false, 0, 0), [], [])
  }

  /** What the parent answers while a command is handled; numOfSnapshotsExpected() is a uint8_t. */
  datatype Env = Env(expected: nat, longshot: bool, enabled: bool)

  datatype Act =
    | Check
    | Enqueue(cbType: CbType, msgType: MsgType)
    | GiveUp                 // no memory for the callback or its queue node
    | SendJob
    | LoseJob(posts: bool)   // no memory for the command, or (with the post) for its queue node
    | SendFirst(cmd: Cmd)    // startSnapshots, stopSnapshots, exit: at the front of the queue
    | LoseFirst              // no memory for its queue node; it is posted all the same
    | Post
    | Deactivate             // exit()
    | FlushSome(m: Match)
    | Handle(env: Env)

  predicate Enabled(s: State, a: Act) {
    match a
    case Check => true
    case Enqueue(_, _) => s.checked > 0
    case GiveUp => s.checked > 0
    case SendJob => s.holding > 0
    case LoseJob(_) => s.holding > 0
    case SendFirst(cmd) => !cmd.NextJob? && (cmd.Exit? ==> !s.mActive)
    case LoseFirst => true
    case Post => s.posting > 0
    case Deactivate => true
    case FlushSome(m) => !m.SnapshotCbs?
    case Handle(env) => s.locals.running && s.sem > 0 && env.expected < 256
  }

  function EnqueueCb(s: State, cbType: CbType, msgType: MsgType): State
    requires s.checked > 0
  {
    var cb := Cb(|s.accepted|, cbType, msgType);
    if s.dataActive
    then s.(checked := s.checked - 1, holding := s.holding + 1, dataQ := s.dataQ + [cb], accepted := s.accepted + [cb])
    else s.(checked := s.checked - 1)
  }

  /** QCameraQueue::flushNodes with releaseNotifications. */
  function Flushed(s: State, m: Match): State {
    if !s.dataActive then s
    else
      s.(dataQ := Kept(s.dataQ, m.Has, |s.dataQ|), log := s.log + ReleaseAll(Dropped(s.dataQ, m.Has, |s.dataQ|)))
  }

  function Increment(received: nat): nat { (received + 1) % TWO_TO_THE_32 }

  /** What handling one callback does, in order. */
  function JobEvents(h: Handlers, l: Locals, cb: Cb, enabled: bool): seq<Event> {
    if !enabled then [Released(cb, InvalidOperation)]
    else
      match cb.cbType
      case NotifyCb => (if h.notify then [Delivered(cb)] else []) + [Released(cb, NoError)]
      case DataCb => (if h.data then [Delivered(cb)] else []) + [Released(cb, NoError)]
      case TimestampCb => (if h.timestamp then [Delivered(cb)] else []) + [Released(cb, NoError)]
      case SnapshotCb =>
        if !l.snapshotActive || !h.data then [Released(cb, NoError)]
        else if l.longshot then [Delivered(cb), Released(cb, NoError)]
        else if l.expected > 0 && l.expected == Increment(l.received)
        then [Done, Delivered(cb), Released(cb, NoError)]
        else [Delivered(cb), Released(cb, NoError)]
      case UnknownCb => [Released(cb, BadValue)]
  }

  predicate Counts(h: Handlers, l: Locals, cb: Cb, enabled: bool) {
    enabled && cb.cbType.SnapshotCb? && l.snapshotActive && h.data && !l.longshot
  }

  function Job(s: State, enabled: bool): State {
    if !s.dataActive || s.dataQ == [] then s
    else
      var cb := s.dataQ[0];
      s.(dataQ := s.dataQ[1..], log := s.log + JobEvents(s.handlers, s.locals, cb, enabled),
         locals := if Counts(s.handlers, s.locals, cb, enabled)
                   then s.locals.(received := Increment(s.locals.received)) else s.locals)
  }

  function Command(s: State, cmd: Cmd, env: Env): State {
    match cmd
    case StartProc =>
      s.(locals := s.locals.(snapshotActive := true, longshot := env.longshot, expected := env.expected, received := 0),
         log := s.log + [Started(env.expected, env.longshot)])
    case StopProc =>
      var f := Flushed(s, SnapshotCbs);
      f.(locals := s.locals.(snapshotActive := false, expected := 0, received := 0), log := f.log + [Stopped])
    case NextJob => Job(s, env.enabled)
    case Exit =>
      var s1 := s.(locals := s.locals.(running := false));
      if s.dataActive then s1.(dataQ := [], dataActive := false, log := s.log + ReleaseAll(s.dataQ)) else s1
  }

  /** One round of cbNotifyRoutine; getCmd finds nothing where a command was lost. */
  function HandleNext(s: State, env: Env): State
    requires s.sem > 0
  {
    var s1 := s.(sem := s.sem - 1);
    if s.cmdQ == [] then s1 else Command(s1.(cmdQ := s.cmdQ[1..]), s.cmdQ[0], env)
  }

  function Next(s: State, a: Act): State
    requires Enabled(s, a)
  {
    match a
    case Check => if s.mActive then s.(checked := s.checked + 1) else s
    case Enqueue(cbType, msgType) => EnqueueCb(s, cbType, msgType)
    case GiveUp => s.(checked := s.checked - 1)
    case SendJob => s.(holding := s.holding - 1, cmdQ := s.cmdQ + [NextJob], posting := s.posting + 1)
    case LoseJob(posts) =>
      s.(holding := s.holding - 1, lost := s.lost + 1, posting := s.posting + if posts then 1 else 0)
    case SendFirst(cmd) => s.(cmdQ := [cmd] + s.cmdQ, posting := s.posting + 1)
    case LoseFirst => s.(posting := s.posting + 1)
    case Post => s.(posting := s.posting - 1, sem := s.sem + 1)
    case Deactivate => s.(mActive := false)
    case FlushSome(m) => Flushed(s, m)
    case Handle(env) => HandleNext(s, env)
  }

  ghost predicate IsRun(ss: seq<State>, acts: seq<Act>) {
    && |ss| == |acts| + 1
    && ss[0] == Init(ss[0].handlers)
    && (forall i | 0 <= i < |acts| :: Enabled(ss[i], acts[i]) && ss[i + 1] == Next(ss[i], acts[i]))
  }

  // ----- a job is on its way for every callback queued --------------------------------------------------

  function Jobs(cmds: seq<Cmd>): (n: nat)
    ensures n <= |cmds|
  {
    if cmds == [] then 0 else (if cmds[0].NextJob? then 1 else 0) + Jobs(cmds[1..])
  }

  lemma {:induction false} JobsSnoc(cmds: seq<Cmd>)
    ensures Jobs(cmds + [NextJob]) == Jobs(cmds) + 1
  {
    if cmds != [] {
      JobsSnoc(cmds[1..]);
      assert (cmds + [NextJob])[1..] == cmds[1..] + [NextJob];
    }
  }

  predicate JobsInv(s: State) {
    && (if s.dataActive then |s.dataQ| <= Jobs(s.cmdQ) + s.holding + s.lost else s.dataQ == [])
    && |s.cmdQ| <= s.sem + s.posting
    && s.locals.running == s.dataActive
  }

  lemma FlushedKeepsJobs(s: State, m: Match)
    requires JobsInv(s)
    ensures JobsInv(Flushed(s, m))
  {
  }

  lemma HandleKeepsJobs(s: State, env: Env)
    requires JobsInv(s) && s.locals.running && s.sem > 0
    ensures JobsInv(HandleNext(s, env))
  {
    if s.cmdQ != [] {
      match s.cmdQ[0]
      case StartProc =>
      case StopProc =>
      case NextJob =>
      case Exit =>
    }
  }

  lemma StepKeepsJobs(s: State, a: Act)
    requires JobsInv(s) && Enabled(s, a)
    ensures JobsInv(Next(s, a))
  {
    match a
    case SendJob => JobsSnoc(s.cmdQ);
    case SendFirst(cmd) => assert ([cmd] + s.cmdQ)[1..] == s.cmdQ;
    case FlushSome(m) => FlushedKeepsJobs(s, m);
    case Handle(env) => HandleKeepsJobs(s, env);
    case _ =>
  }

  // ----- every callback accepted is released once ---------------------------------------------------------

  /** The callbacks released in the first n events. */
  function Releases(log: seq<Event>, n: nat): seq<Cb>
    requires n <= |log|
  {
    if n == 0 then []
    else if log[n - 1].Released? then Releases(log, n - 1) + [log[n - 1].cb]
    else Releases(log, n - 1)
  }

  lemma {:induction false} ReleasesPrefix(log: seq<Event>, es: seq<Event>, n: nat)
    requires n <= |log|
    ensures Releases(log + es, n) == Releases(log, n)
  {
    if n > 0 {
      ReleasesPrefix(log, es, n - 1);
    }
  }

  lemma {:induction false} ReleasesAppend(log: seq<Event>, es: seq<Event>, n: nat)
    requires n <= |es|
    ensures Releases(log + es, |log| + n) == Releases(log, |log|) + Releases(es, n)
  {
    if n == 0 {
      ReleasesPrefix(log, es, |log|);
    } else {
      ReleasesAppend(log, es, n - 1);
    }
  }

  lemma {:induction false} ReleasesOfFlush(cbs: seq<Cb>, n: nat)
    requires n <= |cbs|
    ensures Releases(ReleaseAll(cbs), n) == cbs[..n]
  {
    if n > 0 {
      ReleasesOfFlush(cbs, n - 1);
      assert cbs[..n] == cbs[..n - 1] + [cbs[n - 1]];
    }
  }

  lemma ReleasesOfJob(h: Handlers, l: Locals, cb: Cb, enabled: bool)
    ensures var es := JobEvents(h, l, cb, enabled); Releases(es, |es|) == [cb]
  {
    var es := JobEvents(h, l, cb, enabled);
    var n := |es| - 1;
    assert es[n].Released? && es[n].cb == cb;
    assert forall i | 0 <= i < n :: !es[i].Released?;
    NoReleases(es, n);
  }

  lemma {:induction false} NoReleases(log: seq<Event>, n: nat)
    requires n <= |log| && forall i | 0 <= i < n :: !log[i].Released?
    ensures Releases(log, n) == []
  {
    if n > 0 {
      NoReleases(log, n - 1);
    }
  }

  ghost predicate Conserved(accepted: seq<Cb>, dataQ: seq<Cb>, log: seq<Event>) {
    && multiset(accepted) == multiset(Releases(log, |log|)) + multiset(dataQ)
    && forall i | 0 <= i < |accepted| :: accepted[i].id == i
  }

  lemma FlushConserves(accepted: seq<Cb>, dataQ: seq<Cb>, log: seq<Event>, p: Cb -> bool)
    requires Conserved(accepted, dataQ, log)
    ensures Conserved(accepted, Kept(dataQ, p, |dataQ|), log + ReleaseAll(Dropped(dataQ, p, |dataQ|)))
  {
    FlushSplits(dataQ, p);
    ReleaseSome(accepted, dataQ, log, Kept(dataQ, p, |dataQ|), Dropped(dataQ, p, |dataQ|));
  }

  // Part of the queue is released, the rest stays.
  lemma ReleaseSome(accepted: seq<Cb>, dataQ: seq<Cb>, log: seq<Event>, kept: seq<Cb>, gone: seq<Cb>)
    requires Conserved(accepted, dataQ, log) && multiset(dataQ) == multiset(kept) + multiset(gone)
    ensures Conserved(accepted, kept, log + ReleaseAll(gone))
  {
    ReleasesAppend(log, ReleaseAll(gone), |gone|);
    ReleasesOfFlush(gone, |gone|);
    assert gone[..|gone|] == gone;
  }

  lemma JobConserves(accepted: seq<Cb>, dataQ: seq<Cb>, log: seq<Event>, h: Handlers, l: Locals, enabled: bool)
    requires Conserved(accepted, dataQ, log) && dataQ != []
    ensures Conserved(accepted, dataQ[1..], log + JobEvents(h, l, dataQ[0], enabled))
  {
    var es := JobEvents(h, l, dataQ[0], enabled);
    ReleasesAppend(log, es, |es|);
    ReleasesOfJob(h, l, dataQ[0], enabled);
    assert Releases(log + es, |log + es|) == Releases(log, |log|) + [dataQ[0]];
    MoveFirst(accepted, Releases(log, |log|), dataQ);
  }

  lemma MoveFirst<T>(all: seq<T>, released: seq<T>, q: seq<T>)
    requires multiset(all) == multiset(released) + multiset(q) && q != []
    ensures multiset(all) == multiset(released + [q[0]]) + multiset(q[1..])
  {
    assert q == [q[0]] + q[1..];
  }

  lemma MarkConserves(accepted: seq<Cb>, dataQ: seq<Cb>, log: seq<Event>, e: Event)
    requires Conserved(accepted, dataQ, log) && !e.Released?
    ensures Conserved(accepted, dataQ, log + [e])
  {
    ReleasesPrefix(log, [e], |log|);
  }

  lemma ExitConserves(accepted: seq<Cb>, dataQ: seq<Cb>, log: seq<Event>)
    requires Conserved(accepted, dataQ, log)
    ensures Conserved(accepted, [], log + ReleaseAll(dataQ))
  {
    ReleaseSome(accepted, dataQ, log, [], dataQ);
  }

  ghost predicate ConservedIn(s: State) {
    Conserved(s.accepted, s.dataQ, s.log)
  }

  lemma FlushedConserves(s: State, m: Match)
    requires ConservedIn(s)
    ensures ConservedIn(Flushed(s, m))
  {
    if s.dataActive {
      FlushConserves(s.accepted, s.dataQ, s.log, m.Has);
    }
  }

  lemma StopConserves(s: State, env: Env)
    requires ConservedIn(s)
    ensures ConservedIn(Command(s, StopProc, env))
  {
    var f := Flushed(s, SnapshotCbs);
    FlushedConserves(s, SnapshotCbs);
    MarkConserves(f.accepted, f.dataQ, f.log, Stopped);
  }

  lemma JobConservesIn(s: State, enabled: bool)
    requires ConservedIn(s)
    ensures ConservedIn(Job(s, enabled))
  {
    if s.dataActive && s.dataQ != [] {
      JobConserves(s.accepted, s.dataQ, s.log, s.handlers, s.locals, enabled);
    }
  }

  lemma EnqueueConserves(s: State, cbType: CbType, msgType: MsgType)
    requires ConservedIn(s) && s.checked > 0
    ensures ConservedIn(EnqueueCb(s, cbType, msgType))
  {
  }

  lemma HandleConserves(s: State, env: Env)
    requires ConservedIn(s) && (s.dataActive || s.dataQ == []) && s.sem > 0
    ensures ConservedIn(HandleNext(s, env))
  {
    if s.cmdQ != [] {
      var s1 := s.(sem := s.sem - 1, cmdQ := s.cmdQ[1..]);
      match s.cmdQ[0]
      case StartProc => MarkConserves(s.accepted, s.dataQ, s.log, Started(env.expected, env.longshot));
      case StopProc => StopConserves(s1, env);
      case NextJob => JobConservesIn(s1, env.enabled);
      case Exit => ExitConserves(s.accepted, s.dataQ, s.log);
    }
  }

  lemma StepConserves(s: State, a: Act, t: State)
    requires ConservedIn(s) && (s.dataActive || s.dataQ == [])
    requires Enabled(s, a) && t == Next(s, a)
    ensures ConservedIn(t)
  {
    match a
    case Enqueue(cbType, msgType) => EnqueueConserves(s, cbType, msgType);
    case Handle(env) => HandleConserves(s, env);
    case FlushSome(m) => FlushedConserves(s, m);
    case _ => assert t.accepted == s.accepted && t.dataQ == s.dataQ && t.log == s.log;
  }

  // ----- what the log says of snapshots ---------------------------------------------------------------------

  /** Between two commands: the snapshots delivered since the last START or STOP. */
  datatype Session = Session(active: bool, longshot: bool, expected: nat, delivered: nat)

  function After(se: Session, e: Event): Session {
    match e
    case Started(expected, longshot) => Session(true, longshot, expected, 0)
    case Stopped => Session(false, se.longshot, 0, 0)
    case Delivered(cb) => if cb.cbType.SnapshotCb? then se.(delivered := se.delivered + 1) else se
    case _ => se
  }

  function SessionAt(log: seq<Event>, n: nat): Session
    requires n <= |log|
  {
    if n == 0 then Session(false, false, 0, 0) else After(SessionAt(log, n - 1), log[n - 1])
  }

  lemma {:induction false} SessionPrefix(log: seq<Event>, es: seq<Event>, n: nat)
    requires n <= |log|
    ensures SessionAt(log + es, n) == SessionAt(log, n)
  {
    if n > 0 {
      SessionPrefix(log, es, n - 1);
    }
  }

  /** The snapshots delivered are as many as expected, as far as 32 bits can tell; not in a long shot. */
  predicate Complete(se: Session) {
    !se.longshot && se.expected > 0 && se.delivered % TWO_TO_THE_32 == se.expected
  }

  /** The events around event i are as they must be. */
  ghost predicate Fits(log: seq<Event>, i: nat)
    requires i < |log|
  {
    match log[i]
    case Delivered(cb) =>
      && i + 1 < |log| && log[i + 1] == Released(cb, NoError)
      && (cb.cbType.SnapshotCb? ==>
            && SessionAt(log, i).active
            && (i > 0 && log[i - 1].Done? <==> Complete(SessionAt(log, i + 1))))
    case Done => i + 1 < |log| && log[i + 1].Delivered? && log[i + 1].cb.cbType.SnapshotCb?
    case _ => true
  }

  ghost predicate LogRight(log: seq<Event>) {
    forall i: nat | i < |log| :: Fits(log, i)
  }

  ghost predicate LocalsRight(l: Locals, log: seq<Event>) {
    var se := SessionAt(log, |log|);
    && l.snapshotActive == se.active && l.longshot == se.longshot && l.expected == se.expected < 256
    && (se.active && !se.longshot ==> l.received == se.delivered % TWO_TO_THE_32)
  }

  // Appending keeps what is there right, as the last event asks for nothing more.
  lemma OldEventsStayRight(log: seq<Event>, es: seq<Event>, i: nat)
    requires LogRight(log) && i < |log|
    ensures Fits(log + es, i)
  {
    assert Fits(log, i);
    SessionPrefix(log, es, i);
    SessionPrefix(log, es, i + 1);
  }

  lemma PlainEventsStayRight(log: seq<Event>, es: seq<Event>)
    requires LogRight(log) && forall e | e in es :: e.Released? || e.Started? || e.Stopped?
    ensures LogRight(log + es)
  {
    forall i: nat | i < |log + es|
      ensures Fits(log + es, i)
    {
      if i < |log| {
        OldEventsStayRight(log, es, i);
      } else {
        assert (log + es)[i] == es[i - |log|] && es[i - |log|] in es;
      }
    }
  }

  lemma IncrementCounts(delivered: nat)
    ensures Increment(delivered % TWO_TO_THE_32) == (delivered + 1) % TWO_TO_THE_32
  {
  }

  // One event more.
  lemma SessionSnoc(log: seq<Event>, e: Event)
    ensures SessionAt(log + [e], |log| + 1) == After(SessionAt(log, |log|), e)
  {
    SessionPrefix(log, [e], |log|);
  }

  predicate QuietEvent(e: Event) {
    e.Done? || e.Released? || (e.Delivered? && !e.cb.cbType.SnapshotCb?)
  }

  lemma {:induction false} QuietEventsKeepSession(log: seq<Event>, es: seq<Event>)
    requires forall i | 0 <= i < |es| :: QuietEvent(es[i])
    ensures SessionAt(log + es, |log + es|) == SessionAt(log, |log|)
  {
    if es == [] {
      assert log + es == log;
    } else {
      var n := |es| - 1;
      QuietEventsKeepSession(log, es[..n]);
      SessionSnoc(log + es[..n], es[n]);
      assert log + es == log + es[..n] + [es[n]];
    }
  }

  // The one snapshot among quiet events.
  lemma OneDelivery(log: seq<Event>, before: seq<Event>, cb: Cb, after: seq<Event>)
    requires cb.cbType.SnapshotCb?
    requires forall i | 0 <= i < |before| :: QuietEvent(before[i])
    requires forall i | 0 <= i < |after| :: QuietEvent(after[i])
    ensures var all := log + (before + [Delivered(cb)] + after);
      SessionAt(all, |all|) == After(SessionAt(log, |log|), Delivered(cb))
  {
    QuietEventsKeepSession(log, before);
    SessionSnoc(log + before, Delivered(cb));
    QuietEventsKeepSession(log + before + [Delivered(cb)], after);
    assert log + (before + [Delivered(cb)] + after) == log + before + [Delivered(cb)] + after;
  }

  predicate DeliversSnapshot(h: Handlers, l: Locals, cb: Cb, enabled: bool) {
    enabled && cb.cbType.SnapshotCb? && l.snapshotActive && h.data
  }

  lemma JobKeepsLocalsRight(log: seq<Event>, h: Handlers, l: Locals, cb: Cb, enabled: bool)
    requires LocalsRight(l, log)
    ensures var es := JobEvents(h, l, cb, enabled);
      LocalsRight(if Counts(h, l, cb, enabled) then l.(received := Increment(l.received)) else l, log + es)
  {
    var es := JobEvents(h, l, cb, enabled);
    if DeliversSnapshot(h, l, cb, enabled) {
      IncrementCounts(SessionAt(log, |log|).delivered);
      OneDelivery(log, if es[0].Done? then [Done] else [], cb, [Released(cb, NoError)]);
      assert es == (if es[0].Done? then [Done] else []) + [Delivered(cb)] + [Released(cb, NoError)];
    } else {
      QuietEventsKeepSession(log, es);
    }
  }

  // The log never ends in the middle of a delivery.
  lemma LastIsSettled(log: seq<Event>)
    requires LogRight(log) && log != []
    ensures !log[|log| - 1].Done? && !log[|log| - 1].Delivered?
  {
    assert Fits(log, |log| - 1);
  }

  lemma JobKeepsLogRight(log: seq<Event>, h: Handlers, l: Locals, cb: Cb, enabled: bool)
    requires LogRight(log) && LocalsRight(l, log)
    ensures LogRight(log + JobEvents(h, l, cb, enabled))
  {
    var es := JobEvents(h, l, cb, enabled);
    var n := |log|;
    var all := log + es;
    SessionPrefix(log, es, n);
    IncrementCounts(SessionAt(log, n).delivered);
    assert SessionAt(all, n + 1) == After(SessionAt(log, n), es[0]);
    if log != [] {
      LastIsSettled(log);
    }
    forall i: nat | i < |all|
      ensures Fits(all, i)
    {
      if i < n {
        OldEventsStayRight(log, es, i);
      } else {
        assert all[i] == es[i - n];
        if i + 1 < |all| { assert all[i + 1] == es[i + 1 - n]; }
        if i > n {
          assert all[i - 1] == es[i - 1 - n];
          assert SessionAt(all, i + 1) == After(SessionAt(all, i), es[i - n]);
        }
      }
    }
  }

  ghost predicate LogInv(s: State) {
    LogRight(s.log) && LocalsRight(s.locals, s.log)
  }

  // Releases alone, or one START or STOP.
  lemma FlushKeepsLog(l: Locals, log: seq<Event>, gone: seq<Cb>)
    requires LogRight(log) && LocalsRight(l, log)
    ensures LogRight(log + ReleaseAll(gone)) && LocalsRight(l, log + ReleaseAll(gone))
  {
    PlainEventsStayRight(log, ReleaseAll(gone));
    QuietEventsKeepSession(log, ReleaseAll(gone));
  }

  lemma MarkKeepsLog(l: Locals, log: seq<Event>, e: Event)
    requires LogRight(log) && LocalsRight(l, log) && (e.Stopped? || (e.Started? && e.expected < 256))
    ensures LogRight(log + [e])
    ensures LocalsRight(Locals(l.running, e.Started?, if e.Started? then e.longshot else l.longshot,
                               if e.Started? then e.expected else 0, 0), log + [e])
  {
    PlainEventsStayRight(log, [e]);
    SessionPrefix(log, [e], |log|);
  }

  lemma FlushedKeepsLog(s: State, m: Match)
    requires LogInv(s)
    ensures LogInv(Flushed(s, m)) && Flushed(s, m).locals == s.locals
  {
    if s.dataActive {
      FlushKeepsLog(s.locals, s.log, Dropped(s.dataQ, m.Has, |s.dataQ|));
    }
  }

  lemma CommandKeepsLog(s: State, cmd: Cmd, env: Env)
    requires LogInv(s) && env.expected < 256
    ensures LogInv(Command(s, cmd, env))
  {
    match cmd
    case StartProc => MarkKeepsLog(s.locals, s.log, Started(env.expected, env.longshot));
    case StopProc =>
      var f := Flushed(s, SnapshotCbs);
      FlushedKeepsLog(s, SnapshotCbs);
      MarkKeepsLog(f.locals, f.log, Stopped);
    case NextJob =>
      if s.dataActive && s.dataQ != [] {
        JobKeepsLocalsRight(s.log, s.handlers, s.locals, s.dataQ[0], env.enabled);
        JobKeepsLogRight(s.log, s.handlers, s.locals, s.dataQ[0], env.enabled);
      }
    case Exit =>
      if s.dataActive {
        FlushKeepsLog(s.locals, s.log, s.dataQ);
      }
  }

  lemma HandleKeepsLog(s: State, env: Env)
    requires LogInv(s) && s.sem > 0 && env.expected < 256
    ensures LogInv(HandleNext(s, env))
  {
    if s.cmdQ != [] {
      CommandKeepsLog(s.(sem := s.sem - 1, cmdQ := s.cmdQ[1..]), s.cmdQ[0], env);
    }
  }

  lemma StepKeepsLog(s: State, a: Act, t: State)
    requires LogInv(s) && Enabled(s, a) && t == Next(s, a)
    ensures LogInv(t)
  {
    match a
    case Handle(env) => HandleKeepsLog(s, env);
    case FlushSome(m) => FlushedKeepsLog(s, m);
    case _ => assert t.log == s.log && t.locals == s.locals;
  }

  // ----- order ------------------------------------------------------------------------------------------------

  predicate NothingFlushed(log: seq<Event>) {
    forall e | e in log :: e.Released? ==> e.status != FailedTransaction
  }

  /** As long as nothing was flushed, callbacks leave in the order in which they were accepted. */
  ghost predicate InOrder(s: State) {
    NothingFlushed(s.log) ==> s.accepted == Releases(s.log, |s.log|) + s.dataQ
  }

  lemma FlushLeavesMark(log: seq<Event>, gone: seq<Cb>)
    ensures NothingFlushed(log + ReleaseAll(gone)) ==> NothingFlushed(log) && gone == []
  {
    var es := ReleaseAll(gone);
    assert forall e | e in log :: e in log + es;
    if gone != [] {
      var e := (log + es)[|log|];
      assert e in log + es && e == es[0];
    }
  }

  lemma FlushedKeepsOrder(s: State, m: Match)
    requires InOrder(s)
    ensures InOrder(Flushed(s, m))
  {
    var gone := Dropped(s.dataQ, m.Has, |s.dataQ|);
    if s.dataActive && NothingFlushed(s.log + ReleaseAll(gone)) {
      FlushLeavesMark(s.log, gone);
      NothingDropped(s.dataQ, m.Has, |s.dataQ|);
      assert s.log + ReleaseAll(gone) == s.log;
      assert s.dataQ[..|s.dataQ|] == s.dataQ;
    }
  }

  lemma MarkKeepsOrder(s: State, e: Event)
    requires InOrder(s) && !e.Released?
    ensures InOrder(s.(log := s.log + [e]))
  {
    ReleasesPrefix(s.log, [e], |s.log|);
    assert forall x | x in s.log :: x in s.log + [e];
  }

  lemma JobKeepsOrder(s: State, enabled: bool)
    requires InOrder(s)
    ensures InOrder(Job(s, enabled))
  {
    if s.dataActive && s.dataQ != [] {
      var es := JobEvents(s.handlers, s.locals, s.dataQ[0], enabled);
      assert forall x | x in s.log :: x in s.log + es;
      ReleasesAppend(s.log, es, |es|);
      ReleasesOfJob(s.handlers, s.locals, s.dataQ[0], enabled);
      assert Releases(s.log + es, |s.log + es|) == Releases(s.log, |s.log|) + [s.dataQ[0]];
      FirstMovesOver(Releases(s.log, |s.log|), s.dataQ);
    }
  }

  lemma FirstMovesOver<T>(released: seq<T>, q: seq<T>)
    requires q != []
    ensures released + q == released + [q[0]] + q[1..]
  {
  }

  lemma ExitKeepsOrder(s: State, env: Env)
    requires InOrder(s) && (s.dataActive || s.dataQ == [])
    ensures InOrder(Command(s, Exit, env))
  {
    var t := Command(s, Exit, env);
    if NothingFlushed(t.log) && s.dataActive {
      FlushLeavesMark(s.log, s.dataQ);
      assert t.log == s.log;
    }
  }

  lemma HandleKeepsOrder(s: State, env: Env)
    requires InOrder(s) && (s.dataActive || s.dataQ == []) && s.sem > 0
    ensures InOrder(HandleNext(s, env))
  {
    if s.cmdQ != [] {
      var s1 := s.(sem := s.sem - 1, cmdQ := s.cmdQ[1..]);
      match s.cmdQ[0]
      case StartProc => MarkKeepsOrder(s1, Started(env.expected, env.longshot));
      case StopProc =>
        FlushedKeepsOrder(s1, SnapshotCbs);
        MarkKeepsOrder(Flushed(s1, SnapshotCbs), Stopped);
      case NextJob => JobKeepsOrder(s1, env.enabled);
      case Exit => ExitKeepsOrder(s1, env);
    }
  }

  lemma EnqueueKeepsOrder(s: State, cbType: CbType, msgType: MsgType)
    requires InOrder(s) && s.checked > 0
    ensures InOrder(EnqueueCb(s, cbType, msgType))
  {
  }

  lemma StepKeepsOrder(s: State, a: Act, t: State)
    requires InOrder(s) && (s.dataActive || s.dataQ == []) && Enabled(s, a) && t == Next(s, a)
    ensures InOrder(t)
  {
    match a
    case Enqueue(cbType, msgType) => EnqueueKeepsOrder(s, cbType, msgType);
    case Handle(env) => HandleKeepsOrder(s, env);
    case FlushSome(m) => FlushedKeepsOrder(s, m);
    case _ => assert t.accepted == s.accepted && t.dataQ == s.dataQ && t.log == s.log;
  }

  // ----- how many are left behind ------------------------------------------------------------------------------

  /** As long as nothing was flushed, jobs, senders and lost commands are exactly as many as callbacks. */
  ghost predicate JobsExact(s: State) {
    NothingFlushed(s.log) && s.dataActive ==> |s.dataQ| == Jobs(s.cmdQ) + s.holding + s.lost
  }

  lemma FlushedKeepsExact(s: State, m: Match)
    requires JobsExact(s)
    ensures JobsExact(Flushed(s, m))
  {
    if s.dataActive {
      var gone := Dropped(s.dataQ, m.Has, |s.dataQ|);
      FlushLeavesMark(s.log, gone);
      if gone == [] {
        NothingDropped(s.dataQ, m.Has, |s.dataQ|);
      }
    }
  }

  lemma LogGrows(log: seq<Event>, es: seq<Event>)
    ensures NothingFlushed(log + es) ==> NothingFlushed(log)
  {
    assert forall e | e in log :: e in log + es;
  }

  lemma HandleKeepsExact(s: State, env: Env)
    requires JobsExact(s) && s.sem > 0
    ensures JobsExact(HandleNext(s, env))
  {
    if s.cmdQ != [] {
      var s1 := s.(sem := s.sem - 1, cmdQ := s.cmdQ[1..]);
      match s.cmdQ[0]
      case StartProc => LogGrows(s.log, [Started(env.expected, env.longshot)]);
      case StopProc =>
        FlushedKeepsExact(s1, SnapshotCbs);
        LogGrows(Flushed(s1, SnapshotCbs).log, [Stopped]);
      case NextJob =>
        if s.dataQ != [] {
          LogGrows(s.log, JobEvents(s.handlers, s.locals, s.dataQ[0], env.enabled));
        }
      case Exit =>
    }
  }

  lemma StepKeepsExact(s: State, a: Act, t: State)
    requires JobsExact(s) && Enabled(s, a) && t == Next(s, a)
    ensures JobsExact(t)
  {
    match a
    case SendJob => JobsSnoc(s.cmdQ);
    case SendFirst(cmd) => assert ([cmd] + s.cmdQ)[1..] == s.cmdQ;
    case FlushSome(m) => FlushedKeepsExact(s, m);
    case Handle(env) => HandleKeepsExact(s, env);
    case _ =>
  }

  // ----- theorems ---------------------------------------------------------------------------------------------

  ghost predicate Inv(s: State) {
    JobsInv(s) && ConservedIn(s) && LogInv(s) && InOrder(s) && JobsExact(s)
  }

  lemma StepKeepsInv(s: State, a: Act)
    requires Inv(s) && Enabled(s, a)
    ensures Inv(Next(s, a))
  {
    var t := Next(s, a);
    StepKeepsJobs(s, a);
    StepConserves(s, a, t);
    StepKeepsLog(s, a, t);
    StepKeepsOrder(s, a, t);
    StepKeepsExact(s, a, t);
  }

  lemma {:induction false} RunKeepsInv(ss: seq<State>, acts: seq<Act>, k: nat)
    requires IsRun(ss, acts) && k < |ss|
    ensures Inv(ss[k])
  {
    if k > 0 {
      RunKeepsInv(ss, acts, k - 1);
      StepKeepsInv(ss[k - 1], acts[k - 1]);
    }
  }

  /**
   A callback in the queue means that the callback thread still has a command to take, or that some
   caller is about to send or post one: the thread never sleeps over a queued callback, whatever was
   flushed before, unless a DO_NEXT_JOB command was lost.
   */
  lemma NeverStranded(ss: seq<State>, acts: seq<Act>, k: nat)
    requires IsRun(ss, acts) && k < |ss|
    ensures var s := ss[k];
      s.dataQ != [] && s.lost == 0 ==>
        && s.locals.running
        && (s.sem > 0 || s.posting > 0 || s.holding > 0)
        && Jobs(s.cmdQ) + s.holding >= |s.dataQ|
  {
    RunKeepsInv(ss, acts, k);
  }

  /**
   When the callback thread waits and no caller is under way, it sleeps over at most as many
   callbacks as commands were lost; and over exactly that many, if nothing was flushed.
   */
  lemma StrandsWhatWasLost(ss: seq<State>, acts: seq<Act>, k: nat)
    requires IsRun(ss, acts) && k < |ss|
    requires ss[k].locals.running && ss[k].sem == ss[k].posting == ss[k].holding == 0
    ensures |ss[k].dataQ| <= ss[k].lost
    ensures NothingFlushed(ss[k].log) ==> |ss[k].dataQ| == ss[k].lost
  {
    RunKeepsInv(ss, acts, k);
  }

  lemma Extend(ss: seq<State>, acts: seq<Act>, s: State, a: Act, t: State) returns (ss': seq<State>, acts': seq<Act>)
    requires IsRun(ss, acts) && s == ss[|acts|] && Enabled(s, a) && t == Next(s, a)
    ensures IsRun(ss', acts') && ss'[|acts'|] == t
  {
    ss', acts' := ss + [t], acts + [a];
    forall i | 0 <= i < |acts'|
      ensures Enabled(ss'[i], acts'[i]) && ss'[i + 1] == Next(ss'[i], acts'[i])
    {
      if i < |acts| {
        assert ss'[i] == ss[i] && ss'[i + 1] == ss[i + 1] && acts'[i] == acts[i];
      }
    }
  }

  lemma NothingToHandle(s: State, env: Env)
    requires s.sem > 0 && s.cmdQ == []
    ensures HandleNext(s, env) == s.(sem := s.sem - 1)
  {
  }

  // A callback is accepted, and then there is no memory for the command.
  lemma CheckIt(ss: seq<State>, acts: seq<Act>, s: State) returns (ss': seq<State>, acts': seq<Act>)
    requires IsRun(ss, acts) && s == ss[|acts|] && s.mActive
    ensures IsRun(ss', acts') && ss'[|acts'|] == s.(checked := s.checked + 1)
  {
    ss', acts' := Extend(ss, acts, s, Check, s.(checked := s.checked + 1));
  }

  lemma EnqueueIt(ss: seq<State>, acts: seq<Act>, s: State, cbType: CbType, msgType: MsgType)
    returns (ss': seq<State>, acts': seq<Act>)
    requires IsRun(ss, acts) && s == ss[|acts|] && s.checked > 0
    ensures IsRun(ss', acts') && ss'[|acts'|] == EnqueueCb(s, cbType, msgType)
  {
    ss', acts' := Extend(ss, acts, s, Enqueue(cbType, msgType), EnqueueCb(s, cbType, msgType));
  }

  lemma LoseIt(ss: seq<State>, acts: seq<Act>, s: State) returns (ss': seq<State>, acts': seq<Act>)
    requires IsRun(ss, acts) && s == ss[|acts|] && s.holding > 0
    ensures IsRun(ss', acts')
    ensures ss'[|acts'|] == s.(holding := s.holding - 1, lost := s.lost + 1, posting := s.posting + 1)
  {
    ss', acts' := Extend(ss, acts, s, LoseJob(true),
                         s.(holding := s.holding - 1, lost := s.lost + 1, posting := s.posting + 1));
  }

  // A post with no command behind it.
  lemma PostAndHandle(ss: seq<State>, acts: seq<Act>, s: State, env: Env) returns (ss': seq<State>, acts': seq<Act>)
    requires IsRun(ss, acts) && s == ss[|acts|]
    requires s.cmdQ == [] && s.posting == 1 && s.sem == 0 && s.locals.running && env.expected < 256
    ensures IsRun(ss', acts') && ss'[|acts'|] == s.(posting := 0)
  {
    var s1 := s.(posting := 0, sem := 1);
    ss', acts' := Extend(ss, acts, s, Post, s1);
    NothingToHandle(s1, env);
    ss', acts' := Extend(ss', acts', s1, Handle(env), s.(posting := 0));
  }

  /** For instance, one command lost leaves one callback behind a sleeping thread. */
  lemma LostCommandStrands(h: Handlers, cbType: CbType, msgType: MsgType, env: Env)
    returns (ss: seq<State>, acts: seq<Act>)
    requires env.expected < 256
    ensures IsRun(ss, acts)
    ensures var cb := Cb(0, cbType, msgType);
      ss[|acts|] == Init(h).(dataQ := [cb], accepted := [cb], lost := 1)
  {
    ss, acts := [Init(h)], [];
    ss, acts := CheckIt(ss, acts, Init(h));
    ss, acts := EnqueueIt(ss, acts, ss[|acts|], cbType, msgType);
    ss, acts := LoseIt(ss, acts, ss[|acts|]);
    ss, acts := PostAndHandle(ss, acts, ss[|acts|], env);
  }

  /** The callback thread left to itself, with an answer of the parent for every round. */
  function Drain(s: State, envs: seq<Env>): State
    decreases |envs|
  {
    if envs == [] || s.sem == 0 || !s.locals.running then s
    else Drain(HandleNext(s, envs[0]), envs[1..])
  }

  /** Once the callers are done it empties the queue. */
  lemma {:induction false} DrainEmpties(s: State, envs: seq<Env>)
    requires Inv(s) && s.lost == s.holding == s.posting == 0
    requires |envs| >= s.sem && forall env | env in envs :: env.expected < 256
    ensures Drain(s, envs).dataQ == []
    decreases |envs|
  {
    if envs != [] && s.sem > 0 && s.locals.running {
      StepKeepsInv(s, Handle(envs[0]));
      HandleLeavesCallers(s, envs[0]);
      DrainEmpties(HandleNext(s, envs[0]), envs[1..]);
    }
  }

  // An EXIT command that found memory is queued until the thread ends of it.
  predicate ExitFollows(s: State, sent: bool) {
    (s.locals.running && sent ==> Exit in s.cmdQ) && (!s.locals.running || Exit in s.cmdQ ==> sent)
  }

  lemma StepKeepsExit(s: State, a: Act, sent: bool)
    requires Enabled(s, a) && ExitFollows(s, sent)
    ensures ExitFollows(Next(s, a), sent || a == SendFirst(Exit))
  {
    match a
    case Check => case Enqueue(_, _) => case GiveUp => case SendJob => case LoseJob(_) => case SendFirst(_) =>
    case LoseFirst => case Post => case Deactivate => case FlushSome(_) =>
    case Handle(env) =>
      if s.cmdQ != [] {
        match s.cmdQ[0] { case StartProc => case StopProc => case NextJob => case Exit => }
      }
  }

  lemma {:induction false} RunKeepsExit(ss: seq<State>, acts: seq<Act>, k: nat)
    requires IsRun(ss, acts) && k < |ss|
    ensures ExitFollows(ss[k], SendFirst(Exit) in acts[..k])
  {
    if k > 0 {
      RunKeepsExit(ss, acts, k - 1);
      StepKeepsExit(ss[k - 1], acts[k - 1], SendFirst(Exit) in acts[..k - 1]);
      assert acts[..k] == acts[..k - 1] + [acts[k - 1]];
    }
  }

  /**
   exit() joins the callback thread unless sendCmd could not allocate the command. When all posts are
   made and the thread has ended or waits, it has ended exactly if some EXIT command also found memory
   in the queue; otherwise the join does not return.
   */
  lemma ExitReturnsExactly(ss: seq<State>, acts: seq<Act>, k: nat)
    requires IsRun(ss, acts) && k < |ss|
    requires ss[k].posting == 0 && (ss[k].locals.running ==> ss[k].sem == 0)
    ensures !ss[k].locals.running <==> SendFirst(Exit) in acts[..k]
  {
    RunKeepsExit(ss, acts, k);
    RunKeepsInv(ss, acts, k);
  }

  lemma HandleLeavesCallers(s: State, env: Env)
    requires s.sem > 0
    ensures var t := HandleNext(s, env);
      t.sem == s.sem - 1 && t.lost == s.lost && t.holding == s.holding && t.posting == s.posting
  {
    if s.cmdQ != [] {
      match s.cmdQ[0]
      case StartProc =>
      case StopProc =>
      case NextJob =>
      case Exit =>
    }
  }

  /** Every accepted callback is either still queued or has been released, exactly once. */
  lemma ReleasedOnce(ss: seq<State>, acts: seq<Act>, k: nat, cb: Cb)
    requires IsRun(ss, acts) && k < |ss|
    ensures var s := ss[k]; var n := multiset(Releases(s.log, |s.log|))[cb];
      && n + multiset(s.dataQ)[cb] == (if cb in s.accepted then 1 else 0)
      && (!s.locals.running ==> n == if cb in s.accepted then 1 else 0)
  {
    RunKeepsInv(ss, acts, k);
    InvReleasedOnce(ss[k], cb);
  }

  lemma InvReleasedOnce(s: State, cb: Cb)
    requires Inv(s)
    ensures var n := multiset(Releases(s.log, |s.log|))[cb];
      && n + multiset(s.dataQ)[cb] == (if cb in s.accepted then 1 else 0)
      && (!s.locals.running ==> n == if cb in s.accepted then 1 else 0)
  {
    AcceptedOnce(s.accepted, cb);
  }

  lemma {:induction false} AcceptedOnce(accepted: seq<Cb>, cb: Cb)
    requires forall i | 0 <= i < |accepted| :: accepted[i].id == i
    ensures multiset(accepted)[cb] == if cb in accepted then 1 else 0
  {
    if accepted != [] {
      var n := |accepted| - 1;
      AcceptedOnce(accepted[..n], cb);
      assert accepted == accepted[..n] + [accepted[n]];
      CountSnoc(accepted[..n], accepted[n], cb);
    }
  }

  // ----- what reaches the application ----------------------------------------------------------------------

  /** The function that the callback is for is set; a snapshot also needs a session. */
  predicate Wanted(h: Handlers, active: bool, cb: Cb) {
    match cb.cbType
    case NotifyCb => h.notify
    case DataCb => h.data
    case TimestampCb => h.timestamp
    case SnapshotCb => h.data && active
    case UnknownCb => false
  }

  /** The status that release_cb is given for a callback that was handled. */
  function StatusFor(cb: Cb, enabled: bool): Status {
    if !enabled then InvalidOperation else if cb.cbType.UnknownCb? then BadValue else NoError
  }

  /** A callback is released right after its delivery, or without one. */
  ghost predicate Handed(h: Handlers, log: seq<Event>, i: nat)
    requires i < |log|
  {
    log[i].Released? ==>
      var cb, status := log[i].cb, log[i].status;
      && (i > 0 && log[i - 1] == Delivered(cb) <==> status == NoError && Wanted(h, SessionAt(log, i).active, cb))
      && (status == NoError ==> !cb.cbType.UnknownCb?)
      && (status == BadValue ==> cb.cbType.UnknownCb?)
  }

  ghost predicate AllHanded(h: Handlers, log: seq<Event>) {
    forall i: nat | i < |log| :: Handed(h, log, i)
  }

  lemma OldStaysHanded(h: Handlers, log: seq<Event>, es: seq<Event>, i: nat)
    requires AllHanded(h, log) && i < |log|
    ensures Handed(h, log + es, i)
  {
    assert Handed(h, log, i);
    SessionPrefix(log, es, i);
  }

  lemma PlainStaysHanded(h: Handlers, log: seq<Event>, es: seq<Event>)
    requires AllHanded(h, log) && LogRight(log)
    requires forall i | 0 <= i < |es| ::
               es[i].Started? || es[i].Stopped? || (es[i].Released? && es[i].status == FailedTransaction)
    ensures AllHanded(h, log + es)
  {
    var all, n := log + es, |log|;
    if log != [] {
      LastIsSettled(log);
    }
    forall i: nat | i < |all|
      ensures Handed(h, all, i)
    {
      if i < n {
        OldStaysHanded(h, log, es, i);
      } else {
        assert all[i] == es[i - n];
        assert i > 0 ==> all[i - 1] == if i == n then log[n - 1] else es[i - 1 - n];
      }
    }
  }

  // What handling one callback does: it may be delivered, and it is released.
  lemma JobIs(h: Handlers, l: Locals, cb: Cb, enabled: bool) returns (before: seq<Event>)
    ensures JobEvents(h, l, cb, enabled) == before + [Released(cb, StatusFor(cb, enabled))]
    ensures before == [] || before == [Delivered(cb)] || before == [Done, Delivered(cb)]
    ensures before != [] <==> enabled && Wanted(h, l.snapshotActive, cb)
  {
    before := [];
    if enabled && Wanted(h, l.snapshotActive, cb) {
      before := if JobEvents(h, l, cb, enabled)[0].Done? then [Done, Delivered(cb)] else [Delivered(cb)];
    }
    var es := JobEvents(h, l, cb, enabled);
    assert |es| == |before| + 1 && es[|before|] == Released(cb, StatusFor(cb, enabled));
    assert forall i | 0 <= i < |before| :: es[i] == before[i];
  }

  lemma JobKeepsHanded(log: seq<Event>, h: Handlers, l: Locals, cb: Cb, enabled: bool)
    requires AllHanded(h, log) && LogRight(log) && LocalsRight(l, log)
    ensures AllHanded(h, log + JobEvents(h, l, cb, enabled))
  {
    var es := JobEvents(h, l, cb, enabled);
    var before := JobIs(h, l, cb, enabled);
    var all, n := log + es, |log|;
    SessionSame(log, es, |before|);
    if log != [] {
      LastIsSettled(log);
    }
    forall i: nat | i < |all|
      ensures Handed(h, all, i)
    {
      if i < n {
        OldStaysHanded(h, log, es, i);
      } else if i == n + |before| {
        assert all[i] == es[|before|];
        assert i > 0 ==> all[i - 1] == if before == [] then log[n - 1] else before[|before| - 1];
      } else {
        assert all[i] == before[i - n];
      }
    }
  }

  // Deliveries neither begin a session nor end it.
  lemma {:induction false} SessionSame(log: seq<Event>, es: seq<Event>, k: nat)
    requires k <= |es| && forall i | 0 <= i < k :: es[i].Done? || es[i].Delivered?
    ensures SessionAt(log + es, |log| + k).active == SessionAt(log, |log|).active
  {
    if k == 0 {
      SessionPrefix(log, es, |log|);
    } else {
      SessionSame(log, es, k - 1);
      assert (log + es)[|log| + k - 1] == es[k - 1];
    }
  }

  ghost predicate HandedIn(s: State) {
    AllHanded(s.handlers, s.log)
  }

  lemma FlushedKeepsHanded(s: State, m: Match)
    requires HandedIn(s) && LogInv(s)
    ensures HandedIn(Flushed(s, m))
  {
    if s.dataActive {
      PlainStaysHanded(s.handlers, s.log, ReleaseAll(Dropped(s.dataQ, m.Has, |s.dataQ|)));
    }
  }

  lemma CommandKeepsHanded(s: State, cmd: Cmd, env: Env)
    requires HandedIn(s) && LogInv(s) && env.expected < 256
    ensures HandedIn(Command(s, cmd, env))
  {
    match cmd
    case StartProc => PlainStaysHanded(s.handlers, s.log, [Started(env.expected, env.longshot)]);
    case StopProc =>
      var f := Flushed(s, SnapshotCbs);
      FlushedKeepsHanded(s, SnapshotCbs);
      FlushedKeepsLog(s, SnapshotCbs);
      PlainStaysHanded(s.handlers, f.log, [Stopped]);
    case NextJob =>
      if s.dataActive && s.dataQ != [] {
        JobKeepsHanded(s.log, s.handlers, s.locals, s.dataQ[0], env.enabled);
      }
    case Exit =>
      if s.dataActive {
        PlainStaysHanded(s.handlers, s.log, ReleaseAll(s.dataQ));
      }
  }

  lemma StepKeepsHanded(s: State, a: Act)
    requires HandedIn(s) && LogInv(s) && Enabled(s, a)
    ensures HandedIn(Next(s, a)) && Next(s, a).handlers == s.handlers
  {
    match a
    case Handle(env) =>
      if s.cmdQ != [] {
        CommandKeepsHanded(s.(sem := s.sem - 1, cmdQ := s.cmdQ[1..]), s.cmdQ[0], env);
        CommandKeepsHandlers(s.(sem := s.sem - 1, cmdQ := s.cmdQ[1..]), s.cmdQ[0], env);
      }
    case FlushSome(m) => FlushedKeepsHanded(s, m);
    case _ =>
  }

  lemma CommandKeepsHandlers(s: State, cmd: Cmd, env: Env)
    ensures Command(s, cmd, env).handlers == s.handlers && s.log <= Command(s, cmd, env).log
  {
    match cmd case StartProc => case StopProc => case NextJob => case Exit =>
  }

  lemma {:induction false} RunKeepsHanded(ss: seq<State>, acts: seq<Act>, k: nat)
    requires IsRun(ss, acts) && k < |ss|
    ensures HandedIn(ss[k]) && ss[k].handlers == ss[0].handlers
  {
    if k > 0 {
      RunKeepsHanded(ss, acts, k - 1);
      RunKeepsInv(ss, acts, k - 1);
      StepKeepsHanded(ss[k - 1], acts[k - 1]);
    }
  }

  /**
   A callback that is released with NO_ERROR was handed to the application just before, if and only if
   the function for its kind is set and, for a snapshot, a session is on; one that is released with
   another status was not. BAD_VALUE is for unknown kinds alone.
   */
  lemma DeliveredExactly(ss: seq<State>, acts: seq<Act>, k: nat, i: nat)
    requires IsRun(ss, acts) && k < |ss| && i < |ss[k].log| && ss[k].log[i].Released?
    ensures var log, cb, h := ss[k].log, ss[k].log[i].cb, ss[0].handlers;
            var delivered := i > 0 && log[i - 1] == Delivered(cb);
      && (log[i].status != NoError ==> !delivered)
      && (log[i].status == NoError && cb.cbType.NotifyCb? ==> (delivered <==> h.notify))
      && (log[i].status == NoError && cb.cbType.DataCb? ==> (delivered <==> h.data))
      && (log[i].status == NoError && cb.cbType.TimestampCb? ==> (delivered <==> h.timestamp))
      && (log[i].status == NoError && cb.cbType.SnapshotCb? ==> (delivered <==> h.data && SessionAt(log, i).active))
      && (log[i].status == NoError ==> !cb.cbType.UnknownCb?)
      && (log[i].status == BadValue ==> cb.cbType.UnknownCb?)
  {
    RunKeepsHanded(ss, acts, k);
    assert Handed(ss[k].handlers, ss[k].log, i);
  }

  /** A DO_NEXT_JOB command handles the oldest callback, with the status that its kind and message type call for. */
  lemma JobIsDone(ss: seq<State>, acts: seq<Act>, k: nat)
    requires IsRun(ss, acts) && k < |acts| && acts[k].Handle?
    requires ss[k].cmdQ != [] && ss[k].cmdQ[0] == NextJob && ss[k].dataQ != []
    ensures var cb, log := ss[k].dataQ[0], ss[k + 1].log;
      && ss[k + 1].dataQ == ss[k].dataQ[1..]
      && |log| > |ss[k].log| && ss[k].log <= log && log[|log| - 1].Released? && log[|log| - 1].cb == cb
      && (log[|log| - 1].status == InvalidOperation <==> !acts[k].env.enabled)
      && (log[|log| - 1].status == BadValue <==> acts[k].env.enabled && cb.cbType.UnknownCb?)
      && log[|log| - 1].status != FailedTransaction
  {
    RunKeepsInv(ss, acts, k);
    var s := ss[k];
    var before := JobIs(s.handlers, s.locals, s.dataQ[0], acts[k].env.enabled);
    assert ss[k + 1] == Next(s, acts[k]);
  }

  // ----- once ---------------------------------------------------------------------------------------------

  lemma {:induction false} ReleasesAt(log: seq<Event>, n: nat, i: nat)
    requires i < n <= |log| && log[i].Released?
    ensures log[i].cb in Releases(log, n)
  {
    if i < n - 1 {
      ReleasesAt(log, n - 1, i);
    }
  }

  lemma {:induction false} ReleasesTwice(log: seq<Event>, n: nat, i: nat, j: nat)
    requires i < j < n <= |log| && log[i].Released? && log[j].Released? && log[i].cb == log[j].cb
    ensures multiset(Releases(log, n))[log[i].cb] >= 2
  {
    var cb, before := log[i].cb, Releases(log, n - 1);
    if j == n - 1 {
      ReleasesAt(log, n - 1, i);
      assert cb in multiset(before);
      CountSnoc(before, cb, cb);
    } else {
      ReleasesTwice(log, n - 1, i, j);
      if log[n - 1].Released? {
        CountSnoc(before, log[n - 1].cb, cb);
      }
    }
  }

  lemma NeverReleasedTwice(s: State, i: nat, j: nat)
    requires Inv(s) && i < j < |s.log| && s.log[i].Released? && s.log[j].Released?
    ensures s.log[i].cb != s.log[j].cb
  {
    if s.log[i].cb == s.log[j].cb {
      InvReleasedOnce(s, s.log[i].cb);
      ReleasesTwice(s.log, |s.log|, i, j);
    }
  }

  /** No callback is handed to the application twice. */
  lemma DeliveredOnce(ss: seq<State>, acts: seq<Act>, k: nat, i: nat, j: nat)
    requires IsRun(ss, acts) && k < |ss| && i < j < |ss[k].log| && ss[k].log[i].Delivered? && ss[k].log[j].Delivered?
    ensures ss[k].log[i].cb != ss[k].log[j].cb
  {
    RunKeepsInv(ss, acts, k);
    assert Fits(ss[k].log, i) && Fits(ss[k].log, j);
    NeverReleasedTwice(ss[k], i + 1, j + 1);
  }

  /** What a flush has thrown away is never handed to the application, before or after. */
  lemma FlushedIsNotDelivered(s: State, i: nat, j: nat)
    requires Inv(s) && i < |s.log| && j < |s.log| && s.log[i].Released? && s.log[i].status == FailedTransaction
    ensures s.log[j] != Delivered(s.log[i].cb)
  {
    if s.log[j] == Delivered(s.log[i].cb) {
      assert Fits(s.log, j);
      if i < j + 1 {
        NeverReleasedTwice(s, i, j + 1);
      } else if j + 1 < i {
        NeverReleasedTwice(s, j + 1, i);
      }
    }
  }

  ghost predicate GrowsTo(ss: seq<State>, m: nat)
    requires m + 1 < |ss|
  {
    ss[m].log <= ss[m + 1].log
  }

  lemma {:induction false} GrowsOn(ss: seq<State>, k: nat, j: nat)
    requires k <= j < |ss| && forall m: nat | k <= m < j :: GrowsTo(ss, m)
    ensures ss[k].log <= ss[j].log
    decreases j
  {
    if k < j {
      GrowsOn(ss, k, j - 1);
      assert GrowsTo(ss, j - 1);
      PrefixOfPrefix(ss[k].log, ss[j - 1].log, ss[j].log);
    }
  }

  lemma LogGoesOn(ss: seq<State>, acts: seq<Act>, k: nat, j: nat)
    requires IsRun(ss, acts) && k <= j < |ss|
    ensures ss[k].log <= ss[j].log
  {
    forall m: nat | k <= m < j ensures GrowsTo(ss, m) {
      StepGrowsLog(ss[m], acts[m]);
    }
    GrowsOn(ss, k, j);
  }

  lemma PrefixOfPrefix<T>(a: seq<T>, b: seq<T>, c: seq<T>)
    requires a <= b <= c
    ensures a <= c
  {
  }

  lemma StepGrowsLog(s: State, a: Act)
    requires Enabled(s, a)
    ensures s.log <= Next(s, a).log
  {
    match a
    case Handle(env) =>
      if s.cmdQ != [] {
        CommandKeepsHandlers(s.(sem := s.sem - 1, cmdQ := s.cmdQ[1..]), s.cmdQ[0], env);
      }
    case FlushSome(_) =>
    case _ =>
  }

  /**
   A snapshot that is still queued when STOP is handled is released with FAILED_TRANSACTION, and is
   not handed to the application in any later session.
   */
  lemma StopDropsSnapshots(ss: seq<State>, acts: seq<Act>, k: nat, j: nat, cb: Cb)
    requires IsRun(ss, acts) && k < j < |ss| && acts[k].Handle?
    requires ss[k].cmdQ != [] && ss[k].cmdQ[0] == StopProc && cb in ss[k].dataQ
    ensures cb.cbType.SnapshotCb? ==>
              cb !in ss[k + 1].dataQ && Released(cb, FailedTransaction) in ss[k + 1].log && Delivered(cb) !in ss[j].log
    ensures !cb.cbType.SnapshotCb? ==> cb in ss[k + 1].dataQ
  {
    RunKeepsInv(ss, acts, k);
    RunKeepsInv(ss, acts, j);
    var s := ss[k];
    assert ss[k + 1] == Next(s, acts[k]);
    FlushTakesMatches(s.dataQ, SnapshotCbs.Has);
    if cb.cbType.SnapshotCb? {
      var i := StopReleases(s, acts[k].env, cb);
      LogGoesOn(ss, acts, k + 1, j);
      assert ss[j].log[i] == Released(cb, FailedTransaction);
      if Delivered(cb) in ss[j].log {
        var d :| 0 <= d < |ss[j].log| && ss[j].log[d] == Delivered(cb);
        FlushedIsNotDelivered(ss[j], i, d);
      }
    }
  }

  lemma StopReleases(s: State, env: Env, cb: Cb) returns (i: nat)
    requires s.dataActive && s.sem > 0 && s.cmdQ != [] && s.cmdQ[0] == StopProc
    requires cb in Dropped(s.dataQ, SnapshotCbs.Has, |s.dataQ|)
    ensures i < |HandleNext(s, env).log| && HandleNext(s, env).log[i] == Released(cb, FailedTransaction)
  {
    var gone := Dropped(s.dataQ, SnapshotCbs.Has, |s.dataQ|);
    var n :| 0 <= n < |gone| && gone[n] == cb;
    i := |s.log| + n;
    assert HandleNext(s, env).log == s.log + ReleaseAll(gone) + [Stopped];
  }

  // ----- commands -------------------------------------------------------------------------------------------

  predicate Handles(s: State, a: Act, cmd: Cmd) {
    a.Handle? && s.cmdQ != [] && s.cmdQ[0] == cmd
  }

  lemma SessionStep(s: State, a: Act)
    requires Enabled(s, a)
    ensures Handles(s, a, StartProc) ==>
              Next(s, a).locals.snapshotActive && Next(s, a).locals.expected == a.env.expected
              && Next(s, a).locals.longshot == a.env.longshot
    ensures Handles(s, a, StopProc) ==> !Next(s, a).locals.snapshotActive
    ensures !Handles(s, a, StartProc) && !Handles(s, a, StopProc) ==>
              && Next(s, a).locals.snapshotActive == s.locals.snapshotActive
              && Next(s, a).locals.expected == s.locals.expected && Next(s, a).locals.longshot == s.locals.longshot
  {
    if a.Handle? && s.cmdQ != [] {
      match s.cmdQ[0] case StartProc => case StopProc => case NextJob => case Exit =>
    }
  }

  predicate Marks(s: State, a: Act) {
    Handles(s, a, StartProc) || Handles(s, a, StopProc)
  }

  // What the session is by the last START or STOP, if any.
  predicate Answers(l: Locals, s: State, a: Act) {
    && Marks(s, a) && (l.snapshotActive <==> Handles(s, a, StartProc))
    && (Handles(s, a, StartProc) ==> l.expected == a.env.expected && l.longshot == a.env.longshot)
  }

  lemma SessionStepAt(ss: seq<State>, acts: seq<Act>, k: nat)
    requires IsRun(ss, acts) && k < |acts|
    ensures Marks(ss[k], acts[k]) ==> Answers(ss[k + 1].locals, ss[k], acts[k])
    ensures !Marks(ss[k], acts[k]) ==>
              && ss[k + 1].locals.snapshotActive == ss[k].locals.snapshotActive
              && ss[k + 1].locals.expected == ss[k].locals.expected && ss[k + 1].locals.longshot == ss[k].locals.longshot
  {
    SessionStep(ss[k], acts[k]);
  }

  // Step j was the last START or STOP before state k; there was none if j == k.
  ghost predicate LastMark(ss: seq<State>, acts: seq<Act>, k: nat, j: nat)
    requires |ss| == |acts| + 1 && k < |ss|
  {
    && j <= k
    && (j < k ==> Marks(ss[j], acts[j]))
    && forall i | 0 <= i < k && (i > j || j == k) :: !Marks(ss[i], acts[i])
  }

  lemma {:induction false} LocalsAreAnswer(ss: seq<State>, acts: seq<Act>, k: nat) returns (j: nat)
    requires IsRun(ss, acts) && k < |ss|
    ensures LastMark(ss, acts, k, j)
    ensures if j < k then Answers(ss[k].locals, ss[j], acts[j]) else !ss[k].locals.snapshotActive
  {
    j := k;
    if k > 0 {
      SessionStepAt(ss, acts, k - 1);
      if Marks(ss[k - 1], acts[k - 1]) {
        j := k - 1;
      } else {
        j := LocalsAreAnswer(ss, acts, k - 1);
        j := if j == k - 1 then k else j;
      }
    }
  }

  /**
   A session is on exactly from a START to the next STOP, and its number of snapshots and its mode are
   what the parent answered when that START was handled: j is the last START or STOP before k.
   */
  lemma {:induction false} SessionIsAnswer(ss: seq<State>, acts: seq<Act>, k: nat) returns (j: nat)
    requires IsRun(ss, acts) && k < |ss|
    ensures LastMark(ss, acts, k, j)
    ensures var se := SessionAt(ss[k].log, |ss[k].log|);
      && (se.active <==> j < k && Handles(ss[j], acts[j], StartProc))
      && (se.active ==> se.expected == acts[j].env.expected && se.longshot == acts[j].env.longshot)
  {
    j := LocalsAreAnswer(ss, acts, k);
    RunKeepsInv(ss, acts, k);
  }

  /** A START, STOP or EXIT that is sent is the next command to be handled, unless another one overtakes it. */
  lemma {:induction false} PriorityGoesFirst(ss: seq<State>, acts: seq<Act>, i: nat, j: nat)
    requires IsRun(ss, acts) && i < j < |ss| && acts[i].SendFirst?
    requires forall k | i < k < j :: !acts[k].SendFirst? && !acts[k].Handle?
    ensures ss[j].cmdQ != [] && ss[j].cmdQ[0] == acts[i].cmd
    decreases j
  {
    if i < j - 1 {
      PriorityGoesFirst(ss, acts, i, j - 1);
    }
    KeepsFirstAt(ss, acts, j - 1);
  }

  lemma KeepsFirstAt(ss: seq<State>, acts: seq<Act>, k: nat)
    requires IsRun(ss, acts) && k < |acts|
    ensures acts[k].SendFirst? ==> ss[k + 1].cmdQ != [] && ss[k + 1].cmdQ[0] == acts[k].cmd
    ensures !acts[k].SendFirst? && !acts[k].Handle? && ss[k].cmdQ != [] ==>
              ss[k + 1].cmdQ != [] && ss[k + 1].cmdQ[0] == ss[k].cmdQ[0]
  {
    KeepsFirst(ss[k], acts[k]);
  }

  lemma KeepsFirst(s: State, a: Act)
    requires Enabled(s, a)
    ensures a.SendFirst? ==> Next(s, a).cmdQ != [] && Next(s, a).cmdQ[0] == a.cmd
    ensures !a.SendFirst? && !a.Handle? && s.cmdQ != [] ==> Next(s, a).cmdQ != [] && Next(s, a).cmdQ[0] == s.cmdQ[0]
  {
    match a
    case FlushSome(_) =>
    case _ =>
  }

  predicate IsPosted(a: Act) {
    a.SendJob? || a.SendFirst? || a.LoseFirst? || (a.LoseJob? && a.posts)
  }

  function CountOf(acts: seq<Act>, p: Act -> bool): nat {
    if acts == [] then 0 else CountOf(acts[..|acts| - 1], p) + if p(acts[|acts| - 1]) then 1 else 0
  }

  /**
   The semaphore and the posts under way together count the calls of sendCmd that had memory for their
   command, whether or not it found a queue node, less the rounds of the callback thread.
   */
  lemma {:induction false} SemaphoreCounts(ss: seq<State>, acts: seq<Act>, k: nat)
    requires IsRun(ss, acts) && k < |ss|
    ensures ss[k].sem + ss[k].posting + CountOf(acts[..k], (a: Act) => a.Handle?) == CountOf(acts[..k], IsPosted)
  {
    if k > 0 {
      SemaphoreCounts(ss, acts, k - 1);
      StepPosts(ss[k - 1], acts[k - 1]);
      assert acts[..k][..k - 1] == acts[..k - 1];
    }
  }

  lemma StepPosts(s: State, a: Act)
    requires Enabled(s, a)
    ensures Next(s, a).sem + Next(s, a).posting + (if a.Handle? then 1 else 0)
         == s.sem + s.posting + if IsPosted(a) then 1 else 0
  {
    match a
    case Handle(_) => if s.cmdQ != [] { match s.cmdQ[0] case StartProc => case StopProc => case NextJob => case Exit => }
    case _ =>
  }

  /** notifyCallback lets a call through exactly until exit() has been called. */
  lemma {:induction false} ActiveUntilExit(ss: seq<State>, acts: seq<Act>, k: nat)
    requires IsRun(ss, acts) && k < |ss|
    ensures ss[k].mActive <==> Deactivate !in acts[..k]
    ensures k < |acts| && acts[k] == Check ==>
              ss[k + 1].checked == ss[k].checked + if Deactivate in acts[..k] then 0 else 1
  {
    if k > 0 {
      ActiveUntilExit(ss, acts, k - 1);
      KeepsActive(ss[k - 1], acts[k - 1]);
      assert acts[..k] == acts[..k - 1] + [acts[k - 1]];
    }
  }

  lemma KeepsActive(s: State, a: Act)
    requires Enabled(s, a)
    ensures Next(s, a).mActive == (s.mActive && a != Deactivate)
  {
    match a
    case Handle(_) => if s.cmdQ != [] { match s.cmdQ[0] case StartProc => case StopProc => case NextJob => case Exit => }
    case _ =>
  }

  /** As long as no flush has released anything, callbacks leave in the order in which they were accepted. */
  lemma ReleasedInOrder(ss: seq<State>, acts: seq<Act>, k: nat)
    requires IsRun(ss, acts) && k < |ss| && NothingFlushed(ss[k].log)
    ensures ss[k].accepted == Releases(ss[k].log, |ss[k].log|) + ss[k].dataQ
  {
    RunKeepsInv(ss, acts, k);
  }

  /**
   SNAPSHOT_DONE is raised just before a snapshot is delivered, and exactly when that snapshot
   makes the number delivered since START, in 32 bits, the number expected (outside long shots).
   What is delivered is released next, with NO_ERROR.
   */
  lemma DoneExactly(ss: seq<State>, acts: seq<Act>, k: nat, i: nat)
    requires IsRun(ss, acts) && k < |ss| && i < |ss[k].log|
    ensures var log := ss[k].log;
      && (log[i].Done? ==> i + 1 < |log| && log[i + 1].Delivered? && log[i + 1].cb.cbType.SnapshotCb?)
      && (log[i].Delivered? && log[i].cb.cbType.SnapshotCb? ==>
            && SessionAt(log, i).active
            && (i > 0 && log[i - 1].Done? <==> Complete(SessionAt(log, i + 1))))
      && (log[i].Delivered? ==> i + 1 < |log| && log[i + 1] == Released(log[i].cb, NoError))
  {
    RunKeepsInv(ss, acts, k);
    assert Fits(ss[k].log, i);
  }

  lemma {:induction false} SessionGoesOn(log: seq<Event>, i: nat, j: nat)
    requires i <= j <= |log| && forall k | i <= k < j :: !log[k].Started? && !log[k].Stopped?
    ensures SessionAt(log, j).expected == SessionAt(log, i).expected
    ensures SessionAt(log, i).delivered <= SessionAt(log, j).delivered
  {
    if i < j {
      SessionGoesOn(log, i, j - 1);
    }
  }

  lemma DoneMeansComplete(log: seq<Event>, i: nat)
    requires LogRight(log) && i < |log| && log[i].Done?
    ensures i + 1 < |log| && log[i + 1].Delivered? && Complete(SessionAt(log, i + 2))
    ensures SessionAt(log, i + 2) == SessionAt(log, i).(delivered := SessionAt(log, i).delivered + 1)
  {
    assert Fits(log, i);
    assert Fits(log, i + 1);
    assert SessionAt(log, i + 1) == After(SessionAt(log, i), log[i]);
    assert SessionAt(log, i + 2) == After(SessionAt(log, i + 1), log[i + 1]);
  }

  /** With no START or STOP in between it is raised again only 2^32 delivered snapshots later. */
  lemma DoneOncePerSession(ss: seq<State>, acts: seq<Act>, k: nat, i: nat, j: nat)
    requires IsRun(ss, acts) && k < |ss| && i < j < |ss[k].log|
    requires ss[k].log[i].Done? && ss[k].log[j].Done?
    requires forall m | i < m < j :: !ss[k].log[m].Started? && !ss[k].log[m].Stopped?
    ensures SessionAt(ss[k].log, j).delivered - SessionAt(ss[k].log, i).delivered >= TWO_TO_THE_32
  {
    RunKeepsInv(ss, acts, k);
    DoneGap(ss[k].log, i, j);
  }

  lemma DoneGap(log: seq<Event>, i: nat, j: nat)
    requires LogRight(log) && i < j < |log| && log[i].Done? && log[j].Done?
    requires forall m | i < m < j :: !log[m].Started? && !log[m].Stopped?
    ensures SessionAt(log, j).delivered - SessionAt(log, i).delivered >= TWO_TO_THE_32
  {
    DoneMeansComplete(log, i);
    DoneMeansComplete(log, j);
    assert log[i + 1] != log[j];
    SessionGoesOn(log, i + 2, j);
    SameResidue(SessionAt(log, i + 2).delivered, SessionAt(log, j + 2).delivered);
  }

  lemma SameResidue(a: nat, b: nat)
    requires a < b && a % TWO_TO_THE_32 == b % TWO_TO_THE_32
    ensures b - a >= TWO_TO_THE_32
  {
  }

  // ----- and then it is raised again --------------------------------------------------------------------------

  predicate AtRest(s: State) {
    && s.mActive && s.dataActive && s.locals.running && s.dataQ == [] && s.cmdQ == []
    && s.sem == s.checked == s.holding == s.posting == 0
  }

  // A caller sends one command of its own, and the callback thread takes it.
  lemma JobAndHandle(ss: seq<State>, acts: seq<Act>, s: State, env: Env) returns (ss': seq<State>, acts': seq<Act>)
    requires IsRun(ss, acts) && s == ss[|acts|] && env.expected < 256
    requires s.holding == 1 && s.posting == s.sem == 0 && s.cmdQ == [] && s.locals.running
    ensures IsRun(ss', acts') && ss'[|acts'|] == Job(s.(holding := 0), env.enabled)
  {
    var s1 := s.(holding := 0, cmdQ := [NextJob], posting := 1);
    ss', acts' := Extend(ss, acts, s, SendJob, s1);
    var s2 := s1.(posting := 0, sem := 1);
    ss', acts' := PostOnce(ss', acts', s1);
    JobIsHandled(s2, env);
    ss', acts' := Extend(ss', acts', s2, Handle(env), Job(s.(holding := 0), env.enabled));
  }

  lemma PostOnce(ss: seq<State>, acts: seq<Act>, s: State) returns (ss': seq<State>, acts': seq<Act>)
    requires IsRun(ss, acts) && s == ss[|acts|] && s.posting == 1
    ensures IsRun(ss', acts') && ss'[|acts'|] == s.(posting := 0, sem := s.sem + 1)
  {
    ss', acts' := Extend(ss, acts, s, Post, s.(posting := 0, sem := s.sem + 1));
  }

  lemma JobIsHandled(s: State, env: Env)
    requires s.sem == 1 && s.cmdQ == [NextJob]
    ensures HandleNext(s, env) == Job(s.(sem := 0, cmdQ := []), env.enabled)
  {
    assert s.cmdQ[1..] == [];
  }

  lemma OneSnapshot(ss: seq<State>, acts: seq<Act>, s: State, env: Env) returns (ss': seq<State>, acts': seq<Act>)
    requires IsRun(ss, acts) && s == ss[|acts|] && AtRest(s) && env.expected < 256 && env.enabled
    ensures IsRun(ss', acts')
    ensures var cb := Cb(|s.accepted|, SnapshotCb, OtherMsg);
      ss'[|acts'|] == Job(s.(accepted := s.accepted + [cb], dataQ := [cb]), true)
  {
    ss', acts' := CheckIt(ss, acts, s);
    ss', acts' := EnqueueIt(ss', acts', ss'[|acts'|], SnapshotCb, OtherMsg);
    assert s.dataQ + [Cb(|s.accepted|, SnapshotCb, OtherMsg)] == [Cb(|s.accepted|, SnapshotCb, OtherMsg)];
    ss', acts' := JobAndHandle(ss', acts', ss'[|acts'|], env);
  }

  // START for one snapshot.
  lemma SessionOfOne(h: Handlers, env: Env) returns (ss: seq<State>, acts: seq<Act>)
    requires env == Env(1, false, true)
    ensures IsRun(ss, acts)
    ensures ss[|acts|] == Init(h).(locals := Locals(true, true, false, 1, 0), log := [Started(1, false)])
  {
    var s0 := Init(h);
    ss, acts := [s0], [];
    var s1 := s0.(cmdQ := [StartProc], posting := 1);
    ss, acts := SendStart(ss, acts, s0, s1);
    ss, acts := PostOnce(ss, acts, s1);
    var s2 := s1.(posting := 0, sem := 1);
    StartIsHandled(s2, env);
    ss, acts := Extend(ss, acts, s2, Handle(env), HandleNext(s2, env));
  }

  lemma SendStart(ss: seq<State>, acts: seq<Act>, s: State, s1: State) returns (ss': seq<State>, acts': seq<Act>)
    requires IsRun(ss, acts) && s == ss[|acts|] && s.cmdQ == []
    requires s1 == s.(cmdQ := [StartProc], posting := s.posting + 1)
    ensures IsRun(ss', acts') && ss'[|acts'|] == s1
  {
    assert [StartProc] + s.cmdQ == [StartProc];
    ss', acts' := Extend(ss, acts, s, SendFirst(StartProc), s1);
  }

  lemma StartIsHandled(s: State, env: Env)
    requires s.sem == 1 && s.cmdQ == [StartProc] && env == Env(1, false, true) && s.log == [] && s.locals.running
    ensures HandleNext(s, env)
         == s.(sem := 0, cmdQ := [], locals := Locals(true, true, false, 1, 0), log := [Started(1, false)])
  {
    assert s.cmdQ[1..] == [];
    assert s.log + [Started(1, false)] == [Started(1, false)];
  }

  ghost predicate InSessionOfOne(s: State, n: nat) {
    && AtRest(s) && s.handlers.data && s.locals == Locals(true, true, false, 1, n % TWO_TO_THE_32)
    && |s.log| > 0 && (n > 0 ==> |s.log| > 1 && s.log[1].Done?)
    && forall m | 0 < m < |s.log| :: !s.log[m].Started? && !s.log[m].Stopped?
  }

  // n snapshots delivered in a session that expected one.
  lemma {:induction false} ManySnapshots(h: Handlers, env: Env, n: nat) returns (ss: seq<State>, acts: seq<Act>)
    requires h.data && env == Env(1, false, true)
    ensures IsRun(ss, acts) && InSessionOfOne(ss[|acts|], n)
    ensures n == 0 ==> |ss[|acts|].log| == 1
  {
    if n == 0 {
      ss, acts := SessionOfOne(h, env);
    } else {
      ss, acts := ManySnapshots(h, env, n - 1);
      var s := ss[|acts|];
      ss, acts := OneSnapshot(ss, acts, s, env);
      IncrementCounts(n - 1);
      SnapshotInSession(s, n - 1, Cb(|s.accepted|, SnapshotCb, OtherMsg), ss[|acts|]);
    }
  }

  lemma SnapshotInSession(s: State, n: nat, cb: Cb, t: State)
    requires InSessionOfOne(s, n) && cb.cbType.SnapshotCb? && (n == 0 ==> |s.log| == 1)
    requires t == Job(s.(accepted := s.accepted + [cb], dataQ := [cb]), true)
    requires Increment(n % TWO_TO_THE_32) == (n + 1) % TWO_TO_THE_32
    ensures InSessionOfOne(t, n + 1)
    ensures t.log == s.log + JobEvents(s.handlers, s.locals, cb, true)
    ensures (n + 1) % TWO_TO_THE_32 == 1 ==> t.log[|s.log|] == Done
  {
  }

  /** The counter has 32 bits: after 2^32 more snapshots SNAPSHOT_DONE is raised a second time in a session. */
  lemma DoneAgainAfterWrap(h: Handlers) returns (ss: seq<State>, acts: seq<Act>, j: nat)
    requires h.data
    ensures IsRun(ss, acts)
    ensures var log := ss[|acts|].log;
      && 1 < j < |log| && log[1].Done? && log[j].Done?
      && forall m | 1 < m < j :: !log[m].Started? && !log[m].Stopped?
  {
    var env := Env(1, false, true);
    var n := TWO_TO_THE_32;
    ss, acts := ManySnapshots(h, env, n);
    var s := ss[|acts|];
    j := |s.log|;
    ss, acts := OneSnapshot(ss, acts, s, env);
    IncrementCounts(n);
    SnapshotInSession(s, n, Cb(|s.accepted|, SnapshotCb, OtherMsg), ss[|acts|]);
  }
}
