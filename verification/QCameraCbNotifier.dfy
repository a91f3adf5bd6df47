/**
 The notifier as an object: its two queues, its semaphore and the variables of cbNotifyRoutine. The
 methods run the statements of one step of CbNotifier.Next each and are proved to take the state
 where that step does. The counters of callers under way are ghost: the source keeps them in the
 program counters of the calling threads.
 */
module CbNotifierObject {

  import opened Wrappers
  import opened CameraQueue
  import opened CbNotifier

  class QCameraCbNotifier {
    const handlers: Handlers
    const mDataQ: QCameraQueue<Cb>
    const cmdQueue: QCameraQueue<Cmd>
    var mActive: bool
    var cmdSem: nat
    var running: bool
    var isSnapshotActive: bool
    var longShotEnabled: bool
    var numOfSnapshotExpected: nat
    var numOfSnapshotRcvd: nat
    ghost var checked: nat
    ghost var holding: nat
    ghost var posting: nat
    ghost var lost: nat
    ghost var accepted: seq<Cb>
    var log: seq<Event>        // the calls made to the application and to release_cb, in order

    ghost predicate Valid()
      reads mDataQ, cmdQueue
    {
      mDataQ.Valid() && cmdQueue.Valid() && cmdQueue.active
    }

    ghost function LocalsNow(): Locals
      reads this
    {
      Locals(running, isSnapshotActive, longShotEnabled, numOfSnapshotExpected, numOfSnapshotRcvd)
    }

    ghost function St(): State
      reads this, mDataQ, cmdQueue
    {
      State(handlers, mActive, mDataQ.nodes, mDataQ.active, cmdQueue.nodes, cmdSem, checked, holding, posting, lost,
            LocalsNow(), accepted, log)
    }

    /** The constructor, and setCallbacks. */
    constructor (handlers: Handlers)
      ensures Valid() && St() == Init(handlers)
    {
      this.handlers := handlers;
      mDataQ := new QCameraQueue();
      cmdQueue := new QCameraQueue();
      mActive, cmdSem, running := true, 0, true;
      isSnapshotActive, longShotEnabled, numOfSnapshotExpected, numOfSnapshotRcvd := false, false, 0, 0;
      checked, holding, posting, lost, accepted, log := 0, 0, 0, 0, [], [];
    }

    /** notifyCallback up to its queue; false where it returns UNKNOWN_ERROR. */
    method EnterNotifyCallback() returns (ok: bool)
      modifies this`checked
      ensures St() == Next(old(St()), Check) && ok == mActive
    {
      ok := mActive;
      if ok {
        checked := checked + 1;
      }
    }

    /** notifyCallback's enqueue; false where it returns UNKNOWN_ERROR. */
    method EnqueueCallback(cbArgs: Cb, canAlloc: bool) returns (ok: bool)
      requires Valid() && checked > 0 && cbArgs.id == |accepted|
      modifies this`checked, this`holding, this`accepted, mDataQ
      ensures Valid() && ok == (canAlloc && mDataQ.active)
      ensures St() == Next(old(St()), if canAlloc then Enqueue(cbArgs.cbType, cbArgs.msgType) else GiveUp)
    {
      ok := mDataQ.Enqueue(cbArgs, canAlloc);
      checked := checked - 1;
      if ok {
        holding := holding + 1;
        accepted := accepted + [cbArgs];
      }
    }

    /** notifyCallback's sendCmd, up to the post; there may be no memory for the command or for its node. */
    method SendNextJob(cmdAlloc: bool, nodeAlloc: bool) returns (ok: bool)
      requires Valid() && holding > 0
      modifies this`holding, this`posting, this`lost, cmdQueue
      ensures Valid() && ok == cmdAlloc
      ensures St() == Next(old(St()), if cmdAlloc && nodeAlloc then SendJob else LoseJob(cmdAlloc))
    {
      ok := cmdAlloc;
      var sent := false;
      if cmdAlloc {
        sent := cmdQueue.Enqueue(NextJob, nodeAlloc);
        posting := posting + 1;
      }
      holding, lost := holding - 1, if sent then lost else lost + 1;
    }

    /** startSnapshots, stopSnapshots and the command of exit, up to the post. */
    method SendWithPriority(cmd: Cmd, nodeAlloc: bool)
      requires Valid() && !cmd.NextJob? && (cmd.Exit? ==> !mActive)
      modifies this`posting, cmdQueue
      ensures Valid() && St() == Next(old(St()), if nodeAlloc then SendFirst(cmd) else LoseFirst)
    {
      var _ := cmdQueue.EnqueueWithPriority(cmd, nodeAlloc);
      posting := posting + 1;
    }

    /** The first statement of exit(). */
    method Deactivate()
      modifies this`mActive
      ensures St() == Next(old(St()), Act.Deactivate) && !mActive
    {
      mActive := false;
    }

    method PostSem()
      requires posting > 0
      modifies this`posting, this`cmdSem
      ensures St() == Next(old(St()), Post)
    {
      cmdSem := cmdSem + 1;
      posting := posting - 1;
    }

    // mDataQ.flushNodes, with what releaseNotifications does for each callback.
    method FlushMatching(m: Match)
      requires Valid()
      modifies this`log, mDataQ
      ensures Valid() && St() == Flushed(old(St()), m)
    {
      var n := |mDataQ.released|;
      mDataQ.FlushNodes(m.Has);
      log := log + ReleaseAll(mDataQ.released[n..]);
    }

    method FlushPreviewNotifications() returns (ok: bool)
      requires Valid()
      modifies this`log, mDataQ
      ensures Valid() && ok == mActive
      ensures St() == if ok then Flushed(old(St()), PreviewCbs) else old(St())
      ensures ok && mDataQ.active ==>
                && (forall cb | cb in mDataQ.nodes :: !(cb.cbType.DataCb? && cb.msgType.PreviewFrame?))
                && (forall cb | cb in old(mDataQ.nodes) && !(cb.cbType.DataCb? && cb.msgType.PreviewFrame?) ::
                      cb in mDataQ.nodes)
    {
      FlushTakesMatches(mDataQ.nodes, PreviewCbs.Has);
      ok := mActive;
      if ok {
        FlushMatching(PreviewCbs);
      }
    }

    method FlushVideoNotifications() returns (ok: bool)
      requires Valid()
      modifies this`log, mDataQ
      ensures Valid() && ok == mActive
      ensures St() == if ok then Flushed(old(St()), TimestampCbs) else old(St())
      ensures ok && mDataQ.active ==>
                && (forall cb | cb in mDataQ.nodes :: !(cb.cbType.TimestampCb? && cb.msgType.VideoFrame?))
                && (forall cb | cb in old(mDataQ.nodes) && !(cb.cbType.TimestampCb? && cb.msgType.VideoFrame?) ::
                      cb in mDataQ.nodes)
    {
      FlushTakesMatches(mDataQ.nodes, TimestampCbs.Has);
      ok := mActive;
      if ok {
        FlushMatching(TimestampCbs);
      }
    }

    /** One round of the loop of cbNotifyRoutine, once cam_sem_wait has returned. */
    method NotifyRound(env: Env)
      requires Valid() && running && cmdSem > 0
      modifies this`cmdSem, this`running, this`isSnapshotActive, this`longShotEnabled,
               this`numOfSnapshotExpected, this`numOfSnapshotRcvd, this`log, mDataQ, cmdQueue
      ensures Valid() && St() == HandleNext(old(St()), env)
    {
      var cmd := TakeCommand();
      match cmd
      case None =>
      case Some(StartProc) => StartDataProc(env);
      case Some(StopProc) => StopDataProc(env);
      case Some(NextJob) => DoNextJob(env);
      case Some(Exit) => ExitProc(env);
    }

    // The semaphore is taken, and getCmd.
    method TakeCommand() returns (cmd: Option<Cmd>)
      requires Valid() && cmdSem > 0
      modifies this`cmdSem, cmdQueue
      ensures Valid()
      ensures if old(cmdQueue.nodes) == [] then cmd == None && St() == old(St()).(sem := old(cmdSem) - 1)
              else && cmd == Some(old(cmdQueue.nodes)[0])
                   && St() == old(St()).(sem := old(cmdSem) - 1, cmdQ := old(cmdQueue.nodes)[1..])
    {
      cmdSem := cmdSem - 1;
      cmd := cmdQueue.Dequeue(true);
      assert cmd.Some? ==> old(cmdQueue.nodes)[1..] == cmdQueue.nodes;
    }

    // CAMERA_CMD_TYPE_START_DATA_PROC.
    method StartDataProc(env: Env)
      modifies this`isSnapshotActive, this`longShotEnabled, this`numOfSnapshotExpected, this`numOfSnapshotRcvd, this`log
      ensures St() == Command(old(St()), StartProc, env)
    {
      isSnapshotActive, numOfSnapshotExpected, longShotEnabled := true, env.expected, env.longshot;
      numOfSnapshotRcvd := 0;
      log := log + [Started(env.expected, env.longshot)];
    }

    // CAMERA_CMD_TYPE_STOP_DATA_PROC.
    method StopDataProc(ghost env: Env)
      requires Valid()
      modifies this`isSnapshotActive, this`numOfSnapshotExpected, this`numOfSnapshotRcvd, this`log, mDataQ
      ensures Valid() && St() == Command(old(St()), StopProc, env)
    {
      FlushMatching(SnapshotCbs);
      isSnapshotActive := false;
      numOfSnapshotExpected, numOfSnapshotRcvd := 0, 0;
      log := log + [Stopped];
    }

    // CAMERA_CMD_TYPE_EXIT.
    method ExitProc(ghost env: Env)
      requires Valid()
      modifies this`running, this`log, mDataQ
      ensures Valid() && St() == Command(old(St()), Exit, env)
    {
      running := false;
      var n := |mDataQ.released|;
      mDataQ.Flush();
      log := log + ReleaseAll(mDataQ.released[n..]);
    }

    // CAMERA_CMD_TYPE_DO_NEXT_JOB.
    method DoNextJob(env: Env)
      requires Valid()
      modifies this`numOfSnapshotRcvd, this`log, mDataQ
      ensures Valid() && St() == Command(old(St()), NextJob, env)
    {
      var cb := mDataQ.Dequeue(true);
      if cb.Some? {
        assert old(mDataQ.nodes)[1..] == mDataQ.nodes;
        var cbStatus := Handle(cb.value, env.enabled);
        log := log + [Released(cb.value, cbStatus)];
      }
    }

    /** The application's function for this kind is called exactly if it is set, and for a snapshot in a session. */
    method Handle(cb: Cb, enabled: bool) returns (cbStatus: Status)
      modifies this`numOfSnapshotRcvd, this`log
      ensures cbStatus == if !enabled then InvalidOperation else if cb.cbType.UnknownCb? then BadValue else NoError
      ensures enabled && Wanted(handlers, isSnapshotActive, cb) <==> log != old(log)
      ensures log != old(log) ==> log == old(log) + [Delivered(cb)] || log == old(log) + [Done, Delivered(cb)]
      ensures log + [Released(cb, cbStatus)] == old(log) + JobEvents(handlers, old(LocalsNow()), cb, enabled)
      ensures numOfSnapshotRcvd == if Counts(handlers, old(LocalsNow()), cb, enabled)
                                   then Increment(old(numOfSnapshotRcvd)) else old(numOfSnapshotRcvd)
    {
      if !enabled {
        return InvalidOperation;
      }
      cbStatus := NoError;
      match cb.cbType
      case NotifyCb =>
        if handlers.notify {
          log := log + [Delivered(cb)];
        }
      case DataCb =>
        if handlers.data {
          log := log + [Delivered(cb)];
        }
      case TimestampCb =>
        if handlers.timestamp {
          log := log + [Delivered(cb)];
        }
      case SnapshotCb =>
        if isSnapshotActive && handlers.data {
          if !longShotEnabled {
            numOfSnapshotRcvd := (numOfSnapshotRcvd + 1) % TWO_TO_THE_32;
            if numOfSnapshotExpected > 0 && numOfSnapshotExpected == numOfSnapshotRcvd {
              log := log + [Done];
            }
          }
          log := log + [Delivered(cb)];
        }
      case UnknownCb =>
        cbStatus := BadValue;
    }
  }
}
