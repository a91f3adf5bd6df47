/**
 sendPreviewCallback and the notifier together: who releases the memory that goes with a callback.
 A caller of notifyCallback hands the memory over with release_cb set; it releases the memory itself
 exactly when notifyCallback returns an error (PreviewCallback.SendPreviewCallback). Every call under
 way is followed here by number, in any interleaving with the notifier's other steps.
 */
module FrameRelease {

  import opened CbNotifier

  /** Where a call of notifyCallback is, and what it returned. */
  datatype Call =
    | Checked                // mActive was true
    | Holding(cb: Cb)        // the callback is in the queue, its command not yet sent
    | Sent(cb: Cb)           // returned NO_ERROR
    | Refused                // returned an error, the callback was never queued
    | FailedLate(cb: Cb)     // returned NO_MEMORY from sendCmd, the callback is queued

  datatype FrameState = FrameState(n: State, calls: seq<Call>)

  datatype FrameAct =
    | Begin                                            // of a call
    | Queue(i: nat, cbType: CbType, msgType: MsgType)  // the enqueue of call i
    | NoCallbackMemory(i: nat)
    | Command(i: nat)                                  // its sendCmd
    | NoCommandMemory(i: nat)                          // malloc fails in sendCmd
    | NoNodeMemory(i: nat)                             // malloc fails in the command queue
    | Elsewhere(a: Act)                                // anything that is not part of such a call

  /** The notifier's step that the act consists of. */
  function ActOf(a: FrameAct): Act {
    match a
    case Begin => Check
    case Queue(_, cbType, msgType) => Enqueue(cbType, msgType)
    case NoCallbackMemory(_) => GiveUp
    case Command(_) => SendJob
    case NoCommandMemory(_) => LoseJob(false)
    case NoNodeMemory(_) => LoseJob(true)
    case Elsewhere(b) => b
  }

  predicate FrameEnabled(f: FrameState, a: FrameAct) {
    && Enabled(f.n, ActOf(a))
    && match a
       case Begin => true
       case Queue(i, _, _) => i < |f.calls| && f.calls[i].Checked?
       case NoCallbackMemory(i) => i < |f.calls| && f.calls[i].Checked?
       case Command(i) => i < |f.calls| && f.calls[i].Holding?
       case NoCommandMemory(i) => i < |f.calls| && f.calls[i].Holding?
       case NoNodeMemory(i) => i < |f.calls| && f.calls[i].Holding?
       case Elsewhere(b) => b.SendFirst? || b.LoseFirst? || b.Post? || b.Deactivate? || b.FlushSome? || b.Handle?
  }

  function CallsAfter(f: FrameState, a: FrameAct): seq<Call>
    requires FrameEnabled(f, a)
  {
    match a
    case Begin => f.calls + [if f.n.mActive then Checked else Refused]
    case Queue(i, cbType, msgType) =>
      f.calls[i := if f.n.dataActive then Holding(Cb(|f.n.accepted|, cbType, msgType)) else Refused]
    case NoCallbackMemory(i) => f.calls[i := Refused]
    case Command(i) => f.calls[i := Sent(f.calls[i].cb)]
    case NoCommandMemory(i) => f.calls[i := FailedLate(f.calls[i].cb)]
    case NoNodeMemory(i) => f.calls[i := Sent(f.calls[i].cb)]
    case Elsewhere(_) => f.calls
  }

  function FrameNext(f: FrameState, a: FrameAct): FrameState
    requires FrameEnabled(f, a)
  {
    FrameState(Next(f.n, ActOf(a)), CallsAfter(f, a))
  }

  ghost predicate IsFrameRun(fs: seq<FrameState>, acts: seq<FrameAct>) {
    && |fs| == |acts| + 1
    && fs[0] == FrameState(Init(fs[0].n.handlers), [])
    && (forall i | 0 <= i < |acts| :: FrameEnabled(fs[i], acts[i]) && fs[i + 1] == FrameNext(fs[i], acts[i]))
  }

  // ----- what the notifier holds ----------------------------------------------------------------------

  predicate HasCb(c: Call) {
    c.Holding? || c.Sent? || c.FailedLate?
  }

  ghost predicate CallsOk(accepted: seq<Cb>, calls: seq<Call>) {
    forall i | 0 <= i < |calls| && HasCb(calls[i]) :: calls[i].cb in accepted
  }

  lemma AcceptedGrows(s: State, a: Act)
    requires Enabled(s, a)
    ensures s.accepted <= Next(s, a).accepted
  {
    match a
    case Handle(env) =>
      if s.cmdQ != [] {
        match s.cmdQ[0] case StartProc => case StopProc => case NextJob => case Exit =>
      }
    case _ =>
  }

  lemma CallsStayOk(f: FrameState, a: FrameAct)
    requires CallsOk(f.n.accepted, f.calls) && FrameEnabled(f, a)
    ensures CallsOk(FrameNext(f, a).n.accepted, FrameNext(f, a).calls)
  {
    var f' := FrameNext(f, a);
    AcceptedGrows(f.n, ActOf(a));
    forall i | 0 <= i < |f'.calls| && HasCb(f'.calls[i])
      ensures f'.calls[i].cb in f'.n.accepted
    {
      if i < |f.calls| && HasCb(f.calls[i]) {
        assert f'.calls[i].cb == f.calls[i].cb && f.calls[i].cb in f.n.accepted;
      } else {
        assert a.Queue? && f'.n.accepted[|f.n.accepted|] == f'.calls[i].cb;
      }
    }
  }

  lemma {:induction false} FrameRunKeepsInv(fs: seq<FrameState>, acts: seq<FrameAct>, k: nat)
    requires IsFrameRun(fs, acts) && k < |fs|
    ensures Inv(fs[k].n) && CallsOk(fs[k].n.accepted, fs[k].calls)
  {
    if k > 0 {
      FrameRunKeepsInv(fs, acts, k - 1);
      StepKeepsInv(fs[k - 1].n, ActOf(acts[k - 1]));
      CallsStayOk(fs[k - 1], acts[k - 1]);
    }
  }

  // ----- releases --------------------------------------------------------------------------------------

  /** The caller's own release, on an error return. */
  function CallerReleases(c: Call): nat {
    if c.Refused? || c.FailedLate? then 1 else 0
  }

  /** All releases of the memory of a call: the caller's, and those of release_cb. */
  function AllReleases(n: State, c: Call): nat {
    CallerReleases(c) + if HasCb(c) then multiset(Releases(n.log, |n.log|))[c.cb] else 0
  }

  /**
   In every state of every run, what has been released and what the queue has still to release add
   up to one, except for a call whose command found no memory: there it is two.
   */
  lemma ReleasesAddUp(fs: seq<FrameState>, acts: seq<FrameAct>, k: nat, i: nat)
    requires IsFrameRun(fs, acts) && k < |fs| && i < |fs[k].calls|
    ensures var n, c := fs[k].n, fs[k].calls[i];
      AllReleases(n, c) + (if HasCb(c) then multiset(n.dataQ)[c.cb] else 0)
      == if c.Checked? then 0 else if c.FailedLate? then 2 else 1
  {
    FrameRunKeepsInv(fs, acts, k);
    if HasCb(fs[k].calls[i]) {
      InvReleasedOnce(fs[k].n, fs[k].calls[i].cb);
    }
  }

  /**
   Once the callback thread has ended, the memory of a call that returned has been released once if
   and only if that malloc did not fail.
   */
  lemma ReleasedOnceExactly(fs: seq<FrameState>, acts: seq<FrameAct>, k: nat, i: nat)
    requires IsFrameRun(fs, acts) && k < |fs| && i < |fs[k].calls|
    requires !fs[k].n.locals.running && !fs[k].calls[i].Checked?
    ensures AllReleases(fs[k].n, fs[k].calls[i]) == 1 <==> !fs[k].calls[i].FailedLate?
    ensures fs[k].calls[i].FailedLate? ==> AllReleases(fs[k].n, fs[k].calls[i]) == 2
  {
    FrameRunKeepsInv(fs, acts, k);
    if HasCb(fs[k].calls[i]) {
      InvReleasedOnce(fs[k].n, fs[k].calls[i].cb);
    }
  }
}
