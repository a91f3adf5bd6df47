/**
 LocThreadDelegate as an object, with the source's own methods as sequential code. Between any two
 accesses to a shared field the other thread may run: Preempted() stands for any number of its
 steps, which is all that its caller may use of it. So what a method ensures holds in every
 interleaving. The program counters `parent` and `child` say where the two threads are.
 */
module LocThreadObject {

  import opened Wrappers
  import opened LocThread

  // ----- what the other thread can do meanwhile --------------------------------------------------

  function Other(w: Who): Who { if w == Parent then Child else Parent }

  predicate CanStep(w: Who, s: State) {
    if w == Parent then ParentEnabled(s) else ChildEnabled(s)
  }

  function StepOf(w: Who, s: State, choice: bool): State {
    if !CanStep(w, s) then s else if w == Parent then ParentNext(s, choice) else ChildNext(s, choice)
  }

  function StepsOf(w: Who, s: State, choices: seq<bool>): State
    decreases |choices|
  {
    if choices == [] then s else StepOf(w, StepsOf(w, s, choices[..|choices| - 1]), choices[|choices| - 1])
  }

  /** w ran, for any number of steps. */
  ghost predicate Ran(w: Who, s: State, s': State) {
    exists choices: seq<bool> :: s' == StepsOf(w, s, choices)
  }

  /** What w can rely on, whatever the other thread did. */
  predicate Undisturbed(w: Who, s: State, s': State) {
    && (s'.runnable ==> s.runnable)
    && match w
       case Parent => s'.joinable == s.joinable && s'.handedOut == s.handedOut
                      && (s.c.CNone? <==> s'.c.CNone?) && (s.c.CDone? ==> s'.c.CDone?)
       case Child => s'.saw == s.saw && s'.runnableFrees == s.runnableFrees && s'.work == s.work
  }

  predicate Kept(w: Who, s: State, s': State) {
    Undisturbed(w, s, s') && match w case Parent => s'.p == s.p case Child => s'.c == s.c
  }

  lemma {:induction false} OneStepKeeps(w: Who, s: State, choice: bool)
    requires Inv(s) && (w == Child ==> !s.c.CNone?)
    ensures Inv(StepOf(Other(w), s, choice)) && Kept(w, s, StepOf(Other(w), s, choice))
  {
    if CanStep(Other(w), s) {
      match w
      case Parent =>
        ChildKeepsRefs(s, choice);
        ChildKeepsRunnable(s, choice);
        ChildTouchesNoneOf(s, choice);
      case Child =>
        ParentKeepsRefs(s, choice);
        ParentKeepsRunnable(s, choice);
        ParentTouchesNoneOf(s, choice);
    }
  }

  lemma {:induction false} ChildTouchesNoneOf(s: State, choice: bool)
    requires ChildEnabled(s)
    ensures Kept(Parent, s, ChildNext(s, choice))
  {
    match s.c
    case CDestroy(d) => match d { case DTest => case DLock => case DDec => case DUnlock(_) => case DDelete(_) => }
    case CRead => case CPrerun => case CLoop => case CRun => case CPostrun => case CNull => case CDelete =>
  }

  lemma {:induction false} ParentTouchesNoneOf(s: State, choice: bool)
    requires ParentEnabled(s) && RunnableInv(s) && !s.c.CNone?
    ensures Kept(Child, s, ParentNext(s, choice))
  {
    match s.p
    case PDestroy(d) => match d { case DTest => case DLock => case DDec => case DUnlock(_) => case DDelete(_) => }
    case PSetup => case PCheck => case PHeld => case PStopRead => case PStopNull => case PJoinTest => case PJoin =>
  }

  lemma {:induction false} RanKeeps(w: Who, s: State, s': State)
    requires Ran(Other(w), s, s') && Inv(s) && (w == Child ==> !s.c.CNone?)
    ensures Inv(s') && Kept(w, s, s')
  {
    var choices: seq<bool> :| s' == StepsOf(Other(w), s, choices);
    StepsKeep(w, s, choices);
  }

  lemma {:induction false} StepsKeep(w: Who, s: State, choices: seq<bool>)
    requires Inv(s) && (w == Child ==> !s.c.CNone?)
    ensures Inv(StepsOf(Other(w), s, choices)) && Kept(w, s, StepsOf(Other(w), s, choices))
    decreases |choices|
  {
    if choices != [] {
      var n := |choices| - 1;
      StepsKeep(w, s, choices[..n]);
      OneStepKeeps(w, StepsOf(Other(w), s, choices[..n]), choices[n]);
    }
  }

  lemma {:induction false} OwnStepKeepsInv(w: Who, s: State, choice: bool, s': State)
    requires Inv(s) && CanStep(w, s) && s' == StepOf(w, s, choice)
    ensures Inv(s')
  {
    match w
    case Parent =>
      ParentKeepsRefs(s, choice);
      ParentKeepsRunnable(s, choice);
    case Child =>
      ChildKeepsRefs(s, choice);
      ChildKeepsRunnable(s, choice);
  }

  // ----- the object --------------------------------------------------------------------------------

  predicate At(w: Who, s: State, d: DestroyPc) {
    match w case Parent => s.p == PDestroy(d) case Child => s.c == CDestroy(d)
  }

  predicate Ended(w: Who, s: State) {
    match w case Parent => s.p.PDone? case Child => s.c.CDone?
  }

  function PlaceRank(w: Who, s: State): nat {
    match w case Parent => ParentRank(s.p) case Child => ChildRank(s.c)
  }

  // Whatever w's next step is, it brings w nearer to its end.
  ghost predicate GetsOn(w: Who, s: State) {
    CanStep(w, s) && forall choice: bool :: PlaceRank(w, StepOf(w, s, choice)) < PlaceRank(w, s)
  }

  lemma {:induction false} MutexHolder(refs: int, mutex: Option<Who>, frees: nat, w: Who, mine: Role, others: Role)
    requires RefsOk(refs, mutex, frees, w, mine, others) && mutex.Some?
    ensures mine.inMutex || others.inMutex
    ensures mine.inMutex <==> mutex == Some(w)
  {
  }

  lemma {:induction false} InMutexGetsOn(w: Who, s: State, d: DestroyPc)
    requires At(w, s, d) && !d.DLock?
    ensures GetsOn(w, s)
  {
    match d case DTest => case DDec => case DUnlock(_) => case DDelete(_) =>
  }

  lemma {:induction false} MutexIsLeft(w: Who, s: State)
    requires RefInv(s) && At(w, s, DLock) && s.mutex.Some?
    ensures GetsOn(Other(w), s) && (w == Child ==> !s.c.CNone?)
  {
    MutexHolder(s.refs, s.mutex, s.frees, Parent, RoleOf(s, Parent), RoleOf(s, Child));
    match w
    case Parent => InMutexGetsOn(Child, s, s.c.d);
    case Child => InMutexGetsOn(Parent, s, s.p.d);
  }

  lemma {:induction false} ChildGetsOn(s: State)
    requires Inv(s) && s.p == PJoin && !s.runnable && s.c != CDone
    ensures GetsOn(Child, s)
  {
    assert s.mutex != Some(Parent);
    forall choice: bool ensures PlaceRank(Child, StepOf(Child, s, choice)) < PlaceRank(Child, s) {
      ChildRankDrops(s, choice, ChildNext(s, choice));
    }
  }

  function GoneTo(w: Who, s: State, next: Option<DestroyPc>): State {
    match w
    case Parent => s.(p := if next.Some? then PDestroy(next.value) else PDone)
    case Child => s.(c := if next.Some? then CDestroy(next.value) else CDone)
  }

  // A step of destroy() by w, wherever it is called from.
  function AfterDestroy(w: Who, s: State, d: DestroyPc): State {
    match DestroyNext(s, w, d)
    case Continue(s', d') => GoneTo(w, s', Some(d'))
    case Finished(s') => GoneTo(w, s', None)
  }

  lemma {:induction false} AfterDestroyIsNext(w: Who, s: State, d: DestroyPc)
    requires At(w, s, d) && DestroyEnabled(s, d)
    ensures AfterDestroy(w, s, d) == if w == Parent then ParentNext(s, true) else ChildNext(s, true)
    ensures Undisturbed(w, s, AfterDestroy(w, s, d))
  {
    match d case DTest => case DLock => case DDec => case DUnlock(_) => case DDelete(_) =>
  }

  lemma {:induction false} DestroyStepKeeps(w: Who, s: State, d: DestroyPc)
    requires Inv(s) && At(w, s, d) && DestroyEnabled(s, d)
    ensures Inv(AfterDestroy(w, s, d)) && Undisturbed(w, s, AfterDestroy(w, s, d))
  {
    AfterDestroyIsNext(w, s, d);
    match w
    case Parent =>
      ParentDestroyKeepsRefs(s, d, true);
      ParentDestroyKeepsRunnable(s, d, true);
    case Child =>
      ChildDestroyKeepsRefs(s, d, true);
      ChildDestroyKeepsRunnable(s, d, true);
  }

  /** The results of the calls of run() that a thread makes which nobody stops. */
  function Results(runs: seq<bool>): seq<bool> {
    if runs == [] || !runs[0] then [false] else [true] + Results(runs[1..])
  }

  // After i calls that returned true the next result is there.
  lemma {:induction false} ResultsAt(runs: seq<bool>, i: nat)
    requires i <= |runs| && AllTrue(runs[..i])
    ensures i < |Results(runs)| && Results(runs)[..i] == runs[..i]
    ensures Results(runs)[i] == (i < |runs| && runs[i])
    ensures !Results(runs)[i] ==> |Results(runs)| == i + 1
  {
    if i > 0 {
      assert runs[..i][0] == runs[0];
      var rest := runs[1..][..i - 1];
      forall k | 0 <= k < i - 1 ensures rest[k] {
        assert runs[..i][k + 1];
      }
      ResultsAt(runs[1..], i - 1);
      assert runs[..i] == [true] + runs[1..][..i - 1];
    }
  }

  lemma {:induction false} BothEnded(s: State)
    requires Inv(s) && s.p == PDone && s.c == CDone
    ensures s.frees == 1 && s.runnableFrees == if s.saw then 1 else 0
  {
  }

  // Without having been handed out.
  lemma {:induction false} GivenBackEnded(s: State)
    requires Inv(s) && s.p == PDone && !s.handedOut
    ensures s.c == CNone ==> s.frees == 1 && s.runnableFrees == 0
    ensures s.c != CNone ==> s.saw && !s.runnable
  {
  }

  class LocThreadDelegate {
    var mRunnable: bool            // it is not NULL
    var mJoinable: bool
    var mRefCount: int
    var mMutex: Option<Who>        // who holds mMutex
    var handedOut: bool            // create() returned the object
    var parent: ParentPc
    var child: ChildPc
    var frees: nat                 // how often the object, and the runnable, was deleted
    var runnableFrees: nat
    var saw: bool                  // threadMain() read a runnable
    var work: Work                 // what it did with it

    function St(): State
      reads this
    {
      State(mRunnable, mJoinable, mRefCount, mMutex, frees, runnableFrees, saw, handedOut, work, parent, child)
    }

    /** The initial values, as if pthread_create will succeed. */
    constructor (joinable: bool)
      ensures St() == Init(joinable)
    {
      mRunnable, mJoinable, mRefCount, mMutex := true, joinable, 2, None;
      handedOut, parent, child := false, PCreate, CNone;
      frees, runnableFrees, saw, work := 0, 0, false, NOTHING;
    }

    // The scheduler: between two statements of w the other thread may take any number of steps.
    method Preempted(w: Who)
      modifies this
      ensures Ran(Other(w), old(St()), St())
    {
      assert St() == StepsOf(Other(w), St(), []);
    }

    method Pause(w: Who)
      requires Inv(St()) && (w == Child ==> !child.CNone?)
      modifies this
      ensures Inv(St()) && Kept(w, old(St()), St())
    {
      Preempted(w);
      RanKeeps(w, old(St()), St());
    }

    // One step of the other thread, while w waits for it.
    method LetStep(w: Who)
      requires Inv(St()) && (w == Child ==> !child.CNone?) && CanStep(Other(w), St())
      modifies this
      ensures exists choice :: St() == StepOf(Other(w), old(St()), choice)
      ensures Inv(St()) && Kept(w, old(St()), St())
    {
      var choice: bool := *;
      OneStepKeeps(w, St(), choice);
      var s := StepOf(Other(w), St(), choice);
      mRunnable, mJoinable, mRefCount, mMutex, frees := s.runnable, s.joinable, s.refs, s.mutex, s.frees;
      runnableFrees, saw, handedOut, work, parent, child := s.runnableFrees, s.saw, s.handedOut, s.work, s.p, s.c;
      assert St() == s;
    }

    // pthread_mutex_lock: the other thread runs until it has left the mutex, which it does.
    method AwaitMutex(w: Who)
      requires Inv(St()) && At(w, St(), DLock)
      modifies this
      ensures Inv(St()) && Kept(w, old(St()), St()) && mMutex == None
    {
      while mMutex.Some?
        invariant Inv(St()) && Kept(w, old(St()), St())
        decreases PlaceRank(Other(w), St())
      {
        MutexIsLeft(w, St());
        LetStep(w);
      }
    }

    // pthread_join: the spawned thread runs until its end, which it reaches once mRunnable is NULL.
    method AwaitChild()
      requires Inv(St()) && parent == PJoin && !mRunnable
      modifies this
      ensures Inv(St()) && Kept(Parent, old(St()), St()) && child == CDone
    {
      while child != CDone
        invariant Inv(St()) && Kept(Parent, old(St()), St())
        decreases ChildRank(child)
      {
        ChildGetsOn(St());
        LetStep(Parent);
      }
    }

    method GoTo(w: Who, next: Option<DestroyPc>)
      modifies this`parent, this`child
      ensures St() == GoneTo(w, old(St()), next)
    {
      match w
      case Parent => parent := if next.Some? then PDestroy(next.value) else PDone;
      case Child => child := if next.Some? then CDestroy(next.value) else CDone;
    }

    // The statements of destroy() after the test, each at its place in w.
    method Lock(w: Who)
      requires At(w, St(), DLock) && mMutex == None
      modifies this`mMutex, this`parent, this`child
      ensures St() == AfterDestroy(w, old(St()), DLock) && At(w, St(), DDec)
    {
      mMutex := Some(w);
      GoTo(w, Some(DDec));
    }

    method Decrement(w: Who) returns (callDelete: bool)
      requires At(w, St(), DDec)
      modifies this`mRefCount, this`parent, this`child
      ensures St() == AfterDestroy(w, old(St()), DDec) && At(w, St(), DUnlock(callDelete))
    {
      callDelete := mRefCount == 1;
      mRefCount := mRefCount - 1;
      GoTo(w, Some(DUnlock(callDelete)));
    }

    method Unlock(w: Who, callDelete: bool)
      requires At(w, St(), DUnlock(callDelete))
      modifies this`mMutex, this`parent, this`child
      ensures St() == AfterDestroy(w, old(St()), DUnlock(callDelete)) && At(w, St(), DDelete(callDelete))
    {
      mMutex := None;
      GoTo(w, Some(DDelete(callDelete)));
    }

    method DeleteIf(w: Who, callDelete: bool)
      requires At(w, St(), DDelete(callDelete))
      modifies this`frees, this`parent, this`child
      ensures St() == AfterDestroy(w, old(St()), DDelete(callDelete)) && Ended(w, St())
    {
      if callDelete {
        frees := frees + 1;
      }
      GoTo(w, None);
    }

    // From the lock to the unlock; the other thread may run in between, but not enter.
    method CriticalSection(w: Who) returns (callDelete: bool)
      requires Inv(St()) && At(w, St(), DLock)
      modifies this
      ensures Inv(St()) && At(w, St(), DDelete(callDelete)) && Undisturbed(w, old(St()), St())
    {
      AwaitMutex(w);
      DestroyStepKeeps(w, St(), DLock);
      Lock(w);
      Pause(w);
      DestroyStepKeeps(w, St(), DDec);
      callDelete := Decrement(w);
      Pause(w);
      DestroyStepKeeps(w, St(), DUnlock(callDelete));
      Unlock(w, callDelete);
    }

    /** Deletes the object if w holds the last reference; waits for the mutex, and ends. */
    method Destroy(w: Who)
      requires Inv(St()) && At(w, St(), DTest)
      modifies this
      ensures Inv(St()) && Ended(w, St()) && Undisturbed(w, old(St()), St())
    {
      DestroyStepKeeps(w, St(), DTest);
      if mRefCount > 0 {
        GoTo(w, Some(DLock));
        Pause(w);
        var callDelete := CriticalSection(w);
        Pause(w);
        DestroyStepKeeps(w, St(), DDelete(callDelete));
        DeleteIf(w, callDelete);
      } else {
        // a thread that calls destroy() still holds its reference
        assert false;
      }
    }

    /** create(), with the constructor; `created` says whether there is a thread. */
    method Create(created: bool) returns (ok: bool)
      requires exists joinable :: St() == Init(joinable)
      modifies this
      ensures Inv(St()) && ok == handedOut
      ensures if ok then parent == PHeld && mJoinable == old(mJoinable) else parent == PDone
      ensures !created ==> !ok && child == CNone && frees == 1 && runnableFrees == 0
      ensures created && !ok ==> saw && !mRunnable
    {
      InitInv(St(), mJoinable);
      if created {
        SetUp();
      } else {
        Fail();
      }
      Pause(Parent);
      ok := HandOut();
    }

    // if (!isRunning()) { destroy(); return NULL; }
    method HandOut() returns (ok: bool)
      requires Inv(St()) && parent == PCheck && !handedOut
      modifies this
      ensures Inv(St()) && ok == handedOut && parent == if ok then PHeld else PDone
      ensures ok ==> old(mRunnable) && mJoinable == old(mJoinable)
      ensures !ok && old(child) == CNone ==> child == CNone && frees == 1 && runnableFrees == 0
      ensures !ok && old(child) != CNone ==> saw && !mRunnable
    {
      ok := AskRunning();
      Pause(Parent);
      if !ok {
        GiveBack();
      }
    }

    // The object is not handed out.
    method GiveBack()
      requires Inv(St()) && parent == PDestroy(DTest) && !handedOut
      modifies this
      ensures Inv(St()) && parent == PDone && !handedOut && (child == CNone <==> old(child) == CNone)
      ensures child == CNone ==> frees == 1 && runnableFrees == 0
      ensures child != CNone ==> saw && !mRunnable
    {
      Destroy(Parent);
      GivenBackEnded(St());
    }

    // pthread_create succeeds: name and detach the thread, which may already run.
    method SetUp()
      requires Inv(St()) && parent == PCreate
      modifies this
      ensures Inv(St()) && parent == PCheck && !child.CNone? && mJoinable == old(mJoinable) && !handedOut
    {
      OwnStepKeepsInv(Parent, St(), true, ParentNext(St(), true));
      parent, child := PSetup, CRead;
      Pause(Parent);
      OwnStepKeepsInv(Parent, St(), true, ParentNext(St(), true));
      parent := PCheck;
    }

    // pthread_create fails.
    method Fail()
      requires Inv(St()) && parent == PCreate
      modifies this
      ensures Inv(St()) && parent == PCheck && child == CNone && !mRunnable && !handedOut && runnableFrees == 0
    {
      OwnStepKeepsInv(Parent, St(), false, ParentNext(St(), false));
      parent := PFail;
      OwnStepKeepsInv(Parent, St(), true, ParentNext(St(), true));
      mRunnable, mJoinable, mRefCount := false, false, 1;
      parent := PCheck;
    }

    method AskRunning() returns (ok: bool)
      requires Inv(St()) && parent == PCheck
      modifies this`handedOut, this`parent
      ensures Inv(St()) && ok == mRunnable == handedOut
      ensures parent == if ok then PHeld else PDestroy(DTest)
    {
      OwnStepKeepsInv(Parent, St(), true, ParentNext(St(), true));
      ok := mRunnable;
      if ok {
        handedOut, parent := true, PHeld;
      } else {
        parent := PDestroy(DTest);
      }
    }

    /**
     stop(): a joinable thread has ended when it returns, the object is gone, and so is the runnable
     if the thread ever read it.
     */
    method Stop()
      requires Inv(St()) && parent == PHeld
      modifies this
      ensures Inv(St()) && parent == PDone && !mRunnable
      ensures old(mJoinable) ==> child == CDone && frees == 1 && runnableFrees == if saw then 1 else 0
    {
      ClearRunnable();
      Pause(Parent);
      Join();
      DestroyAfterJoin();
    }

    method DestroyAfterJoin()
      requires Inv(St()) && parent == PDestroy(DTest) && !mRunnable
      modifies this
      ensures Inv(St()) && parent == PDone && !mRunnable
      ensures old(child) == CDone ==> child == CDone && frees == 1 && runnableFrees == if saw then 1 else 0
    {
      Pause(Parent);
      Destroy(Parent);
      if child == CDone {
        BothEnded(St());
      }
    }

    // if (mRunnable) { mRunnable = NULL; }
    method ClearRunnable()
      requires Inv(St()) && parent == PHeld
      modifies this
      ensures Inv(St()) && parent == PJoinTest && !mRunnable && mJoinable == old(mJoinable)
    {
      OwnStepKeepsInv(Parent, St(), true, ParentNext(St(), true));
      parent := PStopRead;
      Pause(Parent);
      TestRunnable();
      Pause(Parent);
      if parent == PStopNull {
        OwnStepKeepsInv(Parent, St(), true, ParentNext(St(), true));
        mRunnable, parent := false, PJoinTest;
      }
    }

    method TestRunnable()
      requires Inv(St()) && parent == PStopRead
      modifies this`parent
      ensures Inv(St()) && parent == if mRunnable then PStopNull else PJoinTest
    {
      OwnStepKeepsInv(Parent, St(), true, ParentNext(St(), true));
      parent := if mRunnable then PStopNull else PJoinTest;
    }

    // if (mJoinable) { mJoinable = false; pthread_join(); }
    method Join()
      requires Inv(St()) && parent == PJoinTest && !mRunnable
      modifies this
      ensures Inv(St()) && parent == PDestroy(DTest) && !mRunnable
      ensures old(mJoinable) ==> child == CDone
    {
      OwnStepKeepsInv(Parent, St(), true, ParentNext(St(), true));
      if mJoinable {
        mJoinable := false;
        parent := PJoin;
        Pause(Parent);
        AwaitChild();
        OwnStepKeepsInv(Parent, St(), true, ParentNext(St(), true));
      }
      parent := PDestroy(DTest);
    }

    /** bye(): the client lets go of the object. */
    method Bye()
      requires Inv(St()) && parent == PHeld
      modifies this
      ensures Inv(St()) && parent == PDone
      ensures old(mJoinable) ==> child == CDone && frees == 1
    {
      if mJoinable {
        Stop();
      } else {
        OwnStepKeepsInv(Parent, St(), false, ParentNext(St(), false));
        parent := PDestroy(DTest);
        Pause(Parent);
        Destroy(Parent);
      }
    }

    /**
     threadMain(); `runs` are the results that run() will give, false from there on. The thread deletes
     the runnable exactly if it read one, and lets go of the object. It calls run() for each result up
     to the first false, or fewer times, if it finds mRunnable cleared by stop() before that.
     */
    method ThreadMain(runs: seq<bool>)
      requires Inv(St()) && child == CRead && work == NOTHING
      modifies this
      ensures Inv(St()) && child == CDone
      ensures runnableFrees == (if saw then 1 else 0) && saw == old(mRunnable)
      ensures work.runs <= Results(runs)
      ensures saw && !work.stopped ==> work.runs == Results(runs)
      ensures !saw ==> work.runs == []
    {
      var runnable := ReadRunnable();
      Pause(Child);
      if runnable {
        RunLoop(runs);
        Pause(Child);
        DeleteRunnable();
        Pause(Child);
      }
      Destroy(Child);
    }

    // runnable = mRunnable, and prerun() if there is one.
    method ReadRunnable() returns (runnable: bool)
      requires Inv(St()) && child == CRead && work == NOTHING
      modifies this
      ensures Inv(St()) && runnable == old(mRunnable) == saw
      ensures child == (if runnable then CLoop else CDestroy(DTest)) && work.runs == [] && !work.stopped
    {
      OwnStepKeepsInv(Child, St(), true, ChildNext(St(), true));
      runnable := mRunnable;
      if runnable {
        saw, child := true, CPrerun;
        Pause(Child);
        OwnStepKeepsInv(Child, St(), true, ChildNext(St(), true));
        work, child := work.(pre := mRunnable), CLoop;
      } else {
        child := CDestroy(DTest);
      }
    }

    // postrun(), mRunnable = NULL, delete runnable.
    method DeleteRunnable()
      requires Inv(St()) && child == CPostrun && saw
      modifies this
      ensures Inv(St()) && child == CDestroy(DTest) && saw
      ensures work.runs == old(work).runs && work.stopped == old(work).stopped
    {
      OwnStepKeepsInv(Child, St(), true, ChildNext(St(), true));
      work, child := work.(post := mRunnable), CNull;
      Pause(Child);
      ClearInThread();
      Pause(Child);
      FreeRunnable();
    }

    method FreeRunnable()
      requires Inv(St()) && child == CDelete && saw
      modifies this`runnableFrees, this`child
      ensures Inv(St()) && child == CDestroy(DTest) && saw
    {
      OwnStepKeepsInv(Child, St(), true, ChildNext(St(), true));
      runnableFrees, child := runnableFrees + 1, CDestroy(DTest);
    }

    method ClearInThread()
      requires Inv(St()) && child == CNull && saw
      modifies this`mRunnable, this`child
      ensures Inv(St()) && child == CDelete && saw
    {
      OwnStepKeepsInv(Child, St(), true, ChildNext(St(), true));
      mRunnable, child := false, CDelete;
    }

    // while (isRunning() && run());
    method RunLoop(runs: seq<bool>)
      requires Inv(St()) && child == CLoop && saw && work.runs == [] && !work.stopped
      modifies this
      ensures Inv(St()) && child == CPostrun && saw
      ensures if work.stopped then work.runs <= Results(runs) else work.runs == Results(runs)
    {
      var i := 0;
      while child == CLoop
        invariant Inv(St()) && (child == CLoop || child == CPostrun) && saw
        invariant child == CLoop ==> i == |work.runs| <= |runs| && work.runs == runs[..i] && !work.stopped
        invariant child == CPostrun ==> if work.stopped then work.runs <= Results(runs) else work.runs == Results(runs)
        invariant child == CLoop ==> AllTrue(runs[..i])
        decreases child == CLoop, |runs| - i
      {
        ResultsAt(runs, i);
        var result := i < |runs| && runs[i];
        RunOnce(result);
        i := i + 1;
        Pause(Child);
      }
    }

    // One evaluation of the loop's condition; `result` is what run() returns if it is called.
    method RunOnce(result: bool)
      requires Inv(St()) && child == CLoop && saw && !work.stopped
      modifies this
      ensures Inv(St()) && saw && child == if !work.stopped && result then CLoop else CPostrun
      ensures work.runs == if work.stopped then old(work).runs else old(work).runs + [result]
    {
      OwnStepKeepsInv(Child, St(), true, ChildNext(St(), true));
      if mRunnable {
        child := CRun;
        Pause(Child);
        CallRun(result);
      } else {
        work, child := work.(stopped := true), CPostrun;
      }
    }

    // runnable->run()
    method CallRun(result: bool)
      requires Inv(St()) && child == CRun && saw
      modifies this`work, this`child
      ensures Inv(St()) && child == if result then CLoop else CPostrun
      ensures work == old(work).(runs := old(work).runs + [result])
    {
      OwnStepKeepsInv(Child, St(), result, ChildNext(St(), result));
      work, child := work.(runs := work.runs + [result]), if result then CLoop else CPostrun;
    }
  }
}
