/**
 LocThreadDelegate (gps/utils/LocThread.cpp): a reference-counted object shared by the thread
 that creates it and the thread it spawns. Every access to a shared field is one atomic step of
 one of the two threads, and the steps interleave in any order. A step's boolean argument is the
 outcome that the object does not decide: whether the thread can be created, whether the client
 ends with stop() or with the destructor, whether run() asks to be called again.
 */
module LocThread {

  import opened Wrappers

  datatype Who = Parent | Child

  /** Inside destroy(): the count test, the mutex, the decrement, the unlock, the delete. */
  datatype DestroyPc = DTest | DLock | DDec | DUnlock(callDelete: bool) | DDelete(callDelete: bool)

  datatype ParentPc =
    | PCreate               // the constructor is about to create the thread
    | PSetup                // thread exists; name it and detach it
    | PFail                 // creation failed; reset the fields
    | PCheck                // create(): isRunning()?
    | PHeld                 // the client holds the delegate
    | PStopRead | PStopNull // stop(): if (mRunnable) mRunnable = NULL
    | PJoinTest | PJoin     // stop(): if (mJoinable) { mJoinable = false; join }
    | PDestroy(d: DestroyPc)
    | PDone

  datatype ChildPc =
    | CNone                 // no such thread
    | CRead                 // threadMain: runnable = mRunnable
    | CPrerun | CLoop | CRun | CPostrun
    | CNull                 // mRunnable = NULL
    | CDelete               // delete runnable
    | CDestroy(d: DestroyPc)
    | CDone

  /** What the child has done with its runnable: which calls it made, and what run() returned. */
  datatype Work = Work(
    pre: bool,              // prerun() was called
    runs: seq<bool>,        // the results of run(), oldest first
    stopped: bool,          // the loop found mRunnable NULL
    post: bool)             // postrun() was called

  const NOTHING := Work(false, [], false, false)

  datatype State = State(
    runnable: bool,         // mRunnable != NULL
    joinable: bool,         // mJoinable
    refs: int,              // mRefCount
    mutex: Option<Who>,     // the thread holding mMutex
    frees: nat,             // how often the delegate was deleted
    runnableFrees: nat,     // how often the runnable was deleted
    saw: bool,              // the child read a non-NULL mRunnable at its start
    handedOut: bool,        // create() returned the delegate and not NULL
    work: Work,
    p: ParentPc,
    c: ChildPc)

  /** The constructor's initial values, as if the creation will succeed. */
  function Init(joinable: bool): State {
    State(true, joinable, 2, None, 0, 0, false, false, NOTHING, PCreate, CNone)
  }

  // ----- the steps ---------------------------------------------------------------------------

  predicate DestroyEnabled(s: State, d: DestroyPc) {
    d.DLock? ==> s.mutex.None?
  }

  /** One step of destroy() by w: the new shared state and the next position, or None at its end. */
  datatype DestroyResult = Continue(s: State, d: DestroyPc) | Finished(s: State)

  function DestroyNext(s: State, w: Who, d: DestroyPc): DestroyResult {
    match d
    case DTest => if s.refs > 0 then Continue(s, DLock) else Finished(s)
    case DLock => Continue(s.(mutex := Some(w)), DDec)
    case DDec => Continue(s.(refs := s.refs - 1), DUnlock(s.refs == 1))
    case DUnlock(callDelete) => Continue(s.(mutex := None), DDelete(callDelete))
    case DDelete(callDelete) => Finished(if callDelete then s.(frees := s.frees + 1) else s)
  }

  predicate ParentEnabled(s: State) {
    match s.p
    case PJoin => s.c.CDone?
    case PDestroy(d) => DestroyEnabled(s, d)
    case PDone => false
    case _ => true
  }

  predicate ChildEnabled(s: State) {
    match s.c
    case CNone => false
    case CDone => false
    case CDestroy(d) => DestroyEnabled(s, d)
    case _ => true
  }

  function ParentNext(s: State, choice: bool): State {
    match s.p
    case PCreate => if choice then s.(p := PSetup, c := CRead) else s.(p := PFail)
    case PSetup => s.(p := PCheck)
    case PFail => s.(runnable := false, joinable := false, refs := 1, p := PCheck)
    case PCheck => if s.runnable then s.(handedOut := true, p := PHeld) else s.(p := PDestroy(DTest))
    case PHeld => if choice || s.joinable then s.(p := PStopRead) else s.(p := PDestroy(DTest))
    case PStopRead => if s.runnable then s.(p := PStopNull) else s.(p := PJoinTest)
    case PStopNull => s.(runnable := false, p := PJoinTest)
    case PJoinTest => if s.joinable then s.(joinable := false, p := PJoin) else s.(p := PDestroy(DTest))
    case PJoin => s.(p := PDestroy(DTest))
    case PDestroy(d) =>
      (match DestroyNext(s, Parent, d)
       case Continue(s', d') => s'.(p := PDestroy(d'))
       case Finished(s') => s'.(p := PDone))
    case PDone => s
  }

  function ChildNext(s: State, choice: bool): State {
    match s.c
    case CNone => s
    case CRead => if s.runnable then s.(saw := true, c := CPrerun) else s.(c := CDestroy(DTest))
    case CPrerun => s.(work := s.work.(pre := s.runnable), c := CLoop)
    case CLoop => if s.runnable then s.(c := CRun) else s.(work := s.work.(stopped := true), c := CPostrun)
    case CRun => s.(work := s.work.(runs := s.work.runs + [choice]), c := if choice then CLoop else CPostrun)
    case CPostrun => s.(work := s.work.(post := s.runnable), c := CNull)
    case CNull => s.(runnable := false, c := CDelete)
    case CDelete => s.(runnableFrees := s.runnableFrees + 1, c := CDestroy(DTest))
    case CDestroy(d) =>
      (match DestroyNext(s, Child, d)
       case Continue(s', d') => s'.(c := CDestroy(d'))
       case Finished(s') => s'.(c := CDone))
    case CDone => s
  }

  // Whether the thread's next step uses the runnable.
  predicate UsesRunnable(s: State, w: Who) {
    w == Child && (s.c.CPrerun? || s.c.CRun? || s.c.CPostrun? || s.c.CDelete?)
  }

  // ----- the invariant -----------------------------------------------------------------------

  /**
   What a thread's position means for the delegate: it holds a reference; it has found that it must
   delete the delegate and has not yet done so; it is inside the mutex; its next step touches the
   delegate.
   */
  datatype Role = Role(holds: bool, deleting: bool, inMutex: bool, touches: bool)

  const GONE := Role(false, false, false, false)

  function DestroyRole(d: DestroyPc): Role {
    match d
    case DTest => Role(true, false, false, true)
    case DLock => Role(true, false, false, true)
    case DDec => Role(true, false, true, true)
    case DUnlock(callDelete) => Role(false, callDelete, true, true)
    case DDelete(callDelete) => Role(false, callDelete, false, callDelete)
  }

  function ParentRole(p: ParentPc): Role {
    match p
    case PDestroy(d) => DestroyRole(d)
    case PDone => GONE
    case _ => Role(true, false, false, true)
  }

  // Until a failed creation is noticed the count includes the thread to come.
  predicate ChildExpected(p: ParentPc) {
    p.PCreate? || p.PFail?
  }

  /** CRun and CDelete work on the runnable only. */
  function ChildRole(c: ChildPc, expected: bool): Role {
    match c
    case CNone => Role(expected, false, false, false)
    case CRun => Role(true, false, false, false)
    case CDelete => Role(true, false, false, false)
    case CDestroy(d) => DestroyRole(d)
    case CDone => GONE
    case _ => Role(true, false, false, true)
  }

  function RoleOf(s: State, w: Who): Role {
    match w
    case Parent => ParentRole(s.p)
    case Child => ChildRole(s.c, ChildExpected(s.p))
  }

  predicate ChildPastNull(s: State) {
    s.c.CDelete? || s.c.CDone? || s.c.CDestroy?
  }

  function Count(mine: bool, others: bool): int {
    (if mine then 1 else 0) + (if others then 1 else 0)
  }

  predicate RefsOk(refs: int, mutex: Option<Who>, frees: nat, w: Who, mine: Role, others: Role) {
    // the count is the number of threads that still hold the delegate
    && refs == Count(mine.holds, others.holds)
    // the mutex is held exactly by the thread between lock and unlock
    && (mutex == Some(w) <==> mine.inMutex)
    && (mutex.Some? && mutex != Some(w) <==> others.inMutex)
    // the delegate is deleted, or about to be by exactly one thread, once the count is 0
    && frees + Count(mine.deleting, others.deleting) == (if refs == 0 then 1 else 0)
    // and then the other thread is past its last access
    && (refs == 0 ==> (mine.touches ==> mine.deleting) && (others.touches ==> others.deleting))
  }

  predicate RefInv(s: State) {
    RefsOk(s.refs, s.mutex, s.frees, Parent, ParentRole(s.p), ChildRole(s.c, ChildExpected(s.p)))
  }

  ghost predicate RunnableInv(s: State) {
    && s.runnableFrees == (if s.saw && (s.c.CDestroy? || s.c.CDone?) then 1 else 0)
    && (s.c.CPrerun? || s.c.CLoop? || s.c.CRun? || s.c.CPostrun? || s.c.CNull? || s.c.CDelete? ==> s.saw)
    && (s.c.CNone? || s.c.CRead? ==> !s.saw)
    && (ChildPastNull(s) ==> !s.runnable)
    // where the parent can be without a child
    && (s.p.PCreate? || s.p.PFail? ==> s.c.CNone? && s.runnable)
    && (s.c.CNone? ==> s.p.PCreate? || s.p.PFail? || s.p.PDone? || s.p.PDestroy? || (s.p.PCheck? && !s.runnable))
    // until the client has the delegate, only a failed creation or the child clears mRunnable
    && (s.p.PSetup? || s.p.PCheck? ==> (s.runnable <==> !s.c.CNone? && !ChildPastNull(s)))
    && (s.p.PCreate? || s.p.PSetup? || s.p.PFail? || s.p.PCheck? ==> !s.handedOut)
    && (!s.handedOut ==> NotHandedOut(s))
  }

  // Where the threads can be as long as the client has not got the delegate.
  predicate NotHandedOut(s: State) {
    && (s.p.PCreate? || s.p.PSetup? || s.p.PFail? || s.p.PCheck? || s.p.PDestroy? || s.p.PDone?)
    && (s.p.PDestroy? || s.p.PDone? ==> s.c.CNone? || ChildPastNull(s))
    && (s.c.CNone? || s.c.CRead? || s.saw)
  }

  /** The last call of run() asked to end, or the loop found mRunnable NULL. */
  predicate LoopEnded(w: Work) {
    w.stopped || (w.runs != [] && !w.runs[|w.runs| - 1])
  }

  predicate AllTrue(runs: seq<bool>) {
    forall i | 0 <= i < |runs| :: runs[i]
  }

  predicate PastLoop(c: ChildPc) {
    c.CPostrun? || c.CNull? || c.CDelete? || c.CDestroy? || c.CDone?
  }

  /** The loop goes on exactly as long as run() asks for it and mRunnable is set. */
  ghost predicate WorkOk(w: Work, saw: bool, runnable: bool, c: ChildPc) {
    && (forall i | 0 <= i < |w.runs| - 1 :: w.runs[i])
    && (w.stopped ==> !runnable && AllTrue(w.runs))
    && (!saw || c.CPrerun? ==> w == NOTHING)
    && (saw ==> (LoopEnded(w) <==> PastLoop(c)))
    && (saw && !c.CPrerun? && !w.pre ==> !runnable)
    && (w.post ==> PastLoop(c) && !c.CPostrun?)
    && (saw && PastLoop(c) && !c.CPostrun? && !w.post ==> !runnable)
  }

  ghost predicate WorkInv(s: State) {
    WorkOk(s.work, s.saw, s.runnable, s.c)
  }

  ghost predicate Inv(s: State) {
    RefInv(s) && RunnableInv(s)
  }

  lemma InitInv(s: State, joinable: bool)
    requires s == Init(joinable)
    ensures Inv(s)
  {
  }

  function RoleAfter(r: DestroyResult): Role {
    if r.Continue? then DestroyRole(r.d) else GONE
  }

  // Without a reference a thread touches the delegate only inside the mutex, or to delete it.
  predicate Sane(r: Role) {
    (r.touches && !r.holds ==> r.inMutex || r.deleting) && (r.inMutex ==> r.touches)
  }

  lemma {:induction false} RolesAreSane(s: State, w: Who)
    ensures Sane(RoleOf(s, w))
  {
  }

  lemma {:induction false} DestroyKeepsRefs(s: State, w: Who, d: DestroyPc, others: Role)
    requires RefsOk(s.refs, s.mutex, s.frees, w, DestroyRole(d), others) && DestroyEnabled(s, d) && Sane(others)
    ensures var r := DestroyNext(s, w, d);
            RefsOk(r.s.refs, r.s.mutex, r.s.frees, w, RoleAfter(r), others)
  {
    match d
    case DTest => case DLock => case DDec => case DUnlock(_) => case DDelete(_) =>
  }

  lemma {:induction false} OtherWay(refs: int, mutex: Option<Who>, frees: nat, w: Who, v: Who, mine: Role, others: Role)
    requires RefsOk(refs, mutex, frees, w, mine, others) && v != w
    ensures RefsOk(refs, mutex, frees, v, others, mine)
  {
    assert mutex.Some? ==> mutex.value == v || mutex.value == w;
  }

  lemma {:induction false} ParentDestroyKeepsRefs(s: State, d: DestroyPc, choice: bool)
    requires RefInv(s) && s.p == PDestroy(d) && DestroyEnabled(s, d)
    ensures RefInv(ParentNext(s, choice))
  {
    RolesAreSane(s, Child);
    DestroyKeepsRefs(s, Parent, d, ChildRole(s.c, false));
    var s' := ParentNext(s, choice);
    assert s'.c == s.c && ParentRole(s'.p) == RoleAfter(DestroyNext(s, Parent, d));
  }

  lemma {:induction false} ParentKeepsRefs(s: State, choice: bool)
    requires Inv(s) && ParentEnabled(s)
    ensures RefInv(ParentNext(s, choice))
  {
    match s.p
    case PDestroy(d) => ParentDestroyKeepsRefs(s, d, choice);
    case PCreate => case PSetup => case PFail => case PCheck => case PHeld =>
    case PStopRead => case PStopNull => case PJoinTest => case PJoin => case PDone =>
  }

  lemma {:induction false} DestroyKeepsRefsAsChild(s: State, d: DestroyPc, parent: Role)
    requires RefsOk(s.refs, s.mutex, s.frees, Parent, parent, DestroyRole(d)) && DestroyEnabled(s, d) && Sane(parent)
    ensures var r := DestroyNext(s, Child, d);
            RefsOk(r.s.refs, r.s.mutex, r.s.frees, Parent, parent, RoleAfter(r))
  {
    OtherWay(s.refs, s.mutex, s.frees, Parent, Child, parent, DestroyRole(d));
    DestroyKeepsRefs(s, Child, d, parent);
    var r := DestroyNext(s, Child, d);
    OtherWay(r.s.refs, r.s.mutex, r.s.frees, Child, Parent, RoleAfter(r), parent);
  }

  lemma {:induction false} ChildDestroyKeepsRefs(s: State, d: DestroyPc, choice: bool)
    requires RefInv(s) && s.c == CDestroy(d) && DestroyEnabled(s, d)
    ensures RefInv(ChildNext(s, choice))
  {
    RolesAreSane(s, Parent);
    DestroyKeepsRefsAsChild(s, d, ParentRole(s.p));
    var s' := ChildNext(s, choice);
    assert s'.p == s.p && ChildRole(s'.c, ChildExpected(s'.p)) == RoleAfter(DestroyNext(s, Child, d));
  }

  lemma {:induction false} ChildKeepsRefs(s: State, choice: bool)
    requires Inv(s) && ChildEnabled(s)
    ensures RefInv(ChildNext(s, choice))
  {
    match s.c
    case CDestroy(d) => ChildDestroyKeepsRefs(s, d, choice);
    case CNone => case CRead => case CPrerun => case CLoop => case CRun =>
    case CPostrun => case CNull => case CDelete => case CDone =>
  }

  lemma {:induction false} ParentDestroyKeepsRunnable(s: State, d: DestroyPc, choice: bool)
    requires RunnableInv(s) && s.p == PDestroy(d)
    ensures RunnableInv(ParentNext(s, choice))
  {
    var r := DestroyNext(s, Parent, d);
    assert r.s.c == s.c && r.s.runnable == s.runnable && r.s.saw == s.saw && r.s.runnableFrees == s.runnableFrees;
  }

  lemma {:induction false} ParentKeepsRunnable(s: State, choice: bool)
    requires RunnableInv(s) && ParentEnabled(s)
    ensures RunnableInv(ParentNext(s, choice))
  {
    match s.p
    case PDestroy(d) => ParentDestroyKeepsRunnable(s, d, choice);
    case PCreate => case PSetup => case PFail => case PCheck => case PHeld =>
    case PStopRead => case PStopNull => case PJoinTest => case PJoin => case PDone =>
  }

  lemma {:induction false} ChildDestroyKeepsRunnable(s: State, d: DestroyPc, choice: bool)
    requires RunnableInv(s) && s.c == CDestroy(d)
    ensures RunnableInv(ChildNext(s, choice))
  {
    var r := DestroyNext(s, Child, d);
    assert r.s.p == s.p && r.s.runnable == s.runnable && r.s.saw == s.saw && r.s.runnableFrees == s.runnableFrees;
  }

  lemma {:induction false} ChildKeepsRunnable(s: State, choice: bool)
    requires RunnableInv(s) && ChildEnabled(s)
    ensures RunnableInv(ChildNext(s, choice))
  {
    match s.c
    case CDestroy(d) => ChildDestroyKeepsRunnable(s, d, choice);
    case CNone => case CRead => case CPrerun => case CLoop => case CRun =>
    case CPostrun => case CNull => case CDelete => case CDone =>
  }

  lemma {:induction false} ParentKeepsWork(s: State, choice: bool)
    requires ParentEnabled(s)
    ensures ParentNext(s, choice).work == s.work
    ensures RunnableInv(s) && WorkInv(s) ==> WorkInv(ParentNext(s, choice))
  {
    match s.p
    case PDestroy(d) => { match d case DTest => case DLock => case DDec => case DUnlock(_) => case DDelete(_) => }
    case PCreate => case PSetup => case PFail => case PCheck => case PHeld =>
    case PStopRead => case PStopNull => case PJoinTest => case PJoin => case PDone =>
  }

  lemma {:induction false} ChildDestroyKeepsWork(s: State, d: DestroyPc, choice: bool)
    requires WorkInv(s) && s.c == CDestroy(d)
    ensures WorkInv(ChildNext(s, choice))
  {
    match d case DTest => case DLock => case DDec => case DUnlock(_) => case DDelete(_) =>
  }

  lemma {:induction false} CallKeepsWork(s: State, choice: bool)
    requires RunnableInv(s) && WorkInv(s) && s.c == CRun
    ensures WorkInv(ChildNext(s, choice))
  {
    var runs, runs' := s.work.runs, ChildNext(s, choice).work.runs;
    assert runs != [] ==> runs[|runs| - 1];
    assert forall i | 0 <= i < |runs| :: runs'[i] == runs[i];
  }

  lemma {:induction false} ChildKeepsWork(s: State, choice: bool)
    requires RunnableInv(s) && WorkInv(s) && ChildEnabled(s)
    ensures WorkInv(ChildNext(s, choice))
  {
    match s.c
    case CDestroy(d) => ChildDestroyKeepsWork(s, d, choice);
    case CRun => CallKeepsWork(s, choice);
    case CNone => case CRead => case CPrerun => case CLoop =>
    case CPostrun => case CNull => case CDelete => case CDone =>
  }

  // ----- all interleavings ---------------------------------------------------------------------

  predicate Step(s: State, s': State) {
    || (ParentEnabled(s) && (s' == ParentNext(s, true) || s' == ParentNext(s, false)))
    || (ChildEnabled(s) && (s' == ChildNext(s, true) || s' == ChildNext(s, false)))
  }

  /** The states of a run: any enabled thread may take the next step. */
  ghost predicate IsRun(ss: seq<State>) {
    && ss != []
    && (exists joinable :: ss[0] == Init(joinable))
    && Steps(ss)
  }

  ghost predicate Steps(ss: seq<State>) {
    forall i, j | 0 <= i < |ss| && 0 <= j < |ss| && j == i + 1 :: Step(ss[i], ss[j])
  }

  lemma {:induction false} StepKeepsInv(s: State, s': State)
    requires Inv(s) && Step(s, s')
    ensures Inv(s')
  {
    if ParentEnabled(s) && (s' == ParentNext(s, true) || s' == ParentNext(s, false)) {
      var choice := s' == ParentNext(s, true);
      ParentKeepsRunnable(s, choice);
      ParentKeepsRefs(s, choice);
    } else {
      var choice := s' == ChildNext(s, true);
      ChildKeepsRunnable(s, choice);
      ChildKeepsRefs(s, choice);
    }
  }

  lemma {:induction false} RunKeepsInv(ss: seq<State>, i: nat)
    requires IsRun(ss) && i < |ss|
    ensures Inv(ss[i])
  {
    if i == 0 {
      var joinable :| ss[0] == Init(joinable);
      InitInv(ss[0], joinable);
    } else {
      RunKeepsInv(ss, i - 1);
      StepKeepsInv(ss[i - 1], ss[i]);
    }
  }

  /**
   Safety over every interleaving: the delegate is freed at most once and no thread has a step
   left that touches it afterwards; the runnable is deleted at most once and not used afterwards;
   at most one thread is in destroy()'s critical section.
   */
  lemma {:induction false} NeverUsedAfterFree(ss: seq<State>, i: nat)
    requires IsRun(ss) && i < |ss|
    ensures ss[i].frees <= 1 && ss[i].runnableFrees <= 1
    ensures ss[i].frees == 1 ==> !RoleOf(ss[i], Parent).touches && !RoleOf(ss[i], Child).touches
    ensures !(RoleOf(ss[i], Parent).inMutex && RoleOf(ss[i], Child).inMutex)
    ensures ss[i].runnableFrees == 1 ==> !UsesRunnable(ss[i], Parent) && !UsesRunnable(ss[i], Child)
  {
    RunKeepsInv(ss, i);
  }

  /**
   There is no deadlock, and a run that can go no further has freed the delegate exactly once,
   and the runnable exactly once if the child read it before stop() cleared it, else never.
   */
  lemma {:induction false} EndsFreedOnce(ss: seq<State>)
    requires IsRun(ss)
    requires var s := ss[|ss| - 1]; !ParentEnabled(s) && !ChildEnabled(s)
    ensures var s := ss[|ss| - 1];
            && s.p == PDone && (s.c.CNone? || s.c.CDone?)
            && s.frees == 1
            && s.runnableFrees == (if s.saw then 1 else 0)
  {
    var s := ss[|ss| - 1];
    RunKeepsInv(ss, |ss| - 1);
    assert s.mutex == None || s.mutex == Some(Parent) || s.mutex == Some(Child);
  }

  function DestroyRank(d: DestroyPc): nat {
    match d case DTest => 5 case DLock => 4 case DDec => 3 case DUnlock(_) => 2 case DDelete(_) => 1
  }

  function ParentRank(p: ParentPc): nat {
    match p
    case PCreate => 13 case PSetup => 12 case PFail => 12 case PCheck => 11 case PHeld => 10
    case PStopRead => 9 case PStopNull => 8 case PJoinTest => 7 case PJoin => 6
    case PDestroy(d) => DestroyRank(d)
    case PDone => 0
  }

  function ChildRank(c: ChildPc): nat {
    match c
    case CNone => 0 case CRead => 13 case CPrerun => 11 case CRun => 10 case CLoop => 9
    case CPostrun => 8 case CNull => 7 case CDelete => 6
    case CDestroy(d) => DestroyRank(d)
    case CDone => 0
  }

  function Rank(s: State): nat {
    ParentRank(s.p) + ChildRank(s.c)
  }

  ghost predicate DropsAt(ss: seq<State>, m: nat)
    requires m + 1 < |ss|
  {
    !ss[m].runnable ==> !ss[m + 1].runnable && Rank(ss[m + 1]) < Rank(ss[m])
  }

  lemma {:induction false} DropsOn(ss: seq<State>, i: nat, j: nat)
    requires i <= j < |ss| && !ss[i].runnable && forall m: nat | i <= m < j :: DropsAt(ss, m)
    ensures !ss[j].runnable && j - i <= Rank(ss[i]) - Rank(ss[j])
    decreases j
  {
    if i < j {
      DropsOn(ss, i, j - 1);
      assert DropsAt(ss, j - 1);
    }
  }

  /**
   Once mRunnable has been cleared, every further schedule is finite: no run from there is longer
   than the rank of the state it starts in, whatever run() returns.
   */
  lemma {:induction false} StopTerminates(ss: seq<State>, i: nat, j: nat)
    requires IsRun(ss) && i <= j < |ss| && !ss[i].runnable
    ensures !ss[j].runnable && j - i <= Rank(ss[i]) - Rank(ss[j])
  {
    forall m: nat | i <= m < j ensures DropsAt(ss, m) {
      if !ss[m].runnable {
        RankDropsAt(ss, m + 1);
      }
    }
    DropsOn(ss, i, j);
  }

  lemma {:induction false} RankDropsAt(ss: seq<State>, j: nat)
    requires IsRun(ss) && 0 < j < |ss| && !ss[j - 1].runnable
    ensures !ss[j].runnable && Rank(ss[j]) < Rank(ss[j - 1])
  {
    RunKeepsInv(ss, j - 1);
    RankDrops(ss[j - 1], ss[j]);
  }

  lemma {:induction false} RankDrops(s: State, s': State)
    requires Inv(s) && !s.runnable && Step(s, s')
    ensures !s'.runnable && Rank(s') < Rank(s)
  {
    if ParentEnabled(s) && (s' == ParentNext(s, true) || s' == ParentNext(s, false)) {
      ParentRankDrops(s, s' == ParentNext(s, true), s');
    } else {
      ChildRankDrops(s, s' == ChildNext(s, true), s');
    }
  }

  lemma {:induction false} ParentRankDrops(s: State, choice: bool, s': State)
    requires !s.runnable && !s.p.PCreate? && ParentEnabled(s) && s' == ParentNext(s, choice)
    ensures !s'.runnable && s'.c == s.c && ParentRank(s'.p) < ParentRank(s.p)
  {
    match s.p
    case PCreate => case PSetup => case PFail => case PCheck => case PHeld =>
    case PStopRead => case PStopNull => case PJoinTest => case PJoin =>
    case PDestroy(d) =>
      { match d case DTest => case DLock => case DDec => case DUnlock(_) => case DDelete(_) => }
    case PDone =>
  }

  lemma {:induction false} ChildRankDrops(s: State, choice: bool, s': State)
    requires !s.runnable && ChildEnabled(s) && s' == ChildNext(s, choice)
    ensures !s'.runnable && s'.p == s.p && ChildRank(s'.c) < ChildRank(s.c)
  {
    match s.c
    case CNone => case CRead => case CPrerun => case CLoop => case CRun =>
    case CPostrun => case CNull => case CDelete =>
    case CDestroy(d) =>
      { match d case DTest => case DLock => case DDec => case DUnlock(_) => case DDelete(_) => }
    case CDone =>
  }

  // ----- stop() ----------------------------------------------------------------------------------

  // Until stop() has come to the test of mJoinable, that is as it was given; past a join the thread has ended.
  predicate JoinOk(s: State, joinable: bool) {
    && (s.p.PJoinTest? || s.p.PJoin? ==> !s.runnable)
    && (joinable && !s.handedOut && !s.p.PDestroy? && !s.p.PDone? && !s.c.CNone? ==> s.joinable)
    && (joinable && (s.p.PCreate? || s.p.PHeld? || s.p.PStopRead? || s.p.PStopNull? || s.p.PJoinTest?) ==> s.joinable)
    && (joinable && s.handedOut && (s.p.PDestroy? || s.p.PDone?) ==> s.c.CDone? && !s.runnable)
  }

  lemma {:induction false} ParentKeepsJoin(s: State, choice: bool, joinable: bool)
    requires RunnableInv(s) && JoinOk(s, joinable) && ParentEnabled(s)
    ensures JoinOk(ParentNext(s, choice), joinable)
  {
    match s.p
    case PDestroy(d) => { match d case DTest => case DLock => case DDec => case DUnlock(_) => case DDelete(_) => }
    case PCreate => case PSetup => case PFail => case PCheck => case PHeld =>
    case PStopRead => case PStopNull => case PJoinTest => case PJoin => case PDone =>
  }

  lemma {:induction false} ChildKeepsJoin(s: State, choice: bool, joinable: bool)
    requires JoinOk(s, joinable) && ChildEnabled(s)
    ensures JoinOk(ChildNext(s, choice), joinable)
  {
    match s.c
    case CDestroy(d) => { match d case DTest => case DLock => case DDec => case DUnlock(_) => case DDelete(_) => }
    case CNone => case CRead => case CPrerun => case CLoop => case CRun =>
    case CPostrun => case CNull => case CDelete => case CDone =>
  }

  lemma {:induction false} StepKeepsJoin(s: State, s': State, joinable: bool)
    requires RunnableInv(s) && JoinOk(s, joinable) && Step(s, s')
    ensures JoinOk(s', joinable)
  {
    if ParentEnabled(s) && (s' == ParentNext(s, true) || s' == ParentNext(s, false)) {
      ParentKeepsJoin(s, s' == ParentNext(s, true), joinable);
    } else {
      ChildKeepsJoin(s, s' == ChildNext(s, true), joinable);
    }
  }

  lemma {:induction false} RunKeepsJoin(ss: seq<State>, i: nat)
    requires IsRun(ss) && i < |ss|
    ensures JoinOk(ss[i], ss[0].joinable)
  {
    if i > 0 {
      RunKeepsJoin(ss, i - 1);
      RunKeepsInv(ss, i - 1);
      StepKeepsJoin(ss[i - 1], ss[i], ss[0].joinable);
    }
  }

  /**
   When stop() comes to mJoinable it has cleared mRunnable; and whenever the client lets go of the
   object of a joinable thread, that thread has ended.
   */
  lemma {:induction false} JoinWaits(ss: seq<State>, i: nat)
    requires IsRun(ss) && i < |ss|
    ensures ss[i].p.PJoinTest? || ss[i].p.PJoin? ==> !ss[i].runnable
    ensures ss[0].joinable && ss[i].handedOut && (ss[i].p.PDestroy? || ss[i].p.PDone?) ==> ss[i].c == CDone
  {
    RunKeepsJoin(ss, i);
  }

  // ----- the runnable --------------------------------------------------------------------------

  /**
   In every run: the thread has left its loop exactly if its last call of run() returned false, or it
   found mRunnable cleared. So while that is set and every call has returned true, it goes on.
   prerun() and postrun() are left out only once mRunnable has been cleared.
   */
  lemma {:induction false} RunsUntilStopped(ss: seq<State>, i: nat)
    requires IsRun(ss) && i < |ss|
    ensures var s, w := ss[i], ss[i].work;
            && (s.saw ==> (PastLoop(s.c) <==> w.stopped || (w.runs != [] && !w.runs[|w.runs| - 1])))
            && (forall k | 0 <= k < |w.runs| - 1 :: w.runs[k])
            && (w.stopped ==> !s.runnable && AllTrue(w.runs))
            && (s.runnable && AllTrue(w.runs) ==> !PastLoop(s.c))
            && (s.saw && !s.c.CPrerun? && !w.pre ==> !s.runnable)
            && (s.saw && s.c.CNull? && !w.post ==> !s.runnable)
  {
    RunKeepsInv(ss, i);
    RunKeepsWork(ss, i);
  }

  lemma {:induction false} RunKeepsWork(ss: seq<State>, i: nat)
    requires IsRun(ss) && i < |ss|
    ensures WorkInv(ss[i])
  {
    if i > 0 {
      RunKeepsWork(ss, i - 1);
      RunKeepsInv(ss, i - 1);
      StepKeepsWork(ss[i - 1], ss[i]);
    }
  }

  lemma {:induction false} StepKeepsWork(s: State, s': State)
    requires RunnableInv(s) && WorkInv(s) && Step(s, s')
    ensures WorkInv(s')
  {
    if ParentEnabled(s) && (s' == ParentNext(s, true) || s' == ParentNext(s, false)) {
      ParentKeepsWork(s, s' == ParentNext(s, true));
    } else {
      ChildKeepsWork(s, s' == ChildNext(s, true));
    }
  }

  // One step after mRunnable has been cleared.
  ghost predicate StaysStopped(s: State, s': State) {
    !s.runnable ==>
      !s'.runnable && (s'.c.CRun? ==> s.c.CRun?) && Calls(s') <= Calls(s) && NoMore(s.work, s'.work)
  }

  ghost predicate StopsAt(ss: seq<State>, m: nat)
    requires m + 1 < |ss|
  {
    StaysStopped(ss[m], ss[m + 1])
  }

  lemma {:induction false} StopsOn(ss: seq<State>, i: nat, j: nat)
    requires i <= j < |ss| && forall m: nat | i <= m < j :: StopsAt(ss, m)
    ensures StaysStopped(ss[i], ss[j])
    decreases j
  {
    if i < j {
      StopsOn(ss, i, j - 1);
      assert StopsAt(ss, j - 1);
    }
  }

  /** Once mRunnable is cleared, nothing of the runnable is called any more; a run() under way may end. */
  lemma {:induction false} NoRunAfterStop(ss: seq<State>, i: nat, j: nat)
    requires IsRun(ss) && i <= j < |ss| && !ss[i].runnable
    ensures !ss[j].runnable && (ss[j].c.CRun? ==> ss[i].c.CRun?)
    ensures Calls(ss[j]) <= Calls(ss[i]) && NoMore(ss[i].work, ss[j].work)
  {
    forall m: nat | i <= m < j ensures StopsAt(ss, m) {
      if !ss[m].runnable {
        StopStepAt(ss, m + 1);
      }
    }
    StopsOn(ss, i, j);
  }

  predicate NoMore(w: Work, w': Work) {
    (w'.pre ==> w.pre) && (w'.post ==> w.post)
  }

  // The calls of run() made, with the one under way.
  function Calls(s: State): nat {
    |s.work.runs| + if s.c.CRun? then 1 else 0
  }

  lemma {:induction false} StopStepAt(ss: seq<State>, j: nat)
    requires IsRun(ss) && 0 < j < |ss| && !ss[j - 1].runnable
    ensures !ss[j].runnable && (ss[j].c.CRun? ==> ss[j - 1].c.CRun?)
    ensures Calls(ss[j]) <= Calls(ss[j - 1]) && NoMore(ss[j - 1].work, ss[j].work)
  {
    RunKeepsInv(ss, j - 1);
    StopStep(ss[j - 1], ss[j]);
  }

  lemma {:induction false} StopStep(s: State, s': State)
    requires Inv(s) && !s.runnable && Step(s, s')
    ensures !s'.runnable && (s'.c.CRun? ==> s.c.CRun?)
    ensures Calls(s') <= Calls(s) && NoMore(s.work, s'.work)
  {
    if ParentEnabled(s) && (s' == ParentNext(s, true) || s' == ParentNext(s, false)) {
      var choice := s' == ParentNext(s, true);
      ParentKeepsWork(s, choice);
      ParentRankDrops(s, choice, s');
    } else {
      ChildStopStep(s, s' == ChildNext(s, true), s');
    }
  }

  lemma {:induction false} ChildStopStep(s: State, choice: bool, s': State)
    requires !s.runnable && ChildEnabled(s) && s' == ChildNext(s, choice)
    ensures !s'.runnable && (s'.c.CRun? ==> s.c.CRun?)
    ensures Calls(s') <= Calls(s) && NoMore(s.work, s'.work)
  {
    match s.c
    case CDestroy(d) => { match d case DTest => case DLock => case DDec => case DUnlock(_) => case DDelete(_) => }
    case CNone => case CRead => case CPrerun => case CLoop => case CRun =>
    case CPostrun => case CNull => case CDelete => case CDone =>
  }

  // ----- what create() tells its caller --------------------------------------------------------

  /**
   create() returns NULL exactly when the thread could not be created or has already run to the
   point where it clears mRunnable.
   */
  lemma {:induction false} CreateReturnsNull(ss: seq<State>, i: nat, choice: bool)
    requires IsRun(ss) && i < |ss| && ss[i].p == PCheck
    ensures !ParentNext(ss[i], choice).handedOut <==> ss[i].c == CNone || ChildPastNull(ss[i])
  {
    RunKeepsInv(ss, i);
  }

  /**
   LocThread.h says that after a failed start() the runnable is still there for the client to
   delete. That holds exactly when no thread was created.
   */
  lemma {:induction false} FailedStartLeavesRunnable(ss: seq<State>)
    requires IsRun(ss)
    requires var s := ss[|ss| - 1]; !ParentEnabled(s) && !ChildEnabled(s) && !s.handedOut
    ensures var s := ss[|ss| - 1]; s.runnableFrees == 0 <==> s.c == CNone
  {
    EndsFreedOnce(ss);
    RunKeepsInv(ss, |ss| - 1);
  }

  // ----- two runs ------------------------------------------------------------------------------

  ghost predicate Reachable(s: State) {
    exists ss :: IsRun(ss) && ss[|ss| - 1] == s
  }

  lemma {:induction false} ReachStep(s: State, s': State)
    requires Reachable(s) && Step(s, s')
    ensures Reachable(s')
  {
    var ss :| IsRun(ss) && ss[|ss| - 1] == s;
    assert IsRun(ss + [s']);
  }

  lemma {:induction false} ReachParent(s: State, choice: bool, s': State)
    requires Reachable(s) && ParentEnabled(s) && s' == ParentNext(s, choice)
    ensures Reachable(s')
  {
    ReachStep(s, s');
  }

  lemma {:induction false} ReachChild(s: State, choice: bool, s': State)
    requires Reachable(s) && ChildEnabled(s) && s' == ChildNext(s, choice)
    ensures Reachable(s')
  {
    ReachStep(s, s');
  }

  lemma {:induction false} ParentLocks(s: State)
    requires Reachable(s) && s.p == PDestroy(DTest) && s.refs > 0 && s.mutex == None
    ensures Reachable(s.(mutex := Some(Parent), p := PDestroy(DDec)))
  {
    var s1 := s.(p := PDestroy(DLock));
    ReachParent(s, true, s1);
    ReachParent(s1, true, s.(mutex := Some(Parent), p := PDestroy(DDec)));
  }

  // The parent runs destroy() without being interrupted.
  lemma {:induction false} ParentDestroys(s: State)
    requires Reachable(s) && s.p == PDestroy(DTest) && s.refs > 0 && s.mutex == None
    ensures Reachable(s.(refs := s.refs - 1, frees := s.frees + (if s.refs == 1 then 1 else 0), p := PDone))
  {
    ParentLocks(s);
    var last := s.refs == 1;
    var s2 := s.(mutex := Some(Parent), p := PDestroy(DDec));
    var s3 := s2.(refs := s.refs - 1, p := PDestroy(DUnlock(last)));
    ReachParent(s2, true, s3);
    var s4 := s3.(mutex := None, p := PDestroy(DDelete(last)));
    ReachParent(s3, true, s4);
    ReachParent(s4, true, ParentNext(s4, true));
  }

  lemma {:induction false} ChildLocks(s: State)
    requires Reachable(s) && s.c == CDestroy(DTest) && s.refs > 0 && s.mutex == None
    ensures Reachable(s.(mutex := Some(Child), c := CDestroy(DDec)))
  {
    var s1 := s.(c := CDestroy(DLock));
    ReachChild(s, true, s1);
    ReachChild(s1, true, s.(mutex := Some(Child), c := CDestroy(DDec)));
  }

  lemma {:induction false} ChildDestroys(s: State)
    requires Reachable(s) && s.c == CDestroy(DTest) && s.refs > 0 && s.mutex == None
    ensures Reachable(s.(refs := s.refs - 1, frees := s.frees + (if s.refs == 1 then 1 else 0), c := CDone))
  {
    ChildLocks(s);
    var last := s.refs == 1;
    var s2 := s.(mutex := Some(Child), c := CDestroy(DDec));
    var s3 := s2.(refs := s.refs - 1, c := CDestroy(DUnlock(last)));
    ReachChild(s2, true, s3);
    var s4 := s3.(mutex := None, c := CDestroy(DDelete(last)));
    ReachChild(s3, true, s4);
    ReachChild(s4, true, ChildNext(s4, true));
  }

  // The thread has been created and set up, and has not run yet.
  lemma {:induction false} ThreadCreated() returns (s: State)
    ensures s == Init(false).(p := PCheck, c := CRead) && Reachable(s)
  {
    var s0 := Init(false);
    assert IsRun([s0]) && [s0][0] == s0;
    var s1 := s0.(p := PSetup, c := CRead);
    ReachParent(s0, true, s1);
    s := s1.(p := PCheck);
    ReachParent(s1, true, s);
  }

  // The thread runs its runnable once, clears it and deletes it.
  lemma {:induction false} ThreadRuns(s: State)
    requires Reachable(s) && s.c == CRead && s.runnable
    requires s.work == NOTHING
    ensures Reachable(s.(saw := true, runnable := false, runnableFrees := s.runnableFrees + 1, c := CDestroy(DTest),
                         work := Work(true, [false], false, true)))
  {
    var s1 := s.(saw := true, c := CPrerun);
    ReachChild(s, true, s1);
    var s2 := s1.(work := Work(true, [], false, false), c := CLoop);
    ReachChild(s1, true, s2);
    var s3 := s2.(c := CRun);
    ReachChild(s2, true, s3);
    var s4 := s1.(work := Work(true, [false], false, false), c := CPostrun);
    ReachChild(s3, false, s4);
    var s5 := s1.(work := Work(true, [false], false, true), c := CNull);
    ReachChild(s4, true, s5);
    var s6 := s5.(runnable := false, c := CDelete);
    ReachChild(s5, true, s6);
    ReachChild(s6, true, s6.(runnableFrees := s.runnableFrees + 1, c := CDestroy(DTest)));
  }

  /**
   It need not be so: there is a run in which create() returns NULL although the spawned thread
   deleted the runnable itself, because the thread finishes before create() asks isRunning().
   */
  lemma {:induction false} FailedStartMayHaveDeleted()
    ensures exists s :: Reachable(s) && s.p == PDone && s.c == CDone && !s.handedOut && s.runnableFrees == 1
  {
    var s1 := ThreadCreated();
    ThreadRuns(s1);
    var s2 := s1.(saw := true, runnable := false, runnableFrees := 1, c := CDestroy(DTest),
                  work := Work(true, [false], false, true));
    ChildDestroys(s2);
    var s3 := s2.(refs := 1, c := CDone);
    var s4 := s3.(p := PDestroy(DTest));
    ReachParent(s3, true, s4);
    ParentDestroys(s4);
  }

  /** And there is one in which create() succeeds and nobody ever deletes the runnable: stop() comes too early. */
  lemma {:induction false} EarlyStopLeaksRunnable()
    ensures exists s :: Reachable(s) && s.p == PDone && s.c == CDone && s.handedOut && s.runnableFrees == 0
  {
    var s1 := ThreadCreated();
    var s2 := s1.(handedOut := true, p := PHeld);
    ReachParent(s1, true, s2);
    var s3 := s2.(p := PStopRead);
    ReachParent(s2, true, s3);
    var s4 := s2.(p := PStopNull);
    ReachParent(s3, true, s4);
    var s5 := s2.(runnable := false, p := PJoinTest);
    ReachParent(s4, true, s5);
    var s6 := s5.(p := PDestroy(DTest));
    ReachParent(s5, true, s6);
    ParentDestroys(s6);
    var s7 := s6.(refs := 1, p := PDone);
    var s8 := s7.(c := CDestroy(DTest));
    ReachChild(s7, true, s8);
    ChildDestroys(s8);
  }
}
