/**
  The kill and stop protocol of phase execution, as a small-step transition system.

  One executor thread runs any number of phases, each in a killable thread of its own, while
  any number of callers run stop() and reset_stop(). Every step touches at most one shared
  variable, so a run interleaves the parties in every way the interpreter can.
 */

/** threads.py: a killable thread, and the kill() routine another thread runs against it. */
module KillableThreads {
  import opened Prelude

  /** Who runs kill(): the executor thread (from join_or_die) or the numbered stop() call. */
  datatype Killer = ByExecutor | ByStop(id: nat)

  /** Holder of _running_lock: nobody, run() itself, or a kill() probing it without blocking. */
  datatype RunLock = Free | HeldByRun | HeldByProbe(killer: Killer)

  datatype ThreadPc =
    | Created     // constructed, start() not called yet
    | Started     // run() entered, _running_lock not taken
    | Locked      // _running_lock held, _killed not looked at
    | Entering    // _killed was found clear, _thread_proc not called yet
    | InProc      // inside _thread_proc, that is, inside the phase function
    | Recorded    // _thread_proc stored its outcome; _running_lock still held
    | Handling    // an Exception left _thread_proc; lock released, _thread_exception to run
    | Finishing   // in the finally clause
    | Dead

  /** `posted` remembers that a ThreadTerminationError was ever posted; `pending` that one is undelivered. */
  datatype PhaseThread = PhaseThread(
    pc: ThreadPc, killed: bool, pending: bool, posted: bool, outcome: bool, runLock: RunLock)
  {
    predicate IsAlive() {
      pc != Created && pc != Dead
    }

    /** Inside the body that _killed guards. */
    predicate Inside() {
      pc == Entering || pc == InProc
    }

    /** Inside its phase function, or yet to enter it. */
    predicate MayRun() {
      pc == Created || pc == Started || pc == Locked || Inside()
    }

    predicate HoldsRunLock() {
      pc == Locked || Inside() || pc == Recorded
    }
  }

  const NEW_THREAD := PhaseThread(Created, false, false, false, false, Free)

  /** What the thread itself does next. */
  datatype ThreadAction =
    | TakeLock | CheckKilled | EnterProc | ReturnResult | RaiseError | ReleaseLock | HandleError | Finish
    | Unwind    // a pending ThreadTerminationError is delivered; it is no Exception, so only finally runs
    | Swallow   // the phase function catches the delivered ThreadTerminationError itself

  /** KillableThread.run() with PhaseExecutorThread's hooks; None when the step is not possible. */
  function Advance(t: PhaseThread, a: ThreadAction): Option<PhaseThread> {
    match a
    case TakeLock =>
      if t.pc == Started && t.runLock == Free then Some(t.(pc := Locked, runLock := HeldByRun)) else None
    case CheckKilled =>
      if t.pc != Locked then None
      else if t.killed then Some(t.(pc := Finishing, runLock := Free))
      else Some(t.(pc := Entering))
    case EnterProc =>
      if t.pc == Entering then Some(t.(pc := InProc)) else None
    case ReturnResult =>
      if t.pc == InProc then Some(t.(pc := Recorded, outcome := true)) else None
    case RaiseError =>
      if t.pc == InProc then Some(t.(pc := Handling, runLock := Free)) else None
    case ReleaseLock =>
      if t.pc == Recorded then Some(t.(pc := Finishing, runLock := Free)) else None
    case HandleError =>
      if t.pc == Handling then Some(t.(pc := Finishing, outcome := true)) else None
    case Finish =>
      if t.pc == Finishing then Some(t.(pc := Dead)) else None
    case Unwind =>
      if t.pending && t.IsAlive()
      then Some(t.(pc := Finishing, pending := false, runLock := if t.HoldsRunLock() then Free else t.runLock))
      else None
    case Swallow =>
      if t.pending && t.pc == InProc then Some(t.(pending := false)) else None
  }

  /** Where a kill() call is, in program order. */
  datatype KillPc = SetKilled | AskAlive | TryRunLock | DropRunLock | AskAliveAgain | PostError | Returned

  /** One step of kill() by `k` against `t`, with _is_thread_proc_running and async_raise unfolded. */
  function KillStep(k: Killer, pc: KillPc, t: PhaseThread): (KillPc, PhaseThread) {
    match pc
    case SetKilled => (AskAlive, t.(killed := true))
    case AskAlive => (if t.IsAlive() then TryRunLock else Returned, t)
    case TryRunLock =>
      if t.runLock == Free then (DropRunLock, t.(runLock := HeldByProbe(k))) else (AskAliveAgain, t)
    case DropRunLock => (Returned, t.(runLock := Free))
    case AskAliveAgain => (if t.IsAlive() then PostError else Returned, t)
    case PostError => (Returned, if t.IsAlive() then t.(pending := true, posted := true) else t)
    case Returned => (Returned, t)
  }

  /** Killed before its test of _killed, and so without an outcome for good. */
  predicate NeverRan(t: PhaseThread) {
    t.killed && !t.outcome && t.pc in {Created, Started, Locked, Finishing, Dead}
  }

  /** What a returned kill() leaves behind. */
  predicate Settled(t: PhaseThread) {
    t.killed && (t.Inside() ==> t.posted)
  }

  predicate ThreadInv(t: PhaseThread) {
    && (t.runLock == HeldByRun <==> t.HoldsRunLock())
    && (t.outcome ==> !t.MayRun())
    && (t.pending || t.posted ==> t.killed)
    && (t.pc == Recorded || ((t.pc == Finishing || t.pc == Dead) && !t.killed) ==> t.outcome)
  }

  predicate KillInv(k: Killer, pc: KillPc, t: PhaseThread) {
    && (pc != SetKilled ==> t.killed)
    && (t.runLock == HeldByProbe(k) <==> pc == DropRunLock)
    && (pc == DropRunLock || pc == Returned ==> Settled(t))
  }

  lemma AdvanceKeepsInv(t: PhaseThread, a: ThreadAction)
    requires ThreadInv(t) && Advance(t, a).Some?
    ensures var t' := Advance(t, a).value;
            && ThreadInv(t') && (t.killed <==> t'.killed) && (t.posted ==> t'.posted)
            && (t.outcome ==> t'.outcome) && (a in {ReturnResult, HandleError} ==> t'.outcome)
            && (t'.MayRun() ==> t.MayRun()) && t'.pc != Created
            && (t.killed && !t.Inside() ==> !t'.Inside())
            && (Settled(t) ==> Settled(t')) && (NeverRan(t) ==> NeverRan(t'))
            && (forall k {:trigger HeldByProbe(k)} :: t.runLock == HeldByProbe(k) <==> t'.runLock == HeldByProbe(k))
  {
  }

  lemma KillStepKeepsInv(k: Killer, pc: KillPc, t: PhaseThread)
    requires ThreadInv(t) && KillInv(k, pc, t)
    ensures var (pc', t') := KillStep(k, pc, t);
            && ThreadInv(t') && KillInv(k, pc', t') && t'.pc == t.pc && t'.outcome == t.outcome
            && (t.killed ==> t'.killed) && (t.posted ==> t'.posted)
            && (forall j {:trigger HeldByProbe(j)} :: j != k ==>
                 (t.runLock == HeldByProbe(j) <==> t'.runLock == HeldByProbe(j)))
  {
  }

  function KillStepsLeft(k: KillPc): nat {
    match k
    case Returned => 0
    case PostError => 1
    case DropRunLock => 1
    case AskAliveAgain => 2
    case TryRunLock => 3
    case AskAlive => 4
    case SetKilled => 5
  }

  /** What is left of a kill(), if no other party moves meanwhile. */
  function KillAlone(k: Killer, pc: KillPc, t: PhaseThread): PhaseThread
    decreases KillStepsLeft(pc)
  {
    if pc == Returned then t
    else var (pc', t') := KillStep(k, pc, t);
         KillAlone(k, pc', t')
  }

  /** An undisturbed kill() posts an exception exactly to a thread that is alive with its running lock held. */
  lemma KillPostsIff(k: Killer, t: PhaseThread)
    ensures var t' := KillAlone(k, SetKilled, t);
            && (t' == t.(killed := true, pending := true, posted := true) || t' == t.(killed := true))
            && (!t.pending ==> (t'.pending <==> t.IsAlive() && t.runLock != Free))
  {
    var (pc1, t1) := KillStep(k, SetKilled, t);
    var (pc2, t2) := KillStep(k, pc1, t1);
    var (pc3, t3) := KillStep(k, pc2, t2);
    var (pc4, t4) := KillStep(k, pc3, t3);
  }
}

/** phase_executor.py: the executor, stop() and reset_stop() around those threads. */
module StopProtocol {
  import opened Prelude
  import opened KillableThreads

  /** What join_or_die answers: the stored outcome, the outcome of a timeout, or that the phase was killed. */
  datatype JoinAnswer = Stored | TimedOut | Terminated

  /** The executor thread inside _execute_phase_once and join_or_die. */
  datatype ExecPc =
    | Outside                        // not in the lock section and no phase thread of its own
    | Holding                        // lock taken, _stopping not looked at
    | Backing                        // _stopping was set: returns through the lock's exit
    | Starting(t: nat)               // thread constructed, start() next
    | Recording(t: nat)              // started, _current_phase_thread to be written
    | Releasing(t: nat)              // written, lock to be released
    | Joining(t: nat)                // the deadline loop of join_or_die
    | Reading(t: nat)                // the outcome test after the loop
    | Probing(t: nat)                // the is_alive() test after that
    | Killing(t: nat, kill: KillPc)  // the phase timed out
    | Clearing(t: nat, answer: JoinAnswer)  // joined; the unlocked write of None is next

  /** One stop() call. The captured thread is what it read in its lock section. */
  datatype StopPc =
    | Setting | Wanting | InSection
    | Leaving(captured: Option<nat>)
    | Checking(t: nat)
    | StopKilling(t: nat, kill: KillPc)
    | Waiting(t: nat)
    | Stopped(captured: Option<nat>)

  datatype Lock = Unlocked | LockedByExec | LockedByStop(id: nat)

  datatype State = State(
    stopping: bool, lock: Lock, current: Option<nat>, exec: ExecPc, stops: map<nat, StopPc>, threads: seq<PhaseThread>)

  const INIT := State(false, Unlocked, None, Outside, map[], [])

  datatype Action =
    | ExecStep
    | CallStop(id: nat)
    | StopStep(id: nat)
    | ResetStop
    | ThreadStep(t: nat, a: ThreadAction)

  /** The executor's next step. The clock is abstract: the join loop may end at any time. */
  function ExecNext(s: State): Option<State> {
    match s.exec
    case Outside =>
      if s.lock == Unlocked then Some(s.(lock := LockedByExec, exec := Holding)) else None
    case Holding =>
      if s.stopping then Some(s.(exec := Backing))
      else Some(s.(exec := Starting(|s.threads|), threads := s.threads + [NEW_THREAD]))
    case Backing => Some(s.(lock := Unlocked, exec := Outside))
    case Starting(t) =>
      if t < |s.threads| && s.threads[t].pc == Created
      then Some(s.(exec := Recording(t), threads := s.threads[t := s.threads[t].(pc := Started)]))
      else None
    case Recording(t) => Some(s.(exec := Releasing(t), current := Some(t)))
    case Releasing(t) => Some(s.(exec := Joining(t), lock := Unlocked))
    case Joining(t) => Some(s.(exec := Reading(t)))
    case Reading(t) =>
      if t >= |s.threads| then None
      else Some(s.(exec := if s.threads[t].outcome then Clearing(t, Stored) else Probing(t)))
    case Probing(t) =>
      if t >= |s.threads| then None
      else Some(s.(exec := if s.threads[t].IsAlive() then Killing(t, SetKilled) else Clearing(t, Terminated)))
    case Killing(t, k) =>
      if t >= |s.threads| then None
      else if k == Returned then Some(s.(exec := Clearing(t, TimedOut)))
      else var (k', th) := KillStep(ByExecutor, k, s.threads[t]);
           Some(s.(exec := Killing(t, k'), threads := s.threads[t := th]))
    case Clearing(_, _) => Some(s.(exec := Outside, current := None))
  }

  /** The next step of stop() call `i`. Its polling wait may time out at any time. */
  function StopNext(s: State, i: nat): Option<State>
  {
    if i !in s.stops then None else
    match s.stops[i]
    case Setting => Some(s.(stopping := true, stops := s.stops[i := Wanting]))
    case Wanting =>
      if s.lock == Unlocked then Some(s.(lock := LockedByStop(i), stops := s.stops[i := InSection])) else None
    case InSection => Some(s.(stops := s.stops[i := Leaving(s.current)]))
    case Leaving(c) =>
      Some(s.(lock := Unlocked, stops := s.stops[i := if c == None then Stopped(c) else Checking(c.value)]))
    case Checking(t) =>
      if t >= |s.threads| then None
      else
        var next := if s.threads[t].IsAlive() then StopKilling(t, SetKilled) else Stopped(Some(t));
        Some(s.(stops := s.stops[i := next]))
    case StopKilling(t, k) =>
      if t >= |s.threads| then None
      else if k == Returned then Some(s.(stops := s.stops[i := Waiting(t)]))
      else var (k', th) := KillStep(ByStop(i), k, s.threads[t]);
           Some(s.(stops := s.stops[i := StopKilling(t, k')], threads := s.threads[t := th]))
    case Waiting(t) => Some(s.(stops := s.stops[i := Stopped(Some(t))]))
    case Stopped(_) => None
  }

  function Next(s: State, a: Action): Option<State> {
    match a
    case ExecStep => ExecNext(s)
    case CallStop(i) => if i in s.stops then None else Some(s.(stops := s.stops[i := Setting]))
    case StopStep(i) => StopNext(s, i)
    case ResetStop => Some(s.(stopping := false))
    case ThreadStep(t, ta) =>
      if t >= |s.threads| then None
      else match Advance(s.threads[t], ta)
        case None => None
        case Some(th) => Some(s.(threads := s.threads[t := th]))
  }

  /** The state after the given actions, if each of them was possible in turn. */
  function Run(s: State, acts: seq<Action>): Option<State>
    decreases |acts|
  {
    if acts == [] then Some(s)
    else match Next(s, acts[0])
      case None => None
      case Some(s') => Run(s', acts[1..])
  }

  ghost predicate Reachable(s: State) {
    exists acts :: Run(INIT, acts) == Some(s)
  }

  // ---------------------------------------------------------------- the inductive invariant

  predicate ExecInSection(e: ExecPc) {
    e.Holding? || e.Backing? || e.Starting? || e.Recording? || e.Releasing?
  }

  function ExecThread(e: ExecPc): Option<nat> {
    if e.Outside? || e.Holding? || e.Backing? then None else Some(e.t)
  }

  /** The thread whose start() and end the executor is still answerable for. */
  predicate Guards(e: ExecPc, t: nat) {
    ExecThread(e) == Some(t) && !e.Clearing? && (e.Killing? ==> e.kill == SetKilled)
  }

  function StopThread(p: StopPc): Option<nat> {
    match p
    case Setting => None
    case Wanting => None
    case InSection => None
    case Leaving(c) => c
    case Checking(t) => Some(t)
    case StopKilling(t, _) => Some(t)
    case Waiting(t) => Some(t)
    case Stopped(c) => c
  }

  predicate StopInSection(p: StopPc) {
    p.InSection? || p.Leaving?
  }

  /** Where killer `k` is in a kill() of thread `t`; SetKilled also stands for "in no such call". */
  function KillPcOf(s: State, k: Killer, t: nat): KillPc {
    match k
    case ByExecutor => if s.exec.Killing? && s.exec.t == t then s.exec.kill else SetKilled
    case ByStop(i) =>
      if i in s.stops && s.stops[i].StopKilling? && s.stops[i].t == t then s.stops[i].kill else SetKilled
  }

  /** What an answer of join_or_die tells about the joined thread. */
  predicate Answers(t: PhaseThread, answer: JoinAnswer) {
    match answer
    case Stored => t.outcome
    case TimedOut => t.killed
    case Terminated => t.pc == Dead
  }

  ghost predicate ExecInv(s: State) {
    && (s.lock == LockedByExec <==> ExecInSection(s.exec))
    && s.current == (if s.exec.Starting? || s.exec.Recording? then None else ExecThread(s.exec))
    && (ExecThread(s.exec).Some? ==> ExecThread(s.exec).value < |s.threads|)
    && (s.exec.Clearing? ==> Answers(s.threads[s.exec.t], s.exec.answer))
  }

  ghost predicate StopInv(s: State, i: nat)
    requires i in s.stops
  {
    var p := s.stops[i];
    && (s.lock == LockedByStop(i) <==> StopInSection(p))
    && (p.Leaving? ==> p.captured == s.current || s.current == None)
    && (StopThread(p).Some? ==>
          && StopThread(p).value < |s.threads|
          && s.threads[StopThread(p).value].pc != Created
          && (p.Waiting? || p.Stopped? ==>
                s.threads[StopThread(p).value].pc == Dead || Settled(s.threads[StopThread(p).value])))
  }

  ghost predicate ThreadsInv(s: State) {
    && (forall t :: 0 <= t < |s.threads| ==> ThreadInv(s.threads[t]))
    && (forall t :: 0 <= t < |s.threads| && s.threads[t].pc == Created ==> s.exec == Starting(t))
    && (s.exec.Starting? ==> s.exec.t < |s.threads| && s.threads[s.exec.t] == NEW_THREAD)
    && (forall t :: 0 <= t < |s.threads| && s.threads[t].MayRun() && !s.threads[t].killed ==> Guards(s.exec, t))
  }

  ghost predicate KillsInv(s: State) {
    forall t, k :: 0 <= t < |s.threads| ==> KillInv(k, KillPcOf(s, k, t), s.threads[t])
  }

  ghost predicate Inv(s: State) {
    && ExecInv(s)
    && (s.lock.LockedByStop? ==> s.lock.id in s.stops)
    && (forall i <- s.stops :: StopInv(s, i))
    && ThreadsInv(s)
    && KillsInv(s)
  }

  // ---------------------------------------------------------------- every step keeps it

  /** Steps that at most leave a returned kill() behind keep KillsInv. */
  lemma KillsInvFrame(s: State, s': State)
    requires KillsInv(s) && s'.threads == s.threads
    requires forall t, k :: 0 <= t < |s.threads| ==>
               || KillPcOf(s', k, t) == KillPcOf(s, k, t)
               || (KillPcOf(s, k, t) == Returned && KillPcOf(s', k, t) == SetKilled)
    ensures KillsInv(s')
  {
    forall t, k | 0 <= t < |s'.threads| ensures KillInv(k, KillPcOf(s', k, t), s'.threads[t]) {
      assert KillInv(k, KillPcOf(s, k, t), s.threads[t]);
    }
  }

  /** One kill() step of `k` against `t`: the other calls and the other threads are not disturbed. */
  lemma KillStepKeepsThreads(s: State, s': State, k: Killer, t: nat)
    requires Inv(s) && t < |s.threads| && s.threads[t].pc != Created
    requires var (pc', th) := KillStep(k, KillPcOf(s, k, t), s.threads[t]);
             s'.threads == s.threads[t := th] && KillPcOf(s', k, t) == pc'
    requires forall u, j :: 0 <= u < |s.threads| && (u != t || j != k) ==> KillPcOf(s', j, u) == KillPcOf(s, j, u)
    requires forall u :: Guards(s.exec, u) && (u != t || !s'.threads[t].killed) ==> Guards(s'.exec, u)
    requires s.exec.Starting? <==> s'.exec.Starting?
    requires s.exec.Starting? ==> s'.exec == s.exec
    ensures KillsInv(s') && ThreadsInv(s')
    ensures forall u :: 0 <= u < |s.threads| ==>
              s'.threads[u].pc == s.threads[u].pc && (Settled(s.threads[u]) ==> Settled(s'.threads[u]))
  {
    assert KillInv(k, KillPcOf(s, k, t), s.threads[t]);
    KillStepKeepsInv(k, KillPcOf(s, k, t), s.threads[t]);
    forall u, j | 0 <= u < |s'.threads| ensures KillInv(j, KillPcOf(s', j, u), s'.threads[u]) {
      assert KillInv(j, KillPcOf(s, j, u), s.threads[u]);
    }
  }

  lemma ExecKillKeepsInv(s: State)
    requires Inv(s) && s.exec.Killing? && s.exec.kill != Returned
    ensures ExecNext(s).Some? && Inv(ExecNext(s).value)
  {
    var s' := ExecNext(s).value;
    KillStepKeepsThreads(s, s', ByExecutor, s.exec.t);
    forall i <- s'.stops ensures StopInv(s', i) {
      assert StopInv(s, i);
    }
  }

  /** Constructing a phase thread, and starting it. */
  lemma ExecStartKeepsInv(s: State)
    requires Inv(s) && ((s.exec.Holding? && !s.stopping) || s.exec.Starting?)
    ensures ExecNext(s).Some? && Inv(ExecNext(s).value)
  {
    var s' := ExecNext(s).value;
    assert KillsInv(s') by {
      forall t, k | 0 <= t < |s'.threads| ensures KillInv(k, KillPcOf(s', k, t), s'.threads[t]) {
        if t < |s.threads| {
          assert KillInv(k, KillPcOf(s, k, t), s.threads[t]);
        }
      }
    }
    forall i <- s'.stops ensures StopInv(s', i) {
      assert StopInv(s, i);
    }
  }

  /** The steps that touch no thread. */
  ghost predicate ExecMoves(s: State) {
    && Inv(s) && ExecNext(s).Some? && ExecNext(s).value.threads == s.threads
    && (s.exec.Killing? ==> s.exec.kill == Returned)
  }

  lemma ExecMoveKeepsStops(s: State)
    requires ExecMoves(s)
    ensures forall i <- s.stops :: i in ExecNext(s).value.stops && StopInv(ExecNext(s).value, i)
  {
    forall i <- s.stops ensures StopInv(ExecNext(s).value, i) {
      assert StopInv(s, i);
    }
  }

  lemma ExecMoveKeepsKills(s: State)
    requires ExecMoves(s)
    ensures KillsInv(ExecNext(s).value)
  {
    KillsInvFrame(s, ExecNext(s).value);
  }

  lemma ExecMoveKeepsInv(s: State)
    requires ExecMoves(s)
    ensures Inv(ExecNext(s).value)
  {
    if s.exec.Killing? {
      assert KillInv(ByExecutor, KillPcOf(s, ByExecutor, s.exec.t), s.threads[s.exec.t]);
    }
    ExecMoveKeepsStops(s);
    ExecMoveKeepsKills(s);
    assert ExecNext(s).value.stops == s.stops;
  }

  lemma ExecStepKeepsInv(s: State)
    requires Inv(s) && ExecNext(s).Some?
    ensures Inv(ExecNext(s).value)
  {
    if s.exec.Killing? && s.exec.kill != Returned {
      ExecKillKeepsInv(s);
    } else if (s.exec.Holding? && !s.stopping) || s.exec.Starting? {
      ExecStartKeepsInv(s);
    } else {
      ExecMoveKeepsInv(s);
    }
  }

  lemma StopKillKeepsInv(s: State, i: nat)
    requires Inv(s) && i in s.stops && s.stops[i].StopKilling? && s.stops[i].kill != Returned
    ensures StopNext(s, i).Some? && Inv(StopNext(s, i).value)
  {
    assert StopInv(s, i);
    var s' := StopNext(s, i).value;
    KillStepKeepsThreads(s, s', ByStop(i), s.stops[i].t);
    forall j <- s'.stops ensures StopInv(s', j) {
      assert StopInv(s, j);
    }
  }

  /** A stop() call that moves on its own only concerns itself and, perhaps, the lock. */
  lemma StopMoveFrame(s: State, s': State, i: nat)
    requires Inv(s) && i in s.stops && i in s'.stops && StopInv(s', i)
    requires s' == s.(stopping := s'.stopping, lock := s'.lock, stops := s.stops[i := s'.stops[i]])
    requires s'.lock == s.lock || {s.lock, s'.lock} == {Unlocked, LockedByStop(i)}
    requires s'.stops[i].StopKilling? ==> s'.stops[i].kill == SetKilled
    requires s.stops[i].StopKilling? ==> s.stops[i].kill == Returned
    ensures Inv(s')
  {
    KillsInvFrame(s, s');
    forall j <- s'.stops ensures StopInv(s', j) {
      if j != i { assert StopInv(s, j); }
    }
  }

  lemma StopMoveKeepsInv(s: State, i: nat)
    requires Inv(s) && StopNext(s, i).Some?
    requires s.stops[i].StopKilling? ==> s.stops[i].kill == Returned
    ensures Inv(StopNext(s, i).value)
  {
    var s' := StopNext(s, i).value;
    var p := s.stops[i];
    assert StopInv(s, i);
    if p.StopKilling? {
      assert KillInv(ByStop(i), KillPcOf(s, ByStop(i), p.t), s.threads[p.t]);
    }
    StopMoveFrame(s, s', i);
  }

  lemma StopStepKeepsInv(s: State, i: nat)
    requires Inv(s) && StopNext(s, i).Some?
    ensures Inv(StopNext(s, i).value)
  {
    if s.stops[i].StopKilling? && s.stops[i].kill != Returned {
      StopKillKeepsInv(s, i);
    } else {
      StopMoveKeepsInv(s, i);
    }
  }

  lemma ThreadStepKeepsInv(s: State, t: nat, ta: ThreadAction)
    requires Inv(s) && Next(s, ThreadStep(t, ta)).Some?
    ensures Inv(Next(s, ThreadStep(t, ta)).value)
  {
    AdvanceKeepsInv(s.threads[t], ta);
    ThreadStepKeepsKills(s, t, ta);
    ThreadStepKeepsStops(s, t, ta);
  }

  lemma ThreadStepKeepsKills(s: State, t: nat, ta: ThreadAction)
    requires Inv(s) && Next(s, ThreadStep(t, ta)).Some?
    ensures KillsInv(Next(s, ThreadStep(t, ta)).value)
  {
    var s' := Next(s, ThreadStep(t, ta)).value;
    AdvanceKeepsInv(s.threads[t], ta);
    forall u, k | 0 <= u < |s'.threads| ensures KillInv(k, KillPcOf(s', k, u), s'.threads[u]) {
      assert KillInv(k, KillPcOf(s, k, u), s.threads[u]);
    }
  }

  lemma ThreadStepKeepsStops(s: State, t: nat, ta: ThreadAction)
    requires Inv(s) && Next(s, ThreadStep(t, ta)).Some?
    ensures var s' := Next(s, ThreadStep(t, ta)).value;
            s'.stops == s.stops && forall i <- s'.stops :: StopInv(s', i)
  {
    var s' := Next(s, ThreadStep(t, ta)).value;
    AdvanceKeepsInv(s.threads[t], ta);
    forall i <- s'.stops ensures StopInv(s', i) {
      assert StopInv(s, i);
    }
  }

  lemma CallStopKeepsInv(s: State, i: nat)
    requires Inv(s) && i !in s.stops
    ensures Inv(Next(s, CallStop(i)).value)
  {
    var s' := Next(s, CallStop(i)).value;
    KillsInvFrame(s, s');
    forall j <- s'.stops ensures StopInv(s', j) {
      if j != i { assert StopInv(s, j); }
    }
  }

  lemma StepKeepsInv(s: State, a: Action)
    requires Inv(s) && Next(s, a).Some?
    ensures Inv(Next(s, a).value)
  {
    match a
    case ExecStep => ExecStepKeepsInv(s);
    case CallStop(i) => if i !in s.stops { CallStopKeepsInv(s, i); }
    case StopStep(i) => StopStepKeepsInv(s, i);
    case ResetStop => KillsInvFrame(s, Next(s, a).value);
    case ThreadStep(t, ta) => ThreadStepKeepsInv(s, t, ta);
  }

  lemma {:induction false} RunKeepsInv(s: State, acts: seq<Action>)
    requires Inv(s) && Run(s, acts).Some?
    ensures Inv(Run(s, acts).value)
    decreases |acts|
  {
    if acts != [] {
      StepKeepsInv(s, acts[0]);
      RunKeepsInv(Next(s, acts[0]).value, acts[1..]);
    }
  }

  lemma ReachableInv(s: State)
    requires Reachable(s)
    ensures Inv(s)
  {
    var acts :| Run(INIT, acts) == Some(s);
    RunKeepsInv(INIT, acts);
  }

  // ---------------------------------------------------------------- what holds in every reachable state

  /** With the lock free, the one thread that may run unkilled is _current_phase_thread. */
  lemma OnlyCurrentRunsUnkilled(s: State, t: nat)
    requires Reachable(s) && s.lock == Unlocked
    requires t < |s.threads| && s.threads[t].MayRun() && !s.threads[t].killed
    ensures s.current == Some(t)
  {
    ReachableInv(s);
  }

  /** A phase that is over has stored its outcome, unless it was killed. */
  lemma OverHasOutcome(s: State, t: nat)
    requires Reachable(s) && t < |s.threads|
    requires s.threads[t].pc in {Recorded, Finishing, Dead} && !s.threads[t].killed
    ensures s.threads[t].outcome
  {
    ReachableInv(s);
  }

  /** join_or_die returns only once the phase function is over or the thread is killed. */
  lemma JoinReturnsWhenOverOrKilled(s: State)
    requires Reachable(s) && s.exec.Clearing?
    ensures s.exec.t < |s.threads| && (!s.threads[s.exec.t].MayRun() || s.threads[s.exec.t].killed)
    ensures match s.exec.answer
            case Stored => s.threads[s.exec.t].outcome
            case TimedOut => s.threads[s.exec.t].killed
            case Terminated =>
              s.threads[s.exec.t].pc == Dead && (s.threads[s.exec.t].killed || s.threads[s.exec.t].outcome)
  {
    ReachableInv(s);
  }

  // ---------------------------------------------------------------- what join_or_die answers

  /** The executor has not missed the outcome of `t`: it has yet to read it, or has read it, or is past that join. */
  predicate NotMissed(e: ExecPc, t: nat) {
    ExecThread(e) == Some(t) ==> !e.Probing? && !e.Killing? && (e.Clearing? ==> e.answer == Stored)
  }

  /** The executor is past its reading of the outcome of `t`, which was not there. */
  predicate Missed(e: ExecPc, t: nat) {
    ExecThread(e) == Some(t) ==> e.Probing? || e.Killing? || (e.Clearing? && e.answer != Stored)
  }

  lemma JoinOneStep(s: State, t: nat, a: Action)
    requires t < |s.threads| && Next(s, a).Some?
    ensures NotMissed(s.exec, t) && s.threads[t].outcome ==> NotMissed(Next(s, a).value.exec, t)
    ensures Missed(s.exec, t) ==> Missed(Next(s, a).value.exec, t)
  {
  }

  lemma {:induction false} NotMissedOverRun(s: State, t: nat, acts: seq<Action>)
    requires Inv(s) && t < |s.threads| && s.threads[t].outcome && NotMissed(s.exec, t) && Run(s, acts).Some?
    ensures var s' := Run(s, acts).value;
            t < |s'.threads| && s'.threads[t].outcome && NotMissed(s'.exec, t)
    decreases |acts|
  {
    if acts != [] {
      StepKeepsInv(s, acts[0]);
      ThreadOneStep(s, t, acts[0]);
      JoinOneStep(s, t, acts[0]);
      NotMissedOverRun(Next(s, acts[0]).value, t, acts[1..]);
    }
  }

  lemma {:induction false} MissedOverRun(s: State, t: nat, acts: seq<Action>)
    requires Inv(s) && t < |s.threads| && Missed(s.exec, t) && Run(s, acts).Some?
    ensures Missed(Run(s, acts).value.exec, t)
    decreases |acts|
  {
    if acts != [] {
      StepKeepsInv(s, acts[0]);
      ThreadOneStep(s, t, acts[0]);
      JoinOneStep(s, t, acts[0]);
      MissedOverRun(Next(s, acts[0]).value, t, acts[1..]);
    }
  }

  /**
    A phase that returns, or whose exception is handled, before join_or_die reads its outcome is
    never killed by the executor, and is answered for by that outcome, whatever else happens.
   */
  lemma OutcomeInTimeIsAnswered(s: State, t: nat, ta: ThreadAction, acts: seq<Action>)
    requires Reachable(s) && ta in {ReturnResult, HandleError}
    requires ExecThread(s.exec) == Some(t) ==> !s.exec.Probing? && !s.exec.Killing? && !s.exec.Clearing?
    requires Run(s, [ThreadStep(t, ta)] + acts).Some?
    ensures var s' := Run(s, [ThreadStep(t, ta)] + acts).value;
            && t < |s'.threads| && s'.threads[t].outcome
            && s'.exec != Probing(t) && (forall k :: s'.exec != Killing(t, k))
            && s'.exec != Clearing(t, TimedOut) && s'.exec != Clearing(t, Terminated)
            && (s'.exec == Reading(t) ==> ExecNext(s').Some? && ExecNext(s').value.exec == Clearing(t, Stored))
  {
    ReachableInv(s);
    StepKeepsInv(s, ThreadStep(t, ta));
    AdvanceKeepsInv(s.threads[t], ta);
    assert ([ThreadStep(t, ta)] + acts)[1..] == acts;
    NotMissedOverRun(Next(s, ThreadStep(t, ta)).value, t, acts);
  }

  /** The join that reads the outcome in state `s` answers it exactly if it is there by then. */
  lemma JoinAnswersStoredIff(s: State, acts: seq<Action>)
    requires Reachable(s) && s.exec.Reading?
    requires Run(s, [ExecStep] + acts).Some?
    requires var e := Run(s, [ExecStep] + acts).value.exec; e.Clearing? && e.t == s.exec.t
    ensures s.exec.t < |s.threads|
    ensures Run(s, [ExecStep] + acts).value.exec.answer == Stored <==> s.threads[s.exec.t].outcome
  {
    ReachableInv(s);
    StepKeepsInv(s, ExecStep);
    assert ([ExecStep] + acts)[1..] == acts;
    var s1 := Next(s, ExecStep).value;
    if s.threads[s.exec.t].outcome {
      NotMissedOverRun(s1, s.exec.t, acts);
    } else {
      MissedOverRun(s1, s.exec.t, acts);
    }
  }

  // ---------------------------------------------------------------- the kill protocol over runs

  lemma {:induction false} KilledThreadOverRun(s: State, t: nat, acts: seq<Action>)
    requires Inv(s) && t < |s.threads| && s.threads[t].killed && Run(s, acts).Some?
    ensures var s' := Run(s, acts).value;
            && t < |s'.threads| && s'.threads[t].killed
            && (s'.threads[t].Inside() ==> s.threads[t].Inside())
            && (Settled(s.threads[t]) ==> Settled(s'.threads[t]))
            && (NeverRan(s.threads[t]) ==> NeverRan(s'.threads[t]))
    ensures s.threads[t].pc != Entering ==> ThreadStep(t, EnterProc) !in acts
    decreases |acts|
  {
    if acts != [] {
      var s' := Next(s, acts[0]).value;
      StepKeepsInv(s, acts[0]);
      ThreadOneStep(s, t, acts[0]);
      KilledThreadOverRun(s', t, acts[1..]);
    }
  }

  /** A step lets no existing thread go back, and takes back no kill. */
  lemma ThreadOneStep(s: State, t: nat, a: Action)
    requires Inv(s) && t < |s.threads| && Next(s, a).Some?
    ensures var s' := Next(s, a).value;
            && t < |s'.threads|
            && (s.threads[t].killed ==> s'.threads[t].killed)
            && (s.threads[t].outcome ==> s'.threads[t].outcome)
            && (s'.threads[t].MayRun() ==> s.threads[t].MayRun())
            && (s.threads[t].killed && s'.threads[t].Inside() ==> s.threads[t].Inside())
            && (Settled(s.threads[t]) ==> Settled(s'.threads[t]))
            && (NeverRan(s.threads[t]) ==> NeverRan(s'.threads[t]))
            && (s.threads[t].killed && s.threads[t].pc != Entering ==>
                  s'.threads[t].pc != Entering && a != ThreadStep(t, EnterProc))
  {
    match a
    case ExecStep =>
      if s.exec.Killing? && s.exec.kill != Returned {
        assert KillInv(ByExecutor, KillPcOf(s, ByExecutor, s.exec.t), s.threads[s.exec.t]);
        KillStepKeepsInv(ByExecutor, s.exec.kill, s.threads[s.exec.t]);
      }
    case StopStep(i) =>
      if s.stops[i].StopKilling? && s.stops[i].kill != Returned {
        var u := s.stops[i].t;
        assert StopInv(s, i) && KillInv(ByStop(i), KillPcOf(s, ByStop(i), u), s.threads[u]);
        KillStepKeepsInv(ByStop(i), s.stops[i].kill, s.threads[u]);
      }
    case ThreadStep(u, ta) =>
      AdvanceKeepsInv(s.threads[u], ta);
    case _ =>
  }

  /**
    Once kill() has returned, a thread that is still inside its phase function has had a
    ThreadTerminationError posted to it, and it was inside already when kill() returned.
   */
  lemma KillProtocol(s: State, k: Killer, t: nat, acts: seq<Action>)
    requires Reachable(s) && t < |s.threads| && KillPcOf(s, k, t) == Returned && Run(s, acts).Some?
    ensures var s' := Run(s, acts).value;
            && t < |s'.threads|
            && (s'.threads[t].Inside() ==> s'.threads[t].posted && s.threads[t].Inside())
  {
    ReachableInv(s);
    assert KillInv(k, KillPcOf(s, k, t), s.threads[t]);
    KilledThreadOverRun(s, t, acts);
  }

  /** Killed before it looked at _killed, a thread never gets inside, nor an outcome, whatever happens later. */
  lemma KilledBeforeCheckNeverEnters(s: State, t: nat, acts: seq<Action>)
    requires Reachable(s) && t < |s.threads| && s.threads[t].killed && Run(s, acts).Some?
    requires s.threads[t].pc in {Created, Started, Locked}
    ensures var s' := Run(s, acts).value;
            t < |s'.threads| && !s'.threads[t].Inside() && !s'.threads[t].outcome
  {
    ReachableInv(s);
    KilledThreadOverRun(s, t, acts);
  }

  /**
    kill() does not always keep _thread_proc from beginning: it fails to exactly when, as it
    returned, the thread stood between its test of _killed and the call of _thread_proc.
   */
  lemma LateEntryIff(s: State, k: Killer, t: nat)
    requires Reachable(s) && t < |s.threads| && KillPcOf(s, k, t) == Returned
    ensures (exists acts :: Run(s, acts).Some? && ThreadStep(t, EnterProc) in acts) <==> s.threads[t].pc == Entering
  {
    ReachableInv(s);
    assert KillInv(k, KillPcOf(s, k, t), s.threads[t]);
    if s.threads[t].pc == Entering {
      var acts := [ThreadStep(t, EnterProc)];
      assert Run(s, acts) == Run(Next(s, acts[0]).value, []) by { assert acts[1..] == []; }
      assert ThreadStep(t, EnterProc) in acts;
    }
    forall acts | Run(s, acts).Some? && ThreadStep(t, EnterProc) in acts ensures s.threads[t].pc == Entering {
      KilledThreadOverRun(s, t, acts);
    }
  }

  // ---------------------------------------------------------------- stop safety over runs

  /** Call `i` has left its lock section with `captured`, and no phase can start any more. */
  ghost predicate Quiet(s: State, i: nat, captured: Option<nat>) {
    && s.stopping && !s.exec.Starting?
    && i in s.stops && StopThread(s.stops[i]) == captured
    && (s.stops[i].Checking? || s.stops[i].StopKilling? || s.stops[i].Waiting? || s.stops[i].Stopped?)
    && (forall t :: 0 <= t < |s.threads| && s.threads[t].MayRun() ==> captured == Some(t) || s.threads[t].killed)
  }

  lemma QuietCallStaysQuiet(s: State, i: nat, captured: Option<nat>, a: Action)
    requires Quiet(s, i, captured) && a != ResetStop && Next(s, a).Some?
    ensures var s' := Next(s, a).value;
            && |s'.threads| == |s.threads| && s'.stopping && !s'.exec.Starting?
            && i in s'.stops && StopThread(s'.stops[i]) == captured
            && (s'.stops[i].Checking? || s'.stops[i].StopKilling? || s'.stops[i].Waiting? || s'.stops[i].Stopped?)
  {
  }

  lemma QuietOneStep(s: State, i: nat, captured: Option<nat>, a: Action)
    requires Inv(s) && Quiet(s, i, captured) && a != ResetStop && Next(s, a).Some?
    ensures Quiet(Next(s, a).value, i, captured) && |Next(s, a).value.threads| == |s.threads|
  {
    var s' := Next(s, a).value;
    QuietCallStaysQuiet(s, i, captured, a);
    forall t | 0 <= t < |s'.threads| && s'.threads[t].MayRun() ensures captured == Some(t) || s'.threads[t].killed {
      ThreadOneStep(s, t, a);
    }
  }

  lemma {:induction false} QuietOverRun(s: State, i: nat, captured: Option<nat>, acts: seq<Action>)
    requires Inv(s) && Quiet(s, i, captured) && ResetStop !in acts && Run(s, acts).Some?
    ensures var s' := Run(s, acts).value;
            Inv(s') && Quiet(s', i, captured) && |s'.threads| == |s.threads|
    decreases |acts|
  {
    if acts != [] {
      StepKeepsInv(s, acts[0]);
      QuietOneStep(s, i, captured, acts[0]);
      QuietOverRun(Next(s, acts[0]).value, i, captured, acts[1..]);
    }
  }

  /** The state in which stop() call `i` has just left its lock section. */
  function AfterLeaving(s: State, i: nat): State
    requires i in s.stops && s.stops[i].Leaving?
  {
    StopNext(s, i).value
  }

  /**
    Stop safety, over every interleaving: if _stopping is set as stop() leaves its lock section,
    then until the next reset_stop() no phase thread is constructed or started, and every thread
    inside its phase function, or yet to enter it, was captured by that stop() or is killed. When
    the stop() call returns, the captured thread is no exception.
   */
  lemma StopSafety(s: State, i: nat, acts: seq<Action>)
    requires Reachable(s) && i in s.stops && s.stops[i].Leaving? && s.stopping
    requires ResetStop !in acts && Run(AfterLeaving(s, i), acts).Some?
    ensures var s' := Run(AfterLeaving(s, i), acts).value;
            && |s'.threads| == |s.threads|
            && (forall t :: 0 <= t < |s.threads| ==> s.threads[t].pc != Created)
            && (forall t :: 0 <= t < |s'.threads| && s'.threads[t].MayRun() ==>
                  s.stops[i].captured == Some(t) || s'.threads[t].killed)
            && i in s'.stops
            && (s'.stops[i].Stopped? ==>
                  forall t :: 0 <= t < |s'.threads| && s'.threads[t].MayRun() ==>
                    s'.threads[t].killed && (s.stops[i].captured == Some(t) ==> Settled(s'.threads[t])))
  {
    ReachableInv(s);
    assert StopInv(s, i);
    StopStepKeepsInv(s, i);
    var s' := Run(AfterLeaving(s, i), acts).value;
    QuietOverRun(AfterLeaving(s, i), i, s.stops[i].captured, acts);
    assert StopInv(s', i);
  }

  /** How many steps of its own the executor needs, at most, to be back outside. */
  function StepsToOutside(e: ExecPc): nat {
    match e
    case Outside => 0
    case Clearing(_, _) => 1
    case Killing(_, k) =>
      2 + KillStepsLeft(k)
    case Probing(_) => 8
    case Reading(_) => 9
    case Joining(_) => 10
    case Releasing(_) => 11
    case Recording(_) => 12
    case Starting(_) => 13
    case Backing => 1
    case Holding => 14
  }

  /** With _stopping clear and the lock free, the executor alone can bring another phase thread to life. */
  lemma {:induction false} ExecutorCanStartAnother(s: State) returns (acts: seq<Action>)
    requires Inv(s) && !s.stopping && s.lock == Unlocked
    ensures forall a <- acts :: a == ExecStep
    ensures Run(s, acts).Some?
    ensures var s' := Run(s, acts).value;
            && |s'.threads| == |s.threads| + 1 && s'.stops == s.stops
            && s'.threads[|s.threads|] == NEW_THREAD.(pc := Started)
    decreases StepsToOutside(s.exec)
  {
    var s1 := ExecNext(s).value;
    if s.exec.Outside? {
      var s2 := ExecNext(s1).value;
      var s3 := ExecNext(s2).value;
      acts := [ExecStep, ExecStep, ExecStep];
      assert acts[1..] == [ExecStep, ExecStep] && acts[1..][1..] == [ExecStep] && acts[1..][1..][1..] == [];
      assert Run(s2, [ExecStep]) == Run(s3, []) by { assert [ExecStep][1..] == []; }
      assert Run(s1, acts[1..]) == Run(s2, [ExecStep]);
    } else {
      ExecStepKeepsInv(s);
      var rest := ExecutorCanStartAnother(s1);
      acts := [ExecStep] + rest;
      assert acts[1..] == rest;
    }
  }

  /**
    The exact condition. A stop() call keeps every later phase thread from being started, until
    reset_stop(), if and only if _stopping is still set when it leaves its lock section.
   */
  lemma StopHoldsIff(s: State, i: nat)
    requires Reachable(s) && i in s.stops && s.stops[i].Leaving?
    ensures s.stopping <==>
            (forall acts :: ResetStop !in acts && Run(AfterLeaving(s, i), acts).Some? ==>
                              |Run(AfterLeaving(s, i), acts).value.threads| == |s.threads|)
  {
    ReachableInv(s);
    assert StopInv(s, i);
    if s.stopping {
      forall acts | ResetStop !in acts && Run(AfterLeaving(s, i), acts).Some?
        ensures |Run(AfterLeaving(s, i), acts).value.threads| == |s.threads|
      {
        StopSafety(s, i, acts);
      }
    } else {
      StopStepKeepsInv(s, i);
      var acts := ExecutorCanStartAnother(AfterLeaving(s, i));
      assert ResetStop !in acts;
    }
  }

  lemma {:induction false} RunThenStep(s: State, acts: seq<Action>, a: Action)
    requires Run(s, acts).Some? && Next(Run(s, acts).value, a).Some?
    ensures Run(s, acts + [a]) == Next(Run(s, acts).value, a)
    decreases |acts|
  {
    if acts == [] {
      assert [a][1..] == [];
    } else {
      assert (acts + [a])[1..] == acts[1..] + [a];
      RunThenStep(Next(s, acts[0]).value, acts[1..], a);
    }
  }

  lemma ReachableStep(s: State, a: Action) returns (s': State)
    requires Reachable(s) && Next(s, a).Some?
    ensures s' == Next(s, a).value && Reachable(s')
  {
    var acts :| Run(INIT, acts) == Some(s);
    RunThenStep(INIT, acts, a);
    s' := Next(s, a).value;
  }

  lemma InitIsReachable()
    ensures Reachable(INIT)
  {
    assert Run(INIT, []) == Some(INIT);
  }

  /** The condition can fail: a reset_stop() that lands between stop()'s first two statements undoes it. */
  lemma StopCanBeLost() returns (s: State)
    ensures Reachable(s) && 0 in s.stops && s.stops[0] == Leaving(None) && !s.stopping
  {
    InitIsReachable();
    s := ReachableStep(INIT, CallStop(0));
    s := ReachableStep(s, StopStep(0));
    s := ReachableStep(s, ResetStop);
    s := ReachableStep(s, StopStep(0));
    s := ReachableStep(s, StopStep(0));
  }

  /** A thread that has passed its test of _killed, and a stop() call that is about to kill it. */
  const IN_THE_WINDOW := State(
    true, Unlocked, Some(0), Joining(0), map[0 := StopKilling(0, SetKilled)],
    [NEW_THREAD.(pc := Entering, runLock := HeldByRun)])

  /** The executor has started a phase thread and waits for it. */
  const JOINING := State(false, Unlocked, Some(0), Joining(0), map[], [NEW_THREAD.(pc := Started)])

  lemma JoiningIsReachable()
    ensures Reachable(JOINING)
  {
    InitIsReachable();
    var s := ReachableStep(INIT, ExecStep);
    s := ReachableStep(s, ExecStep);
    s := ReachableStep(s, ExecStep);
    s := ReachableStep(s, ExecStep);
    s := ReachableStep(s, ExecStep);
    assert s == JOINING;
  }

  lemma WindowIsReachable()
    ensures Reachable(IN_THE_WINDOW)
  {
    JoiningIsReachable();
    var s := ReachableStep(JOINING, ThreadStep(0, TakeLock));
    s := ReachableStep(s, ThreadStep(0, CheckKilled));
    s := ReachableStep(s, CallStop(0));
    s := ReachableStep(s, StopStep(0));
    s := ReachableStep(s, StopStep(0));
    s := ReachableStep(s, StopStep(0));
    s := ReachableStep(s, StopStep(0));
    s := ReachableStep(s, StopStep(0));
    assert s == IN_THE_WINDOW;
  }

  /** The window of LateEntryIff is real: kill() can return while the thread stands in it. */
  lemma LateEntryIsReachable() returns (s: State)
    ensures Reachable(s) && |s.threads| == 1
    ensures KillPcOf(s, ByStop(0), 0) == Returned && s.threads[0].pc == Entering
  {
    WindowIsReachable();
    s := ReachableStep(IN_THE_WINDOW, StopStep(0));
    s := ReachableStep(s, StopStep(0));
    s := ReachableStep(s, StopStep(0));
    s := ReachableStep(s, StopStep(0));
    s := ReachableStep(s, StopStep(0));
  }

  /** The executor has found no outcome, and the phase function has begun. */
  const PROBING := State(
    false, Unlocked, Some(0), Probing(0), map[], [NEW_THREAD.(pc := InProc, runLock := HeldByRun)])

  lemma ProbingIsReachable()
    ensures Reachable(PROBING)
  {
    JoiningIsReachable();
    var s := ReachableStep(JOINING, ExecStep);
    s := ReachableStep(s, ExecStep);
    s := ReachableStep(s, ThreadStep(0, TakeLock));
    s := ReachableStep(s, ThreadStep(0, CheckKilled));
    s := ReachableStep(s, ThreadStep(0, EnterProc));
    assert s == PROBING;
  }

  /** A phase that returns as its deadline passes, between the two tests of join_or_die, is answered for as killed. */
  lemma FinishedPhaseReadAsKilled() returns (s: State)
    ensures Reachable(s) && s.exec == Clearing(0, Terminated)
    ensures |s.threads| == 1 && s.threads[0].outcome && !s.threads[0].killed
  {
    ProbingIsReachable();
    s := ReachableStep(PROBING, ThreadStep(0, ReturnResult));
    s := ReachableStep(s, ThreadStep(0, ReleaseLock));
    s := ReachableStep(s, ThreadStep(0, Finish));
    s := ReachableStep(s, ExecStep);
  }

  /** A stop() call has posted an exception to a phase that is inside. */
  const POSTED := State(
    true, Unlocked, Some(0), Joining(0), map[0 := StopKilling(0, Returned)],
    [PhaseThread(InProc, true, true, true, false, HeldByRun)])

  lemma PostedIsReachable()
    ensures Reachable(POSTED)
  {
    WindowIsReachable();
    var s := ReachableStep(IN_THE_WINDOW, ThreadStep(0, EnterProc));
    s := ReachableStep(s, StopStep(0));
    s := ReachableStep(s, StopStep(0));
    s := ReachableStep(s, StopStep(0));
    s := ReachableStep(s, StopStep(0));
    s := ReachableStep(s, StopStep(0));
    assert s == POSTED;
  }

  /** A phase that is killed while it is inside unwinds without an outcome. */
  lemma StoppedPhaseUnwinds() returns (s: State)
    ensures Reachable(s) && s.exec == Clearing(0, Terminated)
    ensures |s.threads| == 1 && s.threads[0].killed && !s.threads[0].outcome
  {
    PostedIsReachable();
    s := ReachableStep(POSTED, ThreadStep(0, Unwind));
    s := ReachableStep(s, ThreadStep(0, Finish));
    s := ReachableStep(s, ExecStep);
    s := ReachableStep(s, ExecStep);
    s := ReachableStep(s, ExecStep);
  }

  /** A phase function may catch the exception that was posted to it, and return. */
  lemma StoppedPhaseCanReturn() returns (s: State)
    ensures Reachable(s) && s.exec == Clearing(0, Stored)
    ensures |s.threads| == 1 && Settled(s.threads[0]) && !s.threads[0].pending
  {
    PostedIsReachable();
    s := ReachableStep(POSTED, ThreadStep(0, Swallow));
    s := ReachableStep(s, ThreadStep(0, ReturnResult));
    s := ReachableStep(s, ExecStep);
    s := ReachableStep(s, ExecStep);
  }

  // ---------------------------------------------------------------- every party can go on

  /** The executor alone comes back from wherever it is; it makes a thread only if it finds _stopping clear. */
  lemma {:induction false} ExecutorComesBack(s: State) returns (acts: seq<Action>)
    requires Inv(s)
    ensures forall a <- acts :: a == ExecStep
    ensures Run(s, acts).Some?
    ensures var s' := Run(s, acts).value;
            && s'.exec == Outside && s'.current == None && s'.lock != LockedByExec && s'.stops == s.stops
            && |s'.threads| == |s.threads| + if s.exec.Holding? && !s.stopping then 1 else 0
    decreases StepsToOutside(s.exec)
  {
    if s.exec == Outside {
      acts := [];
    } else {
      ExecStepKeepsInv(s);
      var rest := ExecutorComesBack(ExecNext(s).value);
      acts := [ExecStep] + rest;
      assert acts[1..] == rest;
    }
  }

  /** How many steps of its own a thread needs, at most, to end. */
  function StepsToDead(pc: ThreadPc): nat {
    match pc
    case Created => 7
    case Started => 6
    case Locked => 5
    case Entering => 4
    case InProc => 3
    case Recorded => 2
    case Handling => 2
    case Finishing => 1
    case Dead => 0
  }

  /** What the thread does next, its phase function raising or returning, if no exception is delivered to it. */
  function NextOf(t: PhaseThread, raises: bool): ThreadAction {
    match t.pc
    case Locked => CheckKilled
    case Entering => EnterProc
    case InProc => if raises then RaiseError else ReturnResult
    case Recorded => ReleaseLock
    case Handling => HandleError
    case Finishing => Finish
    case _ => TakeLock
  }

  /**
    A thread whose running lock no kill() is probing can end by its own steps, its phase function
    returning or raising: the other parties cannot keep it from doing so.
   */
  lemma {:induction false} ThreadCanEnd(s: State, t: nat, raises: bool) returns (acts: seq<Action>)
    requires Inv(s) && t < |s.threads| && s.threads[t].pc != Created && !s.threads[t].runLock.HeldByProbe?
    ensures forall a <- acts :: a.ThreadStep? && a.t == t
    ensures Run(s, acts).Some?
    ensures var s' := Run(s, acts).value;
            && |s'.threads| == |s.threads| && s'.threads[t].pc == Dead
            && s'.threads[t].killed == s.threads[t].killed
    ensures s.threads[t].Inside() || s.threads[t].pc == Handling || s.threads[t].outcome ==>
              Run(s, acts).value.threads[t].outcome
    ensures s.threads[t].Inside() ==> ThreadStep(t, if raises then HandleError else ReturnResult) in acts
    ensures s.threads[t].pc == Handling ==> ThreadStep(t, HandleError) in acts
    decreases StepsToDead(s.threads[t].pc)
  {
    if s.threads[t].pc == Dead {
      acts := [];
    } else {
      var a := NextOf(s.threads[t], raises);
      AdvanceKeepsInv(s.threads[t], a);
      StepKeepsInv(s, ThreadStep(t, a));
      var rest := ThreadCanEnd(Next(s, ThreadStep(t, a)).value, t, raises);
      acts := [ThreadStep(t, a)] + rest;
      assert acts[1..] == rest;
    }
  }

  /** A delivered exception ends the thread from wherever it is, with the outcome it had. */
  lemma PendingThreadCanEnd(s: State, t: nat)
    requires t < |s.threads| && s.threads[t].pending && s.threads[t].IsAlive()
    ensures var s' := Run(s, [ThreadStep(t, Unwind), ThreadStep(t, Finish)]);
            && s'.Some? && |s'.value.threads| == |s.threads| && s'.value.threads[t].pc == Dead
            && s'.value.threads[t].outcome == s.threads[t].outcome
            && (s.threads[t].HoldsRunLock() ==> s'.value.threads[t].runLock == Free)
  {
    var acts := [ThreadStep(t, Unwind), ThreadStep(t, Finish)];
    var s1 := Next(s, acts[0]).value;
    assert acts[1..] == [acts[1]] && [acts[1]][1..] == [];
    assert Run(s1, [acts[1]]) == Some(Next(s1, acts[1]).value);
  }

  /** How many steps of its own a stop() call needs, at most, to return. */
  function StepsToStopped(p: StopPc): nat {
    match p
    case Setting => 12
    case Wanting => 11
    case InSection => 10
    case Leaving(_) => 9
    case Checking(_) => 8
    case StopKilling(_, k) => 2 + KillStepsLeft(k)
    case Waiting(_) => 1
    case Stopped(_) => 0
  }

  /** The thread that a stop() call is for, if it goes on undisturbed. */
  function CapturedBy(s: State, i: nat): Option<nat> {
    if i !in s.stops || s.stops[i] in {Setting, Wanting, InSection} then s.current else StopThread(s.stops[i])
  }

  /** From `s` to `s'`, stop() call `i` did nothing to threads but kill the one it is for, if that is alive. */
  predicate OnlyKills(s: State, s': State, i: nat) {
    && s'.current == s.current && |s'.threads| == |s.threads|
    && match CapturedBy(s, i)
       case None => s'.threads == s.threads
       case Some(t) =>
         && t < |s.threads| && s'.threads == s.threads[t := s'.threads[t]]
         && s'.threads[t].pc == s.threads[t].pc && (s.threads[t].killed ==> s'.threads[t].killed)
         && (s.threads[t].IsAlive() || (i in s.stops && s.stops[i].StopKilling?) || s'.threads[t] == s.threads[t])
  }

  lemma StopCanStep(s: State, i: nat)
    requires Inv(s) && i in s.stops && (s.lock == Unlocked || s.lock == LockedByStop(i)) && !s.stops[i].Stopped?
    ensures StopNext(s, i).Some?
    ensures var s' := StopNext(s, i).value;
            && i in s'.stops && (s'.lock == Unlocked || s'.lock == LockedByStop(i)) && s'.exec == s.exec
            && StepsToStopped(s'.stops[i]) < StepsToStopped(s.stops[i])
  {
    assert StopInv(s, i);
  }

  lemma StopStepOnlyKills(s: State, i: nat)
    requires StopNext(s, i).Some? && (CapturedBy(s, i).Some? ==> CapturedBy(s, i).value < |s.threads|)
    ensures CapturedBy(StopNext(s, i).value, i) == CapturedBy(s, i) && OnlyKills(s, StopNext(s, i).value, i)
  {
  }

  /** With the lock free, or its own, a stop() call can return by its own steps, and leaves the lock free. */
  lemma {:induction false} StopCanReturn(s: State, i: nat) returns (acts: seq<Action>)
    requires Inv(s) && i in s.stops && (s.lock == Unlocked || s.lock == LockedByStop(i))
    ensures forall a <- acts :: a == StopStep(i)
    ensures Run(s, acts).Some?
    ensures var s' := Run(s, acts).value;
            && i in s'.stops && s'.stops[i] == Stopped(CapturedBy(s, i)) && s'.lock == Unlocked && s'.exec == s.exec
            && OnlyKills(s, s', i)
    decreases StepsToStopped(s.stops[i])
  {
    assert StopInv(s, i);
    if s.stops[i].Stopped? {
      acts := [];
    } else {
      StopCanStep(s, i);
      assert CapturedBy(s, i).Some? ==> CapturedBy(s, i).value < |s.threads|;
      StopStepOnlyKills(s, i);
      StopStepKeepsInv(s, i);
      var rest := StopCanReturn(StopNext(s, i).value, i);
      acts := [StopStep(i)] + rest;
      assert acts[1..] == rest;
    }
  }
}
