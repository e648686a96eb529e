/**
 * The service manager as interleaved atomic steps.
 *
 * The thread loop and the synchronizer are two futures of one task: control passes
 * between them only where they wait, so a step runs from one wait to the next. A call
 * of `exit` comes from another thread and may fall anywhere, also between the loop's
 * reading of `on_stop` and its announcing of a status. User commands write the stored
 * status whenever the synchronizer does not hold it.
 */
module ServiceManager {
  import opened Common
  import PackageInfo

  type Main = PackageInfo.MainStatus

  datatype Status = Starting | Running | Stopped | Paused | Shutdown

  datatype OnStop = Restart | Sleep | Exit

  datatype Loop =
    | Top
    | Read(action: OnStop)   // has read on_stop, has not acted on it
    | Sleeping               // waits for on_stop to be written
    | InMain                 // inside run_main
    | Cooling                // waits after a crash
    | Done

  datatype Sync =
    | Idle
    | StopResuming           // inside stop, unpausing the container
    | StopSignalling         // inside stop, sending SIGTERM
    | StopWaiting            // inside stop, waiting for the status to change
    | Pausing
    | Resuming
    | Saving(next: Main)     // storing the status it decided on

  /** Who has sent a status since the wait inside stop began. Sending wakes the wait, whatever is sent. */
  datatype Notice = Unnoticed | ByLoop | ByMain

  datatype State = State(
    status: Status,
    onStop: OnStop,
    changed: bool,           // on_stop was written since the loop last read it
    main: Main,              // the stored status
    loop: Loop,
    sync: Sync,
    signalled: bool,         // the current run of main has been told to end
    up: bool,                // the current run of main has come up
    notice: Notice)

  datatype Step =
    | LoopRead
    | LoopAct
    | LoopWake
    | MainUp
    | MainEnds(crashed: bool)
    | CoolingOver
    | SyncBegin(now: PackageInfo.Time)
    | StopResumed(ok: bool)
    | StopSignalled(ok: bool)
    | StopWaitOver(timedOut: bool)
    | PauseDone(ok: bool)
    | ResumeDone(ok: bool)
    | Saved(ok: bool)
    | ExitCalled
    | UserCommand(main: Main)

  function Created(main: Main): State {
    State(Stopped, Sleep, false, main, Top, Idle, false, false, Unnoticed)
  }

  /** The loop and the synchronizer are at a point where either may be resumed. */
  predicate Yielding(s: State) {
    !s.loop.Read? && s.loop != Done
  }

  predicate Enabled(s: State, a: Step) {
    match a
    case LoopRead => s.loop == Top
    case LoopAct => s.loop.Read?
    case LoopWake => s.loop == Sleeping && s.changed
    case MainUp => s.loop == InMain && !s.up
    case MainEnds(_) => s.loop == InMain
    case CoolingOver => s.loop == Cooling
    case SyncBegin(_) => Yielding(s) && s.sync == Idle
    case StopResumed(_) => Yielding(s) && s.sync == StopResuming
    case StopSignalled(_) => Yielding(s) && s.sync == StopSignalling
    case StopWaitOver(timedOut) => Yielding(s) && s.sync == StopWaiting && (timedOut || s.status == Stopped || s.notice != Unnoticed)
    case PauseDone(_) => Yielding(s) && s.sync == Pausing
    case ResumeDone(_) => Yielding(s) && s.sync == Resuming
    case Saved(_) => Yielding(s) && s.sync.Saving?
    case ExitCalled => true
    case UserCommand(_) => s.sync == Idle
  }

  // ----- the shared operations of manager/mod.rs

  function Start(s: State): State {
    s.(onStop := if s.onStop == Sleep then Restart else s.onStop,
       changed := true,
       status := if s.status != Status.Running then Status.Starting else s.status)
  }

  /** The part of `stop` before its first wait. */
  function BeginStop(s: State): State {
    s.(onStop := if s.onStop == Restart then Sleep else s.onStop,
       changed := true,
       sync := if s.status == Paused then StopResuming else StopSignalling)
  }

  predicate WantsDown(m: Main) {
    m.Stopped? || m.Stopping? || m.Restarting?
  }

  predicate WantsUp(m: Main) {
    m.Starting? || m.Running?
  }

  /** `synchronize_once` up to its first wait; storing an unchanged status is not a step of its own. */
  function Synchronize(s: State, now: PackageInfo.Time): State {
    match s.status
    case Stopped => (
      match s.main
      case Stopped => s
      case Stopping => s.(sync := Saving(PackageInfo.Stopped))
      case Restarting => s.(sync := Saving(PackageInfo.MainStatus.Starting(true)))
      case Starting(_) => Start(s).(sync := Saving(s.main))
      case Running(_, health) => Start(s).(sync := Saving(PackageInfo.Running(now, health)))
      case BackingUp(_, _) => s
    )
    case Starting =>
      if WantsDown(s.main) then BeginStop(s) else if s.main.BackingUp? then s.(sync := Pausing) else s
    case Running =>
      if WantsDown(s.main) then BeginStop(s)
      else if s.main.Starting? then s.(sync := Saving(PackageInfo.Running(now, map[])))
      else if s.main.BackingUp? then s.(sync := Pausing)
      else s
    case Paused =>
      if WantsDown(s.main) then BeginStop(s) else if WantsUp(s.main) then s.(sync := Resuming) else s
    case Shutdown => s
  }

  function Noticed(s: State, n: Notice): Notice {
    if s.sync == StopWaiting then n else s.notice
  }

  function Next(s: State, a: Step): State
    requires Enabled(s, a)
  {
    match a
    case LoopRead => s.(loop := Read(s.onStop), changed := false)
    case LoopAct => (
      match s.loop.action
      case Sleep => s.(status := Stopped, loop := Sleeping, notice := Noticed(s, ByLoop))
      case Exit => s.(status := Shutdown, loop := Done, notice := Noticed(s, ByLoop))
      case Restart => s.(status := Status.Running, loop := InMain, signalled := false, up := false, notice := Noticed(s, ByLoop))
    )
    case LoopWake => s.(loop := Top)
    case MainUp => s.(status := if s.status == Status.Starting then Status.Running else s.status, up := true, notice := Noticed(s, ByMain))
    case MainEnds(crashed) => s.(loop := if crashed then Cooling else Top, signalled := false, up := false)
    case CoolingOver => s.(loop := Top)
    case SyncBegin(now) => Synchronize(s, now)
    case StopResumed(ok) => if ok then s.(status := Status.Running, sync := StopSignalling) else s.(sync := Idle)
    case StopSignalled(ok) =>
      if ok then s.(signalled := s.signalled || s.loop == InMain, sync := StopWaiting, notice := Unnoticed) else s.(sync := Idle)
    case StopWaitOver(_) => s.(sync := Saving(s.main), notice := Unnoticed)
    case PauseDone(ok) => if ok then s.(status := Paused, sync := Saving(s.main)) else BeginStop(s)
    case ResumeDone(ok) => if ok then s.(status := Status.Running, sync := Saving(s.main)) else s.(sync := Idle)
    case Saved(ok) => if ok then s.(main := s.sync.next, sync := Idle) else s.(sync := Idle)
    case ExitCalled => s.(onStop := Exit, changed := true)
    case UserCommand(m) => s.(main := m)
  }

  ghost predicate IsRun(ss: seq<State>, steps: seq<Step>) {
    && |ss| == |steps| + 1
    && (exists m :: ss[0] == Created(m))
    && forall i :: 0 <= i < |steps| ==> StepAt(ss, steps, i)
  }

  ghost predicate StepAt(ss: seq<State>, steps: seq<Step>, i: nat)
    requires i < |steps| < |ss|
  {
    Enabled(ss[i], steps[i]) && ss[i + 1] == Next(ss[i], steps[i])
  }

  // ----- safety in every interleaving, with every docker call free to fail

  ghost predicate Safe(s: State) {
    && (s.status == Stopped ==> s.onStop != Restart && s.loop != InMain && s.loop != Cooling && s.loop != Read(Restart))
    && (s.status == Shutdown <==> s.loop == Done)
    && (s.loop == Done ==> s.onStop == Exit)
    && (s.onStop == Restart ==> s.loop != Read(Sleep))
    && (s.loop == Read(Exit) ==> s.onStop == Exit)
    && (s.sync.Saving? && s.sync.next.Stopped? && !s.main.Stopped? ==>
          s.main.Stopping? && (s.status == Stopped || s.status == Shutdown))
  }

  /** The steps of the thread loop, as against those of the synchronizer, of exit and of users. */
  predicate OfLoop(a: Step) {
    a.LoopRead? || a.LoopAct? || a.LoopWake? || a.MainUp? || a.MainEnds? || a.CoolingOver?
  }

  lemma LoopStepKeepsSafe(s: State, a: Step)
    requires Safe(s) && Enabled(s, a) && OfLoop(a)
    ensures Safe(Next(s, a))
  {
  }

  lemma BeginKeepsSafe(s: State, now: PackageInfo.Time)
    requires Safe(s) && Enabled(s, SyncBegin(now))
    ensures Safe(Synchronize(s, now))
  {
  }

  lemma StepKeepsSafe(s: State, a: Step)
    requires Safe(s) && Enabled(s, a)
    ensures Safe(Next(s, a))
  {
    if OfLoop(a) {
      LoopStepKeepsSafe(s, a);
    } else if a.SyncBegin? {
      BeginKeepsSafe(s, a.now);
    }
  }

  lemma {:induction false} RunIsSafe(ss: seq<State>, steps: seq<Step>, i: nat)
    requires IsRun(ss, steps) && i < |ss|
    ensures Safe(ss[i])
  {
    if i > 0 {
      RunIsSafe(ss, steps, i - 1);
      RunStep(ss, steps, i - 1);
      StepKeepsSafe(ss[i - 1], steps[i - 1]);
    }
  }

  /** Whenever the manager says Stopped, main is not executing. */
  lemma StoppedMeansNotInMain(ss: seq<State>, steps: seq<Step>, i: nat)
    requires IsRun(ss, steps) && i < |ss| && ss[i].status == Stopped
    ensures ss[i].loop != InMain
  {
    RunIsSafe(ss, steps, i);
  }

  /** Other than by a user command, the stored status becomes Stopped only from Stopping, while main is not executing. */
  lemma StoredStopIsTrue(ss: seq<State>, steps: seq<Step>, i: nat)
    requires IsRun(ss, steps) && i < |steps|
    requires !ss[i].main.Stopped? && ss[i + 1].main.Stopped? && !steps[i].UserCommand?
    ensures ss[i].main.Stopping? && ss[i].loop != InMain && ss[i + 1].loop != InMain
  {
    RunIsSafe(ss, steps, i);
    RunStep(ss, steps, i);
    OnlySavingStores(ss[i], steps[i]);
  }

  lemma OnlySavingStores(s: State, a: Step)
    requires Enabled(s, a) && Next(s, a).main != s.main && !a.UserCommand?
    ensures a == Saved(true) && Next(s, a) == s.(main := s.sync.next, sync := Idle)
  {
  }

  /** After a crash the loop waits: it does nothing, and main is not entered, until the wait is over. */
  lemma {:induction false} CrashCools(ss: seq<State>, steps: seq<Step>, i: nat, j: nat)
    requires IsRun(ss, steps) && i < j < |ss| && steps[i] == MainEnds(true)
    requires forall k :: i < k < j ==> steps[k] != CoolingOver
    ensures ss[j].loop == Cooling
    decreases j
  {
    RunStep(ss, steps, j - 1);
    if j > i + 1 {
      CrashCools(ss, steps, i, j - 1);
    }
  }

  // ----- what is stored

  /** What a round of the synchronizer stores, by the two statuses it began with. */
  function StoredBy(status: Status, m: Main, now: PackageInfo.Time): Main {
    if status == Stopped && m.Stopping? then PackageInfo.Stopped
    else if status == Stopped && m.Restarting? then PackageInfo.MainStatus.Starting(true)
    else if status == Stopped && m.Running? then m.(started := now)
    else if status == Status.Running && m.Starting? then PackageInfo.Running(now, map[])
    else m
  }

  /** What a round does to the service, by call: which pairs of manager and stored status make it start, stop, pause or resume. */
  lemma CallsByPair(s: State, now: PackageInfo.Time)
    requires s.sync == Idle
    ensures var t := Synchronize(s, now);
            var up := s.status == Status.Starting || s.status == Status.Running;
            && (t.status == Status.Starting && s.status != Status.Starting <==> s.status == Stopped && (s.main.Starting? || s.main.Running?))
            && (t.sync == StopSignalling <==> up && (s.main.Stopped? || s.main.Stopping? || s.main.Restarting?))
            && (t.sync == StopResuming <==> s.status == Paused && (s.main.Stopped? || s.main.Stopping? || s.main.Restarting?))
            && (t.sync == Pausing <==> up && s.main.BackingUp?)
            && (t.sync == Resuming <==> s.status == Paused && (s.main.Starting? || s.main.Running?))
            && (t.onStop == Restart && s.onStop != Restart <==> s.status == Stopped && (s.main.Starting? || s.main.Running?) && s.onStop == Sleep)
            && (t.onStop == Sleep && s.onStop != Sleep <==> (t.sync == StopSignalling || t.sync == StopResuming) && s.onStop == Restart)
  {
  }

  /** In state s, in the middle of a round begun in state s0, what is to be stored is what the table says. */
  ghost predicate WillStore(s0: State, now: PackageInfo.Time, s: State) {
    s.main == s0.main && StoredBy(s0.status, s0.main, now) == if s.sync.Saving? then s.sync.next else s.main
  }

  lemma RoundBegins(s: State, a: Step)
    requires Enabled(s, a) && s.sync == Idle && Next(s, a).sync != Idle
    ensures a.SyncBegin? && WillStore(s, a.now, Next(s, a))
  {
  }

  lemma RoundGoesOn(s0: State, now: PackageInfo.Time, s: State, a: Step)
    requires WillStore(s0, now, s) && Enabled(s, a) && s.sync != Idle && Next(s, a).sync != Idle
    ensures WillStore(s0, now, Next(s, a))
  {
  }

  /** The step j began the round that state i is in. */
  ghost predicate RoundFrom(ss: seq<State>, steps: seq<Step>, j: nat, i: nat)
    requires |ss| == |steps| + 1
  {
    j < i < |ss| && steps[j].SyncBegin? && WillStore(ss[j], steps[j].now, ss[i])
  }

  lemma {:induction false} InARound(ss: seq<State>, steps: seq<Step>, i: nat)
    requires IsRun(ss, steps) && i < |ss| && ss[i].sync != Idle
    ensures exists j: nat :: RoundFrom(ss, steps, j, i)
    decreases i
  {
    if i > 0 {
      RunStep(ss, steps, i - 1);
      if ss[i - 1].sync == Idle {
        RoundBegins(ss[i - 1], steps[i - 1]);
        assert RoundFrom(ss, steps, i - 1, i);
      } else {
        InARound(ss, steps, i - 1);
        var j: nat :| RoundFrom(ss, steps, j, i - 1);
        RoundGoesOn(ss[j], steps[j].now, ss[i - 1], steps[i - 1]);
        assert RoundFrom(ss, steps, j, i);
      }
    }
  }

  /**
   * In every run, what a save writes is decided by the manager's and the stored status when the round
   * began: Stopped over Stopping, a restarting Starting over Restarting, and the time of the round
   * over Running, while the manager is stopped; Running without health over Starting while it runs;
   * and otherwise what was stored, to the last field.
   */
  lemma SavesAreDecided(ss: seq<State>, steps: seq<Step>, i: nat)
    requires IsRun(ss, steps) && i < |steps| && steps[i] == Saved(true)
    ensures exists j :: 0 <= j < i && steps[j].SyncBegin? && ss[j].main == ss[i].main
                        && ss[i + 1].main == StoredBy(ss[j].status, ss[j].main, steps[j].now)
  {
    RunStep(ss, steps, i);
    InARound(ss, steps, i);
    var j: nat :| RoundFrom(ss, steps, j, i);
  }

  // ----- exit

  /** What holds of every state t after a state s in which on_stop is Exit. */
  ghost predicate Leaving(s: State, t: State) {
    && t.onStop == Exit
    && (s.status == Shutdown ==> t.status == Shutdown && t.loop == Done)
    && (s.loop != InMain && s.loop != Read(Restart) ==> t.loop != InMain && t.loop != Read(Restart))
  }

  lemma LeavingStep(s: State, t: State, a: Step)
    requires Leaving(s, t) && Enabled(t, a)
    ensures Leaving(s, Next(t, a))
  {
  }

  lemma RunStep(ss: seq<State>, steps: seq<Step>, i: nat)
    requires IsRun(ss, steps) && i < |steps|
    ensures Enabled(ss[i], steps[i]) && ss[i + 1] == Next(ss[i], steps[i])
  {
    assert StepAt(ss, steps, i);
  }

  /** Once exit was called, on_stop stays Exit, Shutdown is final, and main is entered again only by a loop that had already read Restart. */
  lemma {:induction false} ExitIsFinal(ss: seq<State>, steps: seq<Step>, i: nat, j: nat)
    requires IsRun(ss, steps) && i <= j < |ss| && ss[i].onStop == Exit
    ensures Leaving(ss[i], ss[j])
    decreases j - i
  {
    if i == j {
      RunIsSafe(ss, steps, i);
    } else {
      ExitIsFinal(ss, steps, i, j - 1);
      RunStep(ss, steps, j - 1);
      LeavingStep(ss[i], ss[j - 1], steps[j - 1]);
    }
  }

  /** A call of exit takes hold at once. */
  lemma ExitTakesHold(ss: seq<State>, steps: seq<Step>, i: nat, j: nat)
    requires IsRun(ss, steps) && i < j < |ss| && steps[i] == ExitCalled
    ensures ss[j].onStop == Exit
  {
    RunStep(ss, steps, i);
    ExitIsFinal(ss, steps, i + 1, j);
  }

  /** A loop that waits, or is about to, will notice that exit was called. */
  ghost predicate Notices(s: State) {
    s.onStop == Exit && (s.loop == Sleeping || s.loop == Read(Sleep)) ==> s.changed
  }

  lemma StepKeepsNotices(s: State, a: Step)
    requires Notices(s) && Enabled(s, a)
    ensures Notices(Next(s, a))
  {
  }

  /** No call of exit is slept through: once it was made, a sleeping loop can wake. */
  lemma {:induction false} ExitIsNoticed(ss: seq<State>, steps: seq<Step>, i: nat)
    requires IsRun(ss, steps) && i < |ss|
    ensures Notices(ss[i])
    ensures ss[i].onStop == Exit && ss[i].loop == Sleeping ==> Enabled(ss[i], LoopWake)
  {
    if i > 0 {
      ExitIsNoticed(ss, steps, i - 1);
      RunStep(ss, steps, i - 1);
      StepKeepsNotices(ss[i - 1], steps[i - 1]);
    }
  }

  /**
   * Once exit was called, the loop's next arrival at the top reads Exit, it stays there
   * until it acts on it, and from then on the manager is shut down.
   */
  lemma {:induction false} ExitShutsDown(ss: seq<State>, steps: seq<Step>, i: nat, j: nat, k: nat)
    requires IsRun(ss, steps) && i <= j < k < |ss| && ss[i].onStop == Exit && steps[j] == LoopRead
    ensures if exists m :: j < m < k && steps[m] == LoopAct then ss[k].status == Shutdown && ss[k].loop == Done
            else ss[k].loop == Read(Exit)
    decreases k
  {
    RunStep(ss, steps, k - 1);
    if k == j + 1 {
      ExitIsFinal(ss, steps, i, j);
    } else {
      ExitShutsDown(ss, steps, i, j, k - 1);
    }
  }

  // ----- the wait inside stop

  /** During a stop the loop does not enter main, and what woke the wait tells how far the service got. */
  ghost predicate WaitSafe(s: State) {
    && (s.sync.StopResuming? || s.sync.StopSignalling? || s.sync.StopWaiting? ==> s.onStop != Restart && s.loop != Read(Restart))
    && (s.sync.StopWaiting? && s.notice == ByLoop ==> s.status == Stopped || s.status == Shutdown)
    && (s.sync.StopWaiting? && s.notice == ByMain ==> s.status != Stopped && s.status != Shutdown && (s.loop == InMain ==> s.up))
    && (s.up ==> s.loop == InMain)
  }

  lemma LoopStepKeepsWaitSafe(s: State, a: Step)
    requires Safe(s) && WaitSafe(s) && Enabled(s, a) && OfLoop(a)
    ensures WaitSafe(Next(s, a))
  {
  }

  lemma StepKeepsWaitSafe(s: State, a: Step)
    requires Safe(s) && WaitSafe(s) && Enabled(s, a)
    ensures WaitSafe(Next(s, a))
  {
    if OfLoop(a) {
      LoopStepKeepsWaitSafe(s, a);
    }
  }

  lemma {:induction false} RunIsWaitSafe(ss: seq<State>, steps: seq<Step>, i: nat)
    requires IsRun(ss, steps) && i < |ss|
    ensures WaitSafe(ss[i])
  {
    if i > 0 {
      RunIsWaitSafe(ss, steps, i - 1);
      RunIsSafe(ss, steps, i - 1);
      RunStep(ss, steps, i - 1);
      StepKeepsWaitSafe(ss[i - 1], steps[i - 1]);
    }
  }

  /** Without a timeout, the wait ends before the service is down exactly when main woke it by coming up. */
  lemma EarlyEndIsMainUp(ss: seq<State>, steps: seq<Step>, i: nat)
    requires IsRun(ss, steps) && i < |steps| && steps[i] == StopWaitOver(false)
    ensures ss[i].status != Stopped <==> ss[i].notice == ByMain
    ensures ss[i].loop == InMain ==> ss[i].notice == ByMain && ss[i].up
  {
    RunIsSafe(ss, steps, i);
    RunIsWaitSafe(ss, steps, i);
    RunStep(ss, steps, i);
  }

  /** The wait that begins at step i lasts until state j. */
  ghost predicate WaitsFrom(ss: seq<State>, steps: seq<Step>, i: nat, j: nat) {
    && IsRun(ss, steps) && i < j < |ss| && steps[i] == StopSignalled(true)
    && forall k :: i < k <= j ==> ss[k].sync == StopWaiting
  }

  /** Main will not wake the wait: it has come up already, or is not running. */
  ghost predicate NoWake(s: State) {
    s.notice != ByMain && (s.loop == InMain ==> s.up)
  }

  lemma NoWakeStep(s: State, a: Step)
    requires NoWake(s) && WaitSafe(s) && Enabled(s, a) && s.sync == StopWaiting
    ensures NoWake(Next(s, a))
  {
  }

  /** If main had come up, or was not running, when the wait began, then main does not wake it. */
  lemma {:induction false} UpIsNotNoticed(ss: seq<State>, steps: seq<Step>, i: nat, j: nat)
    requires WaitsFrom(ss, steps, i, j) && (ss[i].loop == InMain ==> ss[i].up)
    ensures NoWake(ss[j])
    decreases j
  {
    RunStep(ss, steps, j - 1);
    if j > i + 1 {
      UpIsNotNoticed(ss, steps, i, j - 1);
      RunIsWaitSafe(ss, steps, j - 1);
      NoWakeStep(ss[j - 1], steps[j - 1]);
    }
  }

  /**
   * Exactly when a wait can end before the service is down, other than by the timeout: when it
   * begins with main running and not yet up. Then two steps suffice; otherwise it never happens.
   */
  lemma WaitEndsDown(ss: seq<State>, steps: seq<Step>, i: nat, j: nat)
    requires WaitsFrom(ss, steps, i, j)
    ensures (ss[i].loop == InMain ==> ss[i].up) ==>
              (Enabled(ss[j], StopWaitOver(false)) ==> ss[j].status == Stopped)
    ensures ss[i].loop == InMain && !ss[i].up ==>
              && Enabled(ss[i + 1], MainUp)
              && var up := Next(ss[i + 1], MainUp);
                 Enabled(up, StopWaitOver(false)) && up.status != Stopped && up.loop == InMain
  {
    RunIsSafe(ss, steps, j);
    RunIsWaitSafe(ss, steps, j);
    RunIsSafe(ss, steps, i);
    RunStep(ss, steps, i);
    if ss[i].loop == InMain ==> ss[i].up {
      UpIsNotNoticed(ss, steps, i, j);
    }
  }
}

/** Left alone, the stored status and the manager come to agree. */
module Convergence {
  import opened Common
  import opened ServiceManager
  import PackageInfo

  /**
   * A step of a well-behaved environment: no exit and no user command, docker does what it
   * is asked when there is a container to do it to, main ends when told to, unless paused, and
   * a stop does not time out. Its wait may still end before the service is down.
   */
  predicate Good(s: State, a: Step) {
    && Enabled(s, a)
    && match a
       case MainEnds(_) => s.signalled && s.status != Paused
       case StopResumed(ok) => ok
       case StopSignalled(ok) => ok
       case StopWaitOver(timedOut) => !timedOut
       case PauseDone(ok) => ok <==> s.loop == InMain
       case ResumeDone(ok) => ok
       case Saved(ok) => ok
       case ExitCalled => false
       case UserCommand(_) => false
       case _ => true
  }

  /** What good steps and user commands keep, from the creation of the manager on. */
  ghost predicate Coherent(s: State) {
    && s.onStop != Exit && s.loop != Done && s.status != Shutdown
    && (s.loop.Read? ==> s.loop.action == s.onStop && !s.changed)
    && (s.status == Stopped ==> s.onStop == Sleep && s.loop != InMain && s.loop != Cooling)
    && (s.status == Status.Starting ==> s.loop != InMain && s.loop != Cooling)
    && (s.status == Paused ==> s.loop == InMain)
    && (s.signalled ==> s.loop == InMain && s.onStop == Sleep)
    && (s.loop == Cooling ==> s.onStop == Sleep)
    && (s.up ==> s.loop == InMain)
    && (s.sync != StopWaiting ==> s.notice == Unnoticed)
    && (s.notice == ByLoop ==> s.status == Stopped)
    && (s.notice == ByMain ==> s.status != Stopped)
    && (s.loop == Sleeping ==> s.status == Stopped || (s.status == Status.Starting && s.changed))
    && (s.loop == Sleeping && s.onStop == Restart ==> s.changed)
    && SyncCoherent(s)
  }

  ghost predicate SyncCoherent(s: State) {
    match s.sync
    case Idle => true
    case StopResuming => WantsDown(s.main) && s.onStop == Sleep && s.status == Paused
    case StopSignalling => (WantsDown(s.main) || s.main.BackingUp?) && s.onStop == Sleep && s.status != Paused
    case StopWaiting => (WantsDown(s.main) || s.main.BackingUp?) && s.onStop == Sleep && s.status != Paused && (s.loop == InMain ==> s.signalled)
    case Pausing => s.main.BackingUp? && s.status != Paused
    case Resuming => WantsUp(s.main) && s.status == Paused
    case Saving(next) =>
      || SameKind(next, s.main)
      || (s.main.Stopping? && next.Stopped? && s.status == Stopped)
      || (s.main.Restarting? && next.Starting? && s.status == Stopped)
      || (s.main.Starting? && next.Running?)
  }

  predicate SameKind(m: Main, n: Main) {
    && m.Stopped? == n.Stopped? && m.Stopping? == n.Stopping? && m.Restarting? == n.Restarting?
    && m.Starting? == n.Starting? && m.Running? == n.Running? && m.BackingUp? == n.BackingUp?
  }

  /** Where the service is heading. */
  datatype Mode = Down | Falling | Up | UpPaused | DyingPaused | Rising

  function ModeOf(s: State): Mode {
    if s.status == Stopped then Down
    else if s.loop == InMain then
      if s.status == Paused then (if s.signalled then DyingPaused else UpPaused)
      else if s.signalled then Falling else Up
    else if s.onStop == Restart then Rising
    else Falling
  }

  function Distance(mode: Mode, m: Main): nat {
    match m
    case Stopped => DistanceDown(mode)
    case Stopping => DistanceDown(mode) + 1
    case Running(_, _) => DistanceUp(mode)
    case Starting(_) => DistanceUp(mode) + 1
    case Restarting => DistanceDown(mode) + 4
    case BackingUp(_, _) => (match mode case Down => 0 case UpPaused => 0 case DyingPaused => 0 case Falling => 1 case Up => 1 case Rising => 2)
  }

  function DistanceDown(mode: Mode): nat {
    match mode case Down => 0 case Falling => 1 case Up => 2 case UpPaused => 2 case DyingPaused => 2 case Rising => 3
  }

  function DistanceUp(mode: Mode): nat {
    match mode case Up => 0 case Rising => 1 case UpPaused => 1 case Down => 2 case Falling => 3 case DyingPaused => 4
  }

  function SyncDistance(s: State): nat {
    match s.sync
    case Saving(next) => if !SameKind(next, s.main) then 2 else if s.status == Stopped then 8 else 20
    case Idle => if s.status == Stopped then 7 else 19
    case Pausing => 12
    case StopResuming => 11
    case StopSignalling => 10
    case Resuming => 10
    case StopWaiting => 9
  }

  function LoopDistance(s: State): nat {
    match s.loop
    case InMain => 5
    case Cooling => 4
    case Sleeping => if s.changed then 3 else 0
    case Top => 2
    case Read(_) => 1
    case Done => 0
  }

  /** Main comes up once in a run, and a wait that this ends is begun again. */
  function UpDistance(s: State): nat {
    (if s.loop == InMain && !s.up then 300 else 0) + (if s.notice == ByMain then 150 else 0)
  }

  function Rank(s: State): nat {
    1000 * Distance(ModeOf(s), s.main) + UpDistance(s) + 10 * SyncDistance(s) + LoopDistance(s)
  }

  /** Stopped/Stopped, Running/Running with main not about to end, or BackingUp with the service down or paused. */
  ghost predicate Settled(s: State) {
    || (s.main.Stopped? && s.status == Stopped)
    || (s.main.Running? && s.status == Status.Running && s.loop == InMain && !s.signalled)
    || (s.main.BackingUp? && (s.status == Stopped || s.status == Paused))
  }

  lemma CreatedIsCoherent(m: Main)
    ensures Coherent(Created(m))
  {
  }

  lemma LoopStepKeepsCoherent(s: State, a: Step)
    requires Coherent(s) && Good(s, a) && OfLoop(a)
    ensures Coherent(Next(s, a))
  {
  }

  lemma BeginKeepsCoherent(s: State, now: PackageInfo.Time)
    requires Coherent(s) && Good(s, SyncBegin(now))
    ensures Coherent(Synchronize(s, now))
  {
  }

  lemma GoodStepKeepsCoherent(s: State, a: Step)
    requires Coherent(s) && (Good(s, a) || (Enabled(s, a) && a.UserCommand?))
    ensures Coherent(Next(s, a))
  {
    if OfLoop(a) {
      LoopStepKeepsCoherent(s, a);
    } else if a.SyncBegin? {
      BeginKeepsCoherent(s, a.now);
    }
  }

  lemma LoopStepLowersRank(s: State, a: Step)
    requires Coherent(s) && Good(s, a) && Next(s, a) != s && OfLoop(a)
    ensures Rank(Next(s, a)) < Rank(s)
  {
    assert Next(s, a).main == s.main && Next(s, a).sync == s.sync;
    if a == LoopAct {
      assert s.status != Stopped ==> Distance(ModeOf(Next(s, a)), s.main) < Distance(ModeOf(s), s.main);
    } else {
      assert ModeOf(Next(s, a)) == ModeOf(s);
      assert if a == MainUp then UpDistance(Next(s, a)) < UpDistance(s) && LoopDistance(Next(s, a)) == LoopDistance(s)
             else UpDistance(Next(s, a)) <= UpDistance(s) && LoopDistance(Next(s, a)) < LoopDistance(s);
    }
  }

  lemma BeginLowersRank(s: State, now: PackageInfo.Time)
    requires Coherent(s) && Good(s, SyncBegin(now)) && Synchronize(s, now) != s
    ensures Rank(Synchronize(s, now)) < Rank(s)
  {
    var t := Synchronize(s, now);
    assert t.main == s.main && t.loop == s.loop && UpDistance(t) == UpDistance(s);
    assert Distance(ModeOf(t), t.main) < Distance(ModeOf(s), s.main)
        || (Distance(ModeOf(t), t.main) == Distance(ModeOf(s), s.main) && SyncDistance(t) < SyncDistance(s));
  }

  lemma WaitOverLowersRank(s: State)
    requires Coherent(s) && Good(s, StopWaitOver(false))
    ensures Rank(Next(s, StopWaitOver(false))) < Rank(s)
  {
    var t := Next(s, StopWaitOver(false));
    assert ModeOf(t) == ModeOf(s) && t.loop == s.loop && t.main == s.main;
    assert s.status == Stopped || s.notice == ByMain;
  }

  lemma SavedLowersRank(s: State)
    requires Coherent(s) && Good(s, Saved(true))
    ensures Rank(Next(s, Saved(true))) < Rank(s)
  {
    var t := Next(s, Saved(true));
    assert ModeOf(t) == ModeOf(s) && t.loop == s.loop && UpDistance(t) == UpDistance(s);
    if SameKind(t.main, s.main) {
      assert Distance(ModeOf(t), t.main) == Distance(ModeOf(s), s.main);
    } else {
      assert Distance(ModeOf(t), t.main) < Distance(ModeOf(s), s.main);
    }
  }

  lemma CallLowersRank(s: State, a: Step)
    requires Coherent(s) && Good(s, a) && (a.StopResumed? || a.StopSignalled? || a.PauseDone? || a.ResumeDone?)
    ensures Rank(Next(s, a)) < Rank(s)
  {
    var t := Next(s, a);
    assert t.loop == s.loop && UpDistance(t) <= UpDistance(s) && t.main == s.main;
    assert Distance(ModeOf(t), t.main) < Distance(ModeOf(s), s.main)
        || (Distance(ModeOf(t), t.main) == Distance(ModeOf(s), s.main) && SyncDistance(t) < SyncDistance(s));
  }

  /** Every good step that changes anything brings the end nearer. */
  lemma GoodStepLowersRank(s: State, a: Step)
    requires Coherent(s) && Good(s, a) && Next(s, a) != s
    ensures Rank(Next(s, a)) < Rank(s)
  {
    if OfLoop(a) {
      LoopStepLowersRank(s, a);
    } else if a.SyncBegin? {
      BeginLowersRank(s, a.now);
    } else if a.StopWaitOver? {
      WaitOverLowersRank(s);
    } else if a.Saved? {
      SavedLowersRank(s);
    } else {
      CallLowersRank(s, a);
    }
  }

  /** A good step that changes something, when there is one to take. */
  function Move(s: State): Step {
    match s.loop
    case Top => LoopRead
    case Read(_) => LoopAct
    case Cooling => CoolingOver
    case _ =>
      if s.loop == Sleeping && s.changed then LoopWake
      else if s.signalled && s.status != Paused then MainEnds(false)
      else match s.sync
           case Idle => SyncBegin(0)
           case StopResuming => StopResumed(true)
           case StopSignalling => StopSignalled(true)
           case StopWaiting => StopWaitOver(false)
           case Pausing => PauseDone(s.loop == InMain)
           case Resuming => ResumeDone(true)
           case Saving(_) => Saved(true)
  }

  /** As long as the pair is not settled, some good step changes something. */
  lemma UnsettledMoves(s: State)
    requires Coherent(s) && !Settled(s)
    ensures Good(s, Move(s)) && Next(s, Move(s)) != s
  {
  }

  /** The steps of a run that changed something. */
  ghost function Changes(ss: seq<State>): nat {
    if |ss| < 2 then 0 else Changes(ss[..|ss| - 1]) + (if ss[|ss| - 1] != ss[|ss| - 2] then 1 else 0)
  }

  ghost predicate GoodRun(ss: seq<State>, steps: seq<Step>) {
    && |ss| == |steps| + 1
    && forall i :: 0 <= i < |steps| ==> GoodAt(ss, steps, i)
  }

  ghost predicate GoodAt(ss: seq<State>, steps: seq<Step>, i: nat)
    requires i < |steps| < |ss|
  {
    Good(ss[i], steps[i]) && ss[i + 1] == Next(ss[i], steps[i])
  }

  /** No good step changes anything. */
  ghost predicate Quiet(s: State) {
    forall a :: Good(s, a) ==> Next(s, a) == s
  }

  lemma GoodRunStep(ss: seq<State>, steps: seq<Step>, i: nat)
    requires GoodRun(ss, steps) && i < |steps|
    ensures Good(ss[i], steps[i]) && ss[i + 1] == Next(ss[i], steps[i])
  {
    assert GoodAt(ss, steps, i);
  }

  lemma PrefixIsGood(ss: seq<State>, steps: seq<Step>, n: nat)
    requires GoodRun(ss, steps) && n <= |steps|
    ensures GoodRun(ss[..n + 1], steps[..n])
  {
    var ss', steps' := ss[..n + 1], steps[..n];
    forall i | 0 <= i < |steps'|
      ensures GoodAt(ss', steps', i)
    {
      assert GoodAt(ss, steps, i);
    }
  }

  lemma GoodStepAdvances(s: State, a: Step, t: State)
    requires Coherent(s) && Good(s, a) && t == Next(s, a)
    ensures Coherent(t) && (t == s || Rank(t) < Rank(s))
  {
    GoodStepKeepsCoherent(s, a);
    if t != s {
      GoodStepLowersRank(s, a);
    }
  }

  lemma QuietIsSettled(s: State)
    requires Coherent(s) && Quiet(s)
    ensures Settled(s)
  {
    if !Settled(s) {
      UnsettledMoves(s);
    }
  }

  /**
   * In every good run, whatever the interleaving, the number of steps that change anything is
   * bounded by the rank of the first state, and if the last state admits no further change
   * then the stored status and the manager agree.
   */
  lemma {:induction false} GoodRunsSettle(ss: seq<State>, steps: seq<Step>)
    requires GoodRun(ss, steps) && Coherent(ss[0])
    ensures Coherent(ss[|ss| - 1])
    ensures Rank(ss[|ss| - 1]) + Changes(ss) <= Rank(ss[0])
    ensures Quiet(ss[|ss| - 1]) ==> Settled(ss[|ss| - 1])
    decreases |ss|
  {
    var last := ss[|ss| - 1];
    if steps != [] {
      var n := |steps| - 1;
      PrefixIsGood(ss, steps, n);
      GoodRunsSettle(ss[..n + 1], steps[..n]);
      GoodRunStep(ss, steps, n);
      GoodStepAdvances(ss[n], steps[n], last);
      assert ss[..|ss| - 1] == ss[..n + 1];
    }
    if Quiet(last) {
      QuietIsSettled(last);
    }
  }

  /** A settled pair stays settled. */
  lemma SettledStays(s: State, a: Step)
    requires Coherent(s) && Good(s, a) && Settled(s)
    ensures Settled(Next(s, a))
  {
  }

  // ----- fair runs

  /** Along a good run the state is the same or its rank is lower. */
  lemma {:induction false} RankFalls(ss: seq<State>, steps: seq<Step>, i: nat, j: nat)
    requires GoodRun(ss, steps) && i <= j < |ss| && Coherent(ss[i])
    ensures Coherent(ss[j]) && (ss[j] == ss[i] || Rank(ss[j]) < Rank(ss[i]))
    ensures Settled(ss[i]) ==> Settled(ss[j])
    decreases j
  {
    if i < j {
      RankFalls(ss, steps, i, j - 1);
      GoodRunStep(ss, steps, j - 1);
      GoodStepAdvances(ss[j - 1], steps[j - 1], ss[j]);
      if Settled(ss[i]) {
        SettledStays(ss[j - 1], steps[j - 1]);
      }
    }
  }

  /** Between i and j the state changes, or the step is taken that was there to take at i. */
  ghost predicate Stirs(ss: seq<State>, steps: seq<Step>, i: nat, j: nat)
    requires |ss| == |steps| + 1
  {
    i <= j < |ss| && exists m :: i <= m < j && (ss[m] != ss[i] || steps[m] == Move(ss[i]))
  }

  lemma StirringLowersRank(ss: seq<State>, steps: seq<Step>, i: nat, j: nat)
    requires GoodRun(ss, steps) && Stirs(ss, steps, i, j) && Coherent(ss[i]) && !Settled(ss[i])
    ensures Rank(ss[j]) < Rank(ss[i])
  {
    var m :| i <= m < j && (ss[m] != ss[i] || steps[m] == Move(ss[i]));
    if ss[m] != ss[i] {
      ChangeLowersRank(ss, steps, i, m, j);
    } else {
      MoveChanges(ss, steps, m);
      ChangeLowersRank(ss, steps, i, m + 1, j);
    }
  }

  lemma ChangeLowersRank(ss: seq<State>, steps: seq<Step>, i: nat, m: nat, j: nat)
    requires GoodRun(ss, steps) && i <= m <= j < |ss| && Coherent(ss[i]) && ss[m] != ss[i]
    ensures Rank(ss[j]) < Rank(ss[i])
  {
    RankFalls(ss, steps, i, m);
    RankFalls(ss, steps, m, j);
  }

  lemma MoveChanges(ss: seq<State>, steps: seq<Step>, m: nat)
    requires GoodRun(ss, steps) && m < |steps| && Coherent(ss[m]) && !Settled(ss[m]) && steps[m] == Move(ss[m])
    ensures ss[m + 1] != ss[m]
  {
    UnsettledMoves(ss[m]);
    GoodRunStep(ss, steps, m);
  }

  /** A fair run: it falls into blocks in each of which something stirs. */
  ghost predicate FairRun(ss: seq<State>, steps: seq<Step>, cuts: seq<nat>) {
    && GoodRun(ss, steps) && |cuts| > 0 && cuts[0] < |ss|
    && forall k {:trigger cuts[k]} :: 0 < k < |cuts| ==> Stirs(ss, steps, cuts[k - 1], cuts[k])
  }

  lemma {:induction false} BlocksLowerRank(ss: seq<State>, steps: seq<Step>, cuts: seq<nat>, k: nat)
    requires FairRun(ss, steps, cuts) && k < |cuts| && Coherent(ss[0])
    ensures cuts[k] < |ss| && Coherent(ss[cuts[k]])
    ensures Settled(ss[cuts[k]]) || Rank(ss[cuts[k]]) + k <= Rank(ss[0])
  {
    if k == 0 {
      RankFalls(ss, steps, 0, cuts[0]);
    } else {
      BlocksLowerRank(ss, steps, cuts, k - 1);
      assert Stirs(ss, steps, cuts[k - 1], cuts[k]);
      RankFalls(ss, steps, cuts[k - 1], cuts[k]);
      if !Settled(ss[cuts[k - 1]]) {
        StirringLowersRank(ss, steps, cuts[k - 1], cuts[k]);
      }
    }
  }

  /** A fair run of more blocks than the rank of its first state ends with the stored status and the manager in agreement. */
  lemma FairRunsSettle(ss: seq<State>, steps: seq<Step>, cuts: seq<nat>)
    requires FairRun(ss, steps, cuts) && |cuts| > Rank(ss[0]) + 1 && Coherent(ss[0])
    ensures Settled(ss[|ss| - 1])
  {
    var k := |cuts| - 1;
    BlocksLowerRank(ss, steps, cuts, k);
    RankFalls(ss, steps, cuts[k], |ss| - 1);
  }

  // ----- a stop that ends its wait early

  predicate Mild(s: State, a: Step) {
    Good(s, a) || (Enabled(s, a) && a.UserCommand?)
  }

  /** A run of good steps and user commands that ends in `last`. */
  ghost predicate Leads(ss: seq<State>, steps: seq<Step>, last: State) {
    && IsRun(ss, steps) && ss[|steps|] == last
    && forall i {:trigger steps[i]} :: 0 <= i < |steps| ==> Mild(ss[i], steps[i])
  }

  ghost predicate Reached(last: State) {
    exists ss, steps :: Leads(ss, steps, last)
  }

  lemma CreatedIsReached(m: Main)
    ensures Reached(Created(m))
  {
    assert Leads([Created(m)], [], Created(m));
  }

  lemma RunExtends(ss: seq<State>, steps: seq<Step>, a: Step)
    requires IsRun(ss, steps) && Enabled(ss[|steps|], a)
    ensures IsRun(ss + [Next(ss[|steps|], a)], steps + [a])
  {
    var ss', steps' := ss + [Next(ss[|steps|], a)], steps + [a];
    forall i | 0 <= i < |steps'|
      ensures StepAt(ss', steps', i)
    {
      if i < |steps| {
        RunStep(ss, steps, i);
      }
    }
  }

  lemma Extend(last: State, a: Step)
    requires Reached(last) && Mild(last, a)
    ensures Reached(Next(last, a))
  {
    var ss, steps :| Leads(ss, steps, last);
    RunExtends(ss, steps, a);
    assert Leads(ss + [Next(last, a)], steps + [a], Next(last, a));
  }

  /** A service is started, and the loop is told. */
  lemma LoopTold(starting: Main)
    requires starting.Starting?
    ensures Reached(State(Status.Starting, Restart, true, starting, Sleeping, Saving(starting), false, false, Unnoticed))
  {
    var s0 := Created(PackageInfo.Stopped);
    CreatedIsReached(PackageInfo.Stopped);
    Extend(s0, LoopRead);
    Extend(s0.(loop := Read(Sleep)), LoopAct);
    var s1 := s0.(loop := Sleeping);
    Extend(s1, UserCommand(starting));
    Extend(s1.(main := starting), SyncBegin(0));
  }

  /** Main is entered. */
  lemma MainEntered(starting: Main)
    requires starting.Starting?
    ensures Reached(State(Status.Running, Restart, false, starting, InMain, Idle, false, false, Unnoticed))
  {
    LoopTold(starting);
    var s0 := State(Status.Starting, Restart, true, starting, Sleeping, Saving(starting), false, false, Unnoticed);
    Extend(s0, Saved(true));
    var s1 := s0.(sync := Idle);
    Extend(s1, LoopWake);
    var s2 := s1.(loop := Top);
    Extend(s2, LoopRead);
    Extend(s2.(loop := Read(Restart), changed := false), LoopAct);
  }

  /** The service is told to stop before main has come up. */
  lemma StopBegun(starting: Main)
    requires starting.Starting?
    ensures Reached(State(Status.Running, Sleep, true, PackageInfo.Stopping, InMain, StopWaiting, true, false, Unnoticed))
  {
    MainEntered(starting);
    var s1 := State(Status.Running, Restart, false, starting, InMain, Idle, false, false, Unnoticed);
    Extend(s1, UserCommand(PackageInfo.Stopping));
    var s2 := s1.(main := PackageInfo.Stopping);
    Extend(s2, SyncBegin(0));
    Extend(s2.(onStop := Sleep, changed := true, sync := StopSignalling), StopSignalled(true));
  }

  /**
   * A run that comes to the wait inside stop, where main comes up and the wait is over with main
   * running, although every docker call was a success and nothing timed out.
   */
  lemma StopCanEndEarly() returns (s: State)
    ensures Reached(s) && s.sync == StopWaiting && s.loop == InMain && s.main.Stopping?
    ensures Good(s, StopWaitOver(false)) && Next(s, StopWaitOver(false)).loop == InMain
  {
    StopBegun(PackageInfo.MainStatus.Starting(false));
    var waiting := State(Status.Running, Sleep, true, PackageInfo.Stopping, InMain, StopWaiting, true, false, Unnoticed);
    Extend(waiting, MainUp);
    s := waiting.(up := true, notice := ByMain);
  }
}
