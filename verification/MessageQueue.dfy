/** ControllableMessageQueueThread as a state machine: one step for each wait, lock section, event or functor run,
    taken in any order by any number of runOnQueue callers, the worker, one quitting thread and one dispatching thread. */
module MessageQueues {
  // Functors are told apart by number only.
  type Functor = nat

  datatype Mode = AutoDispatch | ManualDispatch

  datatype Life = Running | QuitSynchronousHasBeenCalled | WorkerThreadHasExited

  datatype Owner = Free | ByWorker | ByCall(id: nat)

  // Where a call of runOnQueue is; `at` is its place in the order of pushes.
  datatype CallPc = Entered | Admitted | Inside | Pushed(at: nat) | Signalled(at: nat) | Returned(at: nat) | Refused {
    function Order(): nat {
      match this
      case Entered => 0
      case Admitted => 1
      case Inside => 2
      case Pushed(_) => 3
      case Signalled(_) => 4
      case _ => 5
    }

    /** runOnQueue has returned to its caller. */
    predicate Finished() {
      Returned? || Refused?
    }
  }

  datatype Call = Call(functor: Functor, pc: CallPc) {
    predicate HoldsLock() {
      pc.Inside? || pc.Pushed? || pc.Signalled?
    }

    predicate Placed() {
      pc.Pushed? || pc.Signalled? || pc.Returned?
    }
  }

  datatype Worker =
    | LoopTest
    | Waiting
    | Woken
    | Locked
    | Popped(functor: Functor)
    | MustSignal(functor: Functor)
    | MustUnlock(functor: Functor)
    | InFunctor(functor: Functor)
    | Ran
    | QuitSeen
    | Exited
    | Failed
  {
    predicate HoldsLock() {
      Locked? || Popped? || MustSignal? || MustUnlock?
    }

    /** The event was taken for a functor that has not left the queue yet. */
    predicate HoldsWakeUp() {
      Woken? || Locked?
    }

    predicate Carries() {
      Popped? || MustSignal? || MustUnlock? || InFunctor?
    }

    /** Between taking the event and reporting the item as processed. */
    predicate Busy() {
      HoldsWakeUp() || Carries() || Ran?
    }

    function InFlight(): seq<Functor> {
      if Carries() then [functor] else []
    }
  }

  // quitSynchronous, called from a thread other than the worker.
  datatype Quitter = NotCalled | StateSet | QuitSignalled | Joined | Done

  // DispatchOne without a time limit.
  datatype Dispatcher = Idle | AwaitPresent | HoldsPresent | AwaitProcessed

  // The four events are auto-reset. The last three fields are histories: all pushes, all functors run to the end,
  // and the number of DispatchOne calls that returned true.
  datatype State = State(
    mode: Mode,
    life: Life,
    queue: seq<Functor>,
    owner: Owner,
    functorAvailable: bool,
    quitRequested: bool,
    itemPresent: bool,
    itemProcessed: bool,
    looping: bool,
    worker: Worker,
    calls: seq<Call>,
    quitter: Quitter,
    dispatcher: Dispatcher,
    pushed: seq<Functor>,
    ran: seq<Functor>,
    dispatched: nat)

  function Init(mode: Mode): State {
    State(mode, Running, [], Free, false, false, false, false, true, LoopTest, [], NotCalled, Idle, [], [], 0)
  }

  // ---------- steps; a thread that has to wait leaves the state as it is ----------

  function SignalDispatch(s: State): (t: State)
    ensures t == s.(functorAvailable := t.functorAvailable, itemPresent := t.itemPresent)
  {
    match s.mode
    case AutoDispatch => s.(functorAvailable := true)
    case ManualDispatch => s.(itemPresent := true)
  }

  function At(s: State, i: nat, pc: CallPc): State
    requires i < |s.calls|
  {
    s.(calls := s.calls[i := s.calls[i].(pc := pc)])
  }

  /** A placed call keeps its place, and a newly placed one goes behind all earlier pushes. */
  ghost predicate KeepsPlaces(before: seq<Call>, after: seq<Call>, pushed: nat) {
    && |before| <= |after|
    && (forall i :: 0 <= i < |before| && before[i].Placed() ==>
          after[i].Placed() && after[i].pc.at == before[i].pc.at && after[i].functor == before[i].functor)
    && (forall i :: 0 <= i < |after| && after[i].Placed() && (i >= |before| || !before[i].Placed()) ==> pushed <= after[i].pc.at)
  }

  /** Histories are extended, finished calls keep their outcome, and the mode is fixed. */
  ghost predicate Grows(s: State, t: State) {
    && s.mode == t.mode
    && s.ran <= t.ran && s.pushed <= t.pushed && s.dispatched <= t.dispatched
    && KeepsPlaces(s.calls, t.calls, |s.pushed|)
    && (forall i :: 0 <= i < |s.calls| && s.calls[i].pc.Returned? ==> t.calls[i] == s.calls[i])
  }

  /** A step of one call: the call moves on, and no other thread does. */
  ghost predicate MovesCall(s: State, t: State, i: nat)
    requires i < |s.calls|
  {
    && i < |t.calls| && t.calls == s.calls[i := t.calls[i]] && s.calls[i].pc.Order() < t.calls[i].pc.Order()
    && t.worker == s.worker && t.looping == s.looping && t.quitter == s.quitter && t.dispatcher == s.dispatcher
    && t.ran == s.ran && |t.queue| == |s.queue| + One(s.calls[i].pc.Inside?)
  }

  /** A step of the worker: no other thread moves. */
  ghost predicate MovesWorker(s: State, t: State) {
    t.worker != s.worker && t.calls == s.calls && t.quitter == s.quitter && t.dispatcher == s.dispatcher
  }

  // runOnQueue.

  function Admit(s: State, i: nat): (t: State)
    requires i < |s.calls| && s.calls[i].pc.Entered?
    ensures Grows(s, t) && MovesCall(s, t, i)
  {
    At(s, i, if s.life == Running then Admitted else Refused)
  }

  function Enter(s: State, i: nat): (t: State)
    requires i < |s.calls| && s.calls[i].pc.Admitted?
    ensures Grows(s, t) && MovesCall(s, t, i)
  {
    At(s.(owner := ByCall(i)), i, Inside)
  }

  function Push(s: State, i: nat): (t: State)
    requires i < |s.calls| && s.calls[i].pc.Inside?
    ensures Grows(s, t) && MovesCall(s, t, i)
  {
    var f := s.calls[i].functor;
    At(s.(queue := s.queue + [f], pushed := s.pushed + [f]), i, Pushed(|s.pushed|))
  }

  function Announce(s: State, i: nat): (t: State)
    requires i < |s.calls| && s.calls[i].pc.Pushed?
    ensures Grows(s, t) && MovesCall(s, t, i)
  {
    At(SignalDispatch(s), i, Signalled(s.calls[i].pc.at))
  }

  function Leave(s: State, i: nat): (t: State)
    requires i < |s.calls| && s.calls[i].pc.Signalled?
    ensures Grows(s, t) && MovesCall(s, t, i)
  {
    At(s.(owner := Free), i, Returned(s.calls[i].pc.at))
  }

  function CallStep(s: State, i: nat): State {
    if i >= |s.calls| then s
    else
      match s.calls[i].pc
      case Entered => Admit(s, i)
      case Admitted => if s.owner == Free then Enter(s, i) else s
      case Inside => Push(s, i)
      case Pushed(_) => Announce(s, i)
      case Signalled(_) => Leave(s, i)
      case _ => s
  }

  // The worker.

  function TestLoop(s: State): (t: State)
    requires s.worker == LoopTest
    ensures Grows(s, t) && MovesWorker(s, t)
  {
    s.(worker := if s.looping then Waiting else Exited)
  }

  function Wake(s: State): (t: State)
    requires s.worker == Waiting
    ensures Grows(s, t) && MovesWorker(s, t)
  {
    s.(functorAvailable := false, worker := Woken)
  }

  function SeeQuit(s: State): (t: State)
    requires s.worker == Waiting
    ensures Grows(s, t) && MovesWorker(s, t)
  {
    s.(quitRequested := false, worker := QuitSeen)
  }

  function Acquire(s: State): (t: State)
    requires s.worker == Woken
    ensures Grows(s, t) && MovesWorker(s, t)
  {
    s.(owner := ByWorker, worker := Locked)
  }

  /** Popping an empty queue is a failed assertion. */
  function Pop(s: State): (t: State)
    requires s.worker == Locked
    ensures Grows(s, t) && MovesWorker(s, t)
  {
    if s.queue == [] then s.(worker := Failed) else s.(queue := s.queue[1..], worker := Popped(s.queue[0]))
  }

  function Decide(s: State, f: Functor): (t: State)
    requires s.worker == Popped(f)
    ensures Grows(s, t) && MovesWorker(s, t)
  {
    s.(worker := if s.queue != [] then MustSignal(f) else MustUnlock(f))
  }

  function SignalAgain(s: State, f: Functor): (t: State)
    requires s.worker == MustSignal(f)
    ensures Grows(s, t) && MovesWorker(s, t)
  {
    SignalDispatch(s).(worker := MustUnlock(f))
  }

  function Release(s: State, f: Functor): (t: State)
    requires s.worker == MustUnlock(f)
    ensures Grows(s, t) && MovesWorker(s, t)
  {
    s.(owner := Free, worker := InFunctor(f))
  }

  function RunFunctor(s: State, f: Functor): (t: State)
    requires s.worker == InFunctor(f)
    ensures Grows(s, t) && MovesWorker(s, t)
  {
    s.(ran := s.ran + [f], worker := Ran)
  }

  function Report(s: State): (t: State)
    requires s.worker == Ran
    ensures Grows(s, t) && MovesWorker(s, t)
  {
    s.(itemProcessed := true, worker := LoopTest)
  }

  function StopLoop(s: State): (t: State)
    requires s.worker == QuitSeen
    ensures Grows(s, t) && MovesWorker(s, t)
  {
    s.(looping := false, worker := LoopTest)
  }

  /** WaitForMultipleObjects prefers FunctorAvailable to QuitRequested. */
  function WorkerStep(s: State): State {
    match s.worker
    case LoopTest => TestLoop(s)
    case Waiting => if s.functorAvailable then Wake(s) else if s.quitRequested then SeeQuit(s) else s
    case Woken => if s.owner == Free then Acquire(s) else s
    case Locked => Pop(s)
    case Popped(f) => Decide(s, f)
    case MustSignal(f) => SignalAgain(s, f)
    case MustUnlock(f) => Release(s, f)
    case InFunctor(f) => RunFunctor(s, f)
    case Ran => Report(s)
    case QuitSeen => StopLoop(s)
    case _ => s
  }

  // quitSynchronous and DispatchOne.

  function QuitStep(s: State): State {
    match s.quitter
    case StateSet => s.(quitRequested := true, quitter := QuitSignalled)
    case QuitSignalled => if s.worker == Exited then s.(quitter := Joined) else s
    case Joined => s.(life := WorkerThreadHasExited, quitter := Done)
    case _ => s
  }

  function TakePresent(s: State): (t: State)
    ensures Grows(s, t)
  {
    s.(itemPresent := false, dispatcher := HoldsPresent)
  }

  function Forward(s: State): (t: State)
    ensures Grows(s, t)
  {
    s.(functorAvailable := true, dispatcher := AwaitProcessed)
  }

  function ReturnTrue(s: State): (t: State)
    ensures Grows(s, t)
  {
    s.(itemProcessed := false, dispatcher := Idle, dispatched := s.dispatched + 1)
  }

  function DispatchStep(s: State): State {
    match s.dispatcher
    case AwaitPresent => if s.itemPresent then TakePresent(s) else s
    case HoldsPresent => Forward(s)
    case AwaitProcessed => if s.itemProcessed then ReturnTrue(s) else s
    case Idle => s
  }

  datatype Action =
    | Begin(functor: Functor)
    | BeginQuit
    | BeginDispatch
    | StepCall(id: nat)
    | StepWorker
    | StepQuit
    | StepDispatch
  {
    /** Not the start of a new call. */
    predicate Internal() {
      StepCall? || StepWorker? || StepQuit? || StepDispatch?
    }
  }

  function Step(s: State, a: Action): State {
    match a
    case Begin(f) => s.(calls := s.calls + [Call(f, Entered)])
    case BeginQuit => if s.quitter == NotCalled then s.(life := QuitSynchronousHasBeenCalled, quitter := StateSet) else s
    case BeginDispatch =>
      if s.mode == ManualDispatch && s.dispatcher == Idle then s.(dispatcher := AwaitPresent) else s
    case StepCall(i) => CallStep(s, i)
    case StepWorker => WorkerStep(s)
    case StepQuit => QuitStep(s)
    case StepDispatch => DispatchStep(s)
  }

  /** The state after a schedule. */
  function Run(s: State, actions: seq<Action>): State
    decreases |actions|
  {
    if actions == [] then s else Step(Run(s, actions[..|actions| - 1]), actions[|actions| - 1])
  }

  // ---------- the invariant ----------

  /** Mutual exclusion: the mutex is held exactly by the thread that is inside the critical section. */
  ghost predicate LockInv(s: State) {
    && (s.owner == ByWorker <==> s.worker.HoldsLock())
    && (s.owner.ByCall? ==> s.owner.id < |s.calls| && s.calls[s.owner.id].HoldsLock())
    && (forall i :: 0 <= i < |s.calls| && s.calls[i].HoldsLock() ==> s.owner == ByCall(i))
  }

  /** First in, first out, each exactly once. */
  predicate Fifo(s: State) {
    s.ran + s.worker.InFlight() + s.queue == s.pushed
  }

  ghost predicate CallsInv(s: State) {
    && (forall i :: 0 <= i < |s.calls| && s.calls[i].Placed() ==>
          s.calls[i].pc.at < |s.pushed| && s.pushed[s.calls[i].pc.at] == s.calls[i].functor)
    && (forall i :: 0 <= i < |s.calls| && s.calls[i].pc.Pushed? ==> s.calls[i].pc.at == |s.pushed| - 1)
    && (forall i, j :: 0 <= i < j < |s.calls| && s.calls[i].Placed() && s.calls[j].Placed() ==>
          s.calls[i].pc.at != s.calls[j].pc.at)
  }

  /** A functor that is in the queue but not announced yet; its caller holds the mutex. */
  function Unannounced(s: State): nat {
    if s.owner.ByCall? && s.owner.id < |s.calls| && s.calls[s.owner.id].pc.Pushed? then 1 else 0
  }

  function One(b: bool): nat {
    if b then 1 else 0
  }

  /** Signals that stand for a functor in the queue. */
  function Tokens(s: State): nat {
    One(s.functorAvailable) + One(s.itemPresent) + One(s.dispatcher == HoldsPresent) + One(s.worker.HoldsWakeUp())
  }

  /** Every token has a functor of its own behind it. */
  predicate TokensCovered(s: State) {
    && Tokens(s) + Unannounced(s) <= |s.queue|
    && (s.worker.MustSignal? ==> s.queue != [])
  }

  /** An announced functor in the queue has a token, or the worker is about to make one. */
  predicate NoLostWakeUp(s: State) {
    |s.queue| > Unannounced(s) ==> Tokens(s) > 0 || s.worker.Popped? || s.worker.MustSignal?
  }

  predicate QuitInv(s: State) {
    && (s.life == Running <==> s.quitter == NotCalled)
    && (!s.looping ==> s.worker == LoopTest || s.worker == Exited)
    && (s.worker == Exited ==> !s.looping)
    && (s.quitRequested ==> s.quitter == QuitSignalled && s.looping && s.worker != QuitSeen)
    && (!s.looping || s.worker == QuitSeen ==> s.quitter != NotCalled && s.quitter != StateSet)
    && (s.quitter == QuitSignalled ==> s.quitRequested || !s.looping || s.worker == QuitSeen)
    && (s.quitter == Joined || s.quitter == Done ==> s.worker == Exited)
  }

  /** Manual mode: one dispatch at a time, handed from the event to the worker to the other event. */
  predicate DispatchInv(s: State) {
    match s.mode
    case AutoDispatch => s.dispatcher == Idle && !s.itemPresent
    case ManualDispatch =>
      && One(s.functorAvailable) + One(s.worker.Busy()) + One(s.itemProcessed) == One(s.dispatcher == AwaitProcessed)
      && |s.ran| == s.dispatched + One(s.worker == Ran || s.itemProcessed)
  }

  ghost predicate Inv(s: State) {
    && LockInv(s) && Fifo(s) && CallsInv(s) && TokensCovered(s) && NoLostWakeUp(s) && QuitInv(s) && DispatchInv(s)
    && s.worker != Failed
  }

  // ---------- every step keeps it ----------

  lemma AdmitKeeps(s: State, i: nat)
    requires Inv(s) && i < |s.calls| && s.calls[i].pc.Entered?
    ensures Inv(Admit(s, i))
  {
    hide Grows, MovesCall, MovesWorker;
  }

  lemma EnterKeeps(s: State, i: nat)
    requires Inv(s) && i < |s.calls| && s.calls[i].pc.Admitted? && s.owner == Free
    ensures Inv(Enter(s, i))
  {
    hide Grows, MovesCall, MovesWorker;
  }

  lemma PushKeeps(s: State, i: nat)
    requires Inv(s) && i < |s.calls| && s.calls[i].pc.Inside?
    ensures Inv(Push(s, i))
  {
    hide Grows, MovesCall, MovesWorker;
  }

  lemma AnnounceKeeps(s: State, i: nat)
    requires Inv(s) && i < |s.calls| && s.calls[i].pc.Pushed?
    ensures Inv(Announce(s, i))
  {
    hide Grows, MovesCall, MovesWorker;
    hide SignalDispatch;
    var t := Announce(s, i);
    assert LockInv(t) && CallsInv(t) && QuitInv(t) && Fifo(t);
    AnnounceCounts(s, i);
    hide LockInv, CallsInv, QuitInv, Fifo, TokensCovered, NoLostWakeUp, DispatchInv, Announce;
  }

  lemma AnnounceCounts(s: State, i: nat)
    requires Inv(s) && i < |s.calls| && s.calls[i].pc.Pushed?
    ensures var t := Announce(s, i);
            TokensCovered(t) && NoLostWakeUp(t) && DispatchInv(t) && t.worker == s.worker
  {
    hide Grows, MovesCall, MovesWorker;
    var t := Announce(s, i);
    assert Unannounced(s) == 1 && Unannounced(t) == 0;
    hide LockInv, CallsInv, Unannounced, QuitInv, Fifo;
  }

  lemma LeaveKeeps(s: State, i: nat)
    requires Inv(s) && i < |s.calls| && s.calls[i].pc.Signalled?
    ensures Inv(Leave(s, i))
  {
    hide Grows, MovesCall, MovesWorker;
  }

  lemma CallKeeps(s: State, i: nat)
    requires Inv(s) && i < |s.calls|
    ensures Inv(CallStep(s, i))
  {
    hide Inv, Grows, MovesCall, Admit, Enter, Push, Announce, Leave;
    match s.calls[i].pc
    case Entered => AdmitKeeps(s, i);
    case Admitted => if s.owner == Free { EnterKeeps(s, i); }
    case Inside => PushKeeps(s, i);
    case Pushed(_) => AnnounceKeeps(s, i);
    case Signalled(_) => LeaveKeeps(s, i);
    case _ =>
  }

  lemma TestLoopKeeps(s: State)
    requires Inv(s) && s.worker == LoopTest
    ensures Inv(TestLoop(s))
  {
    hide Grows, MovesCall, MovesWorker;
  }

  lemma WakeKeeps(s: State)
    requires Inv(s) && s.worker == Waiting && s.functorAvailable
    ensures Inv(Wake(s))
  {
    hide Grows, MovesCall, MovesWorker;
  }

  lemma SeeQuitKeeps(s: State)
    requires Inv(s) && s.worker == Waiting && !s.functorAvailable && s.quitRequested
    ensures Inv(SeeQuit(s))
  {
    hide Grows, MovesCall, MovesWorker;
  }

  lemma AcquireKeeps(s: State)
    requires Inv(s) && s.worker == Woken && s.owner == Free
    ensures Inv(Acquire(s))
  {
    hide Grows, MovesCall, MovesWorker;
  }

  lemma PopKeeps(s: State)
    requires Inv(s) && s.worker == Locked
    ensures Inv(Pop(s))
  {
    hide Grows, MovesCall, MovesWorker;
  }

  lemma ReportKeeps(s: State)
    requires Inv(s) && s.worker == Ran
    ensures Inv(Report(s))
  {
    hide Grows, MovesCall, MovesWorker;
  }

  lemma StopLoopKeeps(s: State)
    requires Inv(s) && s.worker == QuitSeen
    ensures Inv(StopLoop(s))
  {
    hide Grows, MovesCall, MovesWorker;
  }

  lemma DecideKeeps(s: State, f: Functor)
    requires Inv(s) && s.worker == Popped(f)
    ensures Inv(Decide(s, f))
  {
    hide Grows, MovesCall, MovesWorker;
  }

  lemma SignalAgainKeeps(s: State, f: Functor)
    requires Inv(s) && s.worker == MustSignal(f)
    ensures Inv(SignalAgain(s, f))
  {
    hide Grows, MovesCall, MovesWorker;
  }

  lemma ReleaseKeeps(s: State, f: Functor)
    requires Inv(s) && s.worker == MustUnlock(f)
    ensures Inv(Release(s, f))
  {
    hide Grows, MovesCall, MovesWorker;
  }

  lemma RunFunctorKeeps(s: State, f: Functor)
    requires Inv(s) && s.worker == InFunctor(f)
    ensures Inv(RunFunctor(s, f))
  {
    hide Grows, MovesCall, MovesWorker;
  }

  lemma WorkerKeeps(s: State)
    requires Inv(s)
    ensures Inv(WorkerStep(s))
  {
    hide Inv, Grows, MovesWorker, TestLoop, Wake, SeeQuit, Acquire, Pop, Decide, SignalAgain, Release, RunFunctor, Report, StopLoop;
    match s.worker
    case LoopTest => TestLoopKeeps(s);
    case Waiting =>
      if s.functorAvailable { WakeKeeps(s); } else if s.quitRequested { SeeQuitKeeps(s); }
    case Woken => if s.owner == Free { AcquireKeeps(s); }
    case Locked => PopKeeps(s);
    case Popped(f) => DecideKeeps(s, f);
    case MustSignal(f) => SignalAgainKeeps(s, f);
    case MustUnlock(f) => ReleaseKeeps(s, f);
    case InFunctor(f) => RunFunctorKeeps(s, f);
    case Ran => ReportKeeps(s);
    case QuitSeen => StopLoopKeeps(s);
    case _ =>
  }

  /** The rest of the invariant does not look at what quitting changes. */
  lemma QuitFrame(s: State, t: State)
    requires Inv(s) && QuitInv(t)
    requires t == s.(life := t.life, quitRequested := t.quitRequested, quitter := t.quitter)
    ensures Inv(t)
  {
    hide QuitInv;
  }

  lemma QuitKeeps(s: State)
    requires Inv(s)
    ensures Inv(QuitStep(s))
  {
    var t := QuitStep(s);
    hide LockInv, Fifo, CallsInv, TokensCovered, NoLostWakeUp, DispatchInv;
    assert QuitInv(t) && t == s.(life := t.life, quitRequested := t.quitRequested, quitter := t.quitter);
    hide QuitInv, QuitStep;
    QuitFrame(s, t);
  }

  lemma TakePresentKeeps(s: State)
    requires Inv(s) && s.dispatcher == AwaitPresent && s.itemPresent
    ensures Inv(TakePresent(s))
  {
    hide Grows, MovesCall, MovesWorker;
  }

  lemma ForwardKeeps(s: State)
    requires Inv(s) && s.dispatcher == HoldsPresent
    ensures Inv(Forward(s))
  {
    hide Grows, MovesCall, MovesWorker;
  }

  lemma ReturnTrueKeeps(s: State)
    requires Inv(s) && s.dispatcher == AwaitProcessed && s.itemProcessed
    ensures Inv(ReturnTrue(s))
  {
    hide Grows, MovesCall, MovesWorker;
  }

  lemma DispatchKeeps(s: State)
    requires Inv(s)
    ensures Inv(DispatchStep(s))
  {
    hide Inv, TakePresent, Forward, ReturnTrue, Grows;
    match s.dispatcher
    case AwaitPresent => if s.itemPresent { TakePresentKeeps(s); }
    case HoldsPresent => ForwardKeeps(s);
    case AwaitProcessed => if s.itemProcessed { ReturnTrueKeeps(s); }
    case Idle =>
  }

  lemma BeginCallKeeps(s: State, f: Functor)
    requires Inv(s)
    ensures Inv(s.(calls := s.calls + [Call(f, Entered)]))
  {
    var t := s.(calls := s.calls + [Call(f, Entered)]);
    assert Unannounced(t) == Unannounced(s);
    hide Unannounced;
    assert LockInv(t) && CallsInv(t);
    hide LockInv, CallsInv;
  }

  lemma BeginQuitKeeps(s: State)
    requires Inv(s)
    ensures Inv(Step(s, BeginQuit))
  {
    var t := Step(s, BeginQuit);
    hide LockInv, Fifo, CallsInv, TokensCovered, NoLostWakeUp, DispatchInv;
    assert QuitInv(t) && t == s.(life := t.life, quitRequested := t.quitRequested, quitter := t.quitter);
    hide QuitInv, Step;
    QuitFrame(s, t);
  }

  lemma BeginDispatchKeeps(s: State)
    requires Inv(s)
    ensures Inv(Step(s, BeginDispatch))
  {
  }

  lemma StepKeepsInv(s: State, a: Action)
    requires Inv(s)
    ensures Inv(Step(s, a))
  {
    hide Inv, CallStep, WorkerStep, QuitStep, DispatchStep;
    match a
    case Begin(f) => BeginCallKeeps(s, f);
    case BeginQuit => BeginQuitKeeps(s);
    case BeginDispatch => BeginDispatchKeeps(s);
    case StepCall(i) => if i < |s.calls| { CallKeeps(s, i); } else { NoCall(s, i); }
    case StepWorker => WorkerKeeps(s);
    case StepQuit => QuitKeeps(s);
    case StepDispatch => DispatchKeeps(s);
  }

  lemma NoCall(s: State, i: nat)
    requires i >= |s.calls|
    ensures CallStep(s, i) == s
  {
  }

  lemma {:induction false} RunKeepsInv(s: State, actions: seq<Action>)
    requires Inv(s)
    ensures Inv(Run(s, actions))
    decreases |actions|
  {
    hide Inv, Step;
    if actions != [] {
      RunKeepsInv(s, actions[..|actions| - 1]);
      StepKeepsInv(Run(s, actions[..|actions| - 1]), actions[|actions| - 1]);
    }
  }

  lemma InitInv(mode: Mode)
    ensures Inv(Init(mode))
  {
  }

  // ---------- safety over every schedule ----------

  lemma Reachable(mode: Mode, actions: seq<Action>)
    ensures Inv(Run(Init(mode), actions))
  {
    InitInv(mode);
    RunKeepsInv(Init(mode), actions);
  }

  /** At most one thread is between taking and releasing the mutex. */
  lemma MutualExclusion(mode: Mode, actions: seq<Action>, i: nat, j: nat)
    ensures var s := Run(Init(mode), actions);
            i < |s.calls| && s.calls[i].HoldsLock() ==>
              !s.worker.HoldsLock() && (j < |s.calls| && s.calls[j].HoldsLock() ==> i == j)
  {
    Reachable(mode, actions);
    hide Run, Init;
  }

  /** Functors run, the one in flight and the queue are the pushes in order; each placed call stands for one of them. */
  lemma ExactlyOnceInOrder(mode: Mode, actions: seq<Action>)
    ensures var s := Run(Init(mode), actions);
            && s.ran + s.worker.InFlight() + s.queue == s.pushed
            && (forall i :: 0 <= i < |s.calls| && s.calls[i].Placed() ==>
                  s.calls[i].pc.at < |s.pushed| && s.pushed[s.calls[i].pc.at] == s.calls[i].functor)
            && (forall i, j :: 0 <= i < j < |s.calls| && s.calls[i].Placed() && s.calls[j].Placed() ==>
                  s.calls[i].pc.at != s.calls[j].pc.at)
  {
    Reachable(mode, actions);
    hide Run, Init;
  }

  /** The functor of a call is still in the queue. */
  predicate StillQueued(s: State, i: nat)
    requires i < |s.calls| && s.calls[i].Placed()
  {
    |s.ran| + |s.worker.InFlight()| <= s.calls[i].pc.at
  }

  lemma QueuedIsCounted(s: State, i: nat)
    requires Inv(s) && i < |s.calls| && (s.calls[i].pc.Signalled? || s.calls[i].pc.Returned?) && StillQueued(s, i)
    ensures |s.queue| > Unannounced(s)
  {
    assert |s.ran| + |s.worker.InFlight()| + |s.queue| == |s.pushed|;
    if Unannounced(s) == 1 {
      var j := s.owner.id;
      assert s.calls[j].pc.at == |s.pushed| - 1;
      assert i != j && s.calls[i].pc.at != s.calls[j].pc.at;
    }
  }

  /** The worker never finds the queue empty, and a functor whose call has signalled is never forgotten:
      while it is queued, the event is set, or the worker has a wake-up in hand or is about to signal again. */
  lemma WakeUpAccounting(actions: seq<Action>, i: nat)
    ensures var s := Run(Init(AutoDispatch), actions);
            && s.worker != Failed
            && (s.worker == Locked ==> s.queue != [])
            && (i < |s.calls| && (s.calls[i].pc.Signalled? || s.calls[i].pc.Returned?) && StillQueued(s, i) ==>
                  s.functorAvailable || s.worker.HoldsWakeUp() || s.worker.Popped? || s.worker.MustSignal?)
  {
    Reachable(AutoDispatch, actions);
    ModeStays(Init(AutoDispatch), actions);
    var s := Run(Init(AutoDispatch), actions);
    assert s.mode == AutoDispatch;
    hide Run, Init;
    if i < |s.calls| && (s.calls[i].pc.Signalled? || s.calls[i].pc.Returned?) && StillQueued(s, i) {
      QueuedIsCounted(s, i);
    }
    hide LockInv, CallsInv, Fifo, QuitInv;
  }

  // ---------- what only grows ----------

  lemma GrowsTransitive(s: State, t: State, u: State)
    requires Grows(s, t) && Grows(t, u)
    ensures Grows(s, u)
  {
  }

  lemma Still(s: State)
    ensures Grows(s, s)
  {
  }

  lemma CallGrows(s: State, i: nat)
    ensures Grows(s, CallStep(s, i))
  {
    Still(s);
    hide Grows, MovesCall, Admit, Enter, Push, Announce, Leave;
  }

  lemma WorkerGrows(s: State)
    ensures Grows(s, WorkerStep(s))
  {
    Still(s);
    hide Grows, MovesWorker, TestLoop, Wake, SeeQuit, Acquire, Pop, Decide, SignalAgain, Release, RunFunctor, Report, StopLoop;
  }

  lemma QuitGrows(s: State)
    ensures Grows(s, QuitStep(s))
  {
    var t := QuitStep(s);
    assert t == s.(life := t.life, quitRequested := t.quitRequested, quitter := t.quitter);
    hide QuitStep;
  }

  lemma DispatchGrows(s: State)
    ensures Grows(s, DispatchStep(s))
  {
    Still(s);
    hide Grows, TakePresent, Forward, ReturnTrue;
  }

  lemma StepGrows(s: State, a: Action)
    ensures Grows(s, Step(s, a))
  {
    hide CallStep, WorkerStep, QuitStep, DispatchStep;
    match a
    case StepCall(i) => CallGrows(s, i);
    case StepWorker => WorkerGrows(s);
    case StepQuit => QuitGrows(s);
    case StepDispatch => DispatchGrows(s);
    case _ =>
  }

  lemma {:induction false} RunGrows(s: State, actions: seq<Action>)
    ensures Grows(s, Run(s, actions))
    decreases |actions|
  {
    Still(s);
    hide Step, Grows;
    if actions != [] {
      var t := Run(s, actions[..|actions| - 1]);
      RunGrows(s, actions[..|actions| - 1]);
      StepGrows(t, actions[|actions| - 1]);
      GrowsTransitive(s, t, Run(s, actions));
    }
  }

  lemma ModeStays(s: State, actions: seq<Action>)
    ensures Run(s, actions).mode == s.mode
  {
    RunGrows(s, actions);
  }
}
