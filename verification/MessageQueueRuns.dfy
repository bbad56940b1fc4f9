/** What whole runs of the message queue promise: what quitting drains and what it loses,
    manual dispatch, and where a run can come to rest. */
module MessageQueueRuns {
  import opened MessageQueues

  // ---------- quitting ----------

  /** The worker has taken the quit request. */
  predicate Quitting(s: State) {
    s.worker == QuitSeen || !s.looping
  }

  lemma CallMoves(s: State, i: nat)
    requires i < |s.calls|
    ensures var t := CallStep(s, i); if s.calls[i].pc.Order() < 5 && !(s.calls[i].pc.Admitted? && s.owner != Free) then MovesCall(s, t, i) else t == s
  {
    hide Grows, MovesCall, Admit, Enter, Push, Announce, Leave;
  }

  lemma CallLeavesWorker(s: State, i: nat)
    ensures var t := CallStep(s, i); t.worker == s.worker && t.looping == s.looping && t.ran == s.ran && t.quitter == s.quitter
  {
    if i < |s.calls| {
      CallMoves(s, i);
      hide CallStep;
    }
  }

  /** The quit request is taken only by a waiting worker that sees no functor announced. */
  lemma QuitTakenWhenIdle(s: State, a: Action)
    requires !Quitting(s) && Quitting(Step(s, a))
    ensures a == StepWorker && s.worker == Waiting && !s.functorAvailable && s.quitRequested
  {
    hide Grows;
    if a.StepCall? {
      CallLeavesWorker(s, a.id);
      hide CallStep;
    } else if a.StepWorker? {
      hide At;
    }
  }

  // ---------- which calls are refused ----------

  /** Only calls that met a quit are refused. */
  predicate RefusedByQuit(s: State) {
    forall i :: 0 <= i < |s.calls| && s.calls[i].pc.Refused? ==> s.quitter != NotCalled
  }

  lemma CallRefuses(s: State, i: nat)
    ensures var t := CallStep(s, i);
            && |t.calls| == |s.calls| && t.quitter == s.quitter
            && (forall j :: 0 <= j < |s.calls| && j != i ==> t.calls[j] == s.calls[j])
            && (i < |s.calls| ==> t.calls[i].functor == s.calls[i].functor)
            && (i < |s.calls| && t.calls[i].pc.Refused? ==> s.calls[i].pc.Refused? || (s.calls[i].pc.Entered? && s.life != Running))
            && (i < |s.calls| && s.calls[i].pc.Entered? && s.life != Running ==> t.calls[i].pc.Refused?)
            && (i < |s.calls| && s.calls[i].pc.Refused? ==> t.calls[i].pc.Refused?)
  {
    hide Grows, MovesCall, SignalDispatch;
    if i < |s.calls| {
      match s.calls[i].pc
      case Entered => assert CallStep(s, i) == Admit(s, i);
      case Admitted => assert CallStep(s, i) == if s.owner == Free then Enter(s, i) else s;
      case Inside => assert CallStep(s, i) == Push(s, i);
      case Pushed(_) => assert CallStep(s, i) == Announce(s, i);
      case Signalled(_) => assert CallStep(s, i) == Leave(s, i);
      case _ =>
    }
  }

  lemma StepRefuses(s: State, a: Action)
    requires Inv(s) && RefusedByQuit(s)
    ensures RefusedByQuit(Step(s, a))
  {
    hide Grows, LockInv, CallsInv, Fifo, TokensCovered, NoLostWakeUp, DispatchInv, CallStep, WorkerStep;
    if a.StepCall? {
      CallRefuses(s, a.id);
    } else if a.StepWorker? {
      WorkerMoves(s);
    }
  }

  lemma {:induction false} RunRefuses(s: State, actions: seq<Action>)
    requires Inv(s) && RefusedByQuit(s)
    ensures RefusedByQuit(Run(s, actions))
    decreases |actions|
  {
    hide Inv, Step, RefusedByQuit;
    if actions != [] {
      var before := actions[..|actions| - 1];
      RunRefuses(s, before);
      RunKeepsInv(s, before);
      StepRefuses(Run(s, before), actions[|actions| - 1]);
    }
  }

  /** While quitSynchronous has not been called no runOnQueue is refused: one that has returned has pushed its functor. */
  lemma NoRefusalBeforeQuit(mode: Mode, actions: seq<Action>, i: nat)
    requires var s := Run(Init(mode), actions); s.quitter == NotCalled && i < |s.calls|
    ensures var c := Run(Init(mode), actions).calls[i];
            && !c.pc.Refused?
            && (c.pc.Finished() ==> c.pc.Returned? && c.pc.at < |Run(Init(mode), actions).pushed|
                                    && Run(Init(mode), actions).pushed[c.pc.at] == c.functor)
  {
    InitInv(mode);
    assert RefusedByQuit(Init(mode));
    RunRefuses(Init(mode), actions);
    Reachable(mode, actions);
    hide Run, Init, LockInv, Fifo, TokensCovered, NoLostWakeUp, QuitInv, DispatchInv;
  }

  /** A call begun after quitSynchronous was called. */
  predicate TooLate(s: State, i: nat, f: Functor) {
    s.quitter != NotCalled && i < |s.calls| && s.calls[i].functor == f && (s.calls[i].pc.Entered? || s.calls[i].pc.Refused?)
  }

  lemma StepTooLate(s: State, a: Action, i: nat, f: Functor)
    requires Inv(s) && TooLate(s, i, f)
    ensures TooLate(Step(s, a), i, f)
  {
    hide Grows, LockInv, CallsInv, Fifo, TokensCovered, NoLostWakeUp, DispatchInv, CallStep, WorkerStep;
    if a.StepCall? {
      CallRefuses(s, a.id);
    } else if a.StepWorker? {
      WorkerMoves(s);
    }
  }

  lemma {:induction false} RunTooLate(s: State, actions: seq<Action>, i: nat, f: Functor)
    requires Inv(s) && TooLate(s, i, f)
    ensures TooLate(Run(s, actions), i, f)
    decreases |actions|
  {
    hide Inv, Step, TooLate;
    if actions != [] {
      var before := actions[..|actions| - 1];
      RunTooLate(s, before, i, f);
      RunKeepsInv(s, before);
      StepTooLate(Run(s, before), actions[|actions| - 1], i, f);
    }
  }

  /** A runOnQueue begun after quitSynchronous was called never pushes its functor, and is refused when it looks. */
  lemma CallAfterQuitIsRefused(mode: Mode, before: seq<Action>, f: Functor, after: seq<Action>)
    requires Run(Init(mode), before).quitter != NotCalled
    ensures var s := Run(Init(mode), before);
            var t := Run(Step(s, Begin(f)), after);
            var i := |s.calls|;
            && i < |t.calls| && t.calls[i].functor == f && !t.calls[i].Placed()
            && CallStep(t, i).calls[i].pc.Refused?
  {
    var s := Run(Init(mode), before);
    Reachable(mode, before);
    StepKeepsInv(s, Begin(f));
    var u := Step(s, Begin(f));
    assert TooLate(u, |s.calls|, f);
    RunKeepsInv(u, after);
    RunTooLate(u, after, |s.calls|, f);
    var t := Run(u, after);
    CallRefuses(t, |s.calls|);
    hide Run, Init, Step, CallStep, LockInv, CallsInv, Fifo, TokensCovered, NoLostWakeUp, DispatchInv, Grows;
  }

  // ---------- what quitting drains ----------

  /** Before the worker stops, the functor of a returned call has run. */
  ghost predicate RunsBeforeQuit(s: State, i: nat) {
    && i < |s.calls| && s.calls[i].pc.Returned?
    && (Quitting(s) ==> s.calls[i].pc.at < |s.ran|)
  }

  lemma StepDrains(s: State, a: Action, i: nat)
    requires Inv(s) && s.mode == AutoDispatch && RunsBeforeQuit(s, i)
    ensures RunsBeforeQuit(Step(s, a), i)
  {
    StepGrows(s, a);
    if !Quitting(s) && Quitting(Step(s, a)) {
      QuitTakenWhenIdle(s, a);
      hide Step;
      if |s.ran| <= s.calls[i].pc.at {
        QueuedIsCounted(s, i);
      }
    }
    hide Step, LockInv, CallsInv, Fifo, QuitInv;
  }

  lemma {:induction false} RunDrains(s: State, actions: seq<Action>, i: nat)
    requires Inv(s) && s.mode == AutoDispatch && RunsBeforeQuit(s, i)
    ensures RunsBeforeQuit(Run(s, actions), i)
    decreases |actions|
  {
    hide Inv, RunsBeforeQuit, Step, Grows;
    if actions != [] {
      var before := actions[..|actions| - 1];
      RunDrains(s, before, i);
      RunKeepsInv(s, before);
      ModeStays(s, before);
      StepDrains(Run(s, before), actions[|actions| - 1], i);
    }
  }

  /** Every functor whose runOnQueue was over before quitSynchronous was called has run when quitSynchronous returns. */
  lemma DrainOnQuit(before: seq<Action>, after: seq<Action>, i: nat)
    requires var s := Run(Init(AutoDispatch), before);
             s.quitter == NotCalled && i < |s.calls| && s.calls[i].pc.Finished()
    requires Run(Run(Init(AutoDispatch), before), after).quitter == Done
    ensures var s := Run(Init(AutoDispatch), before);
            var t := Run(s, after);
            s.calls[i].pc.Returned? && s.calls[i].pc.at < |t.ran| && t.ran[s.calls[i].pc.at] == s.calls[i].functor
  {
    NoRefusalBeforeQuit(AutoDispatch, before, i);
    var s := Run(Init(AutoDispatch), before);
    var t := Run(s, after);
    Reachable(AutoDispatch, before);
    ModeStays(Init(AutoDispatch), before);
    assert s.mode == AutoDispatch;
    RunDrains(s, after, i) by { hide Run, Init, Grows; }
    RunKeepsInv(s, after);
    RunGrows(s, after);
    hide Run, Init;
    var at := s.calls[i].pc.at;
    assert t.pushed[at] == s.calls[i].functor;
    assert t.ran[at] == (t.ran + t.worker.InFlight() + t.queue)[at];
  }

  predicate Over(s: State) {
    s.quitter == Done && s.worker == Exited
  }

  lemma StepAfterQuit(s: State, a: Action)
    requires Over(s)
    ensures Over(Step(s, a)) && Step(s, a).ran == s.ran
  {
    hide Grows;
    if a.StepCall? {
      CallLeavesWorker(s, a.id);
      hide CallStep;
    } else if a.StepDispatch? {
      hide CallStep, WorkerStep;
    }
  }

  lemma {:induction false} RunAfterQuit(s: State, actions: seq<Action>)
    requires Over(s)
    ensures Over(Run(s, actions)) && Run(s, actions).ran == s.ran
    decreases |actions|
  {
    hide Over, Step;
    if actions != [] {
      RunAfterQuit(s, actions[..|actions| - 1]);
      StepAfterQuit(Run(s, actions[..|actions| - 1]), actions[|actions| - 1]);
    }
  }

  /** In either mode, nothing runs once quitSynchronous has returned. */
  lemma NothingRunsAfterQuit(mode: Mode, before: seq<Action>, after: seq<Action>)
    requires Run(Init(mode), before).quitter == Done
    ensures Run(Run(Init(mode), before), after).ran == Run(Init(mode), before).ran
  {
    Reachable(mode, before);
    hide Run, Init;
    RunAfterQuit(Run(Init(mode), before), after);
  }

  // ---------- which functors are lost ----------

  lemma StepQuitting(s: State, a: Action)
    requires Inv(s) && Quitting(s)
    ensures Quitting(Step(s, a)) && Step(s, a).ran == s.ran
  {
    hide Grows, LockInv, CallsInv, Fifo, TokensCovered, NoLostWakeUp, DispatchInv;
    if a.StepCall? {
      CallLeavesWorker(s, a.id);
      hide CallStep;
    } else if a.StepDispatch? {
      hide CallStep, WorkerStep;
    }
  }

  lemma {:induction false} RunQuitting(s: State, actions: seq<Action>)
    requires Inv(s) && Quitting(s)
    ensures Quitting(Run(s, actions)) && Run(s, actions).ran == s.ran
    decreases |actions|
  {
    hide Inv, Step, Quitting;
    if actions != [] {
      var before := actions[..|actions| - 1];
      RunQuitting(s, before);
      RunKeepsInv(s, before);
      StepQuitting(Run(s, before), actions[|actions| - 1]);
    }
  }

  /** The step of a run in which the worker takes the quit request. */
  lemma {:induction false} QuitMoment(mode: Mode, actions: seq<Action>) returns (k: nat)
    requires Quitting(Run(Init(mode), actions))
    ensures k < |actions| && actions[k] == StepWorker
    ensures var s := Run(Init(mode), actions[..k]);
            s.worker == Waiting && !s.functorAvailable && s.quitRequested && Quitting(Step(s, StepWorker))
    decreases |actions|
  {
    if actions == [] {
      assert false;
    } else {
      hide Step;
      var before := actions[..|actions| - 1];
      if Quitting(Run(Init(mode), before)) {
        k := QuitMoment(mode, before);
        assert before[..k] == actions[..k];
      } else {
        k := |actions| - 1;
        QuitTakenWhenIdle(Run(Init(mode), before), actions[k]);
      }
    }
  }

  /** A worker that waits with nothing announced has run exactly the functors that were announced. */
  lemma RanIfSignalled(s: State, i: nat)
    requires Inv(s) && s.mode == AutoDispatch && s.worker == Waiting && !s.functorAvailable
    requires i < |s.calls| && s.calls[i].Placed()
    ensures s.calls[i].pc.at < |s.ran| <==> s.calls[i].pc.Signalled? || s.calls[i].pc.Returned?
  {
    if s.calls[i].pc.Pushed? {
      assert Unannounced(s) == 1;
      assert |s.ran| + |s.queue| == |s.pushed|;
    } else if |s.ran| <= s.calls[i].pc.at {
      QueuedIsCounted(s, i);
    }
  }

  /** A call is done for once the worker has taken the quit request: it has been announced, or it never runs. */
  ghost predicate Announced(s: State, i: nat) {
    i < |s.calls| && (s.calls[i].pc.Signalled? || s.calls[i].pc.Returned?)
  }

  /** When quitSynchronous returns, the functor of a placed call has run if and only if the call had signalled
      when the worker took the quit request. */
  lemma RunIffSignalledInTime(actions: seq<Action>, i: nat) returns (k: nat)
    requires var t := Run(Init(AutoDispatch), actions);
             t.quitter == Done && i < |t.calls| && t.calls[i].Placed()
    ensures k < |actions| && actions[k] == StepWorker && Run(Init(AutoDispatch), actions[..k]).quitRequested
    ensures var s, t := Run(Init(AutoDispatch), actions[..k]), Run(Init(AutoDispatch), actions);
            && s.worker == Waiting && Quitting(Step(s, StepWorker))
            && (t.calls[i].pc.at < |t.ran| <==> Announced(s, i))
            && (t.calls[i].pc.at < |t.ran| ==> t.ran[t.calls[i].pc.at] == t.calls[i].functor)
  {
    var t := Run(Init(AutoDispatch), actions);
    DoneIsQuitting(AutoDispatch, actions);
    k := QuitMoment(AutoDispatch, actions);
    var before, after := actions[..k], actions[k + 1..];
    hide Run, Init, Step, Quitting;
    assert before + [StepWorker] + after == actions;
    SinceTheQuit(before, after);
    PlacesDecide(Run(Init(AutoDispatch), before), t, i);
  }

  lemma DoneIsQuitting(mode: Mode, actions: seq<Action>)
    requires Run(Init(mode), actions).quitter == Done
    ensures Quitting(Run(Init(mode), actions))
  {
    Reachable(mode, actions);
    hide Run, Init, LockInv, CallsInv, Fifo, TokensCovered, NoLostWakeUp, DispatchInv;
  }

  /** Nothing runs from the moment the worker takes the quit request. */
  lemma SinceTheQuit(before: seq<Action>, after: seq<Action>)
    requires var s := Run(Init(AutoDispatch), before);
             s.worker == Waiting && Quitting(Step(s, StepWorker))
    ensures var s, t := Run(Init(AutoDispatch), before), Run(Init(AutoDispatch), before + [StepWorker] + after);
            Inv(s) && Inv(t) && s.mode == AutoDispatch && Grows(s, t) && t.ran == s.ran
  {
    var s := Run(Init(AutoDispatch), before);
    Reachable(AutoDispatch, before);
    ModeStays(Init(AutoDispatch), before);
    assert s.mode == AutoDispatch;
    var u := Step(s, StepWorker);
    assert u.ran == s.ran by { WaitingRunsNothing(s); }
    hide Run, Init, Inv, Step, Grows, Quitting;
    StepKeepsInv(s, StepWorker);
    StepGrows(s, StepWorker);
    RunOn(Init(AutoDispatch), before, StepWorker, after);
    RunQuitting(u, after);
    RunKeepsInv(u, after);
    RunGrows(u, after);
    GrowsTransitive(s, u, Run(u, after));
  }

  lemma WaitingRunsNothing(s: State)
    requires s.worker == Waiting
    ensures WorkerStep(s).ran == s.ran
  {
    hide Grows, MovesWorker;
  }

  lemma RunOn(s: State, before: seq<Action>, a: Action, after: seq<Action>)
    ensures Run(s, before + [a] + after) == Run(Step(Run(s, before), a), after)
  {
    hide Step;
    RunAppend(s, before + [a], after);
    var next := before + [a];
    assert next[..|next| - 1] == before;
  }

  lemma PlacesDecide(s: State, t: State, i: nat)
    requires Inv(s) && Inv(t) && s.mode == AutoDispatch && s.worker == Waiting && !s.functorAvailable
    requires Grows(s, t) && t.ran == s.ran && i < |t.calls| && t.calls[i].Placed()
    ensures t.calls[i].pc.at < |t.ran| <==> Announced(s, i)
    ensures t.calls[i].pc.at < |t.ran| ==> t.ran[t.calls[i].pc.at] == t.calls[i].functor
  {
    if i < |s.calls| && s.calls[i].Placed() {
      RanIfSignalled(s, i);
    } else {
      assert |s.ran| + |s.queue| == |s.pushed|;
    }
    var at := t.calls[i].pc.at;
    if at < |t.ran| {
      assert t.ran[at] == (t.ran + t.worker.InFlight() + t.queue)[at];
    }
  }

  // ---------- manual dispatch ----------

  /** Between two calls of DispatchOne, the functors run are exactly the oldest ones, one for each call that returned true. */
  lemma DispatchedAreOldest(actions: seq<Action>)
    requires Run(Init(ManualDispatch), actions).dispatcher == Idle
    ensures var s := Run(Init(ManualDispatch), actions);
            && s.dispatched <= |s.pushed| && s.ran == s.pushed[..s.dispatched] && s.queue == s.pushed[s.dispatched..]
  {
    Reachable(ManualDispatch, actions);
    ModeStays(Init(ManualDispatch), actions);
    var s := Run(Init(ManualDispatch), actions);
    assert s.mode == ManualDispatch;
    hide Run, Init, LockInv, CallsInv, QuitInv;
    assert s.worker.InFlight() == [];
  }

  /** One DispatchOne that returns true runs one functor: the oldest one queued when it was called, if there was any. */
  lemma DispatchRunsOne(before: seq<Action>, after: seq<Action>)
    requires var s := Run(Init(ManualDispatch), before);
             s.dispatcher == Idle && Run(s, after).dispatcher == Idle && Run(s, after).dispatched == s.dispatched + 1
    ensures var s := Run(Init(ManualDispatch), before);
            var t := Run(s, after);
            && |s.ran| < |t.pushed| && t.ran == s.ran + [t.pushed[|s.ran|]]
            && (s.queue != [] ==> t.ran == s.ran + [s.queue[0]])
  {
    var s := Run(Init(ManualDispatch), before);
    var t := Run(s, after);
    RunAppend(Init(ManualDispatch), before, after);
    hide Run, Init;
    DispatchedAreOldest(before);
    DispatchedAreOldest(before + after);
    RunGrows(s, after);
    OneMore(s.pushed, t.pushed, s.dispatched);
  }

  lemma OneMore(short: seq<Functor>, long: seq<Functor>, n: nat)
    requires short <= long && n <= |short| && n < |long|
    ensures long[..n + 1] == short[..n] + [long[n]] && (n < |short| ==> long[n] == short[n..][0])
  {
  }

  lemma {:induction false} RunAppend(s: State, before: seq<Action>, after: seq<Action>)
    ensures Run(s, before + after) == Run(Run(s, before), after)
    decreases |after|
  {
    hide Step;
    if after == [] {
      assert before + after == before;
    } else {
      var all := before + after;
      assert all[..|all| - 1] == before + after[..|after| - 1] && all[|all| - 1] == after[|after| - 1];
      RunAppend(s, before, after[..|after| - 1]);
    }
  }

  /** A signal never outlives the functor it announces: the event, the dispatcher that took it and the worker
      that was woken each have a functor of their own in the queue, besides one that is still unannounced. */
  lemma SignalsHaveItems(mode: Mode, actions: seq<Action>)
    ensures var s := Run(Init(mode), actions);
            && (s.itemPresent ==> |s.queue| > Unannounced(s))
            && (s.dispatcher == HoldsPresent ==> |s.queue| > Unannounced(s) + One(s.itemPresent))
            && (s.worker.HoldsWakeUp() ==> |s.queue| > Unannounced(s) + One(s.itemPresent))
  {
    Reachable(mode, actions);
    hide Run, Init, LockInv, CallsInv, QuitInv, Fifo, Unannounced;
  }

  // ---------- progress ----------

  const PER_FUNCTOR: nat := 12

  function CallRank(pc: CallPc): nat {
    match pc
    case Entered => PER_FUNCTOR + 5
    case Admitted => PER_FUNCTOR + 4
    case Inside => PER_FUNCTOR + 3
    case Pushed(_) => 2
    case Signalled(_) => 1
    case _ => 0
  }

  function CallsRank(calls: seq<Call>): nat {
    if calls == [] then 0 else CallsRank(calls[..|calls| - 1]) + CallRank(calls[|calls| - 1].pc)
  }

  function WorkerRank(w: Worker, looping: bool): nat {
    match w
    case LoopTest => if looping then 5 else 1
    case Waiting => 4
    case Woken => 3
    case Locked => 2
    case Popped(_) => 11
    case MustSignal(_) => 10
    case MustUnlock(_) => 9
    case InFunctor(_) => 8
    case Ran => 7
    case QuitSeen => 2
    case _ => 0
  }

  function QuitRank(q: Quitter): nat {
    match q
    case StateSet => 3
    case QuitSignalled => 2
    case Joined => 1
    case _ => 0
  }

  function DispatchRank(d: Dispatcher): nat {
    match d
    case AwaitPresent => 3
    case HoldsPresent => 2
    case AwaitProcessed => 1
    case Idle => 0
  }

  /** A bound on the steps left in the calls already begun. */
  function Rank(s: State): nat {
    PER_FUNCTOR * |s.queue| + CallsRank(s.calls) + WorkerRank(s.worker, s.looping) + QuitRank(s.quitter) + DispatchRank(s.dispatcher)
  }

  lemma {:induction false} CallsRankUpdate(calls: seq<Call>, i: nat, c: Call)
    requires i < |calls|
    ensures CallsRank(calls[i := c]) + CallRank(calls[i].pc) == CallsRank(calls) + CallRank(c.pc)
  {
    hide CallRank;
    var n := |calls| - 1;
    if i == n {
      assert calls[i := c][..n] == calls[..n];
    } else {
      assert calls[i := c][..n] == calls[..n][i := c];
      CallsRankUpdate(calls[..n], i, c);
    }
  }

  lemma CallRankFalls(s: State, i: nat)
    ensures CallStep(s, i) == s || Rank(CallStep(s, i)) < Rank(s)
  {
    hide Grows, CallsRank, WorkerRank, QuitRank, DispatchRank;
    if i < |s.calls| {
      var t := CallStep(s, i);
      CallMoves(s, i);
      hide CallStep;
      if t != s {
        CallsRankUpdate(s.calls, i, t.calls[i]);
      }
    }
  }

  /** The part of the rank that the worker changes. */
  function WorkLeft(s: State): nat {
    PER_FUNCTOR * |s.queue| + WorkerRank(s.worker, s.looping)
  }

  lemma WorkerRankFalls(s: State)
    ensures WorkerStep(s) == s || Rank(WorkerStep(s)) < Rank(s)
  {
    var t := WorkerStep(s);
    if t != s {
      WorkerMoves(s);
      hide WorkerStep;
      WorkLeftFalls(s);
      hide CallsRank, QuitRank, DispatchRank, WorkerRank;
    }
  }

  lemma WorkLeftFalls(s: State)
    requires WorkerStep(s) != s
    ensures WorkLeft(WorkerStep(s)) < WorkLeft(s)
  {
    hide WorkLeft, WorkerStep;
    if s.worker.Carries() || s.worker.Ran? {
      CarryingFalls(s);
    } else if s.worker == Woken {
      WokenFalls(s);
    } else if s.worker == Locked {
      LockedFalls(s);
    } else {
      WaitingFalls(s);
    }
  }

  lemma CarryingFalls(s: State)
    requires s.worker.Carries() || s.worker.Ran?
    ensures WorkLeft(WorkerStep(s)) < WorkLeft(s)
  {
    hide Grows, MovesWorker, SignalDispatch, TestLoop, Wake, SeeQuit, Acquire, Pop, StopLoop;
  }

  lemma WokenFalls(s: State)
    requires s.worker == Woken && WorkerStep(s) != s
    ensures WorkLeft(WorkerStep(s)) < WorkLeft(s)
  {
    hide Grows, MovesWorker, TestLoop, Wake, SeeQuit, StopLoop, Pop, Decide, SignalAgain, Release, RunFunctor, Report;
  }

  lemma LockedFalls(s: State)
    requires s.worker == Locked
    ensures WorkLeft(WorkerStep(s)) < WorkLeft(s)
  {
    hide Grows, MovesWorker, TestLoop, Wake, SeeQuit, StopLoop, Acquire, Decide, SignalAgain, Release, RunFunctor, Report;
    assert WorkerStep(s) == Pop(s);
    hide WorkerStep;
  }

  lemma WaitingFalls(s: State)
    requires !s.worker.Carries() && !s.worker.Ran? && !s.worker.HoldsWakeUp() && WorkerStep(s) != s
    ensures WorkLeft(WorkerStep(s)) < WorkLeft(s)
  {
    hide Grows, MovesWorker, Acquire, Pop, Decide, SignalAgain, Release, RunFunctor, Report;
  }

  lemma RankFalls(s: State, a: Action)
    requires a.Internal()
    ensures Step(s, a) == s || Rank(Step(s, a)) < Rank(s)
  {
    hide Rank, CallStep, WorkerStep, QuitStep, DispatchStep;
    match a
    case StepCall(i) => CallRankFalls(s, i);
    case StepWorker => WorkerRankFalls(s);
    case StepQuit => QuitRankFalls(s);
    case StepDispatch => DispatchRankFalls(s);
  }

  lemma QuitRankFalls(s: State)
    ensures QuitStep(s) == s || Rank(QuitStep(s)) < Rank(s)
  {
    hide CallsRank, WorkerRank, DispatchRank;
  }

  lemma DispatchRankFalls(s: State)
    ensures DispatchStep(s) == s || Rank(DispatchStep(s)) < Rank(s)
  {
    hide Grows, CallsRank, WorkerRank, QuitRank;
  }

  /** How many actions of a schedule change the state; the others are attempts of threads that have to wait. */
  function Effective(s: State, actions: seq<Action>): nat
    decreases |actions|
  {
    if actions == [] then 0
    else
      var before := actions[..|actions| - 1];
      Effective(s, before) + One(Run(s, actions) != Run(s, before))
  }

  predicate AllInternal(actions: seq<Action>) {
    forall k :: 0 <= k < |actions| ==> actions[k].Internal()
  }

  /** Whatever the schedule, the calls already begun take a bounded number of steps. */
  lemma {:induction false} BoundedWork(s: State, actions: seq<Action>)
    requires AllInternal(actions)
    ensures Effective(s, actions) + Rank(Run(s, actions)) <= Rank(s)
    decreases |actions|
  {
    hide Rank, Step;
    if actions != [] {
      var before := actions[..|actions| - 1];
      BoundedWork(s, before);
      RankFalls(Run(s, before), actions[|actions| - 1]);
    }
  }

  /** No thread can move. */
  ghost predicate Quiet(s: State) {
    && (forall i :: 0 <= i < |s.calls| ==> CallStep(s, i) == s)
    && WorkerStep(s) == s && QuitStep(s) == s && DispatchStep(s) == s
  }

  /** When the worker has to wait; otherwise its step is its own. */
  lemma WorkerMoves(s: State)
    ensures if (s.worker == Waiting && !s.functorAvailable && !s.quitRequested) || s.worker == Exited || s.worker == Failed
               || (s.worker == Woken && s.owner != Free)
            then WorkerStep(s) == s else MovesWorker(s, WorkerStep(s))
  {
    hide Grows, MovesWorker, TestLoop, Wake, SeeQuit, Acquire, Pop, Decide, SignalAgain, Release, RunFunctor, Report, StopLoop;
  }

  lemma MutexIsFree(s: State)
    requires Inv(s) && Quiet(s)
    ensures s.owner == Free
  {
    WorkerMoves(s);
    if s.owner.ByCall? {
      CallMoves(s, s.owner.id);
    }
    hide WorkerStep, CallStep, QuitStep, DispatchStep, Fifo, CallsInv, TokensCovered, NoLostWakeUp, QuitInv, DispatchInv;
  }

  /** When no thread can move, every runOnQueue and quitSynchronous has returned, runOnQueue with its functor pushed
      unless a quit was called, and an automatic queue that was not told to quit has run everything. A DispatchOne may be left waiting: for a first item while the queue is empty, or
      for ever, when it handed its item to a worker that had taken the quit request. */
  lemma QuietIsFinished(mode: Mode, actions: seq<Action>)
    requires Quiet(Run(Init(mode), actions))
    ensures var s := Run(Init(mode), actions);
            && (forall i :: 0 <= i < |s.calls| ==> s.calls[i].pc.Finished() && (s.quitter == NotCalled ==> s.calls[i].pc.Returned?))
            && (s.quitter == NotCalled || s.quitter == Done)
            && (mode == AutoDispatch && s.quitter == NotCalled ==> s.queue == [] && s.ran == s.pushed)
            && (s.dispatcher == AwaitPresent ==> s.queue == [])
            && s.dispatcher != HoldsPresent
            && (s.dispatcher == AwaitProcessed ==> s.quitter == Done && s.functorAvailable && s.queue != [])
  {
    Reachable(mode, actions);
    ModeStays(Init(mode), actions);
    var s := Run(Init(mode), actions);
    assert s.mode == mode;
    hide Run, Init, Grows;
    MutexIsFree(s);
    WorkerMoves(s);
    hide MovesCall;
    forall i | 0 <= i < |s.calls| ensures s.calls[i].pc.Finished() && (s.quitter == NotCalled ==> s.calls[i].pc.Returned?) {
      CallMoves(s, i);
      if s.quitter == NotCalled {
        NoRefusalBeforeQuit(mode, actions, i);
      }
    }
    hide WorkerStep, CallStep, LockInv, CallsInv;
  }

  lemma MoverExists(s: State) returns (a: Action)
    requires !Quiet(s)
    ensures a.Internal() && Step(s, a) != s
  {
    hide CallStep, WorkerStep, QuitStep, DispatchStep;
    if WorkerStep(s) != s {
      a := StepWorker;
    } else if QuitStep(s) != s {
      a := StepQuit;
    } else if DispatchStep(s) != s {
      a := StepDispatch;
    } else {
      var i :| 0 <= i < |s.calls| && CallStep(s, i) != s;
      a := StepCall(i);
    }
  }

  lemma {:induction false} Completion(s: State) returns (actions: seq<Action>)
    ensures AllInternal(actions) && Quiet(Run(s, actions))
    decreases Rank(s)
  {
    hide Quiet, Step, Rank;
    if Quiet(s) {
      actions := [];
    } else {
      var a := MoverExists(s);
      RankFalls(s, a);
      var rest := Completion(Step(s, a));
      actions := [a] + rest;
      RunAppend(s, [a], rest);
      assert Run(s, [a]) == Step(s, a) by {
        assert [a][..0] == [];
      }
    }
  }

  /** Once called, quitSynchronous can always return, whatever has happened before. */
  lemma QuitCanReturn(mode: Mode, before: seq<Action>) returns (after: seq<Action>)
    requires Run(Init(mode), before).quitter != NotCalled
    ensures AllInternal(after) && Run(Run(Init(mode), before), after).quitter == Done
  {
    var s := Run(Init(mode), before);
    after := Completion(s);
    RunAppend(Init(mode), before, after);
    assert Quiet(Run(Init(mode), before + after));
    QuietIsFinished(mode, before + after);
    StaysCalled(s, after);
  }

  lemma {:induction false} StaysCalled(s: State, actions: seq<Action>)
    requires s.quitter != NotCalled
    ensures Run(s, actions).quitter != NotCalled
    decreases |actions|
  {
    if actions != [] {
      var t := Run(s, actions[..|actions| - 1]);
      StaysCalled(s, actions[..|actions| - 1]);
      StepStaysCalled(t, actions[|actions| - 1]);
    }
  }

  lemma StepStaysCalled(s: State, a: Action)
    requires s.quitter != NotCalled
    ensures Step(s, a).quitter != NotCalled
  {
    hide Grows;
    match a
    case StepCall(i) =>
      CallLeavesWorker(s, i);
      hide CallStep;
    case StepWorker =>
      WorkerMoves(s);
      hide WorkerStep;
    case _ =>
  }

  // ---------- a dispatch that never returns ----------

  /** The worker has taken the quit request, and a DispatchOne is still waiting for what only the worker can give. */
  predicate Doomed(s: State) {
    Quitting(s) && s.dispatcher != Idle && !s.itemProcessed
  }

  lemma WorkerStaysDoomed(s: State)
    requires QuitInv(s) && Quitting(s)
    ensures var t := WorkerStep(s);
            && Quitting(t) && t.dispatcher == s.dispatcher && t.itemProcessed == s.itemProcessed
            && t.functorAvailable == s.functorAvailable && t.dispatched == s.dispatched
  {
    hide Grows, MovesWorker;
  }

  lemma CallKeepsDispatch(s: State, i: nat)
    ensures var t := CallStep(s, i);
            && t.worker == s.worker && t.looping == s.looping && t.dispatcher == s.dispatcher
            && t.itemProcessed == s.itemProcessed && t.dispatched == s.dispatched
            && (s.mode == ManualDispatch ==> t.functorAvailable == s.functorAvailable)
  {
    hide Grows, MovesCall;
    if i < |s.calls| {
      match s.calls[i].pc
      case Entered => assert CallStep(s, i) == Admit(s, i);
      case Admitted => assert CallStep(s, i) == if s.owner == Free then Enter(s, i) else s;
      case Inside => assert CallStep(s, i) == Push(s, i);
      case Pushed(_) => assert CallStep(s, i) == Announce(s, i);
      case Signalled(_) => assert CallStep(s, i) == Leave(s, i);
      case _ =>
    }
  }

  lemma StepDoomed(s: State, a: Action)
    requires Inv(s) && Doomed(s)
    ensures Doomed(Step(s, a)) && Step(s, a).dispatched == s.dispatched
    ensures s.dispatcher == AwaitProcessed ==> Step(s, a).dispatcher == AwaitProcessed
  {
    hide Grows, LockInv, CallsInv, Fifo, TokensCovered, NoLostWakeUp, DispatchInv, CallStep, WorkerStep;
    if a.StepCall? {
      CallKeepsDispatch(s, a.id);
    } else if a.StepWorker? {
      WorkerStaysDoomed(s);
    }
  }

  /** Such a DispatchOne never returns, whatever happens later. */
  lemma {:induction false} DoomedForever(s: State, actions: seq<Action>)
    requires Inv(s) && Doomed(s)
    ensures Doomed(Run(s, actions)) && Run(s, actions).dispatched == s.dispatched
    decreases |actions|
  {
    hide Inv, Step, Doomed;
    if actions != [] {
      var before := actions[..|actions| - 1];
      DoomedForever(s, before);
      RunKeepsInv(s, before);
      StepDoomed(Run(s, before), actions[|actions| - 1]);
    }
  }

  /** The item handed over will be taken, or is being processed. */
  predicate Served(s: State) {
    s.dispatcher == AwaitProcessed && !(s.functorAvailable && Quitting(s))
  }

  lemma ServedOrDoomed(s: State)
    requires Inv(s) && s.mode == ManualDispatch && s.dispatcher == AwaitProcessed
    ensures Doomed(s) <==> s.functorAvailable && Quitting(s)
  {
    hide Grows, LockInv, CallsInv, Fifo, TokensCovered, NoLostWakeUp;
  }

  lemma StepServed(s: State, a: Action)
    requires Inv(s) && s.mode == ManualDispatch && Served(s)
    ensures var t := Step(s, a); Served(t) || t.dispatched > s.dispatched
  {
    var t := Step(s, a);
    if !Quitting(s) && Quitting(t) {
      QuitTakenWhenIdle(s, a);
      TakingQuitKeepsEvents(s);
    } else if a.StepCall? {
      CallKeepsDispatch(s, a.id);
    } else if a.StepWorker? {
      WorkerMoves(s);
      if Quitting(s) {
        WorkerStaysDoomed(s);
      }
    }
    hide Grows, LockInv, CallsInv, Fifo, TokensCovered, NoLostWakeUp, DispatchInv, CallStep, WorkerStep;
  }

  lemma TakingQuitKeepsEvents(s: State)
    requires s.worker == Waiting && !s.functorAvailable
    ensures !WorkerStep(s).functorAvailable && WorkerStep(s).dispatcher == s.dispatcher
  {
    hide Grows, MovesWorker;
  }

  lemma {:induction false} RunServed(s: State, actions: seq<Action>)
    requires Inv(s) && s.mode == ManualDispatch && Served(s)
    ensures var t := Run(s, actions); Served(t) || t.dispatched > s.dispatched
    decreases |actions|
  {
    hide Inv, Step, Served, Grows;
    if actions != [] {
      var before := actions[..|actions| - 1];
      RunServed(s, before);
      RunKeepsInv(s, before);
      ModeStays(s, before);
      var t := Run(s, before);
      if Served(t) {
        StepServed(t, actions[|actions| - 1]);
      }
      DispatchedGrows(t, actions[|actions| - 1]);
      DispatchedRuns(s, before);
    }
  }

  lemma DispatchedGrows(s: State, a: Action)
    ensures s.dispatched <= Step(s, a).dispatched
  {
    StepGrows(s, a);
    hide Step;
  }

  lemma DispatchedRuns(s: State, actions: seq<Action>)
    ensures s.dispatched <= Run(s, actions).dispatched
  {
    RunGrows(s, actions);
    hide Run;
  }

  lemma QuietIsNotServed(s: State)
    requires Inv(s) && Quiet(s) && s.mode == ManualDispatch
    ensures !Served(s)
  {
    MutexIsFree(s);
    WorkerMoves(s);
    hide Grows, MovesWorker, WorkerStep, CallStep, LockInv, CallsInv, Fifo, TokensCovered, NoLostWakeUp;
  }

  /** A DispatchOne that has handed its item over: in every run that goes on until no thread can move it returns true
      if and only if the worker had not taken the quit request with the hand-over event still set. */
  lemma DispatchReturnsExactly(before: seq<Action>, after: seq<Action>)
    requires Run(Init(ManualDispatch), before).dispatcher == AwaitProcessed
    requires Quiet(Run(Run(Init(ManualDispatch), before), after))
    ensures var s := Run(Init(ManualDispatch), before);
            Run(s, after).dispatched > s.dispatched <==> !(s.functorAvailable && Quitting(s))
  {
    var s := Run(Init(ManualDispatch), before);
    Reachable(ManualDispatch, before);
    ModeStays(Init(ManualDispatch), before);
    assert s.mode == ManualDispatch;
    RunKeepsInv(s, after);
    ModeStays(s, after);
    ServedOrDoomed(s);
    hide Run, Init, Inv, Quiet, Quitting;
    if Served(s) {
      RunServed(s, after);
      QuietIsNotServed(Run(s, after));
    } else {
      DoomedForever(s, after);
    }
  }

  /** A DispatchOne that has taken its item but not handed it over can still return true if and only if the worker
      has not taken the quit request. */
  lemma HandOverExactly(before: seq<Action>) returns (after: seq<Action>)
    requires Run(Init(ManualDispatch), before).dispatcher == HoldsPresent
    ensures var s := Run(Init(ManualDispatch), before);
            && (!Quitting(s) ==> AllInternal(after) && Run(s, after).dispatched > s.dispatched)
            && (Quitting(s) ==> forall any: seq<Action> :: Run(s, any).dispatched == s.dispatched)
  {
    var s := Run(Init(ManualDispatch), before);
    Reachable(ManualDispatch, before);
    ModeStays(Init(ManualDispatch), before);
    assert s.mode == ManualDispatch;
    if Quitting(s) {
      after := [];
      NotProcessed(s);
      hide Run, Init, Inv, Quitting;
      forall any: seq<Action> ensures Run(s, any).dispatched == s.dispatched {
        DoomedForever(s, any);
      }
    } else {
      ForwardServes(s);
      StepKeepsInv(s, StepDispatch);
      StepGrows(s, StepDispatch);
      var t := Step(s, StepDispatch);
      var rest := Completion(t);
      after := [StepDispatch] + rest;
      RunAppend(s, [StepDispatch], rest);
      assert Run(s, [StepDispatch]) == t by { assert [StepDispatch][..0] == []; }
      RunKeepsInv(t, rest);
      ModeStays(t, rest);
      hide Run, Init, Inv, Quiet, Quitting, Step, Served;
      RunServed(t, rest);
      QuietIsNotServed(Run(t, rest));
    }
  }

  lemma NotProcessed(s: State)
    requires Inv(s) && s.mode == ManualDispatch && s.dispatcher == HoldsPresent
    ensures !s.itemProcessed
  {
    hide Grows, LockInv, CallsInv, Fifo, TokensCovered, NoLostWakeUp, QuitInv;
  }

  lemma ForwardServes(s: State)
    requires s.dispatcher == HoldsPresent && !Quitting(s)
    ensures Served(Step(s, StepDispatch)) && Step(s, StepDispatch).dispatched == s.dispatched
  {
    hide Grows;
  }

  // ---------- the promise covers only calls that returned in time ----------

  lemma Then(s: State, actions: seq<Action>, a: Action) returns (next: seq<Action>)
    ensures next == actions + [a] && Run(s, next) == Step(Run(s, actions), a)
  {
    next := actions + [a];
    assert next[..|next| - 1] == actions;
  }

  /** A call admitted before quitSynchronous but still waiting for the mutex: it returns, and its functor never runs. */
  lemma LateCallIsLost(f: Functor) returns (actions: seq<Action>)
    ensures var s := Run(Init(AutoDispatch), actions);
            s.quitter == Done && s.calls == [Call(f, Returned(0))] && s.queue == [f] && s.ran == []
  {
    var admitted := Init(AutoDispatch).(calls := [Call(f, Admitted)]);
    actions := AdmitOnly(AutoDispatch, f);
    actions := QuitUnseen(AutoDispatch, actions, admitted);
    var stopped := admitted.(life := WorkerThreadHasExited, looping := false, worker := Exited, quitter := Done);
    actions := PushAll(AutoDispatch, actions, stopped, f);
  }

  /** A DispatchOne that takes its item, and hands it over after the worker has taken the quit request, waits for ever. */
  lemma DispatchCanHang(f: Functor) returns (actions: seq<Action>)
    ensures var s := Run(Init(ManualDispatch), actions);
            s.dispatcher == AwaitProcessed && s.quitter == Done && s.queue == [f] && s.dispatched == 0 && Doomed(s)
  {
    var admitted := Init(ManualDispatch).(calls := [Call(f, Admitted)]);
    actions := AdmitOnly(ManualDispatch, f);
    actions := PushAll(ManualDispatch, actions, admitted, f);
    var pushed := admitted.(calls := [Call(f, Returned(0))], queue := [f], pushed := [f], itemPresent := true);
    actions := TakeItem(actions, pushed);
    var taken := pushed.(itemPresent := false, dispatcher := HoldsPresent);
    actions := QuitUnseen(ManualDispatch, actions, taken);
    var stopped := taken.(life := WorkerThreadHasExited, looping := false, worker := Exited, quitter := Done);
    actions := HandOver(actions, stopped);
  }

  lemma AdmitOnly(mode: Mode, f: Functor) returns (actions: seq<Action>)
    ensures Run(Init(mode), actions) == Init(mode).(calls := [Call(f, Admitted)])
  {
    hide Grows, MovesCall;
    var s := Init(mode);
    actions := Then(s, [], Begin(f));
    assert Run(s, actions) == s.(calls := [Call(f, Entered)]);
    actions := Then(s, actions, StepCall(0));
  }

  lemma TakeItem(before: seq<Action>, s: State) returns (actions: seq<Action>)
    requires Run(Init(ManualDispatch), before) == s && s.mode == ManualDispatch && s.dispatcher == Idle && s.itemPresent
    ensures Run(Init(ManualDispatch), actions) == s.(itemPresent := false, dispatcher := HoldsPresent)
  {
    hide Grows, Run, Init, CallStep, WorkerStep, QuitStep;
    actions := Then(Init(ManualDispatch), before, BeginDispatch);
    actions := Then(Init(ManualDispatch), actions, StepDispatch);
  }

  lemma HandOver(before: seq<Action>, s: State) returns (actions: seq<Action>)
    requires Run(Init(ManualDispatch), before) == s && s.dispatcher == HoldsPresent
    ensures Run(Init(ManualDispatch), actions) == s.(functorAvailable := true, dispatcher := AwaitProcessed)
  {
    hide Grows, Run, Init, CallStep, WorkerStep, QuitStep;
    actions := Then(Init(ManualDispatch), before, StepDispatch);
  }

  lemma QuitUnseen(mode: Mode, before: seq<Action>, s: State) returns (actions: seq<Action>)
    requires Run(Init(mode), before) == s && s.worker == LoopTest && s.looping && s.quitter == NotCalled
    requires !s.functorAvailable && !s.quitRequested
    ensures Run(Init(mode), actions)
         == s.(life := WorkerThreadHasExited, looping := false, worker := Exited, quitter := Done)
  {
    hide Grows, MovesWorker, Run, Init, CallStep, DispatchStep;
    var s0 := Init(mode);
    actions := Then(s0, before, BeginQuit);
    actions := Then(s0, actions, StepQuit);
    actions := Then(s0, actions, StepWorker);
    actions := Then(s0, actions, StepWorker);
    assert Run(s0, actions)
        == s.(life := QuitSynchronousHasBeenCalled, worker := QuitSeen, quitter := QuitSignalled);
    actions := Then(s0, actions, StepWorker);
    actions := Then(s0, actions, StepWorker);
    assert Run(s0, actions)
        == s.(life := QuitSynchronousHasBeenCalled, looping := false, worker := Exited, quitter := QuitSignalled);
    hide WorkerStep;
    actions := Then(s0, actions, StepQuit);
    actions := Then(s0, actions, StepQuit);
  }

  lemma PushAll(mode: Mode, before: seq<Action>, s: State, f: Functor) returns (actions: seq<Action>)
    requires Run(Init(mode), before) == s && s.owner == Free && s.queue == s.pushed == []
    requires s.calls == [Call(f, Admitted)] && s.mode == mode
    ensures Run(Init(mode), actions)
         == SignalDispatch(s).(calls := [Call(f, Returned(0))], queue := [f], pushed := [f])
  {
    var inside := s.(owner := ByCall(0), calls := [Call(f, Inside)]);
    var pushed := inside.(calls := [Call(f, Pushed(0))], queue := [f], pushed := [f]);
    EntrySteps(s, f);
    ExitSteps(pushed, f);
    hide CallStep, WorkerStep, QuitStep, DispatchStep, Run, Init;
    var s0 := Init(mode);
    actions := Then(s0, before, StepCall(0));
    actions := Then(s0, actions, StepCall(0));
    actions := Then(s0, actions, StepCall(0));
    actions := Then(s0, actions, StepCall(0));
  }

  lemma EntrySteps(s: State, f: Functor)
    requires s.owner == Free && s.queue == s.pushed == [] && s.calls == [Call(f, Admitted)]
    ensures var inside := s.(owner := ByCall(0), calls := [Call(f, Inside)]);
            CallStep(s, 0) == inside
            && CallStep(inside, 0) == inside.(calls := [Call(f, Pushed(0))], queue := [f], pushed := [f])
  {
    hide Grows, MovesCall;
    var inside := s.(owner := ByCall(0), calls := [Call(f, Inside)]);
    assert CallStep(s, 0) == Enter(s, 0) == inside;
    assert CallStep(inside, 0) == Push(inside, 0);
  }

  lemma ExitSteps(s: State, f: Functor)
    requires s.calls == [Call(f, Pushed(0))]
    ensures var signalled := SignalDispatch(s).(calls := [Call(f, Signalled(0))]);
            CallStep(s, 0) == signalled
            && CallStep(signalled, 0) == signalled.(owner := Free, calls := [Call(f, Returned(0))])
  {
    hide Grows, MovesCall, SignalDispatch;
    var signalled := SignalDispatch(s).(calls := [Call(f, Signalled(0))]);
    assert CallStep(s, 0) == Announce(s, 0) == signalled;
    assert CallStep(signalled, 0) == Leave(signalled, 0);
  }
}
