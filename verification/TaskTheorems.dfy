/** What the task pipeline promises, over every run of module TaskStore: stale reads,
    conflicting, lost and ambiguous updates, crashed reconciles, failing steps. */
module TaskTheorems {
  import opened Api
  import opened TaskPipeline
  import opened TaskStore

  lemma {:induction false} ExecGrows(spec: TaskSpec, actions: seq<Action>, more: seq<Action>)
    ensures Grows(Exec(spec, actions), Exec(spec, actions + more))
  {
    if more == [] {
      assert actions + more == actions;
    } else {
      var init := more[..|more| - 1];
      ExecGrows(spec, actions, init);
      assert (actions + more)[..|actions + more| - 1] == actions + init;
      StepGrows(Exec(spec, actions + init), more[|more| - 1]);
    }
  }

  /** Every committed version is a prefix of Accept, Commit, Push in which only the last may
      be False; each follows the one before it by one legal change; the phase stays empty
      until it is COMPLETED (all three done) or FAILED (budget spent), and no reconcile is
      ever about to write CREATED or a condition that is neither True nor False. */
  lemma PipelineShape(spec: TaskSpec, actions: seq<Action>)
    ensures var t := Exec(spec, actions);
            && |t.hist| > 0 && t.hist[0] == NEW_STATUS
            && (forall i | 0 <= i < |t.hist| :: StatusOk(spec, t.hist[i]))
            && (forall i | 0 <= i < |t.hist| - 1 ::
                  t.hist[i].phase == NoPhase && (t.hist[i + 1] == t.hist[i] || Evolves(spec, t.hist[i], t.hist[i + 1])))
            && (forall id | id in t.copies && (t.copies[id].w.pc.SavingStep? || t.copies[id].w.pc.SavingPhase?) ::
                  t.copies[id].w.st.phase != CreatedPhase && Shaped(t.copies[id].w.st.conds))
  {
    ExecInv(spec, actions);
    var t := Exec(spec, actions);
    forall id | id in t.copies && (t.copies[id].w.pc.SavingStep? || t.copies[id].w.pc.SavingPhase?)
      ensures t.copies[id].w.st.phase != CreatedPhase && Shaped(t.copies[id].w.st.conds)
    {
      var c := t.copies[id];
      assert CopyInv(t, c);
      EvolvesKeepsShape(spec, t.hist[c.rv], c.w.st);
    }
  }

  /** A terminal version is the last one there will ever be. */
  lemma TerminalIsFinal(spec: TaskSpec, actions: seq<Action>, more: seq<Action>)
    requires Terminal(Current(Exec(spec, actions)))
    ensures Exec(spec, actions + more).hist == Exec(spec, actions).hist
  {
    var t, t' := Exec(spec, actions), Exec(spec, actions + more);
    ExecInv(spec, actions);
    ExecInv(spec, actions + more);
    ExecGrows(spec, actions, more);
    assert t'.hist[|t.hist| - 1] == Current(t);
  }

  /** A step once done stays done, and a retry once counted stays counted. */
  lemma ProgressIsKept(spec: TaskSpec, actions: seq<Action>, i: nat, j: nat)
    requires i <= j < |Exec(spec, actions).hist|
    ensures var h := Exec(spec, actions).hist;
            Done(h[i]) <= Done(h[j]) && h[i].retryCount <= h[j].retryCount
  {
    ExecInv(spec, actions);
    HistMonotone(Exec(spec, actions), i, j);
  }

  /** The retry budget: a task that is not terminal has counted fewer failures than its
      budget, a FAILED one exactly its budget, and the task is terminal once as many final
      updates have landed as the budget allows; the int32 increment never wraps. */
  lemma RetryTermination(spec: TaskSpec, actions: seq<Action>)
    ensures var t := Exec(spec, actions); var cur := Current(t);
            && 0 <= cur.retryCount
            && (!Terminal(cur) ==> cur.retryCount < Budget(spec))
            && (cur.phase == FailedPhase ==> cur.retryCount == Budget(spec))
            && t.finals <= Budget(spec)
            && (t.finals == Budget(spec) ==> Terminal(cur))
            && (forall id | id in t.copies && t.copies[id].w.pc.Deciding? :: t.copies[id].w.st.retryCount < MAX_INT32)
  {
    ExecInv(spec, actions);
    var t := Exec(spec, actions);
    forall id | id in t.copies && t.copies[id].w.pc.Deciding?
      ensures t.copies[id].w.st.retryCount < MAX_INT32
    {
      assert CopyInv(t, t.copies[id]);
    }
  }

  /** Version `b` right after `a`, by a final update or by one after a step. */
  ghost predicate Progress(a: Status, b: Status, final: bool) {
    if !final then b.retryCount == a.retryCount && b.phase == a.phase
    else !Terminal(a) && b.retryCount == a.retryCount + if b.phase == CompletedPhase then 0 else 1
  }

  lemma LandingProgress(t: TaskSys, id: nat, e: Event, bumps: bool)
    requires t.hist != [] && Enabled(t, id, e) && IsUpdate(e)
    requires StatusOk(t.spec, Current(t)) && InFlight(t.spec, Current(t), t.copies[id].w)
    ensures Progress(Current(t), Current(Landing(t, id, e, bumps)), e.PhaseSaved?)
    ensures Landing(t, id, e, bumps).finals == t.finals + if e.PhaseSaved? then 1 else 0
  {
    assert Current(Landing(t, id, e, bumps)) == t.copies[id].w.st;
  }

  predicate Lands(t: TaskSys, a: Action) {
    a.Work? && Enabled(t, a.id, a.e) && IsUpdate(a.e) && a.lands && UpToDate(t, t.copies[a.id])
  }

  lemma OnlyLandingWrites(t: TaskSys, a: Action)
    ensures if Lands(t, a) then Step(t, a) == Landing(t, a.id, a.e, a.bumps)
            else Step(t, a).hist == t.hist && Step(t, a).finals == t.finals
  {
  }

  /** Each final update that lands uses the budget up by exactly one or completes the task;
      no other action changes the count or the phase. */
  lemma FinalUpdateProgress(spec: TaskSpec, actions: seq<Action>, a: Action)
    ensures var t := Exec(spec, actions); var t' := Step(t, a);
            && t.finals <= t'.finals <= t.finals + 1
            && Progress(Current(t), Current(t'), t'.finals > t.finals)
  {
    ExecInv(spec, actions);
    var t := Exec(spec, actions);
    OnlyLandingWrites(t, a);
    if Lands(t, a) {
      assert CopyInv(t, t.copies[a.id]) && t.hist[t.copies[a.id].rv] == Current(t);
      LandingProgress(t, a.id, a.e, a.bumps);
    }
  }

  /** Every runtime call is for the task's own image, no push is attempted before a commit
      of it succeeded, and a COMPLETED task was committed and then pushed. */
  lemma CommitBeforePush(spec: TaskSpec, actions: seq<Action>)
    ensures var t := Exec(spec, actions);
            && CallsOrdered(t.log, spec.commitImage)
            && (Current(t).phase == CompletedPhase ==> CommittedThenPushed(t.log, spec.commitImage))
  {
    ExecInv(spec, actions);
  }

  /** The action is the run of a step body on answers that make for this call. */
  predicate AnsweredBy(spec: TaskSpec, action: Action, call: Effect) {
    && action.Work? && action.e.Ran?
    && var a := action.e.answers;
       match call
       case CommitCall(image, ok) =>
         image == spec.commitImage && a.supported && a.timeoutParses && (ok <==> a.verb == None)
       case PushCall(image, ok) =>
         image == spec.commitImage && a.supported && a.imageExists && a.authFound && (ok <==> a.verb == None)
       case _ => false
  }

  lemma EffectIsAnswered(spec: TaskSpec, w: Worker, id: nat, e: Event, lands: bool, bumps: bool, call: Effect)
    requires call in Effects(spec, w, e) && (call.CommitCall? || call.PushCall?)
    ensures AnsweredBy(spec, Work(id, e, lands, bumps), call)
  {
  }

  lemma NewInLog(t: TaskSys, a: Action, call: Effect)
    requires call in Step(t, a).log && call !in t.log
    ensures a.Work? && Enabled(t, a.id, a.e) && call in Effects(t.spec, t.copies[a.id].w, a.e)
    ensures Step(t, a).spec == t.spec
  {
    hide Effects, TaskPipeline.Next;
  }

  /** No call is made up: in every run each logged Commit and Push is one that a step body made
      of the task's image, with its guards passed, and it is logged as a success exactly if the
      runtime answered without an error. */
  lemma {:induction false} CallsAreAnswered(spec: TaskSpec, actions: seq<Action>, call: Effect)
    requires call in Exec(spec, actions).log && (call.CommitCall? || call.PushCall?)
    ensures exists n :: 0 <= n < |actions| && AnsweredBy(spec, actions[n], call)
  {
    hide Effects, Step, AnsweredBy;
    if actions != [] {
      var init, a := actions[..|actions| - 1], actions[|actions| - 1];
      var t := Exec(spec, init);
      ExecInv(spec, init);
      if call in t.log {
        CallsAreAnswered(spec, init, call);
        var n :| 0 <= n < |init| && AnsweredBy(spec, init[n], call);
        assert AnsweredBy(spec, actions[n], call);
      } else {
        NewInLog(t, a, call);
        EffectIsAnswered(spec, t.copies[a.id].w, a.id, a.e, a.lands, a.bumps, call);
        assert AnsweredBy(spec, actions[|actions| - 1], call);
      }
    }
  }

  ghost predicate AllStopped(t: TaskSys) {
    t.log == [] && t.hist == [NEW_STATUS] && forall id | id in t.copies :: t.copies[id].w.pc.Stopped?
  }

  /** Nodes other than the task's own do nothing about it, whatever they read and when. */
  lemma {:induction false} OtherNodesAreIdle(spec: TaskSpec, actions: seq<Action>)
    requires forall a | a in actions && a.Read? :: a.node != spec.nodeName
    ensures AllStopped(Exec(spec, actions)) && Exec(spec, actions).spec == spec
  {
    hide Step;
    if actions != [] {
      var init, a := actions[..|actions| - 1], actions[|actions| - 1];
      assert a in actions && forall x | x in init :: x in actions;
      OtherNodesAreIdle(spec, init);
      IdleStep(Exec(spec, init), a);
    }
  }

  lemma IdleStep(t: TaskSys, a: Action)
    requires AllStopped(t) && (a.Read? ==> a.node != t.spec.nodeName)
    ensures AllStopped(Step(t, a)) && Step(t, a).spec == t.spec
  {
  }

  /** No failure is counted twice: the persisted count never exceeds the failed step runs,
      nor the retries the metric has counted. */
  lemma RetriesAreEarned(spec: TaskSpec, actions: seq<Action>)
    ensures var t := Exec(spec, actions);
            && Current(t).retryCount <= Count(Failure, t.log)
            && Current(t).retryCount <= Count(Retry, t.log)
  {
    ExecInv(spec, actions);
  }

  /** The terminal metric fires at most once per task, and never with the wrong result. */
  lemma RecordedAtMostOnce(spec: TaskSpec, actions: seq<Action>)
    ensures var t := Exec(spec, actions);
            && Count(Record, t.log) <= 1
            && forall e | e in t.log && e.TaskRecorded? ::
                 Terminal(Current(t)) && e.success == (Current(t).phase == CompletedPhase)
  {
    ExecInv(spec, actions);
  }

  // ---------- Crash recovery ----------

  /** Nothing is left to this worker but the phase. */
  ghost predicate OnlyWaiting(base: Status, w: Worker) {
    match w.pc
    case AtStep(k) => w.st == base && base.phase == NoPhase
    case SavingStep(_, _) => false
    case Deciding(err) => !err && w.st == base && base.phase == NoPhase
    case SavingPhase => w.st == base.(phase := CompletedPhase)
    case Stopped(_) => true
  }

  lemma {:induction false} DoneRunsNothing(spec: TaskSpec, base: Status, node: string, trace: seq<Event>)
    requires StatusOk(spec, base) && Done(base) == 3
    requires Replay(spec, Start(spec, node, base), trace).Some?
    ensures OnlyWaiting(base, Replay(spec, Start(spec, node, base), trace).value)
    ensures forall e | e in ReplayEffects(spec, Start(spec, node, base), trace) :: e.TaskRecorded? && e.success
  {
    var w := Start(spec, node, base);
    if trace != [] {
      var rest, e := trace[..|trace| - 1], trace[|trace| - 1];
      DoneRunsNothing(spec, base, node, rest);
      var w' := Replay(spec, w, rest).value;
      if w'.pc.AtStep? && w'.pc.k < 3 {
        RunsNextStep(spec, base, w'.pc.k, Fine);
      } else if w'.pc.Deciding? && e.Decided? {
        DecidesNext(spec, base, false, e.aged);
      }
      if e.PhaseSaved? {
        assert Effects(spec, w', e) == [] || Effects(spec, w', e) == [TaskRecorded(true)];
      } else {
        assert Effects(spec, w', e) == [];
      }
    }
  }

  /** Once Push is persisted as done, a reconcile that reads that version or a later one, on
      whatever node and under whatever answers, runs no step and calls no runtime command,
      and all it can write is COMPLETED. */
  lemma CrashRecovery(spec: TaskSpec, actions: seq<Action>, v: nat, u: nat, node: string, trace: seq<Event>)
    requires v <= u < |Exec(spec, actions).hist| && Done(Exec(spec, actions).hist[v]) == 3
    requires Replay(spec, Start(spec, node, Exec(spec, actions).hist[u]), trace).Some?
    ensures var w := Start(spec, node, Exec(spec, actions).hist[u]);
            var w' := Replay(spec, w, trace).value;
            && (forall e | e in ReplayEffects(spec, w, trace) :: e == TaskRecorded(true))
            && !w'.pc.SavingStep?
            && (w'.pc.SavingPhase? ==> w'.st.phase == CompletedPhase)
  {
    ExecInv(spec, actions);
    HistMonotone(Exec(spec, actions), v, u);
    DoneRunsNothing(spec, Exec(spec, actions).hist[u], node, trace);
  }

  // ---------- Undisturbed runs ----------

  /** One reconcile at a time, reading the newest version, every update landing and reported. */
  ghost predicate Calm(t: TaskSys, a: Action) {
    match a
    case Read(id, v, node) =>
      v + 1 == |t.hist| && forall i | i in t.copies :: t.copies[i].w.pc.Stopped?
    case Work(id, e, lands, bumps) => IsUpdate(e) ==> e.ok && lands
  }

  ghost predicate CalmRun(spec: TaskSpec, actions: seq<Action>) {
    actions == [] ||
    (var init := actions[..|actions| - 1];
     CalmRun(spec, init) && Calm(Exec(spec, init), actions[|actions| - 1]))
  }

  /** The failure a worker has seen but not yet counted, and the commit not yet persisted. */
  function Uncounted(w: Worker): nat {
    match w.pc
    case SavingStep(_, err) => if err then 1 else 0
    case Deciding(err) => if err then 1 else 0
    case SavingPhase => if w.st.phase == CompletedPhase then 0 else 1
    case _ => 0
  }

  function Unsaved(w: Worker): nat {
    if w.pc == SavingStep(1, false) then 1 else 0
  }

  ghost predicate CalmInv(t: TaskSys, id: nat) {
    && (forall i | i in t.copies && i != id :: t.copies[i].w.pc.Stopped?)
    && (id in t.copies && !t.copies[id].w.pc.Stopped? ==> UpToDate(t, t.copies[id]))
    && Count(Failure, t.log) == Current(t).retryCount + (if id in t.copies then Uncounted(t.copies[id].w) else 0)
    && Count(CommitDone, t.log)
       == (if Done(Current(t)) >= 2 then 1 else 0) + (if id in t.copies then Unsaved(t.copies[id].w) else 0)
  }

  lemma LocalBalance(spec: TaskSpec, base: Status, w: Worker, e: Event)
    requires StatusOk(spec, base) && InFlight(spec, base, w) && Next(spec, w, e).Some? && !IsUpdate(e)
    ensures var w' := Next(spec, w, e).value;
            && Uncounted(w') == Uncounted(w) + Weight(spec, w, e, Failure)
            && Unsaved(w') == Unsaved(w) + Weight(spec, w, e, CommitDone)
  {
    if w.pc.AtStep? && e.Ran? {
      RunsNextStep(spec, base, w.pc.k, Body(w.pc.k, e.answers));
    } else if w.pc.Deciding? {
      DecidesNext(spec, base, w.pc.err, e.aged);
    }
  }

  lemma LandingBalance(spec: TaskSpec, base: Status, w: Worker, e: Event)
    requires StatusOk(spec, base) && InFlight(spec, base, w) && Next(spec, w, e).Some? && IsUpdate(e) && e.ok
    ensures var w' := Next(spec, w, e).value;
            && w.st.retryCount + Uncounted(w') == base.retryCount + Uncounted(w)
            && (if Done(w.st) >= 2 then 1 else 0) + Unsaved(w') == (if Done(base) >= 2 then 1 else 0) + Unsaved(w)
            && Weight(spec, w, e, Failure) == 0 == Weight(spec, w, e, CommitDone)
  {
    DoneByStep(spec, base, w);
  }

  lemma CalmLocal(t: TaskSys, id: nat, e: Event)
    requires t.hist != [] && CalmInv(t, id) && Enabled(t, id, e) && !IsUpdate(e)
    requires StatusOk(t.spec, Current(t)) && InFlight(t.spec, Current(t), t.copies[id].w)
    ensures CalmInv(Locally(t, id, e), id)
  {
    hide InFlight, StatusOk, Effects, Weight, TaskPipeline.Next;
    MovesUnlessStopped(t.spec, t.copies[id].w, e);
    assert Current(Locally(t, id, e)) == Current(t);
    CountEffects(t, t.copies[id], e, Failure);
    CountEffects(t, t.copies[id], e, CommitDone);
    LocalBalance(t.spec, Current(t), t.copies[id].w, e);
  }

  lemma CalmLanding(t: TaskSys, id: nat, e: Event, bumps: bool)
    requires t.hist != [] && CalmInv(t, id) && Enabled(t, id, e) && IsUpdate(e) && e.ok
    requires StatusOk(t.spec, Current(t)) && InFlight(t.spec, Current(t), t.copies[id].w)
    ensures CalmInv(Landing(t, id, e, bumps), id)
  {
    hide InFlight, StatusOk, Effects, Weight, TaskPipeline.Next;
    assert Current(Landing(t, id, e, bumps)) == t.copies[id].w.st;
    CountEffects(t, t.copies[id], e, Failure);
    CountEffects(t, t.copies[id], e, CommitDone);
    LandingBalance(t.spec, Current(t), t.copies[id].w, e);
  }

  lemma CalmStep(t: TaskSys, id: nat, a: Action) returns (id': nat)
    requires Inv(t) && CalmInv(t, id) && Calm(t, a)
    ensures CalmInv(Step(t, a), id')
  {
    id' := id;
    match a
    case Read(i, v, node) =>
      if i !in t.copies { id' := i; }
    case Work(i, e, lands, bumps) =>
      if Enabled(t, i, e) {
        assert i == id;
        assert CopyInv(t, t.copies[id]) && t.hist[t.copies[id].rv] == Current(t);
        if IsUpdate(e) { CalmLanding(t, id, e, bumps); } else { CalmLocal(t, id, e); }
      }
  }

  lemma {:induction false} CalmExec(spec: TaskSpec, actions: seq<Action>) returns (id: nat)
    requires CalmRun(spec, actions)
    ensures CalmInv(Exec(spec, actions), id)
  {
    if actions == [] {
      id := 0;
    } else {
      var init := actions[..|actions| - 1];
      id := CalmExec(spec, init);
      ExecInv(spec, init);
      id := CalmStep(Exec(spec, init), id, actions[|actions| - 1]);
    }
  }

  /** Without interference the budget is exact: whenever no reconcile is under way, the
      persisted count is the number of failed Commit and Push runs together; and at any
      moment at most one Commit has succeeded. */
  lemma SharedFailureBudget(spec: TaskSpec, actions: seq<Action>)
    requires CalmRun(spec, actions)
    ensures var t := Exec(spec, actions);
            && Count(CommitDone, t.log) <= 1
            && ((forall i | i in t.copies :: t.copies[i].w.pc.Stopped?) ==>
                  Count(Failure, t.log) == Current(t).retryCount)
  {
    hide Exec, CalmRun, CalmInv, Inv;
    var id := CalmExec(spec, actions);
    ExecInv(spec, actions);
    CalmCounts(Exec(spec, actions), id);
  }

  lemma CalmCounts(t: TaskSys, id: nat)
    requires Inv(t) && CalmInv(t, id)
    ensures Count(CommitDone, t.log) <= 1
    ensures (forall i | i in t.copies :: t.copies[i].w.pc.Stopped?) ==>
              Count(Failure, t.log) == Current(t).retryCount
  {
    if id in t.copies && !t.copies[id].w.pc.Stopped? {
      assert CopyInv(t, t.copies[id]);
      assert t.hist[t.copies[id].rv] == Current(t);
    }
  }
}
