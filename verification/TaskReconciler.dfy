/** The task reconciler in the form of the source: a loop over the three steps that
    changes the task object in place and writes it back as it goes, proved to be the
    worker of module TaskPipeline. */
module TaskReconciler {
  import opened Api
  import opened TaskPipeline

  class TaskObject {
    var conds: seq<Cond>
    var phase: Phase
    var retryCount: int32

    constructor (st: Status)
      ensures Value() == st
    {
      conds, phase, retryCount := st.conds, st.phase, st.retryCount;
    }

    function Value(): Status
      reads this
    {
      Status(conds, phase, retryCount)
    }
  }

  /** Every answer one reconcile may ask for: per step, what its body meets and whether the
      update after it is reported to succeed; which conditions are old; the final update. */
  datatype Env = Env(step: seq<Answers>, stepSaved: seq<bool>, aged: set<CondType>, phaseSaved: bool)

  ghost predicate Valid(env: Env) {
    |env.step| == 3 && |env.stepSaved| == 3
  }

  /** The answer carried by the event is the one `env` gives at this program point. */
  ghost predicate Fits(env: Env, w: Worker, e: Event)
    requires Valid(env)
  {
    match (w.pc, e)
    case (AtStep(k), Ran(a)) => k < 3 && a == env.step[k]
    case (SavingStep(k, _), StepSaved(ok)) => k < 3 && ok == env.stepSaved[k]
    case (Deciding(_), Decided(aged)) => aged == env.aged
    case (SavingPhase, PhaseSaved(ok)) => ok == env.phaseSaved
    case _ => true
  }

  ghost predicate Follows(env: Env, spec: TaskSpec, w: Worker, trace: seq<Event>)
    requires Valid(env)
  {
    trace == [] ||
    (var rest := trace[..|trace| - 1];
     Follows(env, spec, w, rest) &&
     Replay(spec, w, rest).Some? && Fits(env, Replay(spec, w, rest).value, trace[|trace| - 1]))
  }

  lemma NothingYet(env: Env, spec: TaskSpec, w: Worker)
    requires Valid(env)
    ensures Follows(env, spec, w, []) && Replay(spec, w, []) == Some(w) && ReplayEffects(spec, w, []) == []
  {
  }

  /** Records one more event of a reconcile. */
  ghost method Extend(env: Env, spec: TaskSpec, w: Worker, trace: seq<Event>, e: Event)
    returns (longer: seq<Event>)
    requires Valid(env) && Follows(env, spec, w, trace)
    requires Replay(spec, w, trace).Some? && Fits(env, Replay(spec, w, trace).value, e)
    ensures Follows(env, spec, w, longer)
    ensures Replay(spec, w, longer) == Next(spec, Replay(spec, w, trace).value, e)
    ensures ReplayEffects(spec, w, longer)
         == ReplayEffects(spec, w, trace) + Effects(spec, Replay(spec, w, trace).value, e)
  {
    longer := trace + [e];
    assert longer[..|longer| - 1] == trace;
    ReplaySnoc(spec, w, trace, e);
  }

  lemma FollowsPrefix(env: Env, spec: TaskSpec, w: Worker, trace: seq<Event>, n: nat)
    requires Valid(env) && Follows(env, spec, w, trace) && n <= |trace|
    requires Replay(spec, w, trace).Some?
    ensures Follows(env, spec, w, trace[..n]) && Replay(spec, w, trace[..n]).Some?
    ensures n < |trace| ==>
              var w' := Replay(spec, w, trace[..n]).value;
              Fits(env, w', trace[n]) && Next(spec, w', trace[n]).Some?
    decreases |trace|
  {
    if n == |trace| {
      assert trace[..n] == trace;
    } else {
      var rest := trace[..|trace| - 1];
      FollowsPrefix(env, spec, w, rest, n);
      assert rest[..n] == trace[..n];
    }
  }

  lemma FitsOneEvent(env: Env, spec: TaskSpec, w: Worker, e1: Event, e2: Event)
    requires Valid(env) && Fits(env, w, e1) && Fits(env, w, e2)
    requires Next(spec, w, e1).Some? && Next(spec, w, e2).Some?
    ensures e1 == e2
  {
  }

  /** Traces that follow the same answers agree as far as the shorter one goes. */
  lemma {:induction false} SamePrefix(env: Env, spec: TaskSpec, w: Worker, t1: seq<Event>, t2: seq<Event>, n: nat)
    requires Valid(env) && Follows(env, spec, w, t1) && Follows(env, spec, w, t2)
    requires Replay(spec, w, t1).Some? && Replay(spec, w, t2).Some?
    requires n <= |t1| && n <= |t2|
    ensures t1[..n] == t2[..n]
  {
    hide Follows, Fits, Next;
    if n > 0 {
      SamePrefix(env, spec, w, t1, t2, n - 1);
      FollowsPrefix(env, spec, w, t1, n - 1);
      FollowsPrefix(env, spec, w, t2, n - 1);
      FitsOneEvent(env, spec, Replay(spec, w, t1[..n - 1]).value, t1[n - 1], t2[n - 1]);
      assert t1[..n] == t1[..n - 1] + [t1[n - 1]];
      assert t2[..n] == t2[..n - 1] + [t2[n - 1]];
    }
  }

  lemma ShorterIsWhole(env: Env, spec: TaskSpec, w: Worker, t1: seq<Event>, t2: seq<Event>)
    requires Valid(env) && Follows(env, spec, w, t1) && Follows(env, spec, w, t2)
    requires Replay(spec, w, t1).Some? && Replay(spec, w, t1).value.pc.Stopped?
    requires Replay(spec, w, t2).Some?
    requires |t1| <= |t2|
    ensures t1 == t2
  {
    SamePrefix(env, spec, w, t1, t2, |t1|);
    FollowsPrefix(env, spec, w, t2, |t1|);
    assert t1[..|t1|] == t1;
    assert t2[..|t2|] == t2;
  }

  /** The answers determine the whole reconcile, so the contract of `Reconcile` leaves no
      freedom: one trace, one final status, one list of effects. */
  lemma ReconcileIsDetermined(env: Env, spec: TaskSpec, w: Worker, t1: seq<Event>, t2: seq<Event>)
    requires Valid(env) && Follows(env, spec, w, t1) && Follows(env, spec, w, t2)
    requires Replay(spec, w, t1).Some? && Replay(spec, w, t1).value.pc.Stopped?
    requires Replay(spec, w, t2).Some? && Replay(spec, w, t2).value.pc.Stopped?
    ensures t1 == t2
  {
    if |t1| <= |t2| {
      ShorterIsWhole(env, spec, w, t1, t2);
    } else {
      ShorterIsWhole(env, spec, w, t2, t1);
    }
  }

  // ---------- The steps ----------

  const STEPS := [Accept, Commit, Push]

  /** The runtime is asked to commit exactly if it is known and the timeout parses; the step
      succeeds exactly if it is asked and the command succeeds. */
  method ReconcileCommit(spec: TaskSpec, a: Answers) returns (err: Option<string>, calls: seq<Effect>)
    ensures err.None? <==> a.supported && a.timeoutParses && a.verb.None?
    ensures calls == if a.supported && a.timeoutParses then [CommitCall(spec.commitImage, a.verb.None?)] else []
    ensures a.supported && a.timeoutParses ==> err == a.verb
    ensures a.supported && !a.timeoutParses ==> err == Some("bad timeout")
    ensures !a.supported ==> err == Some("unsupported for runtime")
  {
    calls := [];
    if !a.supported {
      return Some("unsupported for runtime"), calls;
    }
    if !a.timeoutParses {
      return Some("bad timeout"), calls;
    }
    calls := [CommitCall(spec.commitImage, a.verb.None?)];
    return a.verb, calls;
  }

  /** The runtime is asked to push exactly if it is known, the image is there and so is the
      registry's secret; the step succeeds exactly if it is asked and the command succeeds. */
  method ReconcilePushImage(spec: TaskSpec, a: Answers) returns (err: Option<string>, calls: seq<Effect>)
    ensures err.None? <==> a.supported && a.imageExists && a.authFound && a.verb.None?
    ensures calls == if a.supported && a.imageExists && a.authFound then [PushCall(spec.commitImage, a.verb.None?)] else []
    ensures a.supported && a.imageExists && a.authFound ==> err == a.verb
    ensures a.supported && a.imageExists && !a.authFound ==> err == Some("no registry auth")
    ensures a.supported && !a.imageExists ==> err == Some("image not exists")
    ensures !a.supported ==> err == Some("unsupported for runtime")
  {
    calls := [];
    if !a.supported {
      return Some("unsupported for runtime"), calls;
    }
    if !a.imageExists {
      return Some("image not exists"), calls;
    }
    if !a.authFound {
      return Some("no registry auth"), calls;
    }
    calls := [PushCall(spec.commitImage, a.verb.None?)];
    return a.verb, calls;
  }

  /** The calls that step `k` makes on these answers, as the runtime answers them: Commit only
      in the Commit step and Push only in the Push step. */
  function CallsOf(spec: TaskSpec, k: nat, a: Answers): seq<Effect> {
    if k == 1 && a.supported && a.timeoutParses then [CommitCall(spec.commitImage, a.verb.None?)]
    else if k == 2 && a.supported && a.imageExists && a.authFound then [PushCall(spec.commitImage, a.verb.None?)]
    else []
  }

  /** The function of step `k`. */
  method StepFunction(spec: TaskSpec, k: nat, a: Answers) returns (err: Option<string>, calls: seq<Effect>)
    requires k < 3
    ensures calls == CallsOf(spec, k, a)
    ensures k == 0 ==> err.None?
    ensures k == 1 ==> (err.None? <==> a.supported && a.timeoutParses && a.verb.None?)
    ensures k == 2 ==> (err.None? <==> a.supported && a.imageExists && a.authFound && a.verb.None?)
    ensures err == match Body(k, a) case Fine => None case GaveUp(why) => Some(why) case Broke(why) => Some(why)
    ensures calls + (if err.None? then [] else [StepFailed(STEPS[k])]) == StepEffects(spec.commitImage, k, Body(k, a))
  {
    err, calls := None, [];
    if k == 1 {
      err, calls := ReconcileCommit(spec, a);
    } else if k == 2 {
      err, calls := ReconcilePushImage(spec, a);
    }
  }

  /** Finds or appends the step's condition, runs the step, and sets the condition: True, or
      False with the step's error. */
  method RunStep(spt: TaskObject, spec: TaskSpec, k: nat, a: Answers)
    returns (err: Option<string>, effects: seq<Effect>)
    requires k < 3 && !StepDone(spt.Value(), k)
    modifies spt
    ensures err.None? <==> Body(k, a).Fine?
    ensures spt.Value() == WithStep(old(spt.Value()), k, Body(k, a))
    ensures effects == StepEffects(spec.commitImage, k, Body(k, a))
    ensures var i := FindCond(old(spt.conds), STEPS[k]);
            && i < |spt.conds|
            && spt.conds[i] == (if err.None? then Cond(STEPS[k], IsTrue, "") else Cond(STEPS[k], IsFalse, err.value))
    ensures effects == CallsOf(spec, k, a) + if err.None? then [] else [StepFailed(STEPS[k])]
    ensures k == 0 ==> err.None?
    ensures k == 1 ==> (err.None? <==> a.supported && a.timeoutParses && a.verb.None?)
    ensures k == 2 ==> (err.None? <==> a.supported && a.imageExists && a.authFound && a.verb.None?)
  {
    hide Body, StepEffects, CallsOf, FindCond;
    var i := FindCond(spt.conds, STEPS[k]);
    if i == |spt.conds| {
      spt.conds := spt.conds + [Cond(STEPS[k], IsUnknown, "")];
    }
    err, effects := StepFunction(spec, k, a);
    if err.Some? {
      spt.conds := spt.conds[i := Cond(STEPS[k], IsFalse, err.value)];
      effects := effects + [StepFailed(STEPS[k])];
    } else {
      spt.conds := spt.conds[i := Cond(STEPS[k], IsTrue, "")];
    }
  }

  /** The phase switch, in place: all conditions True completes the task; otherwise a failing
      one, of this reconcile or an old one, counts a retry, and the last allowed retry fails it. */
  method DecidePhase(spt: TaskObject, spec: TaskSpec, lastError: bool, aged: set<CondType>)
    returns (effects: seq<Effect>)
    modifies spt
    ensures spt.Value() == Decide(spec, old(spt.Value()), lastError, aged)
    ensures effects == DecideEffects(spec, old(spt.Value()), lastError, aged)
    ensures spt.conds == old(spt.conds)
    ensures (forall c | c in old(spt.conds) :: c.status == IsTrue) ==>
              spt.phase == CompletedPhase && spt.retryCount == old(spt.retryCount) && effects == []
    ensures (exists c :: c in old(spt.conds) && c.status != IsTrue && (lastError || c.typ in aged)) ==>
              && spt.retryCount == (if old(spt.retryCount) == MAX_INT32 then MIN_INT32 else old(spt.retryCount) + 1)
              && var most := if spec.maxRetries == 0 then 3 else spec.maxRetries;
                 if spt.retryCount >= most then spt.phase == FailedPhase && effects == [RetryCounted, ExhaustedCounted]
                 else spt.phase == old(spt.phase) && effects == [RetryCounted]
    ensures (exists c :: c in old(spt.conds) && c.status != IsTrue)
            && (forall c | c in old(spt.conds) && c.status != IsTrue :: !lastError && c.typ !in aged) ==>
              spt.phase == CreatedPhase && spt.retryCount == old(spt.retryCount) && effects == []
  {
    effects := [];
    if forall c | c in spt.conds :: c.status == IsTrue {
      spt.phase := CompletedPhase;
    } else if exists c | c in spt.conds :: c.status != IsTrue && (lastError || c.typ in aged) {
      spt.retryCount := if spt.retryCount == MAX_INT32 then MIN_INT32 else spt.retryCount + 1;
      effects := [RetryCounted];
      var maxRetries := spec.maxRetries;
      if maxRetries == 0 {
        maxRetries := 3;
      }
      if spt.retryCount >= maxRetries {
        spt.phase := FailedPhase;
        effects := [RetryCounted, ExhaustedCounted];
      }
    } else {
      spt.phase := CreatedPhase;
    }
  }

  /** Every call among these effects is one that its step makes on these answers. */
  ghost predicate CallsAnswered(spec: TaskSpec, env: Env, effects: seq<Effect>)
    requires Valid(env)
  {
    forall x | x in effects ::
      && (x.CommitCall? ==> x in CallsOf(spec, 1, env.step[1]))
      && (x.PushCall? ==> x in CallsOf(spec, 2, env.step[2]))
  }

  ghost predicate NoRecord(effects: seq<Effect>) {
    forall x | x in effects :: !x.TaskRecorded?
  }

  lemma NothingAnswered(spec: TaskSpec, env: Env)
    requires Valid(env)
    ensures CallsAnswered(spec, env, []) && NoRecord([])
  {
  }

  lemma NothingRecorded(effects: seq<Effect>)
    requires NoRecord(effects)
    ensures forall success :: TaskRecorded(success) !in effects
  {
  }

  lemma StepAnswered(spec: TaskSpec, env: Env, before: seq<Effect>, k: nat, err: Option<string>)
    requires Valid(env) && k < 3 && CallsAnswered(spec, env, before) && NoRecord(before)
    ensures var effects := before + (CallsOf(spec, k, env.step[k]) + if err.None? then [] else [StepFailed(STEPS[k])]);
            CallsAnswered(spec, env, effects) && NoRecord(effects)
  {
  }

  lemma DecisionAnswered(spec: TaskSpec, env: Env, before: seq<Effect>, st: Status, err: bool, aged: set<CondType>)
    requires Valid(env) && CallsAnswered(spec, env, before) && NoRecord(before)
    ensures var effects := before + DecideEffects(spec, st, err, aged);
            CallsAnswered(spec, env, effects) && NoRecord(effects)
  {
  }

  lemma RecordAnswered(spec: TaskSpec, env: Env, before: seq<Effect>, success: bool)
    requires Valid(env) && CallsAnswered(spec, env, before) && NoRecord(before)
    ensures CallsAnswered(spec, env, before + [TaskRecorded(success)])
    ensures forall x :: TaskRecorded(x) in before + [TaskRecorded(success)] <==> x == success
  {
  }

  /** A reconcile ends in an error exactly if one of its updates was reported to fail. */
  lemma {:induction false} ErroredExactly(spec: TaskSpec, node: string, st: Status, trace: seq<Event>)
    requires Replay(spec, Start(spec, node, st), trace).Some?
    ensures Replay(spec, Start(spec, node, st), trace).value.pc == Stopped(Errored)
            <==> StepSaved(false) in trace || PhaseSaved(false) in trace
  {
    hide Decide, WithStep, StepDone, Body;
    if trace != [] {
      ErroredExactly(spec, node, st, trace[..|trace| - 1]);
      assert trace == trace[..|trace| - 1] + [trace[|trace| - 1]];
    }
  }

  /** The loop over Accept, Commit and Push. `stop` says that a status update failed, which
      ends the reconcile at once. */
  method RunSteps(spt: TaskObject, spec: TaskSpec, env: Env, ghost w: Worker)
    returns (stop: bool, lastError: bool, effects: seq<Effect>, ghost trace: seq<Event>)
    requires Valid(env) && w == Worker(AtStep(0), spt.Value())
    modifies spt
    ensures Follows(env, spec, w, trace)
    ensures Replay(spec, w, trace)
         == Some(Worker(if stop then Stopped(Errored) else Deciding(lastError), spt.Value()))
    ensures effects == ReplayEffects(spec, w, trace)
    ensures CallsAnswered(spec, env, effects) && NoRecord(effects)
    ensures spt.phase == old(spt.phase)
  {
    hide Follows, Replay, ReplayEffects, CallsAnswered, NoRecord, CallsOf, StepEffects, Body;
    effects, trace, lastError := [], [], false;
    NothingAnswered(spec, env);
    NothingYet(env, spec, w);
    var k := 0;
    while k < 3
      invariant 0 <= k <= 3 && !lastError
      invariant Follows(env, spec, w, trace)
      invariant Replay(spec, w, trace)
             == Some(Worker(if k < 3 then AtStep(k) else Deciding(false), spt.Value()))
      invariant effects == ReplayEffects(spec, w, trace)
      invariant CallsAnswered(spec, env, effects) && NoRecord(effects)
      invariant spt.phase == old(spt.phase)
    {
      var i := FindCond(spt.conds, STEPS[k]);
      if i < |spt.conds| && spt.conds[i].status == IsTrue {
        trace := Extend(env, spec, w, trace, Skipped); // already done
        k := k + 1;
        continue;
      }
      trace := Extend(env, spec, w, trace, Ran(env.step[k]));
      var err, ran := RunStep(spt, spec, k, env.step[k]);
      StepAnswered(spec, env, effects, k, err);
      effects := effects + ran;
      trace := Extend(env, spec, w, trace, StepSaved(env.stepSaved[k]));
      assert Effects(spec, Worker(SavingStep(k, err.Some?), spt.Value()), StepSaved(env.stepSaved[k])) == [];
      if !env.stepSaved[k] {
        return true, lastError, effects, trace;
      }
      if err.Some? {
        lastError := true;
        break;
      }
      k := k + 1;
    }
    stop := false;
  }

  /** A reconcile of another node's task, or of one that has ended, does nothing. Any other
      ends in an error exactly when an update was reported to fail; else it is done when the
      task has ended, and then records how, and asks for another when it has not. */
  method Reconcile(spt: TaskObject, spec: TaskSpec, node: string, env: Env)
    returns (reply: Reply, effects: seq<Effect>, ghost trace: seq<Event>)
    requires Valid(env)
    modifies spt
    ensures Follows(env, spec, Start(spec, node, old(spt.Value())), trace)
    ensures Replay(spec, Start(spec, node, old(spt.Value())), trace)
         == Some(Worker(Stopped(reply), spt.Value()))
    ensures effects == ReplayEffects(spec, Start(spec, node, old(spt.Value())), trace)
    ensures spec.nodeName != node || old(spt.phase) in {CompletedPhase, FailedPhase} ==>
              reply == Finished && effects == [] && spt.Value() == old(spt.Value())
    ensures spec.nodeName == node && old(spt.phase) !in {CompletedPhase, FailedPhase} ==>
              && (reply == Errored <==> StepSaved(false) in trace || PhaseSaved(false) in trace)
              && (reply == Finished ==> spt.phase in {CompletedPhase, FailedPhase})
              && (reply == Requeued ==> spt.phase !in {CompletedPhase, FailedPhase})
              && forall success :: TaskRecorded(success) in effects <==>
                   reply == Finished && success == (spt.phase == CompletedPhase)
    ensures CallsAnswered(spec, env, effects)
  {
    hide Follows, Replay, ReplayEffects, CallsAnswered, NoRecord, Decide, DecideEffects;
    ghost var w := Start(spec, node, spt.Value());
    NothingAnswered(spec, env);
    NothingYet(env, spec, w);
    if spec.nodeName != node {
      return Finished, [], []; // not my job
    }
    if spt.phase == CompletedPhase || spt.phase == FailedPhase {
      return Finished, [], [];
    }
    if spt.retryCount < 0 {
      spt.retryCount := 0;
    }
    var stop, lastError;
    stop, lastError, effects, trace := RunSteps(spt, spec, env, w);
    if stop {
      ErroredExactly(spec, node, old(spt.Value()), trace);
      NothingRecorded(effects);
      return Errored, effects, trace;
    }

    trace := Extend(env, spec, w, trace, Decided(env.aged));
    DecisionAnswered(spec, env, effects, spt.Value(), lastError, env.aged);
    var counted := DecidePhase(spt, spec, lastError, env.aged);
    effects := effects + counted;

    reply, effects, trace := FinishUp(spt, spec, env, w, effects, trace);
    ErroredExactly(spec, node, old(spt.Value()), trace);
  }

  /** The final update, and what is reported after it. */
  method FinishUp(spt: TaskObject, spec: TaskSpec, env: Env, ghost w: Worker, before: seq<Effect>, ghost done: seq<Event>)
    returns (reply: Reply, effects: seq<Effect>, ghost trace: seq<Event>)
    requires Valid(env) && Follows(env, spec, w, done) && Replay(spec, w, done) == Some(Worker(SavingPhase, spt.Value()))
    requires before == ReplayEffects(spec, w, done) && CallsAnswered(spec, env, before) && NoRecord(before)
    ensures Follows(env, spec, w, trace) && Replay(spec, w, trace) == Some(Worker(Stopped(reply), spt.Value()))
    ensures effects == ReplayEffects(spec, w, trace) && CallsAnswered(spec, env, effects)
    ensures reply == Errored <==> !env.phaseSaved
    ensures reply == Finished <==> env.phaseSaved && spt.phase in {CompletedPhase, FailedPhase}
    ensures forall success :: TaskRecorded(success) in effects <==>
              reply == Finished && success == (spt.phase == CompletedPhase)
  {
    hide Follows, Replay, ReplayEffects, CallsAnswered, CallsOf;
    effects := before;
    trace := Extend(env, spec, w, done, PhaseSaved(env.phaseSaved));
    if !env.phaseSaved {
      return Errored, effects, trace;
    }
    if spt.phase == CompletedPhase || spt.phase == FailedPhase {
      RecordAnswered(spec, env, effects, spt.phase == CompletedPhase);
      effects := effects + [TaskRecorded(spt.phase == CompletedPhase)];
      return Finished, effects, trace;
    }
    return Requeued, effects, trace;
  }
}
