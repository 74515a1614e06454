/** One reconcile of a SnapshotPodTask as a worker that reacts to the answers it gets
    from the container runtime and from the API server. A worker owns a private copy of
    the task's status; every place where the Go code waits for an answer is a program
    point of its own, so that other reconciles can be interleaved there. */
module TaskPipeline {
  import opened Api

  datatype Phase = NoPhase | CreatedPhase | FailedPhase | CompletedPhase

  datatype Status = Status(conds: seq<Cond>, phase: Phase, retryCount: int32)

  const NEW_STATUS := Status([], NoPhase, 0)

  datatype TaskSpec = TaskSpec(nodeName: string, containerID: string, commitImage: string, maxRetries: int32)

  predicate Terminal(st: Status) {
    st.phase == CompletedPhase || st.phase == FailedPhase
  }

  /** The retry limit: an unset (zero) MaxRetries means three. */
  function Limit(spec: TaskSpec): int32 {
    if spec.maxRetries == 0 then 3 else spec.maxRetries
  }

  /** The number of failed reconciles a task survives is less than this. */
  function Budget(spec: TaskSpec): (m: int32)
    ensures m >= 1
  {
    if spec.maxRetries == 0 then 3 else if spec.maxRetries < 1 then 1 else spec.maxRetries
  }

  function StepAt(k: nat): CondType
    requires k < 3
  {
    if k == 0 then Accept else if k == 1 then Commit else Push
  }

  /** What the surroundings answer while a step body runs. `verb` is the answer of the
      runtime's Commit or Push command: None for success. */
  datatype Answers = Answers(supported: bool, timeoutParses: bool, imageExists: bool,
                             authFound: bool, verb: Option<string>)

  /** A step succeeds, gives up before running its runtime command, or sees the command fail. */
  datatype Outcome = Fine | GaveUp(why: string) | Broke(why: string)

  function CommitBody(a: Answers): Outcome {
    if !a.supported then GaveUp("unsupported for runtime")
    else if !a.timeoutParses then GaveUp("bad timeout")
    else if a.verb.Some? then Broke(a.verb.value)
    else Fine
  }

  function PushBody(a: Answers): Outcome {
    if !a.supported then GaveUp("unsupported for runtime")
    else if !a.imageExists then GaveUp("image not exists")
    else if !a.authFound then GaveUp("no registry auth")
    else if a.verb.Some? then Broke(a.verb.value)
    else Fine
  }

  function Body(k: nat, a: Answers): Outcome
    requires k < 3
  {
    if k == 0 then Fine else if k == 1 then CommitBody(a) else PushBody(a)
  }

  datatype Reply = Finished | Requeued | Errored

  datatype Pc =
    | AtStep(k: nat)                  // about to look at step k
    | SavingStep(k: nat, err: bool)   // step k ran; its status update is on its way
    | Deciding(err: bool)             // after the loop, at the phase switch
    | SavingPhase                     // the final status update is on its way
    | Stopped(reply: Reply)

  datatype Worker = Worker(pc: Pc, st: Status)

  datatype Event =
    | Skipped                   // the step's condition was True already
    | Ran(answers: Answers)     // the step body ran
    | StepSaved(ok: bool)       // the API server's reply to the update after a step
    | Decided(aged: set<CondType>) // the switch ran; these conditions are over ten minutes old
    | PhaseSaved(ok: bool)      // the API server's reply to the final update

  /** What a worker does to the world outside the API server. */
  datatype Effect =
    | CommitCall(image: string, ok: bool)
    | PushCall(image: string, ok: bool)
    | StepFailed(step: CondType)
    | RetryCounted
    | ExhaustedCounted
    | TaskRecorded(success: bool)

  function Start(spec: TaskSpec, node: string, st: Status): Worker {
    if spec.nodeName != node || Terminal(st) then Worker(Stopped(Finished), st)
    else Worker(AtStep(0), st.(retryCount := if st.retryCount < 0 then 0 else st.retryCount))
  }

  predicate StepDone(st: Status, k: nat)
    requires k < 3
  {
    var i := FindCond(st.conds, StepAt(k));
    i < |st.conds| && st.conds[i].status == IsTrue
  }

  function WithStep(st: Status, k: nat, o: Outcome): Status
    requires k < 3
  {
    st.(conds := PutCond(st.conds,
                         if o.Fine? then Cond(StepAt(k), IsTrue, "") else Cond(StepAt(k), IsFalse, o.why)))
  }

  predicate SomeFailing(st: Status, err: bool, aged: set<CondType>) {
    exists i | 0 <= i < |st.conds| :: st.conds[i].status != IsTrue && (err || st.conds[i].typ in aged)
  }

  /** The phase switch. */
  function Decide(spec: TaskSpec, st: Status, err: bool, aged: set<CondType>): Status {
    if AllTrue(st.conds) then st.(phase := CompletedPhase)
    else if SomeFailing(st, err, aged) then
      var n := Inc32(st.retryCount);
      st.(retryCount := n, phase := if n >= Limit(spec) then FailedPhase else st.phase)
    else st.(phase := CreatedPhase)
  }

  function AfterStep(k: nat): Pc {
    if k < 2 then AtStep(k + 1) else Deciding(false)
  }

  /** The worker after an event, or None when the event cannot happen at this point. */
  function Next(spec: TaskSpec, w: Worker, e: Event): Option<Worker> {
    match (w.pc, e)
    case (AtStep(k), Skipped) =>
      if k < 3 && StepDone(w.st, k) then Some(w.(pc := AfterStep(k))) else None
    case (AtStep(k), Ran(a)) =>
      if k < 3 && !StepDone(w.st, k) then
        Some(Worker(SavingStep(k, !Body(k, a).Fine?), WithStep(w.st, k, Body(k, a))))
      else None
    case (SavingStep(k, err), StepSaved(ok)) =>
      Some(w.(pc := if !ok then Stopped(Errored) else if err then Deciding(true) else AfterStep(k)))
    case (Deciding(err), Decided(aged)) =>
      Some(Worker(SavingPhase, Decide(spec, w.st, err, aged)))
    case (SavingPhase, PhaseSaved(ok)) =>
      Some(w.(pc := Stopped(if !ok then Errored else if Terminal(w.st) then Finished else Requeued)))
    case _ => None
  }

  function StepEffects(image: string, k: nat, o: Outcome): seq<Effect>
    requires k < 3
  {
    (if o.GaveUp? || k == 0 then []
     else if k == 1 then [CommitCall(image, o.Fine?)]
     else [PushCall(image, o.Fine?)])
    + (if o.Fine? then [] else [StepFailed(StepAt(k))])
  }

  function DecideEffects(spec: TaskSpec, st: Status, err: bool, aged: set<CondType>): seq<Effect> {
    if AllTrue(st.conds) || !SomeFailing(st, err, aged) then []
    else if Inc32(st.retryCount) >= Limit(spec) then [RetryCounted, ExhaustedCounted]
    else [RetryCounted]
  }

  /** The effects of an event that can happen to this worker. */
  function Effects(spec: TaskSpec, w: Worker, e: Event): seq<Effect> {
    match (w.pc, e)
    case (AtStep(k), Ran(a)) => if k < 3 then StepEffects(spec.commitImage, k, Body(k, a)) else []
    case (Deciding(err), Decided(aged)) => DecideEffects(spec, w.st, err, aged)
    case (SavingPhase, PhaseSaved(ok)) =>
      if ok && Terminal(w.st) then [TaskRecorded(w.st.phase == CompletedPhase)] else []
    case _ => []
  }

  /** The worker after a whole trace of events. */
  function Replay(spec: TaskSpec, w: Worker, trace: seq<Event>): Option<Worker> {
    if trace == [] then Some(w)
    else
      var rest := trace[..|trace| - 1];
      match Replay(spec, w, rest)
      case None => None
      case Some(w') => Next(spec, w', trace[|trace| - 1])
  }

  function ReplayEffects(spec: TaskSpec, w: Worker, trace: seq<Event>): seq<Effect> {
    if trace == [] then []
    else
      var rest := trace[..|trace| - 1];
      ReplayEffects(spec, w, rest) +
      (match Replay(spec, w, rest) case None => [] case Some(w') => Effects(spec, w', trace[|trace| - 1]))
  }

  lemma ReplaySnoc(spec: TaskSpec, w: Worker, trace: seq<Event>, e: Event)
    requires Replay(spec, w, trace).Some?
    ensures Replay(spec, w, trace + [e]) == Next(spec, Replay(spec, w, trace).value, e)
    ensures ReplayEffects(spec, w, trace + [e])
         == ReplayEffects(spec, w, trace) + Effects(spec, Replay(spec, w, trace).value, e)
  {
    assert (trace + [e])[..|trace + [e]| - 1] == trace;
  }
}
