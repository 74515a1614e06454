/** A task object in the API server, with any number of reconciles of it in flight. Every
    reconcile starts from some committed version, however old; an update lands only on the
    version it was read from, and even then it may get lost, or land while its reply gets
    lost. All claims below hold for every sequence of such actions. */
module TaskStore {
  import opened Api
  import opened TaskPipeline

  /** A worker and the index of the version its copy is based on. */
  datatype Copy = Copy(w: Worker, rv: nat)

  /** `hist` lists the committed versions; `finals` counts final updates that landed. */
  datatype TaskSys = TaskSys(spec: TaskSpec, hist: seq<Status>, copies: map<nat, Copy>,
                             log: seq<Effect>, finals: nat)

  datatype Action =
    | Read(id: nat, v: nat, node: string)
    // `lands`: the server accepts the update when the version matches; `bumps`: an update
    // that changes nothing still makes a new version (its timestamps differ).
    | Work(id: nat, e: Event, lands: bool, bumps: bool)

  function NewTask(spec: TaskSpec): TaskSys {
    TaskSys(spec, [NEW_STATUS], map[], [], 0)
  }

  function Current(t: TaskSys): Status {
    if t.hist == [] then NEW_STATUS else t.hist[|t.hist| - 1]
  }

  predicate IsUpdate(e: Event) { e.StepSaved? || e.PhaseSaved? }

  predicate Enabled(t: TaskSys, id: nat, e: Event) {
    id in t.copies && Next(t.spec, t.copies[id].w, e).Some?
  }

  predicate UpToDate(t: TaskSys, c: Copy) {
    c.rv + 1 == |t.hist|
  }

  /** The worker moves on; the server is not touched. */
  function Locally(t: TaskSys, id: nat, e: Event): TaskSys
    requires Enabled(t, id, e)
  {
    var c := t.copies[id];
    t.(copies := t.copies[id := Copy(Next(t.spec, c.w, e).value, c.rv)],
       log := t.log + Effects(t.spec, c.w, e))
  }

  function Written(t: TaskSys, st: Status, bumps: bool): seq<Status> {
    if bumps || st != Current(t) then t.hist + [st] else t.hist
  }

  /** The worker's update reaches the server and is accepted. */
  function Landing(t: TaskSys, id: nat, e: Event, bumps: bool): TaskSys
    requires Enabled(t, id, e)
  {
    var c := t.copies[id];
    var hist' := Written(t, c.w.st, bumps);
    TaskSys(t.spec, hist',
            t.copies[id := Copy(Next(t.spec, c.w, e).value, if |hist'| > 0 then |hist'| - 1 else 0)],
            t.log + Effects(t.spec, c.w, e), t.finals + if e.PhaseSaved? then 1 else 0)
  }

  /** One action; an action that cannot happen changes nothing. */
  function Step(t: TaskSys, a: Action): TaskSys {
    match a
    case Read(id, v, node) =>
      if id !in t.copies && v < |t.hist| then
        t.(copies := t.copies[id := Copy(Start(t.spec, node, t.hist[v]), v)])
      else t
    case Work(id, e, lands, bumps) =>
      if !Enabled(t, id, e) then t
      else if !IsUpdate(e) then Locally(t, id, e)
      else if lands && UpToDate(t, t.copies[id]) then Landing(t, id, e, bumps)
      else if e.ok then t // no success is reported for an update that did not land
      else Locally(t, id, e)
  }

  function Exec(spec: TaskSpec, actions: seq<Action>): TaskSys {
    if actions == [] then NewTask(spec)
    else Step(Exec(spec, actions[..|actions| - 1]), actions[|actions| - 1])
  }

  lemma ExecSnoc(spec: TaskSpec, actions: seq<Action>, a: Action)
    ensures Exec(spec, actions + [a]) == Step(Exec(spec, actions), a)
  {
    assert (actions + [a])[..|actions|] == actions;
  }

  // ---------- The shape of a committed status ----------

  /** The conditions are a prefix of Accept, Commit, Push; only the last may be False. */
  predicate Shaped(conds: seq<Cond>) {
    && |conds| <= 3
    && forall i | 0 <= i < |conds| ::
         && conds[i].typ == StepAt(i)
         && conds[i].status != IsUnknown
         && (i < |conds| - 1 ==> conds[i].status == IsTrue)
  }

  predicate HasFailure(st: Status) {
    |st.conds| > 0 && st.conds[|st.conds| - 1].status == IsFalse
  }

  /** How many steps are done. */
  function Done(st: Status): nat {
    if HasFailure(st) then |st.conds| - 1 else |st.conds|
  }

  predicate StatusOk(spec: TaskSpec, st: Status) {
    && Shaped(st.conds)
    && 0 <= st.retryCount
    && match st.phase
       case NoPhase => st.retryCount < Budget(spec)
       case CompletedPhase => Done(st) == 3 && st.retryCount < Budget(spec)
       case FailedPhase => HasFailure(st) && st.retryCount == Budget(spec)
       case CreatedPhase => false
  }

  predicate Passes(a: Status, b: Status) {
    Done(a) < 3 && b == a.(conds := a.conds[..Done(a)] + [Cond(StepAt(Done(a)), IsTrue, "")])
  }

  predicate Stumbles(a: Status, b: Status) {
    && Done(a) < 3 && |b.conds| == Done(a) + 1
    && b == a.(conds := a.conds[..Done(a)] + [Cond(StepAt(Done(a)), IsFalse, b.conds[Done(a)].message)])
  }

  predicate Completes(a: Status, b: Status) {
    Done(a) == 3 && b == a.(phase := CompletedPhase)
  }

  predicate Retries(spec: TaskSpec, a: Status, b: Status) {
    && HasFailure(a)
    && b == a.(retryCount := Inc32(a.retryCount),
               phase := if Inc32(a.retryCount) >= Limit(spec) then FailedPhase else NoPhase)
  }

  /** The only ways one committed version follows another. */
  predicate Evolves(spec: TaskSpec, a: Status, b: Status) {
    && a.phase == NoPhase
    && (Passes(a, b) || Stumbles(a, b) || Completes(a, b) || Retries(spec, a, b))
  }

  lemma EvolvesKeepsShape(spec: TaskSpec, a: Status, b: Status)
    requires StatusOk(spec, a) && Evolves(spec, a, b)
    ensures StatusOk(spec, b)
    ensures Done(a) <= Done(b) && a.retryCount <= b.retryCount
    ensures Completes(a, b) || Retries(spec, a, b) ==> a != b
    ensures Retries(spec, a, b) ==> b.retryCount == a.retryCount + 1
  {
  }

  // ---------- What a worker may hold ----------

  /** A worker under way, relative to the version its copy is based on. */
  predicate InFlight(spec: TaskSpec, base: Status, w: Worker) {
    && base.phase == NoPhase
    && match w.pc
       case AtStep(k) => k < 3 && w.st == base && k <= Done(base)
       case SavingStep(k, err) =>
         k < 3 && k == Done(base) && if err then Stumbles(base, w.st) else Passes(base, w.st)
       case Deciding(err) => w.st == base && if err then HasFailure(base) else Done(base) == 3
       case SavingPhase => Completes(base, w.st) || Retries(spec, base, w.st)
       case Stopped(_) => true
  }

  lemma FindShaped(conds: seq<Cond>, k: nat)
    requires Shaped(conds) && k < 3
    ensures FindCond(conds, StepAt(k)) == if k < |conds| then k else |conds|
  {
    FindCondIs(conds, StepAt(k), if k < |conds| then k else |conds|);
  }

  lemma StartInFlight(spec: TaskSpec, node: string, base: Status)
    requires StatusOk(spec, base)
    ensures var w := Start(spec, node, base); w.pc.Stopped? || InFlight(spec, base, w)
  {
  }

  lemma RunsNextStep(spec: TaskSpec, base: Status, k: nat, o: Outcome)
    requires StatusOk(spec, base) && k < 3 && k <= Done(base)
    ensures StepDone(base, k) <==> k < Done(base)
    ensures k == Done(base) ==>
              if o.Fine? then Passes(base, WithStep(base, k, o)) else Stumbles(base, WithStep(base, k, o))
  {
    FindShaped(base.conds, k);
  }

  lemma DecidesNext(spec: TaskSpec, base: Status, err: bool, aged: set<CondType>)
    requires StatusOk(spec, base) && base.phase == NoPhase
    requires if err then HasFailure(base) else Done(base) == 3
    ensures AllTrue(base.conds) <==> !err
    ensures err ==> SomeFailing(base, err, aged)
    ensures var st := Decide(spec, base, err, aged);
            if err then Retries(spec, base, st) else Completes(base, st)
  {
    if err {
      assert base.conds[|base.conds| - 1].status != IsTrue;
    } else {
      assert !HasFailure(base);
    }
  }

  lemma MovesUnlessStopped(spec: TaskSpec, w: Worker, e: Event)
    requires Next(spec, w, e).Some?
    ensures !w.pc.Stopped?
  {
  }

  /** A worker's next event: between updates its base stays; a successful update leaves the
      worker based on what it wrote; what it writes always evolves its base. */
  lemma WorkerMoves(spec: TaskSpec, base: Status, w: Worker, e: Event)
    requires StatusOk(spec, base) && InFlight(spec, base, w) && Next(spec, w, e).Some?
    ensures var w' := Next(spec, w, e).value;
            if !IsUpdate(e) then InFlight(spec, base, w')
            else if e.ok then w'.st == w.st && (w'.pc.Stopped? || InFlight(spec, w.st, w'))
            else w'.pc.Stopped?
    ensures IsUpdate(e) ==> Evolves(spec, base, w.st)
  {
    match (w.pc, e)
    case (AtStep(k), Skipped) => RunsNextStep(spec, base, k, Fine);
    case (AtStep(k), Ran(a)) => RunsNextStep(spec, base, k, Body(k, a));
    case (SavingStep(k, err), StepSaved(ok)) => EvolvesKeepsShape(spec, base, w.st);
    case (Deciding(err), Decided(aged)) => DecidesNext(spec, base, err, aged);
    case _ =>
  }

  // ---------- Counting effects ----------

  datatype Kind = Failure | Retry | Record | CommitDone

  predicate Is(kind: Kind, e: Effect) {
    match kind
    case Failure => e.StepFailed?
    case Retry => e.RetryCounted?
    case Record => e.TaskRecorded?
    case CommitDone => e.CommitCall? && e.ok
  }

  function Count(kind: Kind, log: seq<Effect>): nat {
    if log == [] then 0
    else Count(kind, log[..|log| - 1]) + if Is(kind, log[|log| - 1]) then 1 else 0
  }

  lemma {:induction false} CountConcat(kind: Kind, a: seq<Effect>, b: seq<Effect>)
    ensures Count(kind, a + b) == Count(kind, a) + Count(kind, b)
  {
    if b == [] {
      assert a + b == a;
    } else {
      CountConcat(kind, a, b[..|b| - 1]);
      assert (a + b)[..|a + b| - 1] == a + b[..|b| - 1];
    }
  }

  // ---------- The runtime calls ----------

  ghost predicate Committed(log: seq<Effect>, image: string) {
    exists i | 0 <= i < |log| :: log[i] == CommitCall(image, true)
  }

  /** The image was committed successfully and later pushed successfully. */
  ghost predicate CommittedThenPushed(log: seq<Effect>, image: string) {
    exists i, j | 0 <= i < j < |log| :: log[i] == CommitCall(image, true) && log[j] == PushCall(image, true)
  }

  /** Every runtime call is for the task's image, and every push, failing or not, comes
      after a successful commit. */
  ghost predicate CallsOrdered(log: seq<Effect>, image: string) {
    forall j | 0 <= j < |log| ::
      && (log[j].CommitCall? ==> log[j].image == image)
      && (log[j].PushCall? ==> log[j].image == image && Committed(log[..j], image))
  }

  lemma LogGrows(log: seq<Effect>, more: seq<Effect>, image: string)
    ensures Committed(log, image) ==> Committed(log + more, image)
    ensures CommittedThenPushed(log, image) ==> CommittedThenPushed(log + more, image)
  {
    if Committed(log, image) {
      var i :| 0 <= i < |log| && log[i] == CommitCall(image, true);
      assert (log + more)[i] == CommitCall(image, true);
    }
    if CommittedThenPushed(log, image) {
      var i, j :| 0 <= i < j < |log| && log[i] == CommitCall(image, true) && log[j] == PushCall(image, true);
      assert (log + more)[i] == CommitCall(image, true) && (log + more)[j] == PushCall(image, true);
    }
  }

  // ---------- The invariant ----------

  ghost predicate HistOk(t: TaskSys) {
    && |t.hist| > 0 && t.hist[0] == NEW_STATUS
    && (forall i | 0 <= i < |t.hist| :: StatusOk(t.spec, t.hist[i]))
    && forall i | 0 <= i < |t.hist| - 1 ::
         && t.hist[i].phase == NoPhase
         && (t.hist[i + 1] == t.hist[i] || Evolves(t.spec, t.hist[i], t.hist[i + 1]))
  }

  ghost predicate LogOk(t: TaskSys) {
    && CallsOrdered(t.log, t.spec.commitImage)
    && (Done(Current(t)) >= 2 ==> Committed(t.log, t.spec.commitImage))
    && (Done(Current(t)) >= 3 ==> CommittedThenPushed(t.log, t.spec.commitImage))
  }

  ghost predicate CountsOk(t: TaskSys) {
    var cur := Current(t);
    && Count(Failure, t.log) >= cur.retryCount
    && Count(Retry, t.log) >= cur.retryCount
    && Count(Record, t.log) <= (if Terminal(cur) then 1 else 0)
    && t.finals == cur.retryCount + if cur.phase == CompletedPhase then 1 else 0
  }

  /** A recorded result is the one the task ended with. */
  ghost predicate RecordsOk(t: TaskSys) {
    forall e | e in t.log && e.TaskRecorded? ::
      Terminal(Current(t)) && e.success == (Current(t).phase == CompletedPhase)
  }

  ghost predicate CopyOk(t: TaskSys, c: Copy) {
    c.rv < |t.hist| && (c.w.pc.Stopped? || InFlight(t.spec, t.hist[c.rv], c.w))
  }

  ghost predicate CopyLogOk(t: TaskSys, c: Copy) {
    && (c.w.pc == SavingStep(1, false) ==> Committed(t.log, t.spec.commitImage))
    && (c.w.pc == SavingStep(2, false) ==> CommittedThenPushed(t.log, t.spec.commitImage))
  }

  /** The failures a worker based on retry count `r` takes for granted. */
  function FailuresOwed(r: int, w: Worker): int {
    match w.pc
    case SavingStep(_, err) => if err then r + 1 else r
    case Deciding(err) => if err then r + 1 else r
    case SavingPhase => w.st.retryCount
    case _ => r
  }

  /** The counted retries it takes for granted. */
  function RetriesOwed(r: int, w: Worker): int {
    if w.pc.SavingPhase? then w.st.retryCount else r
  }

  /** An up-to-date copy that saw a step fail has paid for the retry it is about to count. */
  ghost predicate CopyCountsOk(t: TaskSys, c: Copy) {
    UpToDate(t, c) ==>
      && Count(Failure, t.log) >= FailuresOwed(Current(t).retryCount, c.w)
      && Count(Retry, t.log) >= RetriesOwed(Current(t).retryCount, c.w)
  }

  ghost predicate CopyInv(t: TaskSys, c: Copy) {
    CopyOk(t, c) && CopyLogOk(t, c) && CopyCountsOk(t, c)
  }

  ghost predicate Inv(t: TaskSys) {
    && HistOk(t) && LogOk(t) && CountsOk(t) && RecordsOk(t)
    && forall id | id in t.copies :: CopyInv(t, t.copies[id])
  }

  /** What every action guarantees about the past. */
  ghost predicate Grows(t: TaskSys, t': TaskSys) {
    t.spec == t'.spec && t.hist <= t'.hist && t.log <= t'.log
  }

  lemma StepGrows(t: TaskSys, a: Action)
    ensures Grows(t, Step(t, a))
  {
  }

  lemma CopyStays(t: TaskSys, t': TaskSys, c: Copy)
    requires Grows(t, t') && CopyInv(t, c)
    ensures CopyInv(t', c)
  {
    var more := t'.log[|t.log|..];
    assert t'.log == t.log + more;
    LogGrows(t.log, more, t.spec.commitImage);
    CountConcat(Failure, t.log, more);
    CountConcat(Retry, t.log, more);
  }

  /** Later versions never undo a step and never take a retry back. */
  lemma {:induction false} HistMonotone(t: TaskSys, i: nat, j: nat)
    requires HistOk(t) && i <= j < |t.hist|
    ensures Done(t.hist[i]) <= Done(t.hist[j])
    ensures t.hist[i].retryCount <= t.hist[j].retryCount
    decreases j - i
  {
    if i < j {
      HistMonotone(t, i, j - 1);
      assert t.hist[j - 1 + 1] == t.hist[j - 1] || Evolves(t.spec, t.hist[j - 1], t.hist[j - 1 + 1]);
      if t.hist[j] != t.hist[j - 1] {
        EvolvesKeepsShape(t.spec, t.hist[j - 1], t.hist[j]);
      }
    }
  }

  lemma CallsStayOrdered(log: seq<Effect>, more: seq<Effect>, image: string)
    requires CallsOrdered(log, image)
    requires forall e | e in more ::
               && (e.CommitCall? ==> e.image == image)
               && (e.PushCall? ==> e.image == image && Committed(log, image))
    ensures CallsOrdered(log + more, image)
  {
    forall j | 0 <= j < |log + more| && (log + more)[j].PushCall?
      ensures (log + more)[j].image == image && Committed((log + more)[..j], image)
    {
      if j < |log| {
        assert (log + more)[..j] == log[..j];
      } else {
        assert (log + more)[j] in more;
        assert (log + more)[..j] == log + more[..j - |log|];
        LogGrows(log, more[..j - |log|], image);
      }
    }
    forall j | 0 <= j < |log + more| && (log + more)[j].CommitCall?
      ensures (log + more)[j].image == image
    {
      assert j < |log| || (log + more)[j] in more;
    }
  }

  lemma RunKeepsLog(t: TaskSys, k: nat, o: Outcome)
    requires LogOk(t) && k < 3 && (k == 2 ==> Committed(t.log, t.spec.commitImage))
    ensures var t' := t.(log := t.log + StepEffects(t.spec.commitImage, k, o));
            && LogOk(t')
            && (o.Fine? && k == 1 ==> Committed(t'.log, t.spec.commitImage))
            && (o.Fine? && k == 2 ==> CommittedThenPushed(t'.log, t.spec.commitImage))
  {
    var image, more := t.spec.commitImage, StepEffects(t.spec.commitImage, k, o);
    LogGrows(t.log, more, image);
    CallsStayOrdered(t.log, more, image);
    if o.Fine? && k > 0 {
      assert more[0] == (t.log + more)[|t.log|];
      if k == 2 {
        var i :| 0 <= i < |t.log| && t.log[i] == CommitCall(image, true);
        assert (t.log + more)[i] == CommitCall(image, true);
      }
    }
  }

  /** The effects of one event keep the call order, and record what the worker now relies on. */
  lemma EffectsKeepLog(t: TaskSys, c: Copy, e: Event)
    requires HistOk(t) && LogOk(t) && CopyOk(t, c) && Next(t.spec, c.w, e).Some? && !IsUpdate(e)
    ensures var t' := t.(log := t.log + Effects(t.spec, c.w, e));
            LogOk(t') && CopyLogOk(t', Copy(Next(t.spec, c.w, e).value, c.rv))
  {
    if c.w.pc.AtStep? && e.Ran? {
      RunEffectsKeepLog(t, c, e);
    } else {
      QuietEffectsKeepLog(t, c, e);
    }
  }

  /** A step runs only when the steps before it are done, in the current version too. */
  lemma RunIsNext(t: TaskSys, c: Copy, e: Event)
    requires HistOk(t) && CopyOk(t, c) && Next(t.spec, c.w, e).Some? && c.w.pc.AtStep? && e.Ran?
    ensures var k := c.w.pc.k;
            && k < 3 && k <= Done(Current(t))
            && Next(t.spec, c.w, e).value.pc == SavingStep(k, !Body(k, e.answers).Fine?)
            && Effects(t.spec, c.w, e) == StepEffects(t.spec.commitImage, k, Body(k, e.answers))
  {
    hide Body, StepEffects, WithStep, StatusOk, Evolves;
    RunsNextStep(t.spec, t.hist[c.rv], c.w.pc.k, Body(c.w.pc.k, e.answers));
    HistMonotone(t, c.rv, |t.hist| - 1);
  }

  lemma RunEffectsKeepLog(t: TaskSys, c: Copy, e: Event)
    requires HistOk(t) && LogOk(t) && CopyOk(t, c) && Next(t.spec, c.w, e).Some? && c.w.pc.AtStep? && e.Ran?
    ensures var t' := t.(log := t.log + Effects(t.spec, c.w, e));
            LogOk(t') && CopyLogOk(t', Copy(Next(t.spec, c.w, e).value, c.rv))
  {
    hide HistOk, CopyOk, Next, Effects, Body, StepEffects, CallsOrdered, Committed, CommittedThenPushed, Done;
    RunIsNext(t, c, e);
    RunKeepsLog(t, c.w.pc.k, Body(c.w.pc.k, e.answers));
  }

  lemma QuietEffectsKeepLog(t: TaskSys, c: Copy, e: Event)
    requires HistOk(t) && LogOk(t) && CopyOk(t, c) && Next(t.spec, c.w, e).Some? && !IsUpdate(e)
    requires !(c.w.pc.AtStep? && e.Ran?)
    ensures var t' := t.(log := t.log + Effects(t.spec, c.w, e));
            LogOk(t') && CopyLogOk(t', Copy(Next(t.spec, c.w, e).value, c.rv))
  {
    hide StatusOk, InFlight;
    var more := Effects(t.spec, c.w, e);
    LogGrows(t.log, more, t.spec.commitImage);
    CallsStayOrdered(t.log, more, t.spec.commitImage);
  }

  lemma CountPair(kind: Kind, x: Effect, y: Effect)
    ensures Count(kind, [x]) == if Is(kind, x) then 1 else 0
    ensures Count(kind, [x, y]) == Count(kind, [x]) + if Is(kind, y) then 1 else 0
  {
    assert [x][..0] == [];
    assert [x, y][..1] == [x];
  }

  lemma CountStep(image: string, k: nat, o: Outcome)
    requires k < 3
    ensures Count(Failure, StepEffects(image, k, o)) == if o.Fine? then 0 else 1
    ensures Count(Record, StepEffects(image, k, o)) == 0 == Count(Retry, StepEffects(image, k, o))
    ensures Count(CommitDone, StepEffects(image, k, o)) == if k == 1 && o.Fine? then 1 else 0
  {
    forall kind, x, y ensures Count(kind, [x]) == (if Is(kind, x) then 1 else 0)
                           && Count(kind, [x, y]) == Count(kind, [x]) + if Is(kind, y) then 1 else 0
    {
      CountPair(kind, x, y);
    }
    var failed := StepFailed(StepAt(k));
    assert [CommitCall(image, false)] + [failed] == [CommitCall(image, false), failed];
    assert [PushCall(image, false)] + [failed] == [PushCall(image, false), failed];
  }

  lemma CountDecide(spec: TaskSpec, st: Status, err: bool, aged: set<CondType>)
    ensures Count(Retry, DecideEffects(spec, st, err, aged))
         == if AllTrue(st.conds) || !SomeFailing(st, err, aged) then 0 else 1
    ensures Count(Record, DecideEffects(spec, st, err, aged)) == 0
    ensures Count(Failure, DecideEffects(spec, st, err, aged)) == 0
    ensures Count(CommitDone, DecideEffects(spec, st, err, aged)) == 0
  {
    CountPair(Failure, RetryCounted, ExhaustedCounted);
    CountPair(CommitDone, RetryCounted, ExhaustedCounted);
    CountPair(Retry, RetryCounted, ExhaustedCounted);
    CountPair(Record, RetryCounted, ExhaustedCounted);
  }

  /** How many effects of a kind one event has. */
  function Weight(spec: TaskSpec, w: Worker, e: Event, kind: Kind): nat {
    match (w.pc, e)
    case (AtStep(k), Ran(a)) =>
      if k >= 3 then 0
      else if kind == Failure then (if Body(k, a).Fine? then 0 else 1)
      else if kind == CommitDone then (if k == 1 && Body(k, a).Fine? then 1 else 0)
      else 0
    case (Deciding(err), Decided(aged)) =>
      if kind == Retry && !AllTrue(w.st.conds) && SomeFailing(w.st, err, aged) then 1 else 0
    case (SavingPhase, PhaseSaved(ok)) =>
      if kind == Record && ok && Terminal(w.st) then 1 else 0
    case _ => 0
  }

  lemma WeightIsCount(spec: TaskSpec, w: Worker, e: Event, kind: Kind)
    ensures Count(kind, Effects(spec, w, e)) == Weight(spec, w, e, kind)
  {
    if w.pc.AtStep? && e.Ran? {
      if w.pc.k < 3 { CountStep(spec.commitImage, w.pc.k, Body(w.pc.k, e.answers)); }
    } else if w.pc.Deciding? && e.Decided? {
      CountDecide(spec, w.st, w.pc.err, e.aged);
    } else if w.pc.SavingPhase? && e.PhaseSaved? {
      var r := TaskRecorded(w.st.phase == CompletedPhase);
      CountPair(kind, r, r);
    }
  }

  lemma CountEffects(t: TaskSys, c: Copy, e: Event, kind: Kind)
    ensures Count(kind, t.log + Effects(t.spec, c.w, e)) == Count(kind, t.log) + Weight(t.spec, c.w, e, kind)
  {
    CountConcat(kind, t.log, Effects(t.spec, c.w, e));
    WeightIsCount(t.spec, c.w, e, kind);
  }

  /** The same store with one copy replaced. */
  lemma OneCopyChanged(t: TaskSys, t': TaskSys, id: nat)
    requires Inv(t) && Grows(t, t')
    requires id in t'.copies && forall i | i in t'.copies && i != id :: i in t.copies && t'.copies[i] == t.copies[i]
    requires HistOk(t') && LogOk(t') && CountsOk(t') && RecordsOk(t') && CopyInv(t', t'.copies[id])
    ensures Inv(t')
  {
    forall i | i in t'.copies ensures CopyInv(t', t'.copies[i]) {
      if i != id { CopyStays(t, t', t.copies[i]); }
    }
  }

  lemma LocalDebts(spec: TaskSpec, base: Status, w: Worker, e: Event)
    requires StatusOk(spec, base) && InFlight(spec, base, w) && Next(spec, w, e).Some? && !IsUpdate(e)
    ensures var w' := Next(spec, w, e).value; var r := base.retryCount;
            && FailuresOwed(r, w') <= FailuresOwed(r, w) + Weight(spec, w, e, Failure)
            && RetriesOwed(r, w') <= RetriesOwed(r, w) + Weight(spec, w, e, Retry)
            && Weight(spec, w, e, Record) == 0
  {
    if w.pc.Deciding? {
      DecidesNext(spec, base, w.pc.err, e.aged);
    }
  }

  /** What a landed update adds, its worker has paid for. */
  lemma LandingDebts(spec: TaskSpec, base: Status, w: Worker, e: Event)
    requires StatusOk(spec, base) && InFlight(spec, base, w) && Next(spec, w, e).Some? && IsUpdate(e)
    ensures var w' := Next(spec, w, e).value; var r, r' := base.retryCount, w.st.retryCount;
            && base.phase == NoPhase
            && FailuresOwed(r', w') <= FailuresOwed(r, w) && r' <= FailuresOwed(r, w)
            && RetriesOwed(r', w') <= RetriesOwed(r, w) && r' <= RetriesOwed(r, w)
            && Weight(spec, w, e, Record) <= (if Terminal(w.st) then 1 else 0)
            && r' + (if w.st.phase == CompletedPhase then 1 else 0) == r + (if e.PhaseSaved? then 1 else 0)
  {
  }

  lemma LocalCounts(t: TaskSys, id: nat, e: Event)
    requires t.hist != [] && CountsOk(t) && Enabled(t, id, e) && !IsUpdate(e)
    requires CopyOk(t, t.copies[id]) && CopyCountsOk(t, t.copies[id]) && StatusOk(t.spec, t.hist[t.copies[id].rv])
    ensures CountsOk(Locally(t, id, e)) && CopyCountsOk(Locally(t, id, e), Locally(t, id, e).copies[id])
  {
    hide InFlight, StatusOk, Effects, Weight, Next;
    MovesUnlessStopped(t.spec, t.copies[id].w, e);
    var c := t.copies[id];
    assert Current(Locally(t, id, e)) == Current(t);
    CountEffects(t, c, e, Failure);
    CountEffects(t, c, e, Retry);
    CountEffects(t, c, e, Record);
    LocalDebts(t.spec, t.hist[c.rv], c.w, e);
  }

  lemma LocalRecords(t: TaskSys, id: nat, e: Event)
    requires RecordsOk(t) && Enabled(t, id, e) && !IsUpdate(e)
    ensures RecordsOk(Locally(t, id, e))
  {
    assert forall x | x in Effects(t.spec, t.copies[id].w, e) :: !x.TaskRecorded?;
    assert Current(Locally(t, id, e)) == Current(t);
  }

  lemma LocalCopy(t: TaskSys, id: nat, e: Event)
    requires HistOk(t) && Enabled(t, id, e) && CopyOk(t, t.copies[id]) && !(IsUpdate(e) && e.ok)
    ensures CopyOk(Locally(t, id, e), Locally(t, id, e).copies[id]) && HistOk(Locally(t, id, e))
  {
    WorkerMoves(t.spec, t.hist[t.copies[id].rv], t.copies[id].w, e);
  }

  lemma LocalKeepsInv(t: TaskSys, id: nat, e: Event)
    requires Inv(t) && Enabled(t, id, e) && !IsUpdate(e)
    ensures Inv(Locally(t, id, e))
  {
    hide Next, Effects, StatusOk, InFlight, CountsOk;
    MovesUnlessStopped(t.spec, t.copies[id].w, e);
    assert CopyInv(t, t.copies[id]);
    LocalCopy(t, id, e);
    EffectsKeepLog(t, t.copies[id], e);
    LocalCounts(t, id, e);
    LocalRecords(t, id, e);
    OneCopyChanged(t, Locally(t, id, e), id);
  }

  lemma LostIsSilent(t: TaskSys, id: nat, e: Event)
    requires Enabled(t, id, e) && IsUpdate(e) && !e.ok
    ensures Locally(t, id, e).log == t.log && Locally(t, id, e).copies[id].w.pc.Stopped?
  {
  }

  lemma LosingKeepsInv(t: TaskSys, id: nat, e: Event)
    requires Inv(t) && Enabled(t, id, e) && IsUpdate(e) && !e.ok
    ensures Inv(Locally(t, id, e))
  {
    hide Next, Effects, StatusOk;
    assert CopyInv(t, t.copies[id]);
    LocalCopy(t, id, e);
    LostIsSilent(t, id, e);
    var t' := Locally(t, id, e);
    assert t' == t.(copies := t'.copies);
    OneCopyChanged(t, t', id);
  }

  lemma LandedHist(t: TaskSys, st: Status, bumps: bool)
    requires HistOk(t) && Evolves(t.spec, Current(t), st)
    ensures HistOk(t.(hist := Written(t, st, bumps)))
    ensures Current(t.(hist := Written(t, st, bumps))) == st
    ensures Completes(Current(t), st) || Retries(t.spec, Current(t), st) ==>
              |Written(t, st, bumps)| == |t.hist| + 1
  {
    EvolvesKeepsShape(t.spec, Current(t), st);
  }

  lemma LandedCounts(t: TaskSys, id: nat, e: Event, bumps: bool)
    requires t.hist != [] && CountsOk(t) && Enabled(t, id, e) && IsUpdate(e) && UpToDate(t, t.copies[id])
    requires StatusOk(t.spec, Current(t)) && InFlight(t.spec, Current(t), t.copies[id].w)
    requires CopyCountsOk(t, t.copies[id])
    ensures CountsOk(Landing(t, id, e, bumps))
    ensures CopyCountsOk(Landing(t, id, e, bumps), Landing(t, id, e, bumps).copies[id])
  {
    hide InFlight, StatusOk, Effects, Weight, Next, FailuresOwed, RetriesOwed;
    var c := t.copies[id];
    assert Current(Landing(t, id, e, bumps)) == c.w.st;
    CountEffects(t, c, e, Failure);
    CountEffects(t, c, e, Retry);
    CountEffects(t, c, e, Record);
    LandingDebts(t.spec, Current(t), c.w, e);
  }

  lemma LandedRecords(t: TaskSys, id: nat, e: Event, bumps: bool)
    requires RecordsOk(t) && Enabled(t, id, e) && Current(t).phase == NoPhase && t.hist != []
    ensures RecordsOk(Landing(t, id, e, bumps))
  {
    assert forall x | x in t.log :: !x.TaskRecorded?;
    assert Current(Landing(t, id, e, bumps)) == t.copies[id].w.st;
  }

  /** What an update adds to the done steps, it owes to the step that just ran. */
  lemma DoneByStep(spec: TaskSpec, base: Status, w: Worker)
    requires StatusOk(spec, base) && InFlight(spec, base, w) && (w.pc.SavingStep? || w.pc.SavingPhase?)
    ensures Done(w.st) > Done(base) ==> w.pc == SavingStep(Done(base), false) && Done(w.st) == Done(base) + 1
  {
    if w.pc.SavingStep? {
      assert Evolves(spec, base, w.st);
      EvolvesKeepsShape(spec, base, w.st);
    }
  }

  lemma LandedLog(t: TaskSys, id: nat, e: Event, bumps: bool)
    requires LogOk(t) && Enabled(t, id, e) && IsUpdate(e) && t.hist != []
    requires StatusOk(t.spec, Current(t)) && InFlight(t.spec, Current(t), t.copies[id].w)
    requires CopyLogOk(t, t.copies[id])
    ensures LogOk(Landing(t, id, e, bumps))
  {
    var c := t.copies[id];
    var more := Effects(t.spec, c.w, e);
    DoneByStep(t.spec, Current(t), c.w);
    LogGrows(t.log, more, t.spec.commitImage);
    CallsStayOrdered(t.log, more, t.spec.commitImage);
    assert Current(Landing(t, id, e, bumps)) == c.w.st;
  }

  lemma LandedCopy(t: TaskSys, id: nat, e: Event, bumps: bool)
    requires HistOk(t) && Enabled(t, id, e) && IsUpdate(e) && UpToDate(t, t.copies[id])
    requires InFlight(t.spec, Current(t), t.copies[id].w)
    ensures var t' := Landing(t, id, e, bumps);
            HistOk(t') && CopyOk(t', t'.copies[id]) && CopyLogOk(t', t'.copies[id])
  {
    WorkerMoves(t.spec, Current(t), t.copies[id].w, e);
    LandedHist(t, t.copies[id].w.st, bumps);
  }

  /** An update that reached the server, whatever the worker was told. */
  lemma LandingKeepsInv(t: TaskSys, id: nat, e: Event, bumps: bool)
    requires Inv(t) && Enabled(t, id, e) && IsUpdate(e) && UpToDate(t, t.copies[id])
    ensures Inv(Landing(t, id, e, bumps))
  {
    hide Next, Effects, StatusOk, LogOk, CountsOk, RecordsOk, CopyLogOk, CopyCountsOk;
    MovesUnlessStopped(t.spec, t.copies[id].w, e);
    assert CopyInv(t, t.copies[id]);
    assert t.hist[t.copies[id].rv] == Current(t);
    LandedCopy(t, id, e, bumps);
    LandedCounts(t, id, e, bumps);
    LandedLog(t, id, e, bumps);
    LandedRecords(t, id, e, bumps);
    OneCopyChanged(t, Landing(t, id, e, bumps), id);
  }

  lemma ReadKeepsInv(t: TaskSys, id: nat, v: nat, node: string)
    requires Inv(t) && v < |t.hist|
    ensures Inv(t.(copies := t.copies[id := Copy(Start(t.spec, node, t.hist[v]), v)]))
  {
    var t' := t.(copies := t.copies[id := Copy(Start(t.spec, node, t.hist[v]), v)]);
    StartInFlight(t.spec, node, t.hist[v]);
    OneCopyChanged(t, t', id);
  }

  lemma StepKeepsInv(t: TaskSys, a: Action)
    requires Inv(t)
    ensures Inv(Step(t, a))
  {
    match a
    case Read(id, v, node) =>
      if id !in t.copies && v < |t.hist| { ReadKeepsInv(t, id, v, node); }
    case Work(id, e, lands, bumps) =>
      if Enabled(t, id, e) {
        if !IsUpdate(e) {
          LocalKeepsInv(t, id, e);
        } else if lands && UpToDate(t, t.copies[id]) {
          LandingKeepsInv(t, id, e, bumps);
        } else if !e.ok {
          LosingKeepsInv(t, id, e);
        }
      }
  }

  lemma {:induction false} ExecInv(spec: TaskSpec, actions: seq<Action>)
    ensures Inv(Exec(spec, actions)) && Exec(spec, actions).spec == spec
  {
    if actions != [] {
      ExecInv(spec, actions[..|actions| - 1]);
      StepKeepsInv(Exec(spec, actions[..|actions| - 1]), actions[|actions| - 1]);
    }
  }
}
