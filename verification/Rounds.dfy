/** One reconcile of a SnapshotPod as a worker that reacts to answers, in the manner of
    module TaskPipeline. */
module Rounds {
  import opened Api
  import opened Naming
  import TP = TaskPipeline

  datatype RunResult = CreatedResult | RunningResult | FailedResult | SucceedResult

  /** One line of the history. `made` is not in the source: it says that the Create call
      made for this entry made the task, so that task and entry share one rendered image. */
  datatype Entry = Entry(round: int32, taskName: string, image: string, container: string,
                         result: RunResult, failedReason: string, made: bool)

  datatype SpSpec = SpSpec(triggerRound: int32, recoveryRound: int32, secret: string)

  /** What the webhook makes of the spec when a pod is deleted. */
  function Bumped(spec: SpSpec): SpSpec {
    spec.(triggerRound := Inc32(spec.triggerRound))
  }

  /** `past` is not in the source: the entries that trimming has dropped, oldest first. */
  datatype SpStatus = SpStatus(runs: seq<Entry>, past: seq<Entry>, conds: seq<Cond>, lastTriggerRound: int32)

  const NEW_SP_STATUS := SpStatus([], [], [], 0)

  const MOST_RUNS := 20
  const KEPT_RUNS := 5

  /** Every entry ever appended. */
  function Full(st: SpStatus): seq<Entry> {
    st.past + st.runs
  }

  function AppendRun(st: SpStatus, e: Entry): SpStatus {
    var runs := st.runs + [e];
    if |runs| > MOST_RUNS then
      st.(past := st.past + runs[..|runs| - KEPT_RUNS], runs := runs[|runs| - KEPT_RUNS..])
    else st.(runs := runs)
  }

  predicate Settled(r: RunResult) {
    r == SucceedResult || r == FailedResult
  }

  function Complaints(conds: seq<Cond>): seq<string> {
    if conds == [] then []
    else (if conds[0].status != IsTrue then [conds[0].message] else []) + Complaints(conds[1..])
  }

  function Join(msgs: seq<string>): string {
    if msgs == [] then "" else if |msgs| == 1 then msgs[0] else msgs[0] + ", " + Join(msgs[1..])
  }

  /** Exactly the messages of the conditions that do not hold, in their order. */
  lemma {:induction false} ComplaintsOfBoth(a: seq<Cond>, b: seq<Cond>)
    ensures Complaints(a + b) == Complaints(a) + Complaints(b)
    ensures forall c | b == [c] && c.status == IsTrue :: Complaints(a + b) == Complaints(a)
    ensures forall c | b == [c] && c.status != IsTrue :: Complaints(a + b) == Complaints(a) + [c.message]
  {
    if a == [] {
      assert a + b == b;
    } else {
      assert (a + b)[1..] == a[1..] + b;
      ComplaintsOfBoth(a[1..], b);
    }
  }

  /** The texts with a comma and a space between each two. */
  lemma {:induction false} JoinMore(msgs: seq<string>, m: string)
    ensures Join([m]) == m
    ensures msgs != [] ==> Join(msgs + [m]) == Join(msgs) + ", " + m
  {
    if |msgs| > 1 {
      assert (msgs + [m])[1..] == msgs[1..] + [m];
      JoinMore(msgs[1..], m);
      assert msgs[0] + ", " + (Join(msgs[1..]) + ", " + m) == msgs[0] + ", " + Join(msgs[1..]) + ", " + m;
    } else if |msgs| == 1 {
      assert (msgs + [m])[1..] == [m];
    }
  }

  /** What the task list says about one entry. */
  function Refresh(e: Entry, view: map<string, TP.Status>): Entry {
    if Settled(e.result) then e
    else if e.taskName !in view then e.(result := CreatedResult, failedReason := "can not fetch task")
    else match view[e.taskName].phase
      case CompletedPhase => e.(result := SucceedResult)
      case FailedPhase => e.(result := FailedResult, failedReason := Join(Complaints(view[e.taskName].conds)))
      case _ => e
  }

  function RefreshAll(runs: seq<Entry>, view: map<string, TP.Status>): seq<Entry> {
    seq(|runs|, i requires 0 <= i < |runs| => Refresh(runs[i], view))
  }

  function Approve(conds: seq<Cond>, typ: CondType): seq<Cond> {
    var i := FindCond(conds, typ);
    if i < |conds| then conds[i := conds[i].(status := IsTrue)] else conds + [Cond(typ, IsTrue, "")]
  }

  function Reject(conds: seq<Cond>, typ: CondType, msg: string): seq<Cond> {
    PutCond(conds, Cond(typ, IsFalse, msg))
  }

  predicate RoundKnown(runs: seq<Entry>, round: int32) {
    exists i | 0 <= i < |runs| :: runs[i].round == round
  }

  predicate NeedsRequeue(runs: seq<Entry>, conds: seq<Cond>) {
    (exists i | 0 <= i < |runs| :: !Settled(runs[i].result)) || !AllTrue(conds)
  }

  datatype Pc =
    | Validating
    | Entering                     // at the guards of reconcileTasks
    | Creating(todo: seq<string>)  // in its loop, with these containers left
    | Listing
    | Saving
    | Stopped(reply: TP.Reply)

  datatype Worker = Worker(pc: Pc, spec: SpSpec, st: SpStatus)

  datatype PodAnswer = NotAsked | NoPod(why: string) | Containers(names: seq<string>)

  /** The container or its image name is not usable; Create failed; Create made the task;
      the task was there already. */
  datatype CreateAnswer = Unready(why: string) | Refused(why: string) | Created(image: string) | Existed(image: string)

  datatype ListAnswer = ListFailed(why: string) | TaskList(view: map<string, TP.Status>)

  datatype Event =
    | Validated(err: Option<string>)
    | Entered(pod: PodAnswer)
    | Made(answer: CreateAnswer)
    | Listed(list: ListAnswer)
    | Saved(ok: bool)

  function Start(spec: SpSpec, st: SpStatus): Worker {
    Worker(if spec.triggerRound <= 0 then Stopped(TP.Finished) else Validating, spec, st)
  }

  predicate UpToDate(w: Worker) {
    w.st.lastTriggerRound == w.spec.triggerRound
  }

  function NewEntry(name: string, round: int32, container: string, image: string, made: bool): Entry {
    Entry(round, TaskName(name, if round < 0 then 0 else round, container), image, container,
          CreatedResult, "", made)
  }

  function TasksDone(w: Worker): Worker {
    w.(pc := Listing, st := w.st.(conds := Approve(w.st.conds, Tasks)))
  }

  function TasksFailed(w: Worker, why: string): Worker {
    w.(pc := Saving, st := w.st.(conds := Reject(w.st.conds, Tasks, why)))
  }

  /** The worker after the event, or None when the event cannot happen at this point. */
  function Next(name: string, w: Worker, e: Event): Option<Worker> {
    match (w.pc, e)
    case (Validating, Validated(err)) =>
      if err.None? then Some(w.(pc := Entering, st := w.st.(conds := Approve(w.st.conds, Accept))))
      else if UpToDate(w) then None // not asked for a pod, so there is nothing to complain about
      else Some(w.(pc := Saving, st := w.st.(conds := Reject(w.st.conds, Accept, err.value))))
    case (Entering, Entered(pod)) =>
      if UpToDate(w) then (if pod.NotAsked? then Some(TasksDone(w)) else None)
      else if RoundKnown(w.st.runs, w.spec.triggerRound) then
        if pod.NotAsked? then Some(TasksDone(w.(st := w.st.(lastTriggerRound := w.spec.triggerRound)))) else None
      else (match pod
            case NotAsked => None
            case NoPod(why) => Some(TasksFailed(w, why))
            case Containers(names) => Some(if names == [] then TasksDone(w) else w.(pc := Creating(names))))
    case (Creating(todo), Made(a)) =>
      if todo == [] then None
      else if a.Unready? || a.Refused? then Some(TasksFailed(w, a.why))
      else
        var entry := NewEntry(name, w.spec.triggerRound, todo[0], a.image, a.Created?);
        var w' := w.(st := AppendRun(w.st, entry));
        Some(if |todo| == 1 then TasksDone(w') else w'.(pc := Creating(todo[1..])))
    case (Listing, Listed(list)) =>
      Some(w.(pc := Saving,
              st := match list
                    case ListFailed(why) => w.st.(conds := Reject(w.st.conds, TaskStatus, why))
                    case TaskList(view) =>
                      w.st.(runs := RefreshAll(w.st.runs, view), conds := Approve(w.st.conds, TaskStatus))))
    case (Saving, Saved(ok)) =>
      Some(w.(pc := Stopped(if !ok then TP.Errored else if NeedsRequeue(w.st.runs, w.st.conds) then TP.Requeued else TP.Finished)))
    case _ => None
  }

  function Replay(name: string, w: Worker, trace: seq<Event>): Option<Worker> {
    if trace == [] then Some(w)
    else
      match Replay(name, w, trace[..|trace| - 1])
      case None => None
      case Some(w') => Next(name, w', trace[|trace| - 1])
  }

  lemma ReplaySnoc(name: string, w: Worker, trace: seq<Event>, e: Event)
    requires Replay(name, w, trace).Some?
    ensures Replay(name, w, trace + [e]) == Next(name, Replay(name, w, trace).value, e)
  {
    assert (trace + [e])[..|trace + [e]| - 1] == trace;
  }
}
