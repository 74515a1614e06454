/** The SnapshotPod reconciler in the form of the source: three sub-reconcilers that change
    the object in place, proved to be the worker of module Rounds. */
module RoundReconciler {
  import opened Api
  import opened Naming
  import opened Rounds
  import opened Coverage
  import TP = TaskPipeline

  class SnapshotPodObject {
    const name: string
    const spec: SpSpec
    var runs: seq<Entry>
    ghost var past: seq<Entry>
    var conds: seq<Cond>
    var lastTriggerRound: int32

    constructor (name: string, spec: SpSpec, st: SpStatus)
      ensures this.name == name && this.spec == spec && Value() == st
    {
      this.name, this.spec := name, spec;
      runs, past, conds, lastTriggerRound := st.runs, st.past, st.conds, st.lastTriggerRound;
    }

    ghost function Value(): SpStatus
      reads this
    {
      With(conds)
    }

    /** The status, but with these conditions. */
    ghost function With(conds: seq<Cond>): SpStatus
      reads this
    {
      SpStatus(runs, past, conds, lastTriggerRound)
    }
  }

  datatype ContainerStatus = ContainerStatus(name: string, containerID: string)

  datatype Pod = Pod(containers: seq<string>, statuses: seq<ContainerStatus>)

  datatype PodReply = PodError(why: string) | PodFound(pod: Pod)

  datatype CreateReply = CreateOk | AlreadyExists | CreateFailed(why: string)

  /** Every answer one reconcile may ask for. The pod is fetched twice; `render` and `create`
      are the rendered image names and the replies to Create, one per container. */
  datatype Env = Env(target: seq<string>, first: PodReply, second: PodReply,
                     render: seq<Option<string>>, create: seq<CreateReply>,
                     list: ListAnswer, saved: bool)

  function ToSnapshot(env: Env): seq<string> {
    if env.target != [] then env.target
    else match env.second case PodError(_) => [] case PodFound(pod) => pod.containers
  }

  ghost predicate Valid(env: Env) {
    |env.render| == |env.create| == |ToSnapshot(env)|
  }

  function CheckPod(env: Env): Option<string> {
    match env.first
    case PodError(why) => Some(why)
    case PodFound(pod) =>
      if exists c | c in env.target :: c !in pod.containers then Some("containers not valid") else None
  }

  /** Position `k` is that of the first status with this container's name. */
  predicate FirstStatus(statuses: seq<ContainerStatus>, c: string, k: int) {
    0 <= k < |statuses| && statuses[k].name == c && forall j | 0 <= j < k :: statuses[j].name != c
  }

  /** That position, or the length. */
  function StatusIndex(statuses: seq<ContainerStatus>, c: string): (k: nat)
    ensures k <= |statuses| && (k < |statuses| ==> FirstStatus(statuses, c, k))
    ensures forall j | 0 <= j < k :: statuses[j].name != c
  {
    if statuses == [] || statuses[0].name == c then 0 else 1 + StatusIndex(statuses[1..], c)
  }

  /** The first status with this container's name, if there is one. */
  function StatusOf(statuses: seq<ContainerStatus>, c: string): Option<ContainerStatus> {
    var k := StatusIndex(statuses, c);
    if k < |statuses| then Some(statuses[k]) else None
  }

  /** What becomes of the container at position `i`. */
  function MakeAnswer(env: Env, pod: Pod, i: nat): CreateAnswer
    requires i < |ToSnapshot(env)| && i < |env.render| && i < |env.create|
  {
    var cs := StatusOf(pod.statuses, ToSnapshot(env)[i]);
    if cs.None? then Unready("container status not found")
    else if cs.value.containerID == "" then Unready("container not started")
    else if env.render[i].None? then Unready("bad image name")
    else match env.create[i]
      case CreateOk => Created(env.render[i].value)
      case AlreadyExists => Existed(env.render[i].value)
      case CreateFailed(why) => Refused(why)
  }

  /** The answer carried by the event is the one `env` gives at this program point. */
  ghost predicate Fits(env: Env, w: Worker, e: Event)
    requires Valid(env)
  {
    match (w.pc, e)
    case (Validating, Validated(err)) => err == if UpToDate(w) then None else CheckPod(env)
    case (Entering, Entered(pod)) =>
      pod.NotAsked? || pod == (match env.second case PodError(why) => NoPod(why) case PodFound(_) => Containers(ToSnapshot(env)))
    case (Creating(todo), Made(a)) =>
      && env.second.PodFound? && 0 < |todo| <= |ToSnapshot(env)|
      && a == MakeAnswer(env, env.second.pod, |ToSnapshot(env)| - |todo|)
    case (Listing, Listed(list)) => list == env.list
    case (Saving, Saved(ok)) => ok == env.saved
    case _ => true
  }

  ghost predicate Follows(env: Env, name: string, w: Worker, trace: seq<Event>)
    requires Valid(env)
  {
    trace == [] ||
    (var rest := trace[..|trace| - 1];
     Follows(env, name, w, rest) &&
     Replay(name, w, rest).Some? && Fits(env, Replay(name, w, rest).value, trace[|trace| - 1]))
  }

  lemma NothingYet(env: Env, name: string, w: Worker)
    requires Valid(env)
    ensures Follows(env, name, w, []) && Replay(name, w, []) == Some(w)
  {
  }

  /** Records one more event of a reconcile. */
  ghost method Extend(env: Env, name: string, w: Worker, trace: seq<Event>, e: Event)
    returns (longer: seq<Event>)
    requires Valid(env) && Follows(env, name, w, trace)
    requires Replay(name, w, trace).Some? && Fits(env, Replay(name, w, trace).value, e)
    ensures Follows(env, name, w, longer)
    ensures Replay(name, w, longer) == Next(name, Replay(name, w, trace).value, e)
    ensures Answers(longer) == Answers(trace) + match e case Made(a) => [a] case _ => []
  {
    longer := trace + [e];
    MoreTrace(trace, e);
    assert longer[..|longer| - 1] == trace;
    ReplaySnoc(name, w, trace, e);
  }

  // ---------- What the answers decide ----------

  lemma FollowsPrefix(env: Env, name: string, w: Worker, trace: seq<Event>, n: nat)
    requires Valid(env) && Follows(env, name, w, trace) && n <= |trace|
    requires Replay(name, w, trace).Some?
    ensures Follows(env, name, w, trace[..n]) && Replay(name, w, trace[..n]).Some?
    ensures n < |trace| ==>
              var w' := Replay(name, w, trace[..n]).value;
              Fits(env, w', trace[n]) && Next(name, w', trace[n]).Some?
    decreases |trace|
  {
    hide Fits, Next;
    if n == |trace| {
      assert trace[..n] == trace;
    } else {
      var rest := trace[..|trace| - 1];
      FollowsPrefix(env, name, w, rest, n);
      assert rest[..n] == trace[..n];
    }
  }

  lemma FitsOneEvent(env: Env, name: string, w: Worker, e1: Event, e2: Event)
    requires Valid(env) && Fits(env, w, e1) && Fits(env, w, e2)
    requires Next(name, w, e1).Some? && Next(name, w, e2).Some?
    ensures e1 == e2
  {
    hide MakeAnswer, CheckPod, ToSnapshot;
  }

  /** Traces that follow the same answers agree as far as the shorter one goes. */
  lemma {:induction false} SamePrefix(env: Env, name: string, w: Worker, t1: seq<Event>, t2: seq<Event>, n: nat)
    requires Valid(env) && Follows(env, name, w, t1) && Follows(env, name, w, t2)
    requires Replay(name, w, t1).Some? && Replay(name, w, t2).Some?
    requires n <= |t1| && n <= |t2|
    ensures t1[..n] == t2[..n]
  {
    hide Follows, Fits, Next;
    if n > 0 {
      SamePrefix(env, name, w, t1, t2, n - 1);
      FollowsPrefix(env, name, w, t1, n - 1);
      FollowsPrefix(env, name, w, t2, n - 1);
      FitsOneEvent(env, name, Replay(name, w, t1[..n - 1]).value, t1[n - 1], t2[n - 1]);
      assert t1[..n] == t1[..n - 1] + [t1[n - 1]];
      assert t2[..n] == t2[..n - 1] + [t2[n - 1]];
    }
  }

  lemma ShorterIsWhole(env: Env, name: string, w: Worker, t1: seq<Event>, t2: seq<Event>)
    requires Valid(env) && Follows(env, name, w, t1) && Follows(env, name, w, t2)
    requires Replay(name, w, t1).Some? && Replay(name, w, t1).value.pc.Stopped?
    requires Replay(name, w, t2).Some?
    requires |t1| <= |t2|
    ensures t1 == t2
  {
    hide Follows;
    SamePrefix(env, name, w, t1, t2, |t1|);
    FollowsPrefix(env, name, w, t2, |t1|);
    assert t1[..|t1|] == t1;
    assert t2[..|t2|] == t2;
  }

  /** The answers determine the whole reconcile: one trace, one final status. */
  lemma ReconcileIsDetermined(env: Env, name: string, w: Worker, t1: seq<Event>, t2: seq<Event>)
    requires Valid(env) && Follows(env, name, w, t1) && Follows(env, name, w, t2)
    requires Replay(name, w, t1).Some? && Replay(name, w, t1).value.pc.Stopped?
    requires Replay(name, w, t2).Some? && Replay(name, w, t2).value.pc.Stopped?
    ensures t1 == t2
  {
    hide Follows;
    if |t1| <= |t2| {
      ShorterIsWhole(env, name, w, t1, t2);
    } else {
      ShorterIsWhole(env, name, w, t2, t1);
    }
  }

  // ---------- Creating the tasks ----------

  datatype CreateCall = CreateCall(name: string, containerID: string, image: string)

  /** The Create call for the container at position `i`, if it comes to one. */
  function CallFor(env: Env, pod: Pod, name: string, round: nat, i: nat): seq<CreateCall>
    requires i < |ToSnapshot(env)| && i < |env.render|
  {
    var cs := StatusOf(pod.statuses, ToSnapshot(env)[i]);
    if cs.Some? && cs.value.containerID != "" && env.render[i].Some? then
      [CreateCall(TaskName(name, round, ToSnapshot(env)[i]), cs.value.containerID, env.render[i].value)]
    else []
  }

  /** Those for the first `n` containers. */
  ghost function Calls(env: Env, name: string, round: nat, n: nat): seq<CreateCall>
    requires Valid(env)
  {
    if n == 0 || n > |ToSnapshot(env)| || env.second.PodError? then []
    else Calls(env, name, round, n - 1) + CallFor(env, env.second.pod, name, round, n - 1)
  }

  /** Every call is for one of the containers to snapshot, the target's if there are any and
      else the pod's, and carries what that container's own status says. */
  ghost predicate CallsAreOwn(env: Env, name: string, round: nat, calls: seq<CreateCall>) {
    forall call | call in calls ::
      && env.second.PodFound?
      && exists c :: (if env.target != [] then c in env.target else c in env.second.pod.containers)
                     && CallIsOwn(env.second.pod, name, round, c, call)
  }

  lemma CallBelongs(env: Env, name: string, round: nat, i: nat)
    requires Valid(env) && env.second.PodFound? && i < |ToSnapshot(env)|
    ensures CallsAreOwn(env, name, round, CallFor(env, env.second.pod, name, round, i))
  {
    hide StatusIndex, Decimal;
    var pod, c := env.second.pod, ToSnapshot(env)[i];
    assert c in ToSnapshot(env);
    var k := StatusIndex(pod.statuses, c);
    forall call | call in CallFor(env, pod, name, round, i) ensures CallIsOwn(pod, name, round, c, call) {
      assert FirstStatus(pod.statuses, c, k);
    }
  }

  lemma {:induction false} CallsBelong(env: Env, name: string, round: nat, n: nat)
    requires Valid(env)
    ensures CallsAreOwn(env, name, round, Calls(env, name, round, n))
  {
    hide CallFor, CallIsOwn;
    if !(n == 0 || n > |ToSnapshot(env)| || env.second.PodError?) {
      CallsBelong(env, name, round, n - 1);
      CallBelongs(env, name, round, n - 1);
    }
  }

  /** Appends an entry and trims the list, in place. */
  method Append(sp: SnapshotPodObject, e: Entry)
    modifies sp`runs, sp`past
    ensures sp.Value() == AppendRun(old(sp.Value()), e)
  {
    sp.runs := sp.runs + [e];
    // only keep the last snapshots
    if |sp.runs| > 20 {
      sp.past := sp.past + sp.runs[..|sp.runs| - 5];
      sp.runs := sp.runs[|sp.runs| - 5..];
    }
  }

  /** The worker when the loop has dealt with `i` containers or stopped at an error. Its
      conditions are still those from before this step. */
  ghost function AfterLoop(sp: SnapshotPodObject, env: Env, conds: seq<Cond>, i: nat, err: Option<string>): Worker
    requires i <= |ToSnapshot(env)|
    reads sp
  {
    var now := Worker(Entering, sp.spec, sp.With(conds));
    if err.Some? then TasksFailed(now, err.value)
    else if i == |ToSnapshot(env)| then TasksDone(now)
    else Worker(Creating(ToSnapshot(env)[i..]), sp.spec, sp.With(conds))
  }

  /** The status that a container is found under, in the pod's list. */
  method FindStatus(statuses: seq<ContainerStatus>, c: string) returns (cs: Option<ContainerStatus>)
    ensures cs == StatusOf(statuses, c)
    ensures cs.None? <==> forall k | 0 <= k < |statuses| :: statuses[k].name != c
    ensures cs.Some? ==> exists k :: FirstStatus(statuses, c, k) && statuses[k] == cs.value
  {
    var k := 0;
    while k < |statuses|
      invariant 0 <= k <= |statuses|
      invariant forall j | 0 <= j < k :: statuses[j].name != c
    {
      if statuses[k].name == c {
        assert FirstStatus(statuses, c, k);
        FirstIsOne(statuses, c, k);
        return Some(statuses[k]);
      }
      k := k + 1;
    }
    FirstIsOne(statuses, c, k);
    return None;
  }

  lemma FirstIsOne(statuses: seq<ContainerStatus>, c: string, k: nat)
    requires k <= |statuses| && (k < |statuses| ==> statuses[k].name == c)
    requires forall j | 0 <= j < k :: statuses[j].name != c
    ensures StatusIndex(statuses, c) == k
  {
  }

  /** The call is for container `c` and carries what its own status says of it. */
  ghost predicate CallIsOwn(pod: Pod, name: string, round: nat, c: string, call: CreateCall) {
    && call.name == name + "-" + Decimal(round) + "-" + c
    && call.containerID != ""
    && exists k :: FirstStatus(pod.statuses, c, k) && pod.statuses[k].containerID == call.containerID
  }

  /** One container's task: the first thing that is wrong ends it, in the order of status,
      container ID, image name and reply. */
  method MakeTask(env: Env, name: string, round: int32, i: nat)
    returns (err: Option<string>, calls: seq<CreateCall>)
    requires Valid(env) && env.second.PodFound? && i < |ToSnapshot(env)| && round > 0
    ensures calls == CallFor(env, env.second.pod, name, round, i)
    ensures var a := MakeAnswer(env, env.second.pod, i);
            if err.Some? then (a.Unready? || a.Refused?) && a.why == err.value
            else calls != [] && a == if env.create[i].CreateOk? then Created(calls[0].image) else Existed(calls[0].image)
    ensures err.None? <==> calls != [] && !env.create[i].CreateFailed?
    ensures (forall k | 0 <= k < |env.second.pod.statuses| :: env.second.pod.statuses[k].name != ToSnapshot(env)[i]) ==>
              err.Some? && calls == []
    ensures |calls| <= 1
    ensures forall call | call in calls ::
              CallIsOwn(env.second.pod, name, round, ToSnapshot(env)[i], call) && env.render[i] == Some(call.image)
  {
    hide StatusIndex, Decimal;
    var pod, c := env.second.pod, ToSnapshot(env)[i];
    var cs := FindStatus(pod.statuses, c);
    if cs.None? {
      return Some("container status not found"), [];
    }
    if cs.value.containerID == "" {
      return Some("container not started"), [];
    }
    if env.render[i].None? {
      return Some("bad image name"), [];
    }
    calls := [CreateCall(name + "-" + Decimal(round) + "-" + c, cs.value.containerID, env.render[i].value)];
    if env.create[i].CreateFailed? {
      return Some(env.create[i].why), calls;
    }
    err := None;
  }

  /** One container: its task, and its entry unless something is wrong. */
  method CreateTask(sp: SnapshotPodObject, env: Env, i: nat, ghost conds: seq<Cond>)
    returns (err: Option<string>, calls: seq<CreateCall>)
    requires Valid(env) && env.second.PodFound? && i < |ToSnapshot(env)| && sp.spec.triggerRound > 0
    modifies sp`runs, sp`past
    ensures var cs := ToSnapshot(env);
            Next(sp.name, Worker(Creating(cs[i..]), sp.spec, old(sp.With(conds))), Made(MakeAnswer(env, env.second.pod, i)))
            == Some(AfterLoop(sp, env, conds, i + 1, err))
    ensures calls == CallFor(env, env.second.pod, sp.name, sp.spec.triggerRound, i)
    ensures err.None? <==> calls != [] && !env.create[i].CreateFailed?
    ensures err.Some? ==> sp.Value() == old(sp.Value())
    ensures (forall k | 0 <= k < |env.second.pod.statuses| :: env.second.pod.statuses[k].name != ToSnapshot(env)[i]) ==>
              err.Some? && calls == []
    ensures |calls| <= 1
    ensures forall call | call in calls ::
              CallIsOwn(env.second.pod, sp.name, sp.spec.triggerRound, ToSnapshot(env)[i], call)
              && env.render[i] == Some(call.image)
    ensures err.None? ==>
              && sp.runs != []
              && sp.runs[|sp.runs| - 1]
                 == Entry(sp.spec.triggerRound, calls[0].name, calls[0].image, ToSnapshot(env)[i],
                          CreatedResult, "", env.create[i].CreateOk?)
  {
    hide AppendRun, MakeAnswer, CallFor, CallIsOwn, Decimal;
    err, calls := MakeTask(env, sp.name, sp.spec.triggerRound, i);
    if err.Some? {
      return;
    }
    assert calls[0] in calls;
    OwnName(env.second.pod, sp.name, sp.spec.triggerRound, ToSnapshot(env)[i], calls[0]);
    assert ToSnapshot(env)[i..][1..] == ToSnapshot(env)[i + 1..];
    var e := Entry(sp.spec.triggerRound, calls[0].name, calls[0].image, ToSnapshot(env)[i],
                   CreatedResult, "", env.create[i].CreateOk?);
    AppendKeeps(sp.Value(), sp.With(conds), e);
    Append(sp, e);
  }

  lemma OwnName(pod: Pod, name: string, round: nat, c: string, call: CreateCall)
    requires CallIsOwn(pod, name, round, c, call)
    ensures call.name == TaskName(name, round, c)
  {
  }

  lemma AppendKeeps(a: SpStatus, b: SpStatus, e: Entry)
    requires b == a.(conds := b.conds)
    ensures AppendRun(b, e) == AppendRun(a, e).(conds := b.conds)
    ensures AppendRun(a, e).lastTriggerRound == a.lastTriggerRound
    ensures AppendRun(a, e).runs != [] && AppendRun(a, e).runs[|AppendRun(a, e).runs| - 1] == e
  {
  }

  /** One turn of the loop. */
  method CreateNext(sp: SnapshotPodObject, env: Env, i: nat, ghost conds: seq<Cond>, ghost w: Worker, ghost before: seq<Event>)
    returns (err: Option<string>, calls: seq<CreateCall>, ghost trace: seq<Event>)
    requires Valid(env) && env.second.PodFound? && i < |ToSnapshot(env)| && sp.spec.triggerRound > 0
    requires Follows(env, sp.name, w, before)
    requires Replay(sp.name, w, before) == Some(Worker(Creating(ToSnapshot(env)[i..]), sp.spec, sp.With(conds)))
    modifies sp`runs, sp`past
    ensures Follows(env, sp.name, w, trace) && |Answers(trace)| == |Answers(before)| + 1
    ensures Replay(sp.name, w, trace) == Some(AfterLoop(sp, env, conds, i + 1, err))
    ensures calls == CallFor(env, env.second.pod, sp.name, sp.spec.triggerRound, i)
  {
    hide Follows, Replay;
    trace := Extend(env, sp.name, w, before, Made(MakeAnswer(env, env.second.pod, i)));
    err, calls := CreateTask(sp, env, i, conds);
  }

  /** The loop over the containers; the first error ends it. */
  method CreateTasks(sp: SnapshotPodObject, env: Env, ghost conds: seq<Cond>, ghost w: Worker, ghost before: seq<Event>)
    returns (err: Option<string>, calls: seq<CreateCall>, ghost trace: seq<Event>)
    requires Valid(env) && env.second.PodFound? && Follows(env, sp.name, w, before)
    requires ToSnapshot(env) != [] && sp.spec.triggerRound > 0 && Answers(before) == []
    requires Replay(sp.name, w, before) == Some(Worker(Creating(ToSnapshot(env)), sp.spec, sp.With(conds)))
    modifies sp`runs, sp`past
    ensures Follows(env, sp.name, w, trace)
    ensures Replay(sp.name, w, trace) == Some(AfterLoop(sp, env, conds, |ToSnapshot(env)|, err))
    ensures calls == Calls(env, sp.name, sp.spec.triggerRound, |Answers(trace)|)
  {
    hide Follows, Replay;
    trace, calls := before, [];
    var n, i := |ToSnapshot(env)|, 0;
    assert ToSnapshot(env)[0..] == ToSnapshot(env);
    while i < n
      invariant 0 <= i <= n == |ToSnapshot(env)|
      invariant Follows(env, sp.name, w, trace) && |Answers(trace)| == i
      invariant Replay(sp.name, w, trace) == Some(AfterLoop(sp, env, conds, i, None))
      invariant calls == Calls(env, sp.name, sp.spec.triggerRound, i)
    {
      var more;
      err, more, trace := CreateNext(sp, env, i, conds, w, trace);
      calls := calls + more;
      if err.Some? {
        return err, calls, trace;
      }
      i := i + 1;
    }
    err := None;
  }

  /** The round guards, and the loop when they let it run. */
  method ReconcileTasks(sp: SnapshotPodObject, env: Env, ghost conds: seq<Cond>, ghost w: Worker, ghost before: seq<Event>)
    returns (err: Option<string>, calls: seq<CreateCall>, ghost trace: seq<Event>)
    requires Valid(env) && Follows(env, sp.name, w, before) && sp.spec.triggerRound > 0 && Answers(before) == []
    requires Replay(sp.name, w, before) == Some(Worker(Entering, sp.spec, sp.With(conds)))
    modifies sp`runs, sp`past, sp`lastTriggerRound
    ensures Follows(env, sp.name, w, trace)
    ensures var now := Worker(Entering, sp.spec, sp.With(conds));
            Replay(sp.name, w, trace) == Some(if err.None? then TasksDone(now) else TasksFailed(now, err.value))
    ensures calls == Calls(env, sp.name, sp.spec.triggerRound, |Answers(trace)|)
  {
    hide Follows, Replay;
    if sp.lastTriggerRound == sp.spec.triggerRound {
      trace := Extend(env, sp.name, w, before, Entered(NotAsked));
      return None, [], trace;
    }
    if exists i | 0 <= i < |sp.runs| :: sp.runs[i].round == sp.spec.triggerRound {
      trace := Extend(env, sp.name, w, before, Entered(NotAsked));
      sp.lastTriggerRound := sp.spec.triggerRound; // already exists, skip
      return None, [], trace;
    }
    if env.second.PodError? {
      trace := Extend(env, sp.name, w, before, Entered(NoPod(env.second.why)));
      return Some(env.second.why), [], trace;
    }
    var containers := env.second.pod.containers;
    if |env.target| != 0 {
      containers := env.target;
    }
    trace := Extend(env, sp.name, w, before, Entered(Containers(containers)));
    if containers == [] {
      return None, [], trace;
    }
    err, calls, trace := CreateTasks(sp, env, conds, w, trace);
  }

  /** The messages of the conditions that do not hold. */
  method Collect(conds: seq<Cond>) returns (msgs: seq<string>)
    ensures msgs == Complaints(conds)
  {
    msgs := [];
    var k := 0;
    assert conds[0..] == conds;
    while k < |conds|
      invariant 0 <= k <= |conds|
      invariant msgs + Complaints(conds[k..]) == Complaints(conds)
    {
      assert conds[k..][1..] == conds[k + 1..];
      if conds[k].status != IsTrue {
        msgs := msgs + [conds[k].message];
      }
      k := k + 1;
    }
  }

  /** What becomes of an entry: nothing if it is settled; without its task in the list it is
      CREATED; with a terminal one it takes the outcome, a failure with its messages. */
  predicate Folded(e: Entry, e': Entry, view: map<string, TP.Status>) {
    if e.result == SucceedResult || e.result == FailedResult then e' == e
    else if e.taskName !in view then e' == e.(result := CreatedResult, failedReason := "can not fetch task")
    else match view[e.taskName].phase
      case CompletedPhase => e' == e.(result := SucceedResult)
      case FailedPhase => e' == e.(result := FailedResult, failedReason := Join(Complaints(view[e.taskName].conds)))
      case _ => e' == e
  }

  /** Folds the tasks' phases back into the entries, in place. */
  method ReconcileTasksStatus(sp: SnapshotPodObject, list: ListAnswer) returns (err: Option<string>)
    modifies sp`runs
    ensures list.ListFailed? ==> err == Some(list.why) && sp.runs == old(sp.runs)
    ensures list.TaskList? ==> err == None && sp.runs == RefreshAll(old(sp.runs), list.view)
    ensures list.TaskList? ==> forall j | 0 <= j < |sp.runs| :: Folded(old(sp.runs)[j], sp.runs[j], list.view)
  {
    if list.ListFailed? {
      return Some(list.why);
    }
    var i := 0;
    while i < |sp.runs|
      invariant 0 <= i <= |sp.runs| == |old(sp.runs)|
      invariant forall j | 0 <= j < i :: sp.runs[j] == Refresh(old(sp.runs)[j], list.view)
      invariant forall j | 0 <= j < i :: Folded(old(sp.runs)[j], sp.runs[j], list.view)
      invariant forall j | i <= j < |sp.runs| :: sp.runs[j] == old(sp.runs)[j]
    {
      var s := sp.runs[i];
      if s.result != SucceedResult && s.result != FailedResult {
        if s.taskName !in list.view {
          sp.runs := sp.runs[i := s.(result := CreatedResult, failedReason := "can not fetch task")];
        } else if list.view[s.taskName].phase == TP.CompletedPhase {
          sp.runs := sp.runs[i := s.(result := SucceedResult)];
        } else if list.view[s.taskName].phase == TP.FailedPhase {
          var msgs := Collect(list.view[s.taskName].conds);
          sp.runs := sp.runs[i := s.(result := FailedResult, failedReason := Join(msgs))];
        }
      }
      i := i + 1;
    }
    err := None;
  }

  /** Whether the pod can be found and has every target container; once the round is done
      nobody asks. */
  method Validate(sp: SnapshotPodObject, env: Env) returns (err: Option<string>)
    ensures err == if sp.lastTriggerRound == sp.spec.triggerRound then None else CheckPod(env)
    ensures err.None? <==>
              || sp.lastTriggerRound == sp.spec.triggerRound
              || (env.first.PodFound? && forall i | 0 <= i < |env.target| :: env.target[i] in env.first.pod.containers)
    ensures sp.lastTriggerRound != sp.spec.triggerRound && env.first.PodError? ==> err == Some(env.first.why)
  {
    if sp.lastTriggerRound == sp.spec.triggerRound {
      return None;
    }
    if env.first.PodError? {
      return Some(env.first.why);
    }
    var i := 0;
    while i < |env.target|
      invariant 0 <= i <= |env.target|
      invariant forall j | 0 <= j < i :: env.target[j] in env.first.pod.containers
    {
      if env.target[i] !in env.first.pod.containers {
        return Some("containers not valid");
      }
      i := i + 1;
    }
    return None;
  }

  // ---------- The three steps ----------

  const STEPS := [Accept, Tasks, TaskStatus]

  /** The worker's program point before step `k`. */
  function StepPc(k: nat): Pc {
    if k == 0 then Validating else if k == 1 then Entering else if k == 2 then Listing else Saving
  }

  ghost function Concluded(conds: seq<Cond>, k: nat, err: Option<string>): seq<Cond>
    requires k < 3
  {
    if err.None? then Approve(conds, STEPS[k]) else Reject(conds, STEPS[k], err.value)
  }

  /** The function of step `k`. */
  method RunStep(sp: SnapshotPodObject, env: Env, k: nat, ghost conds: seq<Cond>, ghost w: Worker, ghost before: seq<Event>)
    returns (err: Option<string>, calls: seq<CreateCall>, ghost trace: seq<Event>)
    requires Valid(env) && k < 3 && Follows(env, sp.name, w, before) && sp.spec.triggerRound > 0
    requires k <= 1 ==> Answers(before) == []
    requires Replay(sp.name, w, before) == Some(Worker(StepPc(k), sp.spec, sp.With(conds)))
    modifies sp`runs, sp`past, sp`lastTriggerRound
    ensures Follows(env, sp.name, w, trace)
    ensures Replay(sp.name, w, trace)
         == Some(Worker(if err.None? then StepPc(k + 1) else Saving, sp.spec, sp.With(Concluded(conds, k, err))))
    ensures if k == 1 then calls == Calls(env, sp.name, sp.spec.triggerRound, |Answers(trace)|)
            else calls == [] && Answers(trace) == Answers(before)
  {
    hide Follows, Replay, Approve, Reject;
    calls := [];
    if k == 0 {
      err := Validate(sp, env);
      trace := Extend(env, sp.name, w, before, Validated(err));
    } else if k == 1 {
      err, calls, trace := ReconcileTasks(sp, env, conds, w, before);
    } else {
      trace := Extend(env, sp.name, w, before, Listed(env.list));
      err := ReconcileTasksStatus(sp, env.list);
    }
  }

  /** One turn of the loop over the steps: finds or appends the step's condition, runs the
      step, and sets the condition. */
  method ReconcileStep(sp: SnapshotPodObject, env: Env, k: nat, ghost w: Worker, ghost before: seq<Event>)
    returns (err: Option<string>, calls: seq<CreateCall>, ghost trace: seq<Event>)
    requires Valid(env) && k < 3 && Follows(env, sp.name, w, before) && sp.spec.triggerRound > 0
    requires k <= 1 ==> Answers(before) == []
    requires Replay(sp.name, w, before) == Some(Worker(StepPc(k), sp.spec, sp.Value()))
    modifies sp
    ensures Follows(env, sp.name, w, trace)
    ensures Replay(sp.name, w, trace) == Some(Worker(if err.None? then StepPc(k + 1) else Saving, sp.spec, sp.Value()))
    ensures sp.conds == Concluded(old(sp.conds), k, err)
    ensures if k == 1 then calls == Calls(env, sp.name, sp.spec.triggerRound, |Answers(trace)|)
            else calls == [] && Answers(trace) == Answers(before)
  {
    hide Follows, Replay, Calls;
    ghost var conds := sp.conds;
    var i := FindCond(sp.conds, STEPS[k]);
    if i == |sp.conds| {
      sp.conds := sp.conds + [Cond(STEPS[k], IsUnknown, "")];
    }
    err, calls, trace := RunStep(sp, env, k, conds, w, before);
    ghost var st := sp.With(Concluded(conds, k, err));
    if err.Some? {
      sp.conds := sp.conds[i := sp.conds[i].(status := IsFalse, message := err.value)];
    } else {
      sp.conds := sp.conds[i := sp.conds[i].(status := IsTrue)];
    }
    assert sp.conds == Concluded(conds, k, err);
    assert sp.Value() == st;
  }

  method Reconcile(sp: SnapshotPodObject, env: Env)
    returns (reply: TP.Reply, calls: seq<CreateCall>, ghost trace: seq<Event>)
    requires Valid(env)
    modifies sp
    ensures Follows(env, sp.name, Start(sp.spec, old(sp.Value())), trace)
    ensures Replay(sp.name, Start(sp.spec, old(sp.Value())), trace)
         == Some(Worker(Stopped(reply), sp.spec, sp.Value()))
    ensures sp.spec.triggerRound > 0 ==>
              && calls == Calls(env, sp.name, sp.spec.triggerRound, |Answers(trace)|)
              && CallsAreOwn(env, sp.name, sp.spec.triggerRound, calls)
    ensures sp.spec.triggerRound <= 0 ==> reply == TP.Finished && calls == [] && sp.Value() == old(sp.Value())
    ensures sp.spec.triggerRound > 0 ==>
              var waiting := (exists e :: e in sp.runs && e.result != SucceedResult && e.result != FailedResult)
                             || exists c :: c in sp.conds && c.status != IsTrue;
              reply == if !env.saved then TP.Errored else if waiting then TP.Requeued else TP.Finished
  {
    hide Follows, Replay, Calls, CallsAreOwn;
    ghost var w := Start(sp.spec, sp.Value());
    trace, calls := [], [];
    NothingYet(env, sp.name, w);
    if sp.spec.triggerRound <= 0 {
      return TP.Finished, [], trace;
    }
    NoCalls(env, sp.name, sp.spec.triggerRound);
    var k := 0;
    while k < 3
      invariant 0 <= k <= 3
      invariant Follows(env, sp.name, w, trace) && (k <= 1 ==> Answers(trace) == [])
      invariant Replay(sp.name, w, trace) == Some(Worker(StepPc(k), sp.spec, sp.Value()))
      invariant calls == Calls(env, sp.name, sp.spec.triggerRound, |Answers(trace)|)
    {
      var err, more;
      err, more, trace := ReconcileStep(sp, env, k, w, trace);
      calls := calls + more;
      if err.Some? {
        break;
      }
      k := k + 1;
    }
    CallsBelong(env, sp.name, sp.spec.triggerRound, |Answers(trace)|);
    reply, trace := FinishUp(sp, env, w, trace);
  }

  /** The update, and whether to come back. */
  method FinishUp(sp: SnapshotPodObject, env: Env, ghost w: Worker, ghost before: seq<Event>)
    returns (reply: TP.Reply, ghost trace: seq<Event>)
    requires Valid(env) && Follows(env, sp.name, w, before)
    requires Replay(sp.name, w, before) == Some(Worker(Saving, sp.spec, sp.Value()))
    ensures Follows(env, sp.name, w, trace) && Answers(trace) == Answers(before)
    ensures Replay(sp.name, w, trace) == Some(Worker(Stopped(reply), sp.spec, sp.Value()))
    ensures var waiting := (exists e :: e in sp.runs && e.result != SucceedResult && e.result != FailedResult)
                           || exists c :: c in sp.conds && c.status != IsTrue;
            reply == if !env.saved then TP.Errored else if waiting then TP.Requeued else TP.Finished
  {
    hide Follows, Replay;
    trace := Extend(env, sp.name, w, before, Saved(env.saved));
    if !env.saved {
      return TP.Errored, trace;
    }
    if (exists e | e in sp.runs :: e.result != SucceedResult && e.result != FailedResult)
       || exists c | c in sp.conds :: c.status != IsTrue {
      return TP.Requeued, trace;
    }
    return TP.Finished, trace;
  }

  lemma NoCalls(env: Env, name: string, round: nat)
    requires Valid(env)
    ensures Calls(env, name, round, 0) == []
  {
  }
}
