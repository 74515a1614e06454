/** The whole operator at work on one SnapshotPod: both controllers, the webhook and the
    user, interleaved step by step over one API server. Any number of reconciles of either
    kind may be in flight, reading any committed version; every update may be refused, get
    lost, or land without its reply. */
module Operator {
  import opened Api
  import opened Rounds
  import opened History
  import TS = TaskStore
  import TP = TaskPipeline

  datatype Version = Version(spec: SpSpec, status: SpStatus)

  datatype Copy = Copy(w: Worker, rv: nat)

  datatype Sys = Sys(name: string, tasks: map<string, TS.TaskSys>, versions: seq<Version>, copies: map<nat, Copy>)

  datatype Action =
    | OnTask(task: string, a: TS.Action)
    // somebody else creates a task with this name
    | Foreign(task: string, taskSpec: TP.TaskSpec)
    // the user writes a new spec; the trigger round is never lowered
    | EditSpec(spec: SpSpec)
    // a pod is deleted and the webhook bumps the round of the version it reads
    | PodDeleted(v: nat, lands: bool)
    | ReadSp(id: nat, v: nat)
    // an event of a reconcile that needs nothing of the API server's state
    | Proceed(id: nat, e: Event)
    // Create for the next container; `lost`: it lands, but an error comes back
    | CreateTask(id: nat, taskSpec: TP.TaskSpec, lost: bool)
    // List, from a cache that shows for each task in `seen` that version of it
    | ListTasks(id: nat, seen: map<string, nat>)
    | SaveSp(id: nat, ok: bool, lands: bool, bumps: bool)

  function Init(name: string, spec: SpSpec): Sys {
    Sys(name, map[], [Version(spec, NEW_SP_STATUS)], map[])
  }

  function Latest(s: Sys): Version {
    if s.versions == [] then Version(SpSpec(0, 0, ""), NEW_SP_STATUS) else s.versions[|s.versions| - 1]
  }

  predicate Enabled(s: Sys, id: nat, e: Event) {
    id in s.copies && Next(s.name, s.copies[id].w, e).Some?
  }

  function Move(s: Sys, id: nat, e: Event): Sys
    requires Enabled(s, id, e)
  {
    s.(copies := s.copies[id := Copy(Next(s.name, s.copies[id].w, e).value, s.copies[id].rv)])
  }

  /** Events that Proceed may bring; a pod's containers have different names. */
  ghost predicate Unaided(e: Event) {
    match e
    case Validated(_) => true
    case Entered(pod) => pod.Containers? ==> NoDup(pod.names)
    case Made(a) => a.Unready? || a.Refused?
    case Listed(list) => list.ListFailed?
    case Saved(_) => false
  }

  function View(tasks: map<string, TS.TaskSys>, seen: map<string, nat>): map<string, TP.Status> {
    map n | n in seen && n in tasks && seen[n] < |tasks[n].hist| :: tasks[n].hist[seen[n]]
  }

  function NextName(s: Sys, w: Worker): string
    requires w.pc.Creating? && w.pc.todo != []
  {
    NewEntry(s.name, w.spec.triggerRound, w.pc.todo[0], "", false).taskName
  }

  function WithTask(s: Sys, n: string, taskSpec: TP.TaskSpec): Sys {
    s.(tasks := s.tasks[n := TS.NewTask(taskSpec)])
  }

  function AfterCreate(s: Sys, id: nat, taskSpec: TP.TaskSpec, lost: bool): Sys
    requires id in s.copies && s.copies[id].w.pc.Creating? && s.copies[id].w.pc.todo != []
  {
    var n := NextName(s, s.copies[id].w);
    if n in s.tasks then Move(s, id, Made(Existed(taskSpec.commitImage)))
    else
      Move(WithTask(s, n, taskSpec), id, Made(if lost then Refused("reply lost") else Created(taskSpec.commitImage)))
  }

  function AfterSave(s: Sys, id: nat, ok: bool, bumps: bool): Sys
    requires Enabled(s, id, Saved(ok))
  {
    var v := Version(Latest(s).spec, s.copies[id].w.st);
    Move(s, id, Saved(ok)).(versions := if bumps || v != Latest(s) then s.versions + [v] else s.versions)
  }

  /** One action; an action that cannot happen changes nothing. */
  ghost function Step(s: Sys, a: Action): Sys {
    match a
    case OnTask(n, ta) =>
      if n in s.tasks then s.(tasks := s.tasks[n := TS.Step(s.tasks[n], ta)]) else s
    case Foreign(n, taskSpec) =>
      if n in s.tasks then s else WithTask(s, n, taskSpec)
    case EditSpec(spec) =>
      if spec.triggerRound < Latest(s).spec.triggerRound then s
      else s.(versions := s.versions + [Version(spec, Latest(s).status)])
    case PodDeleted(v, lands) =>
      var spec := Bumped(Latest(s).spec);
      if !lands || v + 1 != |s.versions| || spec.triggerRound < Latest(s).spec.triggerRound then s
      else s.(versions := s.versions + [Version(spec, Latest(s).status)])
    case ReadSp(id, v) =>
      if id in s.copies || v >= |s.versions| then s
      else s.(copies := s.copies[id := Copy(Start(s.versions[v].spec, s.versions[v].status), v)])
    case Proceed(id, e) =>
      if Enabled(s, id, e) && Unaided(e) then Move(s, id, e) else s
    case CreateTask(id, taskSpec, lost) =>
      if id in s.copies && s.copies[id].w.pc.Creating? && s.copies[id].w.pc.todo != []
      then AfterCreate(s, id, taskSpec, lost) else s
    case ListTasks(id, seen) =>
      var e := Listed(TaskList(View(s.tasks, seen)));
      if Enabled(s, id, e) then Move(s, id, e) else s
    case SaveSp(id, ok, lands, bumps) =>
      if !Enabled(s, id, Saved(ok)) then s
      else if lands && s.copies[id].rv + 1 == |s.versions| then AfterSave(s, id, ok, bumps)
      else if ok then s // no success is reported for an update that did not land
      else Move(s, id, Saved(ok))
  }

  ghost function Exec(name: string, spec: SpSpec, actions: seq<Action>): Sys {
    if actions == [] then Init(name, spec)
    else Step(Exec(name, spec, actions[..|actions| - 1]), actions[|actions| - 1])
  }

  lemma ExecSnoc(name: string, spec: SpSpec, actions: seq<Action>, a: Action)
    ensures Exec(name, spec, actions + [a]) == Step(Exec(name, spec, actions), a)
  {
    assert (actions + [a])[..|actions|] == actions;
  }

  // ---------- Entries and tasks ----------

  /** The entry's task exists and bears out what the entry says of it. */
  ghost predicate EntryBacked(tasks: map<string, TS.TaskSys>, e: Entry) {
    && e.taskName in tasks
    && (var t := tasks[e.taskName];
        && (e.result == SucceedResult ==> TS.Current(t).phase == TP.CompletedPhase)
        && (e.result == FailedResult ==> TS.Current(t).phase == TP.FailedPhase)
        && (e.made ==> t.spec.commitImage == e.image))
  }

  ghost predicate Backed(tasks: map<string, TS.TaskSys>, full: seq<Entry>) {
    forall i | 0 <= i < |full| :: EntryBacked(tasks, full[i])
  }

  ghost predicate TasksOk(tasks: map<string, TS.TaskSys>) {
    forall n | n in tasks :: TS.Inv(tasks[n])
  }

  ghost predicate TasksGrow(tasks: map<string, TS.TaskSys>, tasks': map<string, TS.TaskSys>) {
    forall n | n in tasks :: n in tasks' && TS.Grows(tasks[n], tasks'[n])
  }

  lemma TerminalStays(t: TS.TaskSys, t': TS.TaskSys, v: nat)
    requires TS.HistOk(t') && t.hist != [] && TS.Grows(t, t')
    requires v < |t.hist| && TP.Terminal(t.hist[v])
    ensures TS.Current(t') == t.hist[v] == TS.Current(t)
  {
    assert t'.hist[v] == t.hist[v];
  }

  lemma BackedStays(tasks: map<string, TS.TaskSys>, tasks': map<string, TS.TaskSys>, full: seq<Entry>)
    requires TasksOk(tasks) && TasksOk(tasks') && TasksGrow(tasks, tasks') && Backed(tasks, full)
    ensures Backed(tasks', full)
  {
    forall i | 0 <= i < |full| ensures EntryBacked(tasks', full[i]) {
      var n := full[i].taskName;
      assert EntryBacked(tasks, full[i]);
      assert TS.Inv(tasks[n]) && TS.Inv(tasks'[n]);
      if TP.Terminal(TS.Current(tasks[n])) {
        TerminalStays(tasks[n], tasks'[n], |tasks[n].hist| - 1);
      }
    }
  }

  /** Whatever stale list the fold reads, it only reports what the task really ended with. */
  lemma RefreshBacked(tasks: map<string, TS.TaskSys>, seen: map<string, nat>, e: Entry)
    requires TasksOk(tasks) && EntryBacked(tasks, e)
    ensures EntryBacked(tasks, Refresh(e, View(tasks, seen)))
  {
    var view := View(tasks, seen);
    if !Settled(e.result) && e.taskName in view {
      var t := tasks[e.taskName];
      assert TS.Inv(t);
      if TP.Terminal(view[e.taskName]) {
        TerminalStays(t, t, seen[e.taskName]);
      }
    }
  }

  lemma RefreshAllBacked(tasks: map<string, TS.TaskSys>, seen: map<string, nat>, st: SpStatus)
    requires TasksOk(tasks) && Backed(tasks, Full(st))
    ensures Backed(tasks, Full(st.(runs := RefreshAll(st.runs, View(tasks, seen)))))
  {
    var view := View(tasks, seen);
    var full, full' := Full(st), Full(st.(runs := RefreshAll(st.runs, view)));
    forall i | 0 <= i < |full'| ensures EntryBacked(tasks, full'[i]) {
      assert EntryBacked(tasks, full[i]);
      if i >= |st.past| {
        RefreshBacked(tasks, seen, full[i]);
        assert full'[i] == Refresh(full[i], view);
      }
    }
  }

  // ---------- The invariant ----------

  ghost predicate VersionOk(name: string, v: Version) {
    HistoryOk(name, Full(v.status), v.spec.triggerRound) && WindowOk(v.status)
  }

  ghost predicate Follows(a: Version, b: Version) {
    && a.spec.triggerRound <= b.spec.triggerRound
    && Extends(Full(a.status), Full(b.status), a.spec.triggerRound)
  }

  ghost predicate VersionsOk(s: Sys) {
    && |s.versions| > 0 && Full(s.versions[0].status) == []
    && (forall i | 0 <= i < |s.versions| ::
          VersionOk(s.name, s.versions[i]) && Backed(s.tasks, Full(s.versions[i].status)))
    && forall i | 0 <= i < |s.versions| - 1 :: Follows(s.versions[i], s.versions[i + 1])
  }

  ghost predicate CopyOk(s: Sys, c: Copy) {
    && c.rv < |s.versions|
    && c.w.spec == s.versions[c.rv].spec
    && WorkerOk(s.name, s.versions[c.rv].status, c.w)
    && Backed(s.tasks, Full(c.w.st))
  }

  ghost predicate Inv(s: Sys) {
    && TasksOk(s.tasks) && VersionsOk(s)
    && forall id | id in s.copies :: CopyOk(s, s.copies[id])
  }

  lemma InitInv(name: string, spec: SpSpec)
    ensures Inv(Init(name, spec))
  {
    EmptyWindow();
    assert Full(NEW_SP_STATUS) == [];
  }

  /** The tasks grew, and nothing else changed. */
  lemma TasksStep(s: Sys, s': Sys)
    requires Inv(s) && TasksOk(s'.tasks) && TasksGrow(s.tasks, s'.tasks)
    requires s' == s.(tasks := s'.tasks)
    ensures Inv(s')
  {
    forall i | 0 <= i < |s.versions| ensures Backed(s'.tasks, Full(s'.versions[i].status)) {
      assert Backed(s.tasks, Full(s.versions[i].status));
      BackedStays(s.tasks, s'.tasks, Full(s.versions[i].status));
    }
    forall id | id in s'.copies ensures CopyOk(s', s'.copies[id]) {
      assert CopyOk(s, s.copies[id]);
      BackedStays(s.tasks, s'.tasks, Full(s.copies[id].w.st));
    }
  }

  lemma NewTaskStep(s: Sys, n: string, taskSpec: TP.TaskSpec)
    requires Inv(s) && n !in s.tasks
    ensures Inv(WithTask(s, n, taskSpec))
  {
    TS.ExecInv(taskSpec, []);
    TasksStep(s, WithTask(s, n, taskSpec));
  }

  /** A new version whose status follows the latest. */
  lemma VersionStep(s: Sys, v: Version)
    requires Inv(s) && VersionOk(s.name, v) && Follows(Latest(s), v) && Backed(s.tasks, Full(v.status))
    ensures Inv(s.(versions := s.versions + [v]))
  {
    hide HistoryOk, WorkerOk, WindowOk, Extends, TS.Inv;
    var s' := s.(versions := s.versions + [v]);
    forall id | id in s'.copies ensures CopyOk(s', s'.copies[id]) {
      assert CopyOk(s, s.copies[id]);
    }
  }

  lemma HigherBound(name: string, full: seq<Entry>, low: int32, high: int32)
    requires HistoryOk(name, full, low) && low <= high
    ensures HistoryOk(name, full, high)
  {
  }

  lemma SpecStep(s: Sys, spec: SpSpec)
    requires Inv(s) && Latest(s).spec.triggerRound <= spec.triggerRound
    ensures Inv(s.(versions := s.versions + [Version(spec, Latest(s).status)]))
  {
    assert VersionOk(s.name, Latest(s)) && Backed(s.tasks, Full(Latest(s).status));
    HigherBound(s.name, Full(Latest(s).status), Latest(s).spec.triggerRound, spec.triggerRound);
    VersionStep(s, Version(spec, Latest(s).status));
  }

  /** One copy changed, or one more. */
  lemma CopyStep(s: Sys, id: nat, c: Copy)
    requires Inv(s) && CopyOk(s, c)
    ensures Inv(s.(copies := s.copies[id := c]))
  {
    var s' := s.(copies := s.copies[id := c]);
    forall i | i in s'.copies ensures CopyOk(s', s'.copies[i]) {
      if i != id { assert CopyOk(s, s.copies[i]); }
      assert CopyOk(s, s'.copies[i]);
    }
  }

  lemma MovedCopy(s: Sys, c: Copy, e: Event)
    requires CopyOk(s, c) && Next(s.name, c.w, e).Some?
    requires e.Entered? && e.pod.Containers? ==> NoDup(e.pod.names)
    requires Backed(s.tasks, Full(Next(s.name, c.w, e).value.st))
    ensures CopyOk(s, Copy(Next(s.name, c.w, e).value, c.rv))
  {
    NextKeepsWorker(s.name, s.versions[c.rv].status, c.w, e);
  }

  lemma MoveStep(s: Sys, id: nat, e: Event)
    requires Inv(s) && Enabled(s, id, e)
    requires e.Entered? && e.pod.Containers? ==> NoDup(e.pod.names)
    requires Backed(s.tasks, Full(Next(s.name, s.copies[id].w, e).value.st))
    ensures Inv(Move(s, id, e))
  {
    assert CopyOk(s, s.copies[id]);
    MovedCopy(s, s.copies[id], e);
    CopyStep(s, id, Copy(Next(s.name, s.copies[id].w, e).value, s.copies[id].rv));
  }

  /** Events that append nothing and refresh nothing leave the history as it is. */
  lemma PlainEvent(s: Sys, id: nat, e: Event)
    requires Enabled(s, id, e)
    requires e.Made? ==> e.answer.Unready? || e.answer.Refused?
    requires e.Listed? ==> e.list.ListFailed?
    ensures Full(Next(s.name, s.copies[id].w, e).value.st) == Full(s.copies[id].w.st)
  {
  }

  lemma PlainStep(s: Sys, id: nat, e: Event)
    requires Inv(s) && Enabled(s, id, e)
    requires e.Entered? && e.pod.Containers? ==> NoDup(e.pod.names)
    requires e.Made? ==> e.answer.Unready? || e.answer.Refused?
    requires e.Listed? ==> e.list.ListFailed?
    ensures Inv(Move(s, id, e))
  {
    assert CopyOk(s, s.copies[id]);
    PlainEvent(s, id, e);
    MoveStep(s, id, e);
  }

  lemma AppendedBacked(tasks: map<string, TS.TaskSys>, name: string, w: Worker, a: CreateAnswer)
    requires w.pc.Creating? && w.pc.todo != [] && (a.Created? || a.Existed?) && Backed(tasks, Full(w.st))
    requires var n := NewEntry(name, w.spec.triggerRound, w.pc.todo[0], a.image, a.Created?).taskName;
             n in tasks && (a.Created? ==> tasks[n].spec.commitImage == a.image)
    ensures Next(name, w, Made(a)).Some? && Backed(tasks, Full(Next(name, w, Made(a)).value.st))
  {
    var e := NewEntry(name, w.spec.triggerRound, w.pc.todo[0], a.image, a.Created?);
    AppendSlides(w.st, e);
    assert Full(Next(name, w, Made(a)).value.st) == Full(w.st) + [e];
    assert EntryBacked(tasks, e);
  }

  lemma AppendedStep(s: Sys, id: nat, a: CreateAnswer)
    requires Inv(s) && id in s.copies && s.copies[id].w.pc.Creating? && s.copies[id].w.pc.todo != []
    requires a.Created? || a.Existed?
    requires var n := NextName(s, s.copies[id].w);
             n in s.tasks && (a.Created? ==> s.tasks[n].spec.commitImage == a.image)
    requires Enabled(s, id, Made(a))
    ensures Inv(Move(s, id, Made(a)))
  {
    assert CopyOk(s, s.copies[id]);
    AppendedBacked(s.tasks, s.name, s.copies[id].w, a);
    MoveStep(s, id, Made(a));
  }

  lemma FreshTaskStep(s: Sys, id: nat, image: string, lost: bool)
    requires Inv(s) && id in s.copies && s.copies[id].w.pc.Creating? && s.copies[id].w.pc.todo != []
    requires var n := NextName(s, s.copies[id].w); n in s.tasks && s.tasks[n].spec.commitImage == image
    requires Enabled(s, id, Made(if lost then Refused("reply lost") else Created(image)))
    ensures Inv(Move(s, id, Made(if lost then Refused("reply lost") else Created(image))))
  {
    if lost {
      PlainStep(s, id, Made(Refused("reply lost")));
    } else {
      AppendedStep(s, id, Created(image));
    }
  }

  lemma CreateStep(s: Sys, id: nat, taskSpec: TP.TaskSpec, lost: bool)
    requires Inv(s) && id in s.copies && s.copies[id].w.pc.Creating? && s.copies[id].w.pc.todo != []
    ensures Inv(AfterCreate(s, id, taskSpec, lost))
  {
    hide HistoryOk, WorkerOk, WindowOk, Extends, TS.Inv;
    if NextName(s, s.copies[id].w) in s.tasks {
      AppendedStep(s, id, Existed(taskSpec.commitImage));
    } else {
      var s' := WithTask(s, NextName(s, s.copies[id].w), taskSpec);
      NewTaskStep(s, NextName(s, s.copies[id].w), taskSpec);
      FreshTaskStep(s', id, taskSpec.commitImage, lost);
    }
  }

  lemma ListStep(s: Sys, id: nat, seen: map<string, nat>)
    requires Inv(s) && Enabled(s, id, Listed(TaskList(View(s.tasks, seen))))
    ensures Inv(Move(s, id, Listed(TaskList(View(s.tasks, seen)))))
  {
    hide HistoryOk, WorkerOk, WindowOk, Extends, TS.Inv;
    assert CopyOk(s, s.copies[id]);
    RefreshAllBacked(s.tasks, seen, s.copies[id].w.st);
    var e := Listed(TaskList(View(s.tasks, seen)));
    assert Full(Next(s.name, s.copies[id].w, e).value.st)
        == Full(s.copies[id].w.st.(runs := RefreshAll(s.copies[id].w.st.runs, View(s.tasks, seen))));
    MoveStep(s, id, e);
  }

  lemma SaveStep(s: Sys, id: nat, ok: bool, bumps: bool)
    requires Inv(s) && Enabled(s, id, Saved(ok)) && s.copies[id].rv + 1 == |s.versions|
    ensures Inv(AfterSave(s, id, ok, bumps))
  {
    var c := s.copies[id];
    assert CopyOk(s, c);
    PlainStep(s, id, Saved(ok));
    var s' := Move(s, id, Saved(ok));
    assert Latest(s') == Latest(s) == s.versions[c.rv];
    VersionStep(s', Version(Latest(s).spec, c.w.st));
  }

  lemma ReadStep(s: Sys, id: nat, v: nat)
    requires Inv(s) && v < |s.versions|
    ensures Inv(s.(copies := s.copies[id := Copy(Start(s.versions[v].spec, s.versions[v].status), v)]))
  {
    assert VersionOk(s.name, s.versions[v]) && Backed(s.tasks, Full(s.versions[v].status));
    StartOk(s.name, s.versions[v].spec, s.versions[v].status);
    CopyStep(s, id, Copy(Start(s.versions[v].spec, s.versions[v].status), v));
  }

  lemma TaskActionStep(s: Sys, n: string, a: TS.Action)
    requires Inv(s) && n in s.tasks
    ensures Inv(s.(tasks := s.tasks[n := TS.Step(s.tasks[n], a)]))
  {
    hide TS.Inv, TS.Step;
    TS.StepGrows(s.tasks[n], a);
    TS.StepKeepsInv(s.tasks[n], a);
    TasksStep(s, s.(tasks := s.tasks[n := TS.Step(s.tasks[n], a)]));
  }

  lemma SaveActionStep(s: Sys, id: nat, ok: bool, lands: bool, bumps: bool)
    requires Inv(s)
    ensures Inv(Step(s, SaveSp(id, ok, lands, bumps)))
  {
    hide HistoryOk, WorkerOk, WindowOk, Extends, TS.Inv;
    if Enabled(s, id, Saved(ok)) {
      if lands && s.copies[id].rv + 1 == |s.versions| {
        SaveStep(s, id, ok, bumps);
      } else if !ok {
        PlainStep(s, id, Saved(ok));
      }
    }
  }

  /** The steps of a reconcile of the SnapshotPod. */
  lemma ReconcileStep(s: Sys, a: Action)
    requires Inv(s) && (a.ReadSp? || a.Proceed? || a.CreateTask? || a.ListTasks?)
    ensures Inv(Step(s, a))
  {
    hide HistoryOk, WorkerOk, WindowOk, Extends, TS.Inv;
    match a
    case ReadSp(id, v) => if v < |s.versions| { ReadStep(s, id, v); }
    case Proceed(id, e) => if Enabled(s, id, e) && Unaided(e) { PlainStep(s, id, e); }
    case CreateTask(id, taskSpec, lost) =>
      if id in s.copies && s.copies[id].w.pc.Creating? && s.copies[id].w.pc.todo != [] {
        CreateStep(s, id, taskSpec, lost);
      }
    case ListTasks(id, seen) =>
      if Enabled(s, id, Listed(TaskList(View(s.tasks, seen)))) { ListStep(s, id, seen); }
  }

  lemma StepKeepsInv(s: Sys, a: Action)
    requires Inv(s)
    ensures Inv(Step(s, a))
  {
    match a
    case OnTask(n, ta) => if n in s.tasks { TaskActionStep(s, n, ta); }
    case Foreign(n, taskSpec) => if n !in s.tasks { NewTaskStep(s, n, taskSpec); }
    case EditSpec(spec) => if spec.triggerRound >= Latest(s).spec.triggerRound { SpecStep(s, spec); }
    case PodDeleted(v, lands) =>
      var spec := Bumped(Latest(s).spec);
      if spec.triggerRound >= Latest(s).spec.triggerRound { SpecStep(s, spec); }
    case SaveSp(id, ok, lands, bumps) => SaveActionStep(s, id, ok, lands, bumps);
    case _ => ReconcileStep(s, a);
  }

  lemma StepKeepsName(s: Sys, a: Action)
    ensures Step(s, a).name == s.name
  {
  }

  lemma {:induction false} ExecName(name: string, spec: SpSpec, actions: seq<Action>)
    ensures Exec(name, spec, actions).name == name
  {
    if actions != [] {
      ExecName(name, spec, actions[..|actions| - 1]);
      StepKeepsName(Exec(name, spec, actions[..|actions| - 1]), actions[|actions| - 1]);
    }
  }

  lemma {:induction false} ExecInv(name: string, spec: SpSpec, actions: seq<Action>)
    ensures Inv(Exec(name, spec, actions))
  {
    if actions == [] {
      InitInv(name, spec);
    } else {
      var s, a := Exec(name, spec, actions[..|actions| - 1]), actions[|actions| - 1];
      ExecInv(name, spec, actions[..|actions| - 1]);
      StepKeepsInv(s, a);
      assert Exec(name, spec, actions) == Step(s, a);
    }
  }
}
