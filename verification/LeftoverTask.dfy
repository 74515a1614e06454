/** One full run of the operator, showing that the condition of RecoverySafety is needed: a
    reconcile creates a task and dies before it can record it; the next one finds the task
    there, records the entry under an image name of its own, and when the task completes the
    webhook injects an image that nobody ever committed or pushed. */
module LeftoverTask {
  import opened Api
  import opened Naming
  import opened Rounds
  import opened Recovery
  import opened Operator
  import TP = TaskPipeline
  import TS = TaskStore

  const GOOD := TP.Answers(true, true, true, true, None)

  const READ := TS.Read(0, 0, "node")
  const RUN := TS.Work(0, TP.Ran(GOOD), true, true)
  const SAVE := TS.Work(0, TP.StepSaved(true), true, true)
  const DECIDE := TS.Work(0, TP.Decided({}), true, true)
  const SAVE_PHASE := TS.Work(0, TP.PhaseSaved(true), true, true)

  /** A reconcile of a task that does its first `n` steps and meets with success in each. */
  function SmoothTo(n: nat): seq<TS.Action> {
    if n == 0 then [READ] else SmoothTo(n - 1) + [RUN] + [SAVE]
  }

  /** A reconcile of a task that meets with success everywhere. */
  const SMOOTH: seq<TS.Action> := SmoothTo(3) + [DECIDE] + [SAVE_PHASE]

  function DoneConds(n: nat): seq<Cond>
    requires n <= 3
  {
    if n == 0 then [] else DoneConds(n - 1) + [Cond(TP.StepAt(n - 1), IsTrue, "")]
  }

  function DoneStatus(n: nat): TP.Status
    requires n <= 3
  {
    TP.Status(DoneConds(n), TP.NoPhase, 0)
  }

  function DoneHist(n: nat): seq<TP.Status>
    requires n <= 3
  {
    if n == 0 then [TP.NEW_STATUS] else DoneHist(n - 1) + [DoneStatus(n)]
  }

  function DoneLog(image: string, n: nat): seq<TP.Effect>
    requires n <= 3
  {
    if n < 2 then []
    else if n == 2 then [TP.CommitCall(image, true)]
    else [TP.CommitCall(image, true), TP.PushCall(image, true)]
  }

  /** The task when `n` steps are done and saved. */
  function AfterSteps(spec: TP.TaskSpec, n: nat): TS.TaskSys
    requires n <= 3
  {
    TS.TaskSys(spec, DoneHist(n),
               map[0 := TS.Copy(TP.Worker(if n < 3 then TP.AtStep(n) else TP.Deciding(false), DoneStatus(n)), n)],
               DoneLog(spec.commitImage, n), 0)
  }

  lemma {:induction false} DoneLength(n: nat)
    requires n <= 3
    ensures |DoneHist(n)| == n + 1 && DoneHist(n)[n] == DoneStatus(n) && |DoneConds(n)| == n
    ensures forall i | 0 <= i < n :: DoneConds(n)[i] == Cond(TP.StepAt(i), IsTrue, "")
  {
    if n > 0 { DoneLength(n - 1); }
  }

  lemma RunsSmoothly(spec: TP.TaskSpec, n: nat)
    requires n < 3
    ensures var w := TP.Worker(TP.AtStep(n), DoneStatus(n));
            && TP.Next(spec, w, TP.Ran(GOOD)) == Some(TP.Worker(TP.SavingStep(n, false), DoneStatus(n + 1)))
            && DoneLog(spec.commitImage, n) + TP.Effects(spec, w, TP.Ran(GOOD)) == DoneLog(spec.commitImage, n + 1)
  {
    hide DoneHist, FindCond;
    DoneLength(n);
    StepsDiffer(n);
    FindCondIs(DoneConds(n), TP.StepAt(n), n);
    assert PutCond(DoneConds(n), Cond(TP.StepAt(n), IsTrue, "")) == DoneConds(n + 1);
    GoodIsFine(n);
  }

  lemma StepsDiffer(n: nat)
    requires n < 3
    ensures forall i | 0 <= i < n :: TP.StepAt(i) != TP.StepAt(n)
  {
  }

  lemma GoodIsFine(n: nat)
    requires n < 3
    ensures TP.Body(n, GOOD) == TP.Fine
  {
  }

  lemma SavesSmoothly(t: TS.TaskSys, spec: TP.TaskSpec, n: nat)
    requires n < 3
    requires t == AfterSteps(spec, n).(log := DoneLog(spec.commitImage, n + 1),
                    copies := map[0 := TS.Copy(TP.Worker(TP.SavingStep(n, false), DoneStatus(n + 1)), n)])
    ensures TS.Step(t, TS.Work(0, TP.StepSaved(true), true, true)) == AfterSteps(spec, n + 1)
  {
    hide DoneConds, DoneLog;
    DoneLength(n);
    var w, e := TP.Worker(TP.SavingStep(n, false), DoneStatus(n + 1)), TP.StepSaved(true);
    assert TP.Next(spec, w, e) == Some(w.(pc := TP.AfterStep(n))) && TP.Effects(spec, w, e) == [];
    assert TS.Step(t, TS.Work(0, e, true, true)) == TS.Landing(t, 0, e, true);
    assert TS.Written(t, w.st, true) == DoneHist(n + 1);
    assert t.log + [] == t.log;
    assert t.copies[0 := TS.Copy(w.(pc := TP.AfterStep(n)), n + 1)] == AfterSteps(spec, n + 1).copies;
  }

  lemma NextStep(spec: TP.TaskSpec, n: nat)
    requires n < 3
    ensures var t := TS.Step(AfterSteps(spec, n), TS.Work(0, TP.Ran(GOOD), true, true));
            TS.Step(t, TS.Work(0, TP.StepSaved(true), true, true)) == AfterSteps(spec, n + 1)
  {
    hide TP.Effects;
    RunsSmoothly(spec, n);
    var t := TS.Step(AfterSteps(spec, n), TS.Work(0, TP.Ran(GOOD), true, true));
    assert t == TS.Locally(AfterSteps(spec, n), 0, TP.Ran(GOOD));
    assert t.copies == map[0 := TS.Copy(TP.Worker(TP.SavingStep(n, false), DoneStatus(n + 1)), n)];
    SavesSmoothly(t, spec, n);
  }

  lemma SmoothRead(spec: TP.TaskSpec)
    requires spec.nodeName == "node"
    ensures TS.Step(TS.NewTask(spec), READ) == AfterSteps(spec, 0)
  {
  }

  lemma {:induction false} SmoothSteps(spec: TP.TaskSpec, n: nat)
    requires n <= 3 && spec.nodeName == "node"
    ensures TS.Exec(spec, SmoothTo(n)) == AfterSteps(spec, n)
  {
    hide TS.Step, TS.NewTask, AfterSteps;
    if n == 0 {
      assert SmoothTo(0) == [] + [READ];
      TS.ExecSnoc(spec, [], READ);
      SmoothRead(spec);
    } else {
      SmoothSteps(spec, n - 1);
      TS.ExecSnoc(spec, SmoothTo(n - 1), RUN);
      TS.ExecSnoc(spec, SmoothTo(n - 1) + [RUN], SAVE);
      NextStep(spec, n - 1);
    }
  }

  lemma SmoothDecision(spec: TP.TaskSpec)
    ensures var t := TS.Step(AfterSteps(spec, 3), DECIDE);
            && t.spec == spec && t.hist == DoneHist(3)
            && t.copies == map[0 := TS.Copy(TP.Worker(TP.SavingPhase, DoneStatus(3).(phase := TP.CompletedPhase)), 3)]
  {
    hide TP.Effects, DoneHist, DoneLog, DoneConds;
    DoneLength(3);
    assert AllTrue(DoneConds(3));
  }

  lemma SmoothEnd(t: TS.TaskSys)
    requires t.hist == DoneHist(3)
    requires t.copies == map[0 := TS.Copy(TP.Worker(TP.SavingPhase, DoneStatus(3).(phase := TP.CompletedPhase)), 3)]
    ensures var t' := TS.Step(t, SAVE_PHASE);
            t'.spec == t.spec && |t'.hist| == 5 && t'.hist[4].phase == TP.CompletedPhase
  {
    hide DoneConds, DoneHist;
    DoneLength(3);
    assert TS.Step(t, SAVE_PHASE).hist == DoneHist(3) + [DoneStatus(3).(phase := TP.CompletedPhase)];
  }

  /** After the smooth run the fifth version is COMPLETED. */
  lemma SmoothCompletes(spec: TP.TaskSpec)
    requires spec.nodeName == "node"
    ensures var t := TS.Exec(spec, SMOOTH);
            t.spec == spec && |t.hist| == 5 && t.hist[4].phase == TP.CompletedPhase
  {
    hide TS.Step, AfterSteps, DoneHist, DoneStatus, SmoothTo;
    SmoothSteps(spec, 3);
    TS.ExecSnoc(spec, SmoothTo(3), DECIDE);
    TS.ExecSnoc(spec, SmoothTo(3) + [DECIDE], SAVE_PHASE);
    SmoothDecision(spec);
    SmoothEnd(TS.Step(AfterSteps(spec, 3), DECIDE));
  }

  function OnTasks(n: string, actions: seq<TS.Action>): seq<Action> {
    seq(|actions|, i requires 0 <= i < |actions| => OnTask(n, actions[i]))
  }

  lemma OnTasksSnoc(before: seq<Action>, n: string, actions: seq<TS.Action>, a: TS.Action)
    ensures before + OnTasks(n, actions + [a]) == before + OnTasks(n, actions) + [OnTask(n, a)]
  {
    assert OnTasks(n, actions + [a]) == OnTasks(n, actions) + [OnTask(n, a)];
  }

  lemma TaskStep(s: Sys, n: string, a: TS.Action)
    requires n in s.tasks
    ensures Step(s, OnTask(n, a)) == s.(tasks := s.tasks[n := TS.Step(s.tasks[n], a)])
  {
    hide TS.Step;
  }

  /** The task controller may work on a new task undisturbed. */
  lemma {:induction false} RunTask(name: string, spec: SpSpec, before: seq<Action>, n: string,
                                   taskSpec: TP.TaskSpec, actions: seq<TS.Action>)
    requires var s := Exec(name, spec, before); n in s.tasks && s.tasks[n] == TS.NewTask(taskSpec)
    ensures Exec(name, spec, before + OnTasks(n, actions))
         == var s := Exec(name, spec, before); s.(tasks := s.tasks[n := TS.Exec(taskSpec, actions)])
  {
    hide TS.Step, Step, Exec, TS.NewTask, OnTasks;
    var s := Exec(name, spec, before);
    if actions == [] {
      NoTasks(before, n);
      assert s.tasks[n := TS.NewTask(taskSpec)] == s.tasks;
    } else {
      var init, a := actions[..|actions| - 1], actions[|actions| - 1];
      assert actions == init + [a];
      RunTask(name, spec, before, n, taskSpec, init);
      OnTasksSnoc(before, n, init, a);
      ExecSnoc(name, spec, before + OnTasks(n, init), OnTask(n, a));
      TaskStep(Exec(name, spec, before + OnTasks(n, init)), n, a);
    }
  }

  lemma NoTasks(before: seq<Action>, n: string)
    ensures before + OnTasks(n, []) == before
  {
  }

  const SPEC := SpSpec(1, 0, "")

  function Task(image: string): TP.TaskSpec {
    TP.TaskSpec("node", "docker://id", image, 3)
  }

  /** A reconcile up to and including the Create of container "c". */
  function UpToCreate(id: nat, image: string): seq<Action> {
    [ReadSp(id, 0), Proceed(id, Validated(None)), Proceed(id, Entered(Containers(["c"]))), CreateTask(id, Task(image), false)]
  }

  lemma TwoSteps(name: string, spec: SpSpec, before: seq<Action>, a: Action, b: Action)
    ensures Exec(name, spec, before + [a, b]) == Step(Step(Exec(name, spec, before), a), b)
  {
    hide Exec, Step;
    ExecSnoc(name, spec, before, a);
    ExecSnoc(name, spec, before + [a], b);
    assert before + [a] + [b] == before + [a, b];
  }

  lemma FourSteps(name: string, spec: SpSpec, before: seq<Action>, a: Action, b: Action, c: Action, d: Action)
    ensures Exec(name, spec, before + [a, b, c, d])
         == Step(Step(Step(Step(Exec(name, spec, before), a), b), c), d)
  {
    hide Exec, Step;
    TwoSteps(name, spec, before, a, b);
    TwoSteps(name, spec, before + [a, b], c, d);
    assert before + [a, b] + [c, d] == before + [a, b, c, d];
  }

  function TheEntry(image: string, made: bool): Entry {
    Entry(1, TaskName("sp", 1, "c"), image, "c", CreatedResult, "", made)
  }

  const CONDS2 := [Cond(Accept, IsTrue, ""), Cond(Tasks, IsTrue, "")]

  /** The worker after its Create. */
  function Created1(image: string, made: bool): Worker {
    Worker(Listing, SPEC, SpStatus([TheEntry(image, made)], [], CONDS2, 0))
  }

  function With(s: Sys, id: nat, w: Worker): Sys {
    s.(copies := s.copies[id := Copy(w, 0)])
  }

  lemma ProceedRun(s: Sys, id: nat, w: Worker, e: Event, w': Worker)
    requires Next(s.name, w, e) == Some(w') && Unaided(e)
    ensures Step(With(s, id, w), Proceed(id, e)) == With(s, id, w')
  {
    assert With(With(s, id, w), id, w') == With(s, id, w');
  }

  const ENTERING := Worker(Entering, SPEC, NEW_SP_STATUS.(conds := [Cond(Accept, IsTrue, "")]))

  lemma ReadRun(s: Sys, id: nat)
    requires s.name == "sp" && s.versions == [Version(SPEC, NEW_SP_STATUS)] && id !in s.copies
    ensures Step(Step(Step(s, ReadSp(id, 0)), Proceed(id, Validated(None))), Proceed(id, Entered(Containers(["c"]))))
         == With(s, id, ENTERING.(pc := Creating(["c"])))
  {
    var w := Worker(Validating, SPEC, NEW_SP_STATUS);
    assert Step(s, ReadSp(id, 0)) == With(s, id, w);
    assert Approve([], Accept) == [Cond(Accept, IsTrue, "")];
    ProceedRun(s, id, w, Validated(None), ENTERING);
    ProceedRun(s, id, ENTERING, Entered(Containers(["c"])), ENTERING.(pc := Creating(["c"])));
  }

  lemma CreateRun(s: Sys, id: nat, image: string)
    requires s.name == "sp" && s.versions == [Version(SPEC, NEW_SP_STATUS)] && id !in s.copies
    ensures var n := TaskName("sp", 1, "c");
            var s1 := Step(s, ReadSp(id, 0));
            var s2 := Step(s1, Proceed(id, Validated(None)));
            var s3 := Step(s2, Proceed(id, Entered(Containers(["c"]))));
            Step(s3, CreateTask(id, Task(image), false))
            == s.(tasks := if n in s.tasks then s.tasks else s.tasks[n := TS.NewTask(Task(image))],
                  copies := s.copies[id := Copy(Created1(image, n !in s.tasks), 0)])
  {
    hide Next, Created1;
    var w := ENTERING.(pc := Creating(["c"]));
    ReadRun(s, id);
    CreateLast(w, image);
    var s3 := With(s, id, w);
    var n := NextName(s3, w);
    assert n == TaskName("sp", 1, "c");
    if n in s.tasks {
      assert Step(s3, CreateTask(id, Task(image), false)) == With(s3, id, Created1(image, false));
    } else {
      var s4 := WithTask(s3, n, Task(image));
      assert Step(s3, CreateTask(id, Task(image), false)) == With(s4, id, Created1(image, true));
    }
  }

  lemma CreateLast(w: Worker, image: string)
    requires w == Worker(Creating(["c"]), SPEC, NEW_SP_STATUS.(conds := [Cond(Accept, IsTrue, "")]))
    ensures Next("sp", w, Made(Rounds.Created(image))) == Some(Created1(image, true))
    ensures Next("sp", w, Made(Existed(image))) == Some(Created1(image, false))
  {
    var c1 := [Cond(Accept, IsTrue, "")];
    FindCondIs(c1, Tasks, 1);
    forall made ensures AppendRun(w.st, NewEntry("sp", 1, "c", image, made))
                     == SpStatus([TheEntry(image, made)], [], c1, 0)
    {
      assert NewEntry("sp", 1, "c", image, made) == TheEntry(image, made);
      assert w.st.runs + [TheEntry(image, made)] == [TheEntry(image, made)];
    }
    assert Approve(w.st.conds, Tasks) == CONDS2;
  }

  /** The whole run, for two different renderings of the image name. */
  function BadRun(x1: string, x2: string): seq<Action> {
    var n := TaskName("sp", 1, "c");
    UpToCreate(0, x1) + OnTasks(n, SMOOTH) + UpToCreate(1, x2)
    + [ListTasks(1, map[n := 4]), SaveSp(1, true, true, true)]
  }

  lemma SeesCompleted(s: Sys, image: string)
    requires 1 in s.copies && s.copies[1] == Copy(Created1(image, false), 0)
    requires var n := TaskName("sp", 1, "c");
             n in s.tasks && |s.tasks[n].hist| == 5 && s.tasks[n].hist[4].phase == TP.CompletedPhase
    ensures var s' := Step(s, ListTasks(1, map[TaskName("sp", 1, "c") := 4]));
            && 1 in s'.copies && s'.copies[1].rv == 0 && s'.copies[1].w.pc == Saving
            && s'.copies[1].w.st.runs == [TheEntry(image, false).(result := SucceedResult)]
            && s' == s.(copies := s'.copies)
  {
    var n := TaskName("sp", 1, "c");
    var view := View(s.tasks, map[n := 4]);
    var e := TheEntry(image, false);
    assert n in view && view[n].phase == TP.CompletedPhase;
    assert RefreshAll([e], view) == [e.(result := SucceedResult)];
  }

  lemma LastTwo(s: Sys, image: string)
    requires s.name == "sp" && s.versions == [Version(SPEC, NEW_SP_STATUS)]
    requires 1 in s.copies && s.copies[1] == Copy(Created1(image, false), 0)
    requires var n := TaskName("sp", 1, "c");
             n in s.tasks && |s.tasks[n].hist| == 5 && s.tasks[n].hist[4].phase == TP.CompletedPhase
    ensures var s' := Step(Step(s, ListTasks(1, map[TaskName("sp", 1, "c") := 4])), SaveSp(1, true, true, true));
            && s'.tasks == s.tasks && |s'.versions| == 2
            && s'.versions[1].status.runs == [TheEntry(image, false).(result := SucceedResult)]
  {
    hide RefreshAll, Created1, TheEntry, View;
    SeesCompleted(s, image);
  }

  function Ready(task: TS.TaskSys, image: string): Sys {
    Sys("sp", map[TaskName("sp", 1, "c") := task], [Version(SPEC, NEW_SP_STATUS)], map[0 := Copy(Created1(image, true), 0)])
  }

  lemma FirstPart(x1: string)
    ensures Exec("sp", SPEC, UpToCreate(0, x1)) == Ready(TS.NewTask(Task(x1)), x1)
  {
    var a := UpToCreate(0, x1);
    FourSteps("sp", SPEC, [], a[0], a[1], a[2], a[3]);
    assert [] + [a[0], a[1], a[2], a[3]] == a;
    CreateRun(Init("sp", SPEC), 0, x1);
  }

  lemma SecondPart(x1: string)
    ensures Exec("sp", SPEC, UpToCreate(0, x1) + OnTasks(TaskName("sp", 1, "c"), SMOOTH))
         == Ready(TS.Exec(Task(x1), SMOOTH), x1)
  {
    hide TS.Exec;
    FirstPart(x1);
    RunTask("sp", SPEC, UpToCreate(0, x1), TaskName("sp", 1, "c"), Task(x1), SMOOTH);
  }

  lemma ThirdPart(x1: string, x2: string)
    ensures Exec("sp", SPEC, UpToCreate(0, x1) + OnTasks(TaskName("sp", 1, "c"), SMOOTH) + UpToCreate(1, x2))
         == Ready(TS.Exec(Task(x1), SMOOTH), x1).(copies := map[0 := Copy(Created1(x1, true), 0), 1 := Copy(Created1(x2, false), 0)])
  {
    hide TS.Exec, Exec, Created1;
    SecondPart(x1);
    var before := UpToCreate(0, x1) + OnTasks(TaskName("sp", 1, "c"), SMOOTH);
    var a := UpToCreate(1, x2);
    FourSteps("sp", SPEC, before, a[0], a[1], a[2], a[3]);
    assert [a[0], a[1], a[2], a[3]] == a;
    CreateRun(Ready(TS.Exec(Task(x1), SMOOTH), x1), 1, x2);
  }

  lemma LastPart(x1: string, x2: string)
    ensures var s := Exec("sp", SPEC, BadRun(x1, x2)); var n := TaskName("sp", 1, "c");
            && s.tasks == map[n := TS.Exec(Task(x1), SMOOTH)] && |s.versions| == 2
            && s.versions[1].status.runs == [TheEntry(x2, false).(result := SucceedResult)]
  {
    hide TS.Exec, Exec, Created1, Step;
    var n := TaskName("sp", 1, "c");
    var before := UpToCreate(0, x1) + OnTasks(n, SMOOTH) + UpToCreate(1, x2);
    var l, v := ListTasks(1, map[n := 4]), SaveSp(1, true, true, true);
    ThirdPart(x1, x2);
    SmoothCompletes(Task(x1));
    ExecSnoc("sp", SPEC, before, l);
    ExecSnoc("sp", SPEC, before + [l], v);
    assert BadRun(x1, x2) == before + [l] + [v];
    LastTwo(Exec("sp", SPEC, before), x2);
  }

  /** The webhook hands out the second rendering, although the only task there is committed
      and pushed the first. */
  lemma InjectedButNeverPushed(x1: string, x2: string)
    requires x1 != x2
    ensures var s := Exec("sp", SPEC, BadRun(x1, x2)); var n := TaskName("sp", 1, "c");
            && |s.versions| == 2
            && FirstSuccesses(s.versions[1].status.runs) == map["c" := x2]
            && s.tasks.Keys == {n}
            && !TS.Committed(s.tasks[n].log, x2)
  {
    hide TS.Exec, Exec;
    LastPart(x1, x2);
    assert [TheEntry(x2, false).(result := SucceedResult)][..0] == [];
    TS.ExecInv(Task(x1), SMOOTH);
    NotItsImage(TS.Exec(Task(x1), SMOOTH), x2);
  }

  lemma NotItsImage(t: TS.TaskSys, image: string)
    requires TS.LogOk(t) && t.spec.commitImage != image
    ensures !TS.Committed(t.log, image)
  {
  }
}
