/** From a pod's new image back to the runtime: the webhook's choice, its patch and the history
    of both controllers together. */
module EndToEnd {
  import opened Api
  import opened Rounds
  import opened Recovery
  import opened Operator
  import opened OperatorTheorems
  import P = PatchMeaning
  import W = Webhook
  import TP = TaskPipeline
  import TS = TaskStore
  import TT = TaskTheorems

  /** Whenever the webhook patches a new pod from a version that asks for the last success,
      each container it names starts on an image that its newest successful entry vouches for,
      and every other container is left as it was; whatever the sort and the walk over the map
      do, and whatever reconciles are in flight. */
  lemma PatchedPodIsVouchedFor(name: string, spec: SpSpec, actions: seq<Action>, v: nat, item: W.Item,
                               sorted: seq<Entry>, order: seq<string>, pod: W.Pod, i: nat)
    requires v < |Exec(name, spec, actions).versions| && Shows(item, Exec(name, spec, actions).versions[v])
    requires item.spec.recoveryRound == 0 && IsSortOf(sorted, item.runs)
    requires NoDup(order) && forall c :: c in order <==> c in W.Chosen(item, sorted)
    requires W.ApplyAll(pod, W.OpsInOrder(pod, W.Chosen(item, sorted), order)).Some?
    requires i < |pod.containers|
    ensures var s := Exec(name, spec, actions);
            var p := W.ApplyAll(pod, W.OpsInOrder(pod, W.Chosen(item, sorted), order)).value;
            var c := pod.containers[i];
            && |p.containers| == |pod.containers| && p.containers[i].name == c.name
            && if c.name in W.Chosen(item, sorted) then
                 p.containers[i].image.Some? &&
                 exists e :: Vouched(s, s.versions[v].status, c.name, p.containers[i].image.value, e)
               else p.containers[i] == c && !Succeeded(item.runs, c.name)
  {
    hide Exec, Vouched, W.OpsInOrder, W.ApplyAll, FirstSuccesses;
    P.AdmissionMeaning(pod, item, sorted, order);
    var c := pod.containers[i].name;
    if c in W.Chosen(item, sorted) {
      var e := RecoverySafety(name, spec, actions, v, item, sorted, c);
    } else {
      NoSuccess(name, spec, actions, v, item, sorted, c);
    }
  }

  lemma NoSuccess(name: string, spec: SpSpec, actions: seq<Action>, v: nat, item: W.Item, sorted: seq<Entry>, c: string)
    requires v < |Exec(name, spec, actions).versions| && Shows(item, Exec(name, spec, actions).versions[v])
    requires item.spec.recoveryRound == 0 && IsSortOf(sorted, item.runs) && c !in W.Chosen(item, sorted)
    ensures !Succeeded(item.runs, c)
  {
    hide Exec, FirstSuccesses;
    HistoryDiscipline(name, spec, actions, v);
    var st := Exec(name, spec, actions).versions[v];
    HistoryDistinct(name, Full(st.status), st.spec.triggerRound);
    assert forall x | x in item.runs :: x in Full(st.status);
    UnstableSortIsHarmless(sorted, item.runs, c);
  }

  // ---------- Down to the runtime's answers ----------

  /** The task's state is that of a run of its own, of actions that happened to it. */
  ghost predicate RunsAlone(actions: seq<Action>, n: string, t: TS.TaskSys, own: seq<TS.Action>) {
    t == TS.Exec(t.spec, own) && forall a | a in own :: OnTask(n, a) in actions
  }

  ghost predicate IsRun(actions: seq<Action>, n: string, t: TS.TaskSys) {
    exists own :: RunsAlone(actions, n, t, own)
  }

  lemma FreshIsRun(actions: seq<Action>, n: string, spec: TP.TaskSpec)
    ensures IsRun(actions, n, TS.NewTask(spec))
  {
    assert TS.NewTask(spec) == TS.Exec(spec, []);
    assert RunsAlone(actions, n, TS.NewTask(spec), []);
  }

  lemma StillRun(actions: seq<Action>, a: Action, n: string, t: TS.TaskSys)
    requires IsRun(actions, n, t)
    ensures IsRun(actions + [a], n, t)
  {
    var own :| RunsAlone(actions, n, t, own);
    assert RunsAlone(actions + [a], n, t, own);
  }

  lemma RunGoesOn(actions: seq<Action>, n: string, t: TS.TaskSys, a: TS.Action)
    requires IsRun(actions, n, t)
    ensures IsRun(actions + [OnTask(n, a)], n, TS.Step(t, a))
  {
    hide TS.Step;
    var own :| RunsAlone(actions, n, t, own);
    TS.ExecSnoc(t.spec, own, a);
    TS.ExecInv(t.spec, own + [a]);
    assert RunsAlone(actions + [OnTask(n, a)], n, TS.Step(t, a), own + [a]);
  }

  /** What one action makes of a task. */
  lemma TaskAfter(s: Sys, a: Action, n: string)
    requires n in Step(s, a).tasks
    ensures var t := Step(s, a).tasks[n];
            || (n in s.tasks && t == s.tasks[n])
            || (n !in s.tasks && t == TS.NewTask(t.spec))
            || (n in s.tasks && a.OnTask? && a.task == n && t == TS.Step(s.tasks[n], a.a))
  {
    hide TS.Step, Next;
  }

  lemma {:induction false} TasksAreRuns(name: string, spec: SpSpec, actions: seq<Action>, n: string)
    requires n in Exec(name, spec, actions).tasks
    ensures IsRun(actions, n, Exec(name, spec, actions).tasks[n])
  {
    hide IsRun, Step, TS.Step, TS.NewTask;
    if actions != [] {
      var init, a := actions[..|actions| - 1], actions[|actions| - 1];
      var s := Exec(name, spec, init);
      assert actions == init + [a];
      TaskAfter(s, a, n);
      if n in s.tasks {
        TasksAreRuns(name, spec, init, n);
        StillRun(init, a, n, s.tasks[n]);
        if a.OnTask? && a.task == n { RunGoesOn(init, n, s.tasks[n], a.a); }
      } else {
        FreshIsRun(actions, n, Step(s, a).tasks[n].spec);
      }
    }
  }

  /** The runtime answered a Commit and a Push of this image without an error. */
  ghost predicate Answered(actions: seq<Action>, n: string, spec: TP.TaskSpec, image: string) {
    && (exists a :: OnTask(n, a) in actions && TT.AnsweredBy(spec, a, TP.CommitCall(image, true)))
    && (exists a :: OnTask(n, a) in actions && TT.AnsweredBy(spec, a, TP.PushCall(image, true)))
  }

  lemma LoggedWasAnswered(actions: seq<Action>, n: string, t: TS.TaskSys, call: TP.Effect)
    requires IsRun(actions, n, t) && call in t.log && (call.CommitCall? || call.PushCall?)
    ensures exists a :: OnTask(n, a) in actions && TT.AnsweredBy(t.spec, a, call)
  {
    hide TS.Exec, TT.AnsweredBy;
    var own :| RunsAlone(actions, n, t, own);
    TT.CallsAreAnswered(t.spec, own, call);
    var k :| 0 <= k < |own| && TT.AnsweredBy(t.spec, own[k], call);
    assert OnTask(n, own[k]) in actions;
  }

  /** From the injected image to the runtime: the task behind it had its own image committed
      and pushed by commands that the runtime answered without an error, guards passed; that is
      the injected image exactly if the names agree. */
  lemma InjectedWasPushed(name: string, spec: SpSpec, actions: seq<Action>, v: nat, item: W.Item,
                          sorted: seq<Entry>, c: string) returns (e: Entry)
    requires v < |Exec(name, spec, actions).versions| && Shows(item, Exec(name, spec, actions).versions[v])
    requires item.spec.recoveryRound == 0 && IsSortOf(sorted, item.runs) && c in W.Chosen(item, sorted)
    ensures var s, image := Exec(name, spec, actions), W.Chosen(item, sorted)[c].image;
            && Vouched(s, s.versions[v].status, c, image, e)
            && var task := s.tasks[e.taskName].spec;
               && Answered(actions, e.taskName, task, task.commitImage)
               && (Answered(actions, e.taskName, task, image) <==> task.commitImage == image)
  {
    hide Exec, TS.Exec, TT.AnsweredBy, W.Chosen, IsRun;
    e := RecoverySafety(name, spec, actions, v, item, sorted, c);
    var t := Exec(name, spec, actions).tasks[e.taskName];
    TasksAreRuns(name, spec, actions, e.taskName);
    var i, j :| 0 <= i < j < |t.log| && t.log[i] == TP.CommitCall(t.spec.commitImage, true)
                && t.log[j] == TP.PushCall(t.spec.commitImage, true);
    LoggedWasAnswered(actions, e.taskName, t, t.log[i]);
    LoggedWasAnswered(actions, e.taskName, t, t.log[j]);
    OwnImageOnly(actions, e.taskName, t.spec, W.Chosen(item, sorted)[c].image);
  }

  lemma OwnImageOnly(actions: seq<Action>, n: string, spec: TP.TaskSpec, image: string)
    ensures Answered(actions, n, spec, image) ==> spec.commitImage == image
  {
  }
}
