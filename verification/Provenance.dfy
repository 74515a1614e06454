/** Where the versions of a SnapshotPod come from: every reconcile in flight is a run of the
    round worker from the version it has read, and every version follows the one before it by
    a change of the spec or by the update of such a run, whatever else is going on. */
module Provenance {
  import opened Api
  import opened Rounds
  import opened Coverage
  import opened Convergence
  import opened Operator
  import opened OperatorTheorems
  import TP = TaskPipeline

  /** The trace takes a worker that starts from version `base` to `w`. */
  ghost predicate Explains(name: string, base: Version, trace: seq<Event>, w: Worker) {
    Replay(name, Start(base.spec, base.status), trace) == Some(w) && NoDup(PodNames(trace))
  }

  ghost predicate Explained(name: string, base: Version, w: Worker) {
    exists trace :: Explains(name, base, trace, w)
  }

  /** The update of a run from version `a` made version `b`. */
  ghost predicate Written(name: string, a: Version, b: Version) {
    b.spec == a.spec && exists w: Worker :: w.pc == Saving && w.st == b.status && Explained(name, a, w)
  }

  ghost predicate Accounted(s: Sys) {
    && s.versions != []
    && (forall id | id in s.copies ::
          s.copies[id].rv < |s.versions| && Explained(s.name, s.versions[s.copies[id].rv], s.copies[id].w))
    && forall i | 0 <= i < |s.versions| - 1 ::
         s.versions[i + 1].status == s.versions[i].status || Written(s.name, s.versions[i], s.versions[i + 1])
  }

  lemma ExplainedStart(name: string, base: Version)
    ensures Explained(name, base, Start(base.spec, base.status))
  {
    assert Explains(name, base, [], Start(base.spec, base.status));
  }

  lemma ExplainedNext(name: string, base: Version, w: Worker, e: Event)
    requires Explained(name, base, w) && Next(name, w, e).Some?
    requires e.Entered? && e.pod.Containers? ==> NoDup(e.pod.names)
    ensures Explained(name, base, Next(name, w, e).value)
  {
    hide Next, Replay;
    var trace :| Explains(name, base, trace, w);
    ReplaySnoc(name, Start(base.spec, base.status), trace, e);
    assert (trace + [e])[..|trace|] == trace;
    assert Explains(name, base, trace + [e], Next(name, w, e).value);
  }

  lemma MoveAccounted(s: Sys, id: nat, e: Event)
    requires Accounted(s) && Enabled(s, id, e)
    requires e.Entered? && e.pod.Containers? ==> NoDup(e.pod.names)
    ensures Accounted(Move(s, id, e))
  {
    hide Explained, Next;
    ExplainedNext(s.name, s.versions[s.copies[id].rv], s.copies[id].w, e);
  }

  lemma CreateAccounted(s: Sys, id: nat, taskSpec: TP.TaskSpec, lost: bool)
    requires Accounted(s) && id in s.copies && s.copies[id].w.pc.Creating? && s.copies[id].w.pc.todo != []
    ensures Accounted(AfterCreate(s, id, taskSpec, lost))
  {
    hide Explained, Written, Next;
    var n := NextName(s, s.copies[id].w);
    MadeIsEnabled(s.name, s.copies[id].w);
    if n in s.tasks {
      MoveAccounted(s, id, Made(Existed(taskSpec.commitImage)));
    } else {
      MoveAccounted(WithTask(s, n, taskSpec), id,
                    Made(if lost then Refused("reply lost") else Created(taskSpec.commitImage)));
    }
  }

  lemma MadeIsEnabled(name: string, w: Worker)
    requires w.pc.Creating? && w.pc.todo != []
    ensures forall a :: Next(name, w, Made(a)).Some?
  {
  }

  lemma SavingOnly(name: string, w: Worker, ok: bool)
    ensures Next(name, w, Saved(ok)).Some? <==> w.pc == Saving
    ensures w.pc == Saving ==> Next(name, w, Saved(ok)).value.st == w.st && Next(name, w, Saved(ok)).value.pc.Stopped?
  {
  }

  lemma SaveAccounted(s: Sys, id: nat, ok: bool, bumps: bool)
    requires Accounted(s) && Enabled(s, id, Saved(ok)) && s.copies[id].rv + 1 == |s.versions|
    ensures Accounted(AfterSave(s, id, ok, bumps))
  {
    hide Explained, Next;
    SavingOnly(s.name, s.copies[id].w, ok);
    var v := Version(Latest(s).spec, s.copies[id].w.st);
    assert Written(s.name, Latest(s), v);
    MoveAccounted(s, id, Saved(ok));
  }

  lemma StepAccounted(s: Sys, a: Action)
    requires Accounted(s)
    ensures Accounted(Step(s, a))
  {
    hide Explained, Written, Next, AfterCreate, AfterSave, Move;
    match a
    case ReadSp(id, v) => if v < |s.versions| { ExplainedStart(s.name, s.versions[v]); }
    case Proceed(id, e) => if Enabled(s, id, e) && Unaided(e) { MoveAccounted(s, id, e); }
    case CreateTask(id, taskSpec, lost) =>
      if id in s.copies && s.copies[id].w.pc.Creating? && s.copies[id].w.pc.todo != [] {
        CreateAccounted(s, id, taskSpec, lost);
      }
    case ListTasks(id, seen) =>
      var e := Listed(TaskList(View(s.tasks, seen)));
      if Enabled(s, id, e) { MoveAccounted(s, id, e); }
    case SaveSp(id, ok, lands, bumps) =>
      if Enabled(s, id, Saved(ok)) {
        if lands && s.copies[id].rv + 1 == |s.versions| { SaveAccounted(s, id, ok, bumps); }
        else if !ok { MoveAccounted(s, id, Saved(ok)); }
      }
    case _ =>
  }

  /** In every reachable state every copy and every version has its run. */
  lemma {:induction false} ExecAccounted(name: string, spec: SpSpec, actions: seq<Action>)
    ensures Accounted(Exec(name, spec, actions)) && Exec(name, spec, actions).name == name
  {
    ExecName(name, spec, actions);
    if actions != [] {
      ExecAccounted(name, spec, actions[..|actions| - 1]);
      StepAccounted(Exec(name, spec, actions[..|actions| - 1]), actions[|actions| - 1]);
    }
  }

  lemma StepAppends(s: Sys, a: Action)
    ensures s.versions <= Step(s, a).versions
  {
    hide Next;
  }

  /** Versions are only ever added. */
  lemma {:induction false} VersionsStay(name: string, spec: SpSpec, actions: seq<Action>, more: seq<Action>)
    ensures Exec(name, spec, actions).versions <= Exec(name, spec, actions + more).versions
  {
    hide Step;
    if more == [] {
      assert actions + more == actions;
    } else {
      var init, a := more[..|more| - 1], more[|more| - 1];
      VersionsStay(name, spec, actions, init);
      assert (actions + more)[..|actions + more| - 1] == actions + init;
      StepAppends(Exec(name, spec, actions + init), a);
    }
  }

  // ---------- A round at rest ----------

  predicate AtRest(v: Version) {
    v.status.lastTriggerRound == v.spec.triggerRound && AllSettled(v.status.runs)
  }

  /** Nothing but the conditions differs. */
  predicate SameRounds(a: SpStatus, b: SpStatus) {
    b == a.(conds := b.conds)
  }

  lemma RestingStep(name: string, a: Version, b: Version)
    requires AtRest(a) && (b.status == a.status || Written(name, a, b))
    ensures SameRounds(a.status, b.status)
  {
    if b.status != a.status {
      var w: Worker :| w.pc == Saving && w.st == b.status && Explained(name, a, w);
      var trace :| Explains(name, a, trace, w);
      SettledStays(name, a.spec, a.status, trace);
    }
  }

  lemma {:induction false} RestChain(s: Sys, i: nat, j: nat)
    requires VersionsOk(s) && Accounted(s) && i <= j < |s.versions| && AtRest(s.versions[i])
    requires s.versions[j].spec.triggerRound == s.versions[i].spec.triggerRound
    ensures AtRest(s.versions[j]) && SameRounds(s.versions[i].status, s.versions[j].status)
    decreases j - i
  {
    hide VersionsOk, AllSettled, Written;
    if i < j {
      VersionChain(s, i, j - 1);
      VersionChain(s, j - 1, j);
      RestChain(s, i, j - 1);
      assert s.versions[j - 1 + 1] == s.versions[j];
      RestingStep(s.name, s.versions[j - 1], s.versions[j]);
    }
  }

  /** Once a version is at rest, every later one has the same entries, listed or trimmed, and
      the same last round, for as long as the trigger round is not raised, whatever reconciles
      of whatever old versions are still in flight. */
  lemma RestIsForGood(name: string, spec: SpSpec, actions: seq<Action>, i: nat, j: nat)
    requires i <= j < |Exec(name, spec, actions).versions| && AtRest(Exec(name, spec, actions).versions[i])
    requires var vs := Exec(name, spec, actions).versions; vs[j].spec.triggerRound == vs[i].spec.triggerRound
    ensures var vs := Exec(name, spec, actions).versions;
            AtRest(vs[j]) && SameRounds(vs[i].status, vs[j].status)
  {
    ExecInv(name, spec, actions);
    ExecAccounted(name, spec, actions);
    RestChain(Exec(name, spec, actions), i, j);
  }
}
