/** Runs of the operator in which one reconcile deals with the first `k` containers of a pod
    and meets an error at the next: rounds that skip containers for good, and a round that
    its own trimming cuts. */
module PartialRounds {
  import opened Api
  import opened Naming
  import opened Rounds
  import opened History
  import opened Coverage
  import opened Operator
  import opened OperatorTheorems
  import opened Provenance
  import opened Closing
  import TP = TaskPipeline

  // ---------- One reconcile ----------

  function Creates(id: nat, task: TP.TaskSpec, k: nat): seq<Action> {
    if k == 0 then [] else Creates(id, task, k - 1) + [CreateTask(id, task, false)]
  }

  /** Up to the k-th Create. */
  function InLoop(id: nat, v: nat, names: seq<string>, task: TP.TaskSpec, k: nat): seq<Action> {
    [ReadSp(id, v)] + [Proceed(id, Validated(None))] + [Proceed(id, Entered(Containers(names)))] + Creates(id, task, k)
  }

  /** The next container has not started; or all are done, and the list of tasks fails. */
  function EndLoop(id: nat, names: seq<string>, k: nat): Action {
    Proceed(id, if k < |names| then Made(Unready("container not started")) else Listed(ListFailed("no answer")))
  }

  /** The latest version still has its round before it. */
  predicate Due(s: Sys) {
    var v := Latest(s);
    s.versions != [] && v.spec.triggerRound > 0 && v.status.lastTriggerRound != v.spec.triggerRound
    && !RoundKnown(v.status.runs, v.spec.triggerRound)
  }

  /** The worker has done `k` containers without an error. */
  ghost predicate AtContainer(name: string, base: Version, names: seq<string>, k: nat, trace: seq<Event>, w: Worker) {
    && Explains(name, base, trace, w)
    && PodNames(trace) == names && |Answers(trace)| == k == Errorless(Answers(trace)) <= |names|
    && w.pc == if k < |names| then Creating(names[k..]) else Listing
  }

  /** So has this reconcile, of the latest version. */
  ghost predicate Doing(s0: Sys, s: Sys, id: nat, names: seq<string>, k: nat, trace: seq<Event>) {
    && s.name == s0.name && s.versions == s0.versions != [] && s.copies.Keys == s0.copies.Keys + {id}
    && s.copies[id].rv + 1 == |s.versions|
    && AtContainer(s.name, Latest(s), names, k, trace, s.copies[id].w)
  }

  lemma MoreExplained(name: string, base: Version, trace: seq<Event>, w: Worker, e: Event)
    requires Explains(name, base, trace, w) && Next(name, w, e).Some? && NoDup(PodNames(trace + [e]))
    ensures Explains(name, base, trace + [e], Next(name, w, e).value)
  {
    hide Next;
    ReplaySnoc(name, Start(base.spec, base.status), trace, e);
  }

  lemma OpeningSteps(name: string, v: Version, names: seq<string>) returns (trace: seq<Event>, w1: Worker, w2: Worker)
    requires v.spec.triggerRound > 0 && v.status.lastTriggerRound != v.spec.triggerRound
    requires !RoundKnown(v.status.runs, v.spec.triggerRound) && NoDup(names) && names != []
    ensures Next(name, Start(v.spec, v.status), Validated(None)) == Some(w1)
    ensures Next(name, w1, Entered(Containers(names))) == Some(w2) && w2.pc == Creating(names)
    ensures Explains(name, v, trace, w2) && PodNames(trace) == names && Answers(trace) == []
  {
    var w0 := Start(v.spec, v.status);
    w1 := Next(name, w0, Validated(None)).value;
    w2 := Next(name, w1, Entered(Containers(names))).value;
    trace := [Validated(None)] + [Entered(Containers(names))];
    ReplaySnoc(name, w0, [], Validated(None));
    assert [] + [Validated(None)] == [Validated(None)];
    ReplaySnoc(name, w0, [Validated(None)], Entered(Containers(names)));
    MoreTrace([], Validated(None));
    MoreTrace([Validated(None)], Entered(Containers(names)));
  }

  /** The reconcile up to the loop. */
  lemma OpeningRun(s: Sys, id: nat, names: seq<string>) returns (trace: seq<Event>)
    requires Due(s) && id !in s.copies && NoDup(names) && names != []
    ensures var s1 := Step(s, ReadSp(id, |s.versions| - 1));
            var s2 := Step(s1, Proceed(id, Validated(None)));
            Doing(s, Step(s2, Proceed(id, Entered(Containers(names)))), id, names, 0, trace)
  {
    hide Next;
    var w1, w2;
    trace, w1, w2 := OpeningSteps(s.name, Latest(s), names);
    var s1 := Step(s, ReadSp(id, |s.versions| - 1));
    var s2 := Step(s1, Proceed(id, Validated(None)));
    assert s2 == Move(s1, id, Validated(None));
    assert names[0..] == names;
  }

  function CreateReply(s: Sys, id: nat, task: TP.TaskSpec): CreateAnswer
    requires id in s.copies && s.copies[id].w.pc.Creating? && s.copies[id].w.pc.todo != []
  {
    if NextName(s, s.copies[id].w) in s.tasks then Existed(task.commitImage) else Created(task.commitImage)
  }

  lemma CreateStep(s: Sys, id: nat, task: TP.TaskSpec)
    requires id in s.copies && s.copies[id].w.pc.Creating? && s.copies[id].w.pc.todo != []
    ensures var s', c := Step(s, CreateTask(id, task, false)), s.copies[id];
            var w' := Next(s.name, c.w, Made(CreateReply(s, id, task)));
            w'.Some? && s' == s.(tasks := s'.tasks, copies := s.copies[id := Copy(w'.value, c.rv)])
  {
    hide Next;
    MadeIsEnabled(s.name, s.copies[id].w);
  }

  lemma NextContainer(name: string, base: Version, names: seq<string>, k: nat, trace: seq<Event>, w: Worker, a: CreateAnswer)
    requires AtContainer(name, base, names, k, trace, w) && k < |names| && Good(a)
    ensures Next(name, w, Made(a)).Some?
    ensures AtContainer(name, base, names, k + 1, trace + [Made(a)], Next(name, w, Made(a)).value)
  {
    hide Next, Explains, Full, NewEntry;
    MoreTrace(trace, Made(a));
    LoopStep(name, w, names[k..], a);
    ErrorlessSnoc(Answers(trace), a);
    assert names[k..][1..] == names[k + 1..];
    ExplainsNoDup(name, base, trace, w);
    MoreExplained(name, base, trace, w, Made(a));
  }

  /** One more Create; whether it makes the task or finds it there. */
  lemma CreateRun(s0: Sys, s: Sys, id: nat, names: seq<string>, k: nat, trace: seq<Event>, task: TP.TaskSpec)
    returns (longer: seq<Event>)
    requires Doing(s0, s, id, names, k, trace) && k < |names|
    ensures Doing(s0, Step(s, CreateTask(id, task, false)), id, names, k + 1, longer)
  {
    hide AtContainer, Step, Next;
    var w := s.copies[id].w;
    LoopPc(s.name, Latest(s), names, k, trace, w);
    var a := CreateReply(s, id, task);
    CreateStep(s, id, task);
    NextContainer(s.name, Latest(s), names, k, trace, w, a);
    longer := trace + [Made(a)];
  }

  lemma LoopPc(name: string, base: Version, names: seq<string>, k: nat, trace: seq<Event>, w: Worker)
    requires AtContainer(name, base, names, k, trace, w)
    ensures k < |names| ==> w.pc == Creating(names[k..])
    ensures k >= |names| ==> w.pc == Listing
  {
  }

  lemma ExplainsNoDup(name: string, base: Version, trace: seq<Event>, w: Worker)
    requires Explains(name, base, trace, w)
    ensures NoDup(PodNames(trace))
  {
  }

  lemma {:induction false} CreatesRun(name: string, spec: SpSpec, before: seq<Action>, id: nat, names: seq<string>,
                                      task: TP.TaskSpec, k: nat) returns (trace: seq<Event>)
    requires var s := Exec(name, spec, before); Due(s) && id !in s.copies
    requires NoDup(names) && names != [] && k <= |names|
    ensures var s := Exec(name, spec, before);
            Doing(s, Exec(name, spec, before + InLoop(id, |s.versions| - 1, names, task, k)), id, names, k, trace)
  {
    hide Exec, Step, Doing, RoundKnown;
    var s := Exec(name, spec, before);
    var v := |s.versions| - 1;
    if k == 0 {
      trace := OpeningRun(s, id, names);
      ThreeSteps(name, spec, before, ReadSp(id, v), Proceed(id, Validated(None)), Proceed(id, Entered(Containers(names))));
      assert before + InLoop(id, v, names, task, 0)
          == before + [ReadSp(id, v)] + [Proceed(id, Validated(None))] + [Proceed(id, Entered(Containers(names)))];
    } else {
      trace := CreatesRun(name, spec, before, id, names, task, k - 1);
      var init := before + InLoop(id, v, names, task, k - 1);
      trace := CreateRun(s, Exec(name, spec, init), id, names, k - 1, trace, task);
      ExecSnoc(name, spec, init, CreateTask(id, task, false));
      assert before + InLoop(id, v, names, task, k) == init + [CreateTask(id, task, false)];
    }
  }

  lemma ThreeSteps(name: string, spec: SpSpec, before: seq<Action>, a: Action, b: Action, c: Action)
    ensures Exec(name, spec, before + [a] + [b] + [c]) == Step(Step(Step(Exec(name, spec, before), a), b), c)
  {
    hide Exec, Step;
    ExecSnoc(name, spec, before, a);
    ExecSnoc(name, spec, before + [a], b);
    ExecSnoc(name, spec, before + [a] + [b], c);
  }

  function RoundRun(id: nat, v: nat, names: seq<string>, task: TP.TaskSpec, k: nat): seq<Action> {
    InLoop(id, v, names, task, k) + [EndLoop(id, names, k)]
  }

  /** The reconcile up to its update. */
  lemma PartialRound(name: string, spec: SpSpec, before: seq<Action>, id: nat, names: seq<string>,
                     task: TP.TaskSpec, k: nat) returns (trace: seq<Event>)
    requires var s := Exec(name, spec, before); Due(s) && id !in s.copies
    requires NoDup(names) && names != [] && k <= |names|
    ensures var s := Exec(name, spec, before);
            var s' := Exec(name, spec, before + RoundRun(id, |s.versions| - 1, names, task, k));
            && s'.versions == s.versions && s'.copies.Keys == s.copies.Keys + {id}
            && AboutToSave(s', id, trace) && Lands(s', id, true)
            && PodNames(trace) == names && Errorless(Answers(trace)) == k
  {
    hide Exec, Step, RoundKnown;
    var s := Exec(name, spec, before);
    var loop := before + InLoop(id, |s.versions| - 1, names, task, k);
    trace := CreatesRun(name, spec, before, id, names, task, k);
    ExecSnoc(name, spec, loop, EndLoop(id, names, k));
    assert before + RoundRun(id, |s.versions| - 1, names, task, k) == loop + [EndLoop(id, names, k)];
    trace := EndRun(s, Exec(name, spec, loop), id, names, k, trace);
  }

  lemma EndPc(name: string, w: Worker, e: Event)
    requires (w.pc.Creating? && w.pc.todo != [] && e.Made? && !Good(e.answer)) || (w.pc == Listing && e.Listed?)
    ensures Next(name, w, e).Some? && Next(name, w, e).value.pc == Saving
  {
  }

  /** An error, or the list. */
  lemma EndOfLoop(name: string, base: Version, names: seq<string>, k: nat, trace: seq<Event>, w: Worker, e: Event)
    requires AtContainer(name, base, names, k, trace, w) && Next(name, w, e).Some?
    requires if k < |names| then e.Made? && !Good(e.answer) else e.Listed?
    ensures var w' := Next(name, w, e).value;
            && Explains(name, base, trace + [e], w') && w'.pc == Saving
            && PodNames(trace + [e]) == names && Errorless(Answers(trace + [e])) == k
  {
    hide Explains, Next, NoDup;
    MoreTrace(trace, e);
    ExplainsNoDup(name, base, trace, w);
    MoreExplained(name, base, trace, w, e);
    EndPc(name, w, e);
    if e.Made? { ErrorlessSnoc(Answers(trace), e.answer); }
    assert Answers(trace) + [] == Answers(trace);
  }

  lemma EndRun(s0: Sys, s: Sys, id: nat, names: seq<string>, k: nat, trace: seq<Event>) returns (longer: seq<Event>)
    requires Doing(s0, s, id, names, k, trace) && names != []
    ensures var s' := Step(s, EndLoop(id, names, k));
            && s'.versions == s0.versions && s'.copies.Keys == s0.copies.Keys + {id}
            && AboutToSave(s', id, longer) && Lands(s', id, true)
            && PodNames(longer) == names && Errorless(Answers(longer)) == k
  {
    hide Explains, AtContainer, Next;
    var e, w := EndLoop(id, names, k).e, s.copies[id].w;
    longer := trace + [e];
    LoopPc(s.name, Latest(s), names, k, trace, w);
    EndPc(s.name, w, e);
    EndOfLoop(s.name, Latest(s), names, k, trace, w, e);
  }

  function Save(id: nat): Action {
    SaveSp(id, true, true, true)
  }

  function Round(id: nat, v: nat, names: seq<string>, task: TP.TaskSpec, k: nat): seq<Action> {
    RoundRun(id, v, names, task, k) + [Save(id)]
  }

  /** The whole reconcile. */
  lemma RoundDone(name: string, spec: SpSpec, before: seq<Action>, id: nat, names: seq<string>,
                  task: TP.TaskSpec, k: nat)
    requires var s := Exec(name, spec, before); Due(s) && id !in s.copies
    requires NoDup(names) && names != [] && k <= |names|
    ensures var s := Exec(name, spec, before);
            var s' := Exec(name, spec, before + Round(id, |s.versions| - 1, names, task, k));
            && |s'.versions| == |s.versions| + 1 && s'.copies.Keys == s.copies.Keys + {id}
            && Latest(s').spec == Latest(s).spec
            && Latest(s').status.lastTriggerRound == Latest(s).status.lastTriggerRound
            && Adds(Full(Latest(s).status), Full(Latest(s').status), Latest(s).spec.triggerRound, names, k)
  {
    hide Exec, Step, RoundKnown, RoundRun, VersionOk, AboutToSave, Adds, Full, Inv;
    var s := Exec(name, spec, before);
    var trace := PartialRound(name, spec, before, id, names, task, k);
    var loop := before + RoundRun(id, |s.versions| - 1, names, task, k);
    assert before + Round(id, |s.versions| - 1, names, task, k) == loop + [Save(id)];
    ExecSnoc(name, spec, loop, Save(id));
    ExecInv(name, spec, loop);
    SaveAdds(Exec(name, spec, loop), id, trace);
  }

  /** What the update of a finished loop adds when it lands. */
  lemma SaveAdds(s: Sys, id: nat, trace: seq<Event>)
    requires Inv(s) && AboutToSave(s, id, trace) && Lands(s, id, true)
    ensures Errorless(Answers(trace)) <= |PodNames(trace)|
    ensures var s' := Step(s, Save(id));
            && |s'.versions| == |s.versions| + 1 && s'.copies.Keys == s.copies.Keys
            && Latest(s').spec == Latest(s).spec
            && Latest(s').status.lastTriggerRound == Latest(s).status.lastTriggerRound
            && Adds(Full(Latest(s).status), Full(Latest(s').status), Latest(s).spec.triggerRound,
                    PodNames(trace), Errorless(Answers(trace)))
  {
    hide Step, VersionOk, TasksOk, Adds, Full, CopyOk, Explains, Errorless, Answers, PodNames;
    LatestOk(s);
    SaveVersions(s, id, true, true, true);
    LoopAdds(s.name, Latest(s), trace, s.copies[id].w);
  }

  // ---------- Results that promise less than one may think ----------

  const ROUND1 := SpSpec(1, 0, "")
  const ROUND2 := SpSpec(2, 0, "")

  lemma FreshIsDue(name: string)
    ensures Due(Exec(name, ROUND1, [])) && Exec(name, ROUND1, []) == Init(name, ROUND1)
  {
  }

  /** Of any pod, any containers but the first few can be left out of a round for good: the
      reconcile meets one that has not started yet, and no continuation whatever makes up
      for it. */
  lemma RestCanBeSkipped(name: string, names: seq<string>, task: TP.TaskSpec, k: nat, more: seq<Action>, j: nat, i: nat)
    requires NoDup(names) && 0 < k <= |names| && i < |names|
    requires 1 <= j < |Exec(name, ROUND1, Round(0, 0, names, task, k) + more).versions|
    ensures Covered(Full(Exec(name, ROUND1, Round(0, 0, names, task, k) + more).versions[j].status), 1, names[i])
            <==> i < k
  {
    hide Exec, Step, RoundKnown, RoundRun, AboutToSave, Covered, Full;
    FreshIsDue(name);
    var run := RoundRun(0, 0, names, task, k);
    var trace := PartialRound(name, ROUND1, [], 0, names, task, k);
    assert [] + run == run;
    var s := Exec(name, ROUND1, run);
    SavedLength(s, trace);
    ExecSnoc(name, ROUND1, run, Save(0));
    ExecRound(name, run, trace);
    SkippedForGood(name, ROUND1, run, 0, trace, true, true, more, j, i);
  }

  lemma SavedLength(s: Sys, trace: seq<Event>)
    requires AboutToSave(s, 0, trace) && Lands(s, 0, true)
    ensures |Step(s, Save(0)).versions| == |s.versions| + 1
  {
    SaveVersions(s, 0, true, true, true);
  }

  lemma ExecRound(name: string, run: seq<Action>, trace: seq<Event>)
    requires var s := Exec(name, ROUND1, run); AboutToSave(s, 0, trace) && |s.versions| == 1
    ensures Exec(name, ROUND1, run).copies[0].w.spec.triggerRound == 1
  {
    hide Exec, Replay;
    var s := Exec(name, ROUND1, run);
    VersionsStay(name, ROUND1, [], run);
    assert [] + run == run;
    FreshIsDue(name);
    assert s.versions[0] == Init(name, ROUND1).versions[0];
    TraceTold(s.name, s.versions[0].spec, s.versions[0].status, trace);
  }

  /** A whole round can be lost without any error: every container has its task, but the
      trigger round is raised before the reconcile writes, and no continuation whatever brings
      an entry of the first round. */
  lemma RoundCanBeSuperseded(name: string, names: seq<string>, task: TP.TaskSpec, more: seq<Action>, j: nat)
    returns (trace: seq<Event>)
    requires NoDup(names) && names != []
    requires j < |Exec(name, ROUND1, RoundRun(0, 0, names, task, |names|) + [EditSpec(ROUND2)] + more).versions|
    ensures AboutToSave(Exec(name, ROUND1, RoundRun(0, 0, names, task, |names|)), 0, trace)
    ensures PodNames(trace) == names && Errorless(Answers(trace)) == |names|
    ensures var vs := Exec(name, ROUND1, RoundRun(0, 0, names, task, |names|) + [EditSpec(ROUND2)] + more).versions;
            !HasRound(Full(vs[j].status), 1)
  {
    hide Exec, Step, RoundKnown, RoundRun, AboutToSave, HasRound, Full;
    FreshIsDue(name);
    var run := RoundRun(0, 0, names, task, |names|);
    trace := PartialRound(name, ROUND1, [], 0, names, task, |names|);
    assert [] + run == run;
    ExecSnoc(name, ROUND1, run, EditSpec(ROUND2));
    RaisedAtOnce(Exec(name, ROUND1, run), name);
    VersionsStay(name, ROUND1, run + [EditSpec(ROUND2)], more);
    if j == 0 {
      NoRoundYet();
    } else {
      Superseded(name, ROUND1, run + [EditSpec(ROUND2)] + more, 1, j, 1);
    }
  }

  lemma NoRoundYet()
    ensures !HasRound(Full(NEW_SP_STATUS), 1)
  {
  }

  lemma RaisedAtOnce(s: Sys, name: string)
    requires s.versions == Init(name, ROUND1).versions
    ensures var vs := Step(s, EditSpec(ROUND2)).versions;
            |vs| == 2 && vs[0] == Version(ROUND1, NEW_SP_STATUS) && vs[1].spec == ROUND2 && !HasRound(Full(vs[1].status), 1)
  {
    NoRoundYet();
  }

  /** As many containers as wanted, all of different names. */
  function Many(n: nat): seq<string> {
    seq(n, i requires 0 <= i < n => Decimal(i))
  }

  lemma ManyDiffer(n: nat)
    ensures NoDup(Many(n))
  {
    forall i, j | 0 <= i < j < n ensures Many(n)[i] != Many(n)[j] {
      if Decimal(i) == Decimal(j) { DecimalInjective(i, j); }
    }
  }

  /** A round of fifteen containers, then one of six. */
  function TwoRounds(task: TP.TaskSpec): seq<Action> {
    Round(0, 0, Many(15), task, 15) + [EditSpec(ROUND2)] + Round(1, 2, Many(6), task, 6)
  }

  lemma FirstRound(name: string, task: TP.TaskSpec)
    ensures var s := Exec(name, ROUND1, Round(0, 0, Many(15), task, 15));
            && |s.versions| == 2 && s.copies.Keys == {0} && Latest(s).spec == ROUND1
            && Latest(s).status.lastTriggerRound == 0 && |Full(Latest(s).status)| == 15
  {
    hide Exec, Round;
    FreshIsDue(name);
    ManyDiffer(15);
    RoundDone(name, ROUND1, [], 0, Many(15), task, 15);
    assert [] + Round(0, 0, Many(15), task, 15) == Round(0, 0, Many(15), task, 15);
    assert Full(NEW_SP_STATUS) == [];
  }

  lemma NewRound(name: string, task: TP.TaskSpec)
    ensures var s := Exec(name, ROUND1, Round(0, 0, Many(15), task, 15) + [EditSpec(ROUND2)]);
            && Due(s) && |s.versions| == 3 && s.copies.Keys == {0} && Latest(s).spec == ROUND2
            && |Full(Latest(s).status)| == 15
  {
    hide Exec, Round;
    var first := Round(0, 0, Many(15), task, 15);
    FirstRound(name, task);
    ExecSnoc(name, ROUND1, first, EditSpec(ROUND2));
    HistoryDiscipline(name, ROUND1, first, 1);
    var st := Latest(Exec(name, ROUND1, first)).status;
    forall i | 0 <= i < |st.runs| ensures st.runs[i].round != 2 {
      assert Full(st)[|st.past| + i] == st.runs[i];
    }
  }

  /** A round can be cut by its own trimming: in the end all six containers of the second
      round have their entries, and the first of them is not listed any more. */
  lemma RoundCutsItself(name: string, task: TP.TaskSpec)
    ensures var v := Latest(Exec(name, ROUND1, TwoRounds(task)));
            && (forall c | c in Many(6) :: Covered(Full(v.status), 2, c))
            && !Covered(v.status.runs, 2, Many(6)[0])
  {
    hide Exec, Round, Due;
    NewRound(name, task);
    ManyDiffer(6);
    var before := Round(0, 0, Many(15), task, 15) + [EditSpec(ROUND2)];
    RoundDone(name, ROUND1, before, 1, Many(6), task, 6);
    HistoryDiscipline(name, ROUND1, TwoRounds(task), 3);
    CutCovers(Full(Latest(Exec(name, ROUND1, before)).status), Latest(Exec(name, ROUND1, TwoRounds(task))).status);
  }

  lemma CutCovers(before: seq<Entry>, st: SpStatus)
    requires |before| == 15 && Adds(before, Full(st), 2, Many(6), 6) && WindowOk(st)
    ensures (forall c | c in Many(6) :: Covered(Full(st), 2, c)) && !Covered(st.runs, 2, Many(6)[0])
  {
    var full := Full(st);
    ManyDiffer(6);
    forall c | c in Many(6) ensures Covered(full, 2, c) {
      var i :| 0 <= i < 6 && Many(6)[i] == c;
      assert full[15 + i].container == c;
    }
    forall k | 0 <= k < |st.runs| ensures st.runs[k].container != Many(6)[0] {
      assert st.runs[k] == full[16 + k];
    }
  }
}
