/** When reconciling a SnapshotPod comes to rest. */
module Convergence {
  import opened Api
  import opened Rounds
  import TP = TaskPipeline

  /** The conditions a SnapshotPod can have: at most one each of Accept, Tasks, TaskStatus. */
  ghost predicate CondsOk(conds: seq<Cond>) {
    && (forall i | 0 <= i < |conds| :: conds[i].typ in {Accept, Tasks, TaskStatus})
    && forall i, j | 0 <= i < j < |conds| :: conds[i].typ != conds[j].typ
  }

  lemma PutKeepsConds(conds: seq<Cond>, typ: CondType, why: string)
    requires CondsOk(conds) && typ in {Accept, Tasks, TaskStatus}
    ensures CondsOk(Approve(conds, typ)) && CondsOk(Reject(conds, typ, why))
  {
  }

  /** Only these conditions can ever be written: none exists at first, and every event of
      every reconcile keeps them so. */
  lemma NextKeepsConds(name: string, w: Worker, e: Event)
    requires CondsOk(w.st.conds) && Next(name, w, e).Some?
    ensures CondsOk(Next(name, w, e).value.st.conds)
  {
    hide CondsOk, Approve, Reject;
    match (w.pc, e)
    case (Validating, Validated(err)) => PutKeepsConds(w.st.conds, Accept, if err.Some? then err.value else "");
    case (Entering, Entered(pod)) => PutKeepsConds(w.st.conds, Tasks, if pod.NoPod? then pod.why else "");
    case (Creating(_), Made(a)) =>
      PutKeepsConds(w.st.conds, Tasks, if a.Unready? || a.Refused? then a.why else "");
    case (Listing, Listed(list)) =>
      PutKeepsConds(w.st.conds, TaskStatus, if list.ListFailed? then list.why else "");
    case _ =>
  }

  ghost predicate Holds(conds: seq<Cond>, typ: CondType) {
    forall i | 0 <= i < |conds| && conds[i].typ == typ :: conds[i].status == IsTrue
  }

  lemma ApproveHolds(conds: seq<Cond>, typ: CondType)
    requires CondsOk(conds)
    ensures Holds(Approve(conds, typ), typ)
    ensures forall other | other != typ && Holds(conds, other) :: Holds(Approve(conds, typ), other)
  {
  }

  lemma ThreeApprovals(conds: seq<Cond>)
    requires CondsOk(conds)
    ensures AllTrue(Approve(Approve(Approve(conds, Accept), Tasks), TaskStatus))
  {
    var c1 := Approve(conds, Accept);
    var c2 := Approve(c1, Tasks);
    var c3 := Approve(c2, TaskStatus);
    PutKeepsConds(conds, Accept, "");
    PutKeepsConds(c1, Tasks, "");
    PutKeepsConds(c2, TaskStatus, "");
    ApproveHolds(conds, Accept);
    ApproveHolds(c1, Tasks);
    ApproveHolds(c2, TaskStatus);
    assert Holds(c3, Accept) && Holds(c3, Tasks) && Holds(c3, TaskStatus);
  }

  predicate AllSettled(runs: seq<Entry>) {
    forall i | 0 <= i < |runs| :: Settled(runs[i].result)
  }

  /** Every entry not yet settled has its task in the list, in a terminal phase. */
  predicate AllDecided(runs: seq<Entry>, view: map<string, TP.Status>) {
    forall i | 0 <= i < |runs| && !Settled(runs[i].result) ::
      runs[i].taskName in view && TP.Terminal(view[runs[i].taskName])
  }

  /** The reconcile after the round was appended: once the pod is found and the list shows
      every task terminal, the round counts as done, every entry is settled, all conditions
      hold, and nothing is requeued. */
  lemma RoundSettles(name: string, spec: SpSpec, st: SpStatus, view: map<string, TP.Status>)
    requires spec.triggerRound > 0 && CondsOk(st.conds)
    requires RoundKnown(st.runs, spec.triggerRound) || st.lastTriggerRound == spec.triggerRound
    requires AllDecided(st.runs, view)
    ensures var trace := [Validated(None), Entered(NotAsked), Listed(TaskList(view)), Saved(true)];
            var end := Replay(name, Start(spec, st), trace);
            && end.Some? && end.value.pc == Stopped(TP.Finished)
            && end.value.st.lastTriggerRound == spec.triggerRound
            && AllSettled(end.value.st.runs) && AllTrue(end.value.st.conds)
            && |Full(end.value.st)| == |Full(st)|
  {
    hide Approve, Reject, CondsOk;
    var w0 := Start(spec, st);
    var t1 := [Validated(None)];
    var t2 := t1 + [Entered(NotAsked)];
    var t3 := t2 + [Listed(TaskList(view))];
    ReplaySnoc(name, w0, [], Validated(None));
    assert [] + [Validated(None)] == t1;
    ReplaySnoc(name, w0, t1, Entered(NotAsked));
    ReplaySnoc(name, w0, t2, Listed(TaskList(view)));
    ThreeApprovals(st.conds);
    var w3 := Replay(name, w0, t3).value;
    assert w3.st.runs == RefreshAll(st.runs, view);
    assert AllSettled(w3.st.runs);
    ReplaySnoc(name, w0, t3, Saved(true));
    assert t3 + [Saved(true)] == [Validated(None), Entered(NotAsked), Listed(TaskList(view)), Saved(true)];
  }

  lemma SettledStep(name: string, w: Worker, e: Event)
    requires UpToDate(w) && AllSettled(w.st.runs) && !w.pc.Creating? && Next(name, w, e).Some?
    ensures var w' := Next(name, w, e).value;
            w'.spec == w.spec && w'.st == w.st.(conds := w'.st.conds) && !w'.pc.Creating?
    ensures !(e.Validated? && e.err.Some?) && !(e.Entered? && !e.pod.NotAsked?) && !e.Made?
  {
    hide Approve, Reject;
    if e.Listed? && e.list.TaskList? {
      assert RefreshAll(w.st.runs, e.list.view) == w.st.runs;
    }
  }

  /** From then on no reconcile, whatever answers it gets, changes an entry or the round, or
      even asks for the pod. */
  lemma {:induction false} SettledStays(name: string, spec: SpSpec, st: SpStatus, trace: seq<Event>)
    requires st.lastTriggerRound == spec.triggerRound && AllSettled(st.runs)
    requires Replay(name, Start(spec, st), trace).Some?
    ensures var w := Replay(name, Start(spec, st), trace).value;
            && w.spec == spec && w.st == st.(conds := w.st.conds) && !w.pc.Creating?
    ensures forall e | e in trace ::
              !(e.Validated? && e.err.Some?) && !(e.Entered? && !e.pod.NotAsked?) && !e.Made?
  {
    hide Next, AllSettled, Settled;
    if trace != [] {
      var init, e := trace[..|trace| - 1], trace[|trace| - 1];
      SettledStays(name, spec, st, init);
      assert trace == init + [e];
      SettledStep(name, Replay(name, Start(spec, st), init).value, e);
    }
  }

  predicate Appends(e: Event) {
    e.Made? && (e.answer.Created? || e.answer.Existed?)
  }

  lemma KnownStep(name: string, w: Worker, e: Event)
    requires Next(name, w, e).Some? && (Appends(e) || RoundKnown(w.st.runs, w.spec.triggerRound))
    ensures RoundKnown(Next(name, w, e).value.st.runs, w.spec.triggerRound)
  {
    hide Approve, Reject;
    var runs := Next(name, w, e).value.st.runs;
    if Appends(e) {
      assert runs[|runs| - 1].round == w.spec.triggerRound;
    } else {
      var i :| 0 <= i < |w.st.runs| && w.st.runs[i].round == w.spec.triggerRound;
      assert runs[i].round == w.spec.triggerRound;
    }
  }

  /** A reconcile that has appended an entry leaves the round in the trimmed list. */
  lemma {:induction false} AppendedIsKnown(name: string, w: Worker, trace: seq<Event>)
    requires Replay(name, w, trace).Some? && exists e :: e in trace && Appends(e)
    ensures RoundKnown(Replay(name, w, trace).value.st.runs, w.spec.triggerRound)
    ensures Replay(name, w, trace).value.spec == w.spec
  {
    var init, e := trace[..|trace| - 1], trace[|trace| - 1];
    assert trace == init + [e];
    SameSpec(name, w, init);
    if !Appends(e) {
      var x :| x in trace && Appends(x);
      assert x in init;
      AppendedIsKnown(name, w, init);
    }
    KnownStep(name, Replay(name, w, init).value, e);
  }

  lemma {:induction false} SameSpec(name: string, w: Worker, trace: seq<Event>)
    requires Replay(name, w, trace).Some?
    ensures Replay(name, w, trace).value.spec == w.spec
  {
    if trace != [] { SameSpec(name, w, trace[..|trace| - 1]); }
  }

  lemma {:induction false} TraceKeepsConds(name: string, w: Worker, trace: seq<Event>)
    requires Replay(name, w, trace).Some? && CondsOk(w.st.conds)
    ensures CondsOk(Replay(name, w, trace).value.st.conds)
  {
    if trace != [] {
      TraceKeepsConds(name, w, trace[..|trace| - 1]);
      NextKeepsConds(name, Replay(name, w, trace[..|trace| - 1]).value, trace[|trace| - 1]);
    }
  }

  /** Two reconciles bring a round to rest: any first one that appended something to it, and
      a second one that finds the pod and sees every listed task terminal. Everything after
      that leaves entries and round alone, even when the pod is gone. */
  lemma RoundConverges(name: string, spec: SpSpec, st: SpStatus, first: seq<Event>,
                       view: map<string, TP.Status>, later: seq<Event>) returns (rest: SpStatus)
    requires spec.triggerRound > 0 && CondsOk(st.conds)
    requires Replay(name, Start(spec, st), first).Some? && exists e :: e in first && Appends(e)
    requires AllDecided(Replay(name, Start(spec, st), first).value.st.runs, view)
    ensures var w1 := Replay(name, Start(spec, st), first).value;
            var second := [Validated(None), Entered(NotAsked), Listed(TaskList(view)), Saved(true)];
            Replay(name, Start(spec, w1.st), second) == Some(Worker(Stopped(TP.Finished), spec, rest))
    ensures rest.lastTriggerRound == spec.triggerRound && AllSettled(rest.runs) && AllTrue(rest.conds)
    ensures Replay(name, Start(spec, rest), later).Some? ==>
              Replay(name, Start(spec, rest), later).value.st
              == rest.(conds := Replay(name, Start(spec, rest), later).value.st.conds)
  {
    AppendedIsKnown(name, Start(spec, st), first);
    TraceKeepsConds(name, Start(spec, st), first);
    var w1 := Replay(name, Start(spec, st), first).value;
    RoundSettles(name, spec, w1.st, view);
    var second := [Validated(None), Entered(NotAsked), Listed(TaskList(view)), Saved(true)];
    SameSpec(name, Start(spec, w1.st), second);
    rest := Replay(name, Start(spec, w1.st), second).value.st;
    if Replay(name, Start(spec, rest), later).Some? {
      SettledStays(name, spec, rest, later);
    }
  }

  /** A listed entry without an outcome, or a condition that does not hold. */
  ghost predicate Waiting(st: SpStatus) {
    || (exists e :: e in st.runs && e.result != SucceedResult && e.result != FailedResult)
    || (exists c :: c in st.conds && c.status != IsTrue)
  }

  lemma SaveReplies(name: string, w: Worker, ok: bool)
    requires w.pc == Saving
    ensures var w' := Next(name, w, Saved(ok)).value;
            w'.st == w.st && w'.pc == Stopped(if !ok then TP.Errored else if Waiting(w.st) then TP.Requeued else TP.Finished)
  {
    if NeedsRequeue(w.st.runs, w.st.conds) {
      if i :| 0 <= i < |w.st.runs| && !Settled(w.st.runs[i].result) {
        assert w.st.runs[i] in w.st.runs;
      } else {
        var j :| 0 <= j < |w.st.conds| && w.st.conds[j].status != IsTrue;
        assert w.st.conds[j] in w.st.conds;
      }
    }
  }

  lemma OnlySavingStops(name: string, w: Worker, e: Event)
    requires Next(name, w, e).Some? && Next(name, w, e).value.pc.Stopped?
    ensures w.pc == Saving && e.Saved?
  {
  }

  /** How a reconcile of a triggered round replies: with an error exactly if its update was
      reported to fail; else it asks to come back exactly as long as a listed entry has no
      outcome or a condition does not hold. */
  lemma ReplyExactly(name: string, spec: SpSpec, st: SpStatus, trace: seq<Event>)
    requires spec.triggerRound > 0 && Replay(name, Start(spec, st), trace).Some?
    requires Replay(name, Start(spec, st), trace).value.pc.Stopped?
    ensures trace != [] && trace[|trace| - 1].Saved?
    ensures var w := Replay(name, Start(spec, st), trace).value;
            w.pc.reply == if !trace[|trace| - 1].ok then TP.Errored else if Waiting(w.st) then TP.Requeued else TP.Finished
  {
    hide Next, Waiting;
    var w, e := Replay(name, Start(spec, st), trace[..|trace| - 1]).value, trace[|trace| - 1];
    OnlySavingStops(name, w, e);
    SaveReplies(name, w, e.ok);
  }
}
