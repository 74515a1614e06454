/** What the operator as a whole promises, over every interleaving of module Operator. */
module OperatorTheorems {
  import opened Api
  import opened Naming
  import opened Rounds
  import opened History
  import opened Recovery
  import opened Operator
  import opened Convergence
  import W = Webhook
  import TP = TaskPipeline
  import TS = TaskStore

  // ---------- The history over a whole run ----------

  lemma MaturesTrans(a: Entry, b: Entry, c: Entry)
    requires Matures(a, b) && Matures(b, c)
    ensures Matures(a, c)
  {
  }

  /** Between two versions entries only mature, in place, and the trigger round only rises. */
  lemma {:induction false} VersionChain(s: Sys, i: nat, j: nat)
    requires VersionsOk(s) && i <= j < |s.versions|
    ensures s.versions[i].spec.triggerRound <= s.versions[j].spec.triggerRound
    ensures |Full(s.versions[i].status)| <= |Full(s.versions[j].status)|
    ensures forall k | 0 <= k < |Full(s.versions[i].status)| ::
              Matures(Full(s.versions[i].status)[k], Full(s.versions[j].status)[k])
    decreases j - i
  {
    if i < j {
      VersionChain(s, i, j - 1);
      var a, b, c := Full(s.versions[i].status), Full(s.versions[j - 1].status), Full(s.versions[j].status);
      assert Follows(s.versions[j - 1], s.versions[j - 1 + 1]);
      forall k | 0 <= k < |a| ensures Matures(a[k], c[k]) {
        MaturesTrans(a[k], b[k], c[k]);
      }
    }
  }

  /** Every persisted history is sorted by round with one entry per round and container; the
      list shows exactly the last L(n) of its n entries. */
  lemma HistoryDiscipline(name: string, spec: SpSpec, actions: seq<Action>, i: nat)
    requires i < |Exec(name, spec, actions).versions|
    ensures var v := Exec(name, spec, actions).versions[i];
            && HistoryOk(name, Full(v.status), v.spec.triggerRound)
            && |v.status.runs| == WindowLen(|Full(v.status)|) <= 20
  {
    ExecInv(name, spec, actions);
    ExecName(name, spec, actions);
    var v := Exec(name, spec, actions).versions[i];
    assert VersionOk(name, v);
    WindowBound(|Full(v.status)|);
  }

  /** Two updates that append do so for different rounds, the later one for the greater:
      each round is one block, written by exactly one persisted reconcile. */
  lemma OneBlockPerRound(name: string, spec: SpSpec, actions: seq<Action>, i: nat, j: nat)
    requires i < j && j + 1 < |Exec(name, spec, actions).versions|
    requires var vs := Exec(name, spec, actions).versions;
             |Full(vs[i].status)| < |Full(vs[i + 1].status)| && |Full(vs[j].status)| < |Full(vs[j + 1].status)|
    ensures var vs := Exec(name, spec, actions).versions;
            var before, after := Full(vs[i].status), Full(vs[i + 1].status);
            && (forall k | |before| <= k < |after| :: after[k].round == vs[i].spec.triggerRound)
            && vs[i].spec.triggerRound < vs[j].spec.triggerRound
  {
    ExecInv(name, spec, actions);
    var s := Exec(name, spec, actions);
    var vs := s.versions;
    assert Follows(vs[i], vs[i + 1]) && Follows(vs[j], vs[j + 1]);
    VersionChain(s, i, j);
    VersionChain(s, i + 1, j);
    var k := |Full(vs[i].status)|;
    assert Matures(Full(vs[i + 1].status)[k], Full(vs[j].status)[k]);
    assert Full(vs[j].status)[k].round == vs[i].spec.triggerRound;
  }

  /** No entry of the round is added from version `i` to version `j`. */
  ghost predicate NoMoreOf(a: seq<Entry>, c: seq<Entry>, round: int32) {
    |a| <= |c| && forall k | |a| <= k < |c| :: c[k].round != round
  }

  lemma NoMoreAfter(a: seq<Entry>, b: seq<Entry>, c: seq<Entry>, round: int32, next: int32)
    requires HasRound(b, round) && NoMoreOf(a, b, round) && Extends(b, c, next)
    ensures NoMoreOf(a, c, round) && HasRound(c, round)
  {
    var h :| 0 <= h < |b| && b[h].round == round;
    assert Matures(b[h], c[h]);
    forall k | |a| <= k < |c| ensures c[k].round != round {
      if k < |b| { assert Matures(b[k], c[k]); }
    }
  }

  lemma {:induction false} ClosedFrom(s: Sys, i: nat, j: nat, round: int32)
    requires VersionsOk(s) && i <= j < |s.versions| && HasRound(Full(s.versions[i].status), round)
    ensures NoMoreOf(Full(s.versions[i].status), Full(s.versions[j].status), round)
    ensures HasRound(Full(s.versions[j].status), round)
    decreases j - i
  {
    hide HistoryOk, WindowOk, Backed, Extends;
    if i < j {
      ClosedFrom(s, i, j - 1, round);
      assert Follows(s.versions[j - 1], s.versions[j - 1 + 1]);
      NoMoreAfter(Full(s.versions[i].status), Full(s.versions[j - 1].status), Full(s.versions[j].status),
                  round, s.versions[j - 1].spec.triggerRound);
    }
  }

  /** Once one entry of a round is persisted the round is closed: no version will ever add
      another, so a container that an error kept out of it is never snapshot for it. */
  lemma RoundIsClosed(name: string, spec: SpSpec, actions: seq<Action>, i: nat, j: nat, round: int32)
    requires i <= j < |Exec(name, spec, actions).versions|
    requires HasRound(Full(Exec(name, spec, actions).versions[i].status), round)
    ensures var vs := Exec(name, spec, actions).versions;
            NoMoreOf(Full(vs[i].status), Full(vs[j].status), round)
  {
    ExecInv(name, spec, actions);
    ClosedFrom(Exec(name, spec, actions), i, j, round);
  }

  // ---------- Entries and tasks ----------

  /** At any time every entry of every persisted version, however old the list it was folded
      from, tells the truth about its task: it exists under the name of the entry's round and
      container, SUCCEED means COMPLETED and FAILED means FAILED. Identities never change,
      results only until they are settled, and RUNNING is never written. */
  lemma EntryTaskAgreement(name: string, spec: SpSpec, actions: seq<Action>, i: nat, j: nat, k: nat)
    requires i <= j < |Exec(name, spec, actions).versions|
    requires k < |Full(Exec(name, spec, actions).versions[i].status)|
    ensures var s := Exec(name, spec, actions);
            var full := Full(s.versions[i].status);
            && EntryBacked(s.tasks, full[k])
            && full[k].round > 0 && full[k].taskName == TaskName(name, full[k].round, full[k].container)
            && full[k].result != RunningResult
            && k < |Full(s.versions[j].status)| && Matures(full[k], Full(s.versions[j].status)[k])
  {
    ExecInv(name, spec, actions);
    ExecName(name, spec, actions);
    var s := Exec(name, spec, actions);
    VersionChain(s, i, j);
    assert VersionOk(name, s.versions[i]) && Backed(s.tasks, Full(s.versions[i].status));
  }

  /** Different entries never share a task. */
  lemma EntriesHaveTheirOwnTasks(name: string, spec: SpSpec, actions: seq<Action>, i: nat, k: nat, l: nat)
    requires i < |Exec(name, spec, actions).versions|
    requires k < l < |Full(Exec(name, spec, actions).versions[i].status)|
    ensures var full := Full(Exec(name, spec, actions).versions[i].status);
            full[k].taskName != full[l].taskName
  {
    HistoryDiscipline(name, spec, actions, i);
    var full := Full(Exec(name, spec, actions).versions[i].status);
    if full[k].taskName == full[l].taskName {
      TaskNameInjective(name, full[k].round, full[k].container, full[l].round, full[l].container);
    }
  }

  // ---------- What the webhook hands out ----------

  /** What the webhook sees of a persisted version. */
  ghost predicate Shows(item: W.Item, v: Version) {
    item.spec == v.spec && item.runs == v.status.runs
  }

  /** The entry `e` and its task vouch for the image of container `c`. */
  ghost predicate Vouched(s: Sys, st: SpStatus, c: string, image: string, e: Entry) {
    && Newest(Full(st), e) && e.container == c && e.image == image
    && e.round > 0 && e.taskName == TaskName(s.name, e.round, c) && e.taskName in s.tasks
    && var t := s.tasks[e.taskName];
       && TS.Current(t).phase == TP.CompletedPhase
       && TS.CommittedThenPushed(t.log, t.spec.commitImage)
       && (TS.CommittedThenPushed(t.log, image) <==> t.spec.commitImage == image)
       && (e.made ==> t.spec.commitImage == image)
  }

  /** The webhook, at any moment, reading any persisted version that asks for the last
      success, however the sort falls out, injects for a container only the image of the
      newest success in the whole history, of an entry whose task is COMPLETED and has
      committed and then pushed its own image; that is the injected image exactly if the
      task's image is the entry's, which holds whenever the entry was appended by the
      reconcile that created the task. */
  lemma RecoverySafety(name: string, spec: SpSpec, actions: seq<Action>, v: nat, item: W.Item, sorted: seq<Entry>, c: string)
    returns (e: Entry)
    requires v < |Exec(name, spec, actions).versions| && Shows(item, Exec(name, spec, actions).versions[v])
    requires item.spec.recoveryRound == 0 && IsSortOf(sorted, item.runs)
    requires c in W.Chosen(item, sorted)
    ensures var s := Exec(name, spec, actions);
            Vouched(s, s.versions[v].status, c, W.Chosen(item, sorted)[c].image, e) && s.name == name
  {
    ExecInv(name, spec, actions);
    ExecName(name, spec, actions);
    var s := Exec(name, spec, actions);
    var st, bound := s.versions[v].status, s.versions[v].spec.triggerRound;
    assert VersionOk(name, s.versions[v]) && Backed(s.tasks, Full(st));
    e := NewestInjected(name, st, bound, sorted, c);
    var k :| 0 <= k < |Full(st)| && Full(st)[k] == e;
    assert EntryBacked(s.tasks, Full(st)[k]);
    assert TS.Inv(s.tasks[e.taskName]);
    OnlyItsOwnImage(s.tasks[e.taskName], e.image);
  }

  lemma NewestInjected(name: string, st: SpStatus, bound: int32, sorted: seq<Entry>, c: string) returns (e: Entry)
    requires HistoryOk(name, Full(st), bound) && IsSortOf(sorted, st.runs) && c in FirstSuccesses(sorted)
    ensures Newest(Full(st), e) && e.container == c && e.image == FirstSuccesses(sorted)[c]
  {
    HistoryDistinct(name, Full(st), bound);
    assert forall x | x in st.runs :: x in Full(st);
    UnstableSortIsHarmless(sorted, st.runs, c);
    e :| Newest(st.runs, e) && e.container == c && e.image == FirstSuccesses(sorted)[c];
    WindowNewest(name, st, bound, e);
  }

  /** A version that asks for a given round is served from that round's listed entries alone,
      one per container, but whatever came of them: FAILED and unfinished ones as well. */
  lemma RequestedRound(name: string, spec: SpSpec, actions: seq<Action>, v: nat, item: W.Item, sorted: seq<Entry>, c: string)
    requires v < |Exec(name, spec, actions).versions| && Shows(item, Exec(name, spec, actions).versions[v])
    requires item.spec.recoveryRound > 0
    ensures c in W.Chosen(item, sorted) <==>
            exists e :: e in item.runs && e.round == item.spec.recoveryRound && e.container == c
    ensures forall e | e in item.runs && e.round == item.spec.recoveryRound && e.container == c ::
              c in W.Chosen(item, sorted) && W.Chosen(item, sorted)[c].image == e.image
  {
    HistoryDiscipline(name, spec, actions, v);
    var full := Full(Exec(name, spec, actions).versions[v].status);
    HistoryDistinct(name, full, Exec(name, spec, actions).versions[v].spec.triggerRound);
    assert forall x | x in item.runs :: x in full;
    OfRoundIs(item.runs, item.spec.recoveryRound, c);
  }

  lemma OnlyItsOwnImage(t: TS.TaskSys, image: string)
    requires TS.LogOk(t) && TS.Done(TS.Current(t)) == 3
    ensures TS.CommittedThenPushed(t.log, t.spec.commitImage)
    ensures TS.CommittedThenPushed(t.log, image) <==> t.spec.commitImage == image
  {
    if TS.CommittedThenPushed(t.log, image) {
      var i, j :| 0 <= i < j < |t.log| && t.log[i] == TP.CommitCall(image, true) && t.log[j] == TP.PushCall(image, true);
      assert t.log[i].CommitCall?;
    }
  }

  // ---------- The conditions ----------

  ghost predicate CondsInv(s: Sys) {
    && (forall i | 0 <= i < |s.versions| :: CondsOk(s.versions[i].status.conds))
    && forall id | id in s.copies :: CondsOk(s.copies[id].w.st.conds)
  }

  lemma MoveKeepsConds(s: Sys, id: nat, e: Event)
    requires CondsInv(s) && Enabled(s, id, e)
    ensures CondsInv(Move(s, id, e))
  {
    hide CondsOk, Next;
    NextKeepsConds(s.name, s.copies[id].w, e);
  }

  lemma CreateKeepsConds(s: Sys, id: nat, taskSpec: TP.TaskSpec, lost: bool)
    requires CondsInv(s) && id in s.copies && s.copies[id].w.pc.Creating? && s.copies[id].w.pc.todo != []
    ensures CondsInv(AfterCreate(s, id, taskSpec, lost))
  {
    hide CondsOk;
    var n := NextName(s, s.copies[id].w);
    if n in s.tasks {
      MoveKeepsConds(s, id, Made(Existed(taskSpec.commitImage)));
    } else {
      MoveKeepsConds(WithTask(s, n, taskSpec), id,
                     Made(if lost then Refused("reply lost") else Created(taskSpec.commitImage)));
    }
  }

  lemma StepKeepsConds(s: Sys, a: Action)
    requires CondsInv(s) && s.versions != []
    ensures CondsInv(Step(s, a)) && Step(s, a).versions != []
  {
    hide CondsOk, Next;
    match a
    case Proceed(id, e) => if Enabled(s, id, e) { MoveKeepsConds(s, id, e); }
    case CreateTask(id, taskSpec, lost) =>
      if id in s.copies && s.copies[id].w.pc.Creating? && s.copies[id].w.pc.todo != [] {
        CreateKeepsConds(s, id, taskSpec, lost);
      }
    case ListTasks(id, seen) =>
      var e := Listed(TaskList(View(s.tasks, seen)));
      if Enabled(s, id, e) { MoveKeepsConds(s, id, e); }
    case SaveSp(id, ok, lands, bumps) => if Enabled(s, id, Saved(ok)) { MoveKeepsConds(s, id, Saved(ok)); }
    case _ =>
  }

  /** Whatever happens, a SnapshotPod has at most one condition of each of its three types;
      RoundConverges asks for that. */
  lemma {:induction false} ConditionsInOrder(name: string, spec: SpSpec, actions: seq<Action>)
    ensures CondsInv(Exec(name, spec, actions)) && Exec(name, spec, actions).versions != []
  {
    if actions != [] {
      ConditionsInOrder(name, spec, actions[..|actions| - 1]);
      StepKeepsConds(Exec(name, spec, actions[..|actions| - 1]), actions[|actions| - 1]);
    }
  }
}
