/** How a round closes: which containers it covers once the update of the reconcile that
    made its entries has landed, and in every version after that. */
module Closing {
  import opened Api
  import opened Rounds
  import opened History
  import opened Coverage
  import opened Operator
  import opened OperatorTheorems
  import opened Provenance

  /** A reconcile that was at the loop and is about to write, as its trace tells. */
  ghost predicate AboutToSave(s: Sys, id: nat, trace: seq<Event>) {
    && id in s.copies && s.copies[id].w.pc == Saving && s.copies[id].rv < |s.versions|
    && Explains(s.name, s.versions[s.copies[id].rv], trace, s.copies[id].w)
    && PodNames(trace) != []
  }

  /** The update reaches the server and finds the version it was based on. */
  predicate Lands(s: Sys, id: nat, lands: bool) {
    lands && id in s.copies && s.copies[id].rv + 1 == |s.versions|
  }

  /** What a finished loop has added to the version it started from. */
  lemma LoopAdds(name: string, base: Version, trace: seq<Event>, w: Worker)
    requires VersionOk(name, base) && Explains(name, base, trace, w) && w.pc == Saving && PodNames(trace) != []
    ensures var n, r := Errorless(Answers(trace)), base.spec.triggerRound;
            && !HasRound(Full(base.status), r)
            && base.status.lastTriggerRound == w.st.lastTriggerRound != r
            && n <= |PodNames(trace)| && Adds(Full(base.status), Full(w.st), r, PodNames(trace), n)
            && (HasRound(Full(w.st), r) <==> n > 0)
            && forall i | 0 <= i < |PodNames(trace)| :: Covered(Full(w.st), r, PodNames(trace)[i]) <==> i < n
  {
    hide Replay, Full, HistoryOk, WindowOk, Errorless;
    TraceTold(name, base.spec, base.status, trace);
    GuardSeesAll(name, base.status, base.spec.triggerRound);
    AddsCovers(Full(base.status), Full(w.st), base.spec.triggerRound, PodNames(trace), Errorless(Answers(trace)));
  }

  lemma AddsCovers(before: seq<Entry>, after: seq<Entry>, round: int32, names: seq<string>, n: nat)
    requires n <= |names| && Adds(before, after, round, names, n) && !HasRound(before, round) && NoDup(names)
    ensures HasRound(after, round) <==> n > 0
    ensures forall i | 0 <= i < |names| :: Covered(after, round, names[i]) <==> i < n
  {
    if n > 0 { assert after[|before|].round == round; }
    if HasRound(after, round) {
      var k :| 0 <= k < |after| && after[k].round == round;
      assert k >= |before|;
    }
    forall i | 0 <= i < |names| ensures Covered(after, round, names[i]) <==> i < n {
      if i < n { assert after[|before| + i].container == names[i]; }
      if Covered(after, round, names[i]) {
        var k :| 0 <= k < |after| && after[k].round == round && after[k].container == names[i];
        assert k >= |before|;
        assert names[k - |before|] == names[i];
      }
    }
  }

  lemma SaveVersions(s: Sys, id: nat, ok: bool, lands: bool, bumps: bool)
    requires s.versions != [] && id in s.copies && s.copies[id].w.pc == Saving
    ensures var s' := Step(s, SaveSp(id, ok, lands, bumps));
            && (!Lands(s, id, lands) ==> s'.versions == s.versions)
            && (Lands(s, id, lands) ==> Latest(s') == Version(Latest(s).spec, s.copies[id].w.st))
            && (Lands(s, id, lands) && bumps ==> |s'.versions| == |s.versions| + 1)
            && s'.copies.Keys == s.copies.Keys
            && s'.versions != []
  {
    hide Next;
    SavingOnly(s.name, s.copies[id].w, ok);
  }

  /** A finished loop closes its round exactly if its update lands and at least its first
      container met no error; then the round covers exactly the containers before the first
      error. If it lands with the very first container in error the round stays open: the
      next reconcile that finds the pod enters the loop again. */
  lemma LoopCloses(name: string, spec: SpSpec, actions: seq<Action>, id: nat, trace: seq<Event>,
                   ok: bool, lands: bool, bumps: bool)
    requires AboutToSave(Exec(name, spec, actions), id, trace)
    ensures var s := Exec(name, spec, actions);
            var v := Latest(Step(s, SaveSp(id, ok, lands, bumps)));
            var n, r := Errorless(Answers(trace)), s.copies[id].w.spec.triggerRound;
            && (HasRound(Full(v.status), r) <==>
                HasRound(Full(Latest(s).status), r) || (Lands(s, id, lands) && n > 0))
            && (Lands(s, id, lands) ==>
                  && (forall i | 0 <= i < |PodNames(trace)| :: Covered(Full(v.status), r, PodNames(trace)[i]) <==> i < n)
                  && (n == 0 ==> StillOpen(name, v)))
  {
    hide Step, Exec, VersionsOk, WorkerOk, HasRound, Covered, Errorless, VersionOk, TasksOk, Explains, StillOpen;
    var s := Exec(name, spec, actions);
    ExecInv(name, spec, actions);
    ExecAccounted(name, spec, actions);
    SaveVersions(s, id, ok, lands, bumps);
    assert CopyOk(s, s.copies[id]);
    LatestOk(s);
    if Lands(s, id, lands) {
      LoopAdds(name, Latest(s), trace, s.copies[id].w);
      var v := Version(Latest(s).spec, s.copies[id].w.st);
      if Errorless(Answers(trace)) == 0 { OpenIsTried(name, v); }
    }
  }

  lemma LatestOk(s: Sys)
    requires VersionsOk(s)
    ensures s.versions != [] && VersionOk(s.name, Latest(s))
  {
  }

  /** A reconcile of this version that finds the pod goes through the loop. */
  ghost predicate StillOpen(name: string, v: Version) {
    forall names | names != [] && v.spec.triggerRound > 0 ::
      var w := Replay(name, Start(v.spec, v.status), [Validated(None), Entered(Containers(names))]);
      w.Some? && w.value.pc == Creating(names)
  }

  lemma OpenIsTried(name: string, v: Version)
    requires !HasRound(Full(v.status), v.spec.triggerRound) && v.status.lastTriggerRound != v.spec.triggerRound
    ensures StillOpen(name, v)
  {
    var st := v.status;
    forall i | 0 <= i < |st.runs| ensures st.runs[i].round != v.spec.triggerRound {
      assert Full(st)[|st.past| + i] == st.runs[i];
    }
    forall names | names != [] && v.spec.triggerRound > 0
      ensures var w := Replay(name, Start(v.spec, st), [Validated(None), Entered(Containers(names))]);
              w.Some? && w.value.pc == Creating(names)
    {
      var w0, e1, e2 := Start(v.spec, st), Validated(None), Entered(Containers(names));
      ReplaySnoc(name, w0, [], e1);
      assert [] + [e1] == [e1] && [e1] + [e2] == [e1, e2];
      ReplaySnoc(name, w0, [e1], e2);
    }
  }

  /** Once a version holds an entry of a round, no later version covers more of its
      containers, or fewer. */
  lemma CoverageIsFinal(name: string, spec: SpSpec, actions: seq<Action>, i: nat, j: nat, round: int32, c: string)
    requires i <= j < |Exec(name, spec, actions).versions|
    requires HasRound(Full(Exec(name, spec, actions).versions[i].status), round)
    ensures var vs := Exec(name, spec, actions).versions;
            Covered(Full(vs[j].status), round, c) <==> Covered(Full(vs[i].status), round, c)
  {
    hide Exec, VersionsOk;
    var s := Exec(name, spec, actions);
    ExecInv(name, spec, actions);
    ClosedFrom(s, i, j, round);
    VersionChain(s, i, j);
    SameCoverage(Full(s.versions[i].status), Full(s.versions[j].status), round, c);
  }

  lemma SameCoverage(a: seq<Entry>, b: seq<Entry>, round: int32, c: string)
    requires NoMoreOf(a, b, round) && forall k | 0 <= k < |a| :: Matures(a[k], b[k])
    ensures Covered(b, round, c) <==> Covered(a, round, c)
  {
    forall k | 0 <= k < |a| ensures b[k].round == a[k].round && b[k].container == a[k].container {
      assert Matures(a[k], b[k]);
    }
  }

  /** Skipped for good: when the update of a finished loop lands, then in whatever happens
      after it, every version covers of the loop's containers exactly those before the first
      error, unless that was the first container. */
  lemma SkippedForGood(name: string, spec: SpSpec, actions: seq<Action>, id: nat, trace: seq<Event>,
                       ok: bool, bumps: bool, more: seq<Action>, j: nat, i: nat)
    requires var s := Exec(name, spec, actions);
             AboutToSave(s, id, trace) && Lands(s, id, true) && Errorless(Answers(trace)) > 0
    requires var save := SaveSp(id, ok, true, bumps);
             |Exec(name, spec, actions + [save]).versions| <= j + 1
             && j < |Exec(name, spec, actions + [save] + more).versions|
    requires i < |PodNames(trace)|
    ensures var save := SaveSp(id, ok, true, bumps);
            var r := Exec(name, spec, actions).copies[id].w.spec.triggerRound;
            Covered(Full(Exec(name, spec, actions + [save] + more).versions[j].status), r, PodNames(trace)[i])
            <==> i < Errorless(Answers(trace))
  {
    hide Exec, Step, AboutToSave, HasRound, Covered, Errorless;
    var save := SaveSp(id, ok, true, bumps);
    var s, s1 := Exec(name, spec, actions), Exec(name, spec, actions + [save]);
    LoopCloses(name, spec, actions, id, trace, ok, true, bumps);
    ExecSnoc(name, spec, actions, save);
    VersionsStay(name, spec, actions + [save], more);
    ExecAccounted(name, spec, actions + [save]);
    CoverageIsFinal(name, spec, actions + [save] + more, |s1.versions| - 1, j, s.copies[id].w.spec.triggerRound, PodNames(trace)[i]);
  }

  // ---------- When a container is covered at all ----------

  /** Version `b` is the update of a loop of this round, made from version `a`, in which the
      container came before the first error. */
  ghost predicate CoversWith(name: string, a: Version, b: Version, round: int32, c: string, trace: seq<Event>, w: Worker, k: nat) {
    && a.spec.triggerRound == round && b.spec == a.spec && w.pc == Saving && w.st == b.status
    && Explains(name, a, trace, w) && k < Errorless(Answers(trace)) && k < |PodNames(trace)| && PodNames(trace)[k] == c
  }

  ghost predicate Covers(name: string, a: Version, b: Version, round: int32, c: string) {
    exists trace, w, k :: CoversWith(name, a, b, round, c, trace, w, k)
  }

  lemma CoversIsCovered(name: string, a: Version, b: Version, round: int32, c: string)
    requires VersionOk(name, a) && Covers(name, a, b, round, c)
    ensures Covered(Full(b.status), round, c)
  {
    hide Covered, Full, Explains, VersionOk, HasRound;
    var trace, w, k :| CoversWith(name, a, b, round, c, trace, w, k);
    LoopAdds(name, a, trace, w);
  }

  lemma NewlyCovered(name: string, a: Version, b: Version, round: int32, c: string)
    requires b.status == a.status || Written(name, a, b)
    requires Covered(Full(b.status), round, c) && !Covered(Full(a.status), round, c)
    ensures Covers(name, a, b, round, c)
  {
    hide Full, Told, Replay;
    var w: Worker :| w.pc == Saving && w.st == b.status && Explained(name, a, w);
    var trace :| Explains(name, a, trace, w);
    TraceTold(name, a.spec, a.status, trace);
    ToldAdds(a.spec, a.status, PodNames(trace), Answers(trace), w);
    var h :| 0 <= h < |Full(b.status)| && Full(b.status)[h].round == round && Full(b.status)[h].container == c;
    assert h >= |Full(a.status)|;
    assert CoversWith(name, a, b, round, c, trace, w, h - |Full(a.status)|);
  }

  lemma ToldAdds(spec: SpSpec, st: SpStatus, names: seq<string>, answers: seq<CreateAnswer>, w: Worker)
    requires Told(spec, st, names, answers, w)
    ensures Errorless(answers) <= |names|
    ensures Adds(Full(st), Full(w.st), spec.triggerRound, names, Errorless(answers))
  {
  }

  lemma CoverageLasts(a: seq<Entry>, b: seq<Entry>, round: int32, c: string)
    requires Covered(a, round, c) && |a| <= |b| && forall k | 0 <= k < |a| :: Matures(a[k], b[k])
    ensures Covered(b, round, c)
  {
    var k :| 0 <= k < |a| && a[k].round == round && a[k].container == c;
    assert Matures(a[k], b[k]);
  }

  lemma {:induction false} CoveredChain(s: Sys, j: nat, round: int32, c: string)
    requires VersionsOk(s) && Accounted(s) && j < |s.versions|
    ensures Covered(Full(s.versions[j].status), round, c) ==>
              exists i :: 0 <= i < j && Covers(s.name, s.versions[i], s.versions[i + 1], round, c)
  {
    hide Covers, Covered, VersionOk, Backed, Follows, Explained, Written;
    if j == 0 {
      NothingCovered(Full(s.versions[0].status), round, c);
    } else if Covered(Full(s.versions[j].status), round, c) {
      CoveredChain(s, j - 1, round, c);
      if !Covered(Full(s.versions[j - 1].status), round, c) {
        assert s.versions[j - 1 + 1] == s.versions[j];
        NewlyCovered(s.name, s.versions[j - 1], s.versions[j], round, c);
      }
    }
  }

  lemma NothingCovered(full: seq<Entry>, round: int32, c: string)
    requires full == []
    ensures !Covered(full, round, c)
  {
  }

  /** A version covers a container for a round exactly if, before it and while the trigger
      round was that round, the update of a loop landed in which the container came before the
      first error. */
  lemma CoveredExactly(name: string, spec: SpSpec, actions: seq<Action>, j: nat, round: int32, c: string)
    requires j < |Exec(name, spec, actions).versions|
    ensures var vs := Exec(name, spec, actions).versions;
            Covered(Full(vs[j].status), round, c) <==>
            exists i :: 0 <= i < j && Covers(name, vs[i], vs[i + 1], round, c)
  {
    hide Exec, Covers, Covered, VersionOk, Backed, Follows, Explained, Written, TasksOk, CopyOk;
    var s := Exec(name, spec, actions);
    ExecInv(name, spec, actions);
    ExecAccounted(name, spec, actions);
    CoveredChain(s, j, round, c);
    if i :| 0 <= i < j && Covers(name, s.versions[i], s.versions[i + 1], round, c) {
      assert VersionOk(name, s.versions[i]);
      CoversIsCovered(name, s.versions[i], s.versions[i + 1], round, c);
      VersionChain(s, i + 1, j);
      CoverageLasts(Full(s.versions[i + 1].status), Full(s.versions[j].status), round, c);
    }
  }

  lemma {:induction false} SupersededChain(s: Sys, i: nat, j: nat, round: int32)
    requires VersionsOk(s) && i <= j < |s.versions|
    requires s.versions[i].spec.triggerRound > round && !HasRound(Full(s.versions[i].status), round)
    ensures !HasRound(Full(s.versions[j].status), round)
    decreases j - i
  {
    hide VersionOk, Backed, Extends, HasRound;
    if i < j {
      SupersededChain(s, i, j - 1, round);
      VersionChain(s, i, j - 1);
      assert Follows(s.versions[j - 1], s.versions[j - 1 + 1]);
      OtherRound(Full(s.versions[j - 1].status), Full(s.versions[j].status), s.versions[j - 1].spec.triggerRound, round);
    }
  }

  lemma OtherRound(a: seq<Entry>, b: seq<Entry>, next: int32, round: int32)
    requires Extends(a, b, next) && next != round && !HasRound(a, round)
    ensures !HasRound(b, round)
  {
    forall k | 0 <= k < |b| ensures b[k].round != round {
      if k < |a| { assert Matures(a[k], b[k]) && a[k].round != round; }
    }
  }

  /** A round that has no entry when the trigger round is raised above it never gets one,
      whatever reconciles of it are still in flight. */
  lemma Superseded(name: string, spec: SpSpec, actions: seq<Action>, i: nat, j: nat, round: int32)
    requires i <= j < |Exec(name, spec, actions).versions|
    requires var v := Exec(name, spec, actions).versions[i];
             v.spec.triggerRound > round && !HasRound(Full(v.status), round)
    ensures !HasRound(Full(Exec(name, spec, actions).versions[j].status), round)
  {
    hide Exec, HasRound;
    ExecInv(name, spec, actions);
    SupersededChain(Exec(name, spec, actions), i, j, round);
  }
}
