/** The history of a SnapshotPod: what its entries look like, how much of it the trimmed
    list still shows, and what one reconcile can do to it. */
module History {
  import opened Api
  import opened Naming
  import opened Rounds
  import TP = TaskPipeline

  // ---------- The sliding window ----------

  /** How many of `n` appended entries the list still holds. */
  function WindowLen(n: nat): nat {
    if n <= 20 then n else 5 + (n - 21) % 16
  }

  predicate WindowOk(st: SpStatus) {
    |st.runs| == WindowLen(|Full(st)|)
  }

  lemma AppendSlides(st: SpStatus, e: Entry)
    ensures Full(AppendRun(st, e)) == Full(st) + [e]
    ensures WindowOk(st) ==> WindowOk(AppendRun(st, e))
  {
  }

  function AppendAll(st: SpStatus, es: seq<Entry>): SpStatus {
    if es == [] then st else AppendRun(AppendAll(st, es[..|es| - 1]), es[|es| - 1])
  }

  lemma {:induction false} AppendAllSlides(st: SpStatus, es: seq<Entry>)
    requires WindowOk(st)
    ensures WindowOk(AppendAll(st, es)) && Full(AppendAll(st, es)) == Full(st) + es
  {
    if es == [] {
      assert Full(st) + es == Full(st);
    } else {
      AppendAllSlides(st, es[..|es| - 1]);
      AppendSlides(AppendAll(st, es[..|es| - 1]), es[|es| - 1]);
      assert Full(st) + es == Full(st) + es[..|es| - 1] + [es[|es| - 1]];
    }
  }

  lemma WindowBound(n: nat)
    ensures WindowLen(n) <= n && WindowLen(n) <= 20 && (n > 0 ==> WindowLen(n) > 0)
  {
  }

  lemma EmptyWindow()
    ensures WindowOk(NEW_SP_STATUS)
  {
    assert Full(NEW_SP_STATUS) == [];
  }

  /** After n appends to an empty list exactly the last L(n) are left, where L(n) is n up to
      20 and from then on runs from 5 to 20 again and again. */
  lemma WindowClosedForm(es: seq<Entry>)
    ensures var runs := AppendAll(NEW_SP_STATUS, es).runs;
            && |runs| == WindowLen(|es|) <= 20
            && |runs| <= |es| && runs == es[|es| - |runs|..]
  {
    var st := AppendAll(NEW_SP_STATUS, es);
    EmptyWindow();
    AppendAllSlides(NEW_SP_STATUS, es);
    assert Full(NEW_SP_STATUS) + es == es;
    WindowBound(|es|);
    assert es == st.past + st.runs;
  }

  /** The entries `es` are all listed, at the end. */
  predicate AllListed(runs: seq<Entry>, es: seq<Entry>) {
    |es| <= |runs| && runs[|runs| - |es|..] == es
  }

  /** What decides whether `k` new entries after `r` listed ones all stay listed: up to five
      always do, more than twenty never; in between no trim must come, or just one and early. */
  predicate RoomFor(r: nat, k: nat) {
    k <= 5 || (k <= 20 && (r + k <= 20 || (16 <= r && r + k <= 36)))
  }

  /** A round stays listed in full until its last entry exactly if there was room for it. */
  lemma RoundFits(st: SpStatus, es: seq<Entry>)
    requires WindowOk(st)
    ensures AllListed(AppendAll(st, es).runs, es) <==> RoomFor(|st.runs|, |es|)
  {
    hide AppendAll, AppendRun;
    AppendAllSlides(st, es);
    TailFits(st, AppendAll(st, es), es);
  }

  lemma TailFits(st: SpStatus, st': SpStatus, es: seq<Entry>)
    requires WindowOk(st) && WindowOk(st') && Full(st') == Full(st) + es
    ensures AllListed(st'.runs, es) <==> RoomFor(|st.runs|, |es|)
  {
    hide Full;
    WindowRoom(|Full(st)|, |es|);
    if |es| <= |st'.runs| {
      FullIs(st');
      SameTail(st'.past, st'.runs, Full(st), es);
    }
  }

  lemma FullIs(st: SpStatus)
    ensures Full(st) == st.past + st.runs
  {
  }

  lemma WindowRoom(n: nat, k: nat)
    ensures k <= WindowLen(n + k) <==> RoomFor(WindowLen(n), k)
  {
    if n > 20 { LaterWindow(n - 21, k); }
  }

  /** `m` appends after the first trim, and `k` more. */
  lemma LaterWindow(m: nat, k: nat)
    ensures var r := 5 + m % 16;
            (m + k) % 16 == if r + k < 21 then r - 5 + k else if r + k < 37 then r + k - 21 else (r + k - 37) % 16
  {
    var a, q := m % 16, m / 16;
    assert m + k == 16 * q + (a + k);
    SameRest(q, a + k);
    if a + k >= 32 { SameRest(2, a + k - 32); } else if a + k >= 16 { SameRest(1, a + k - 16); }
  }

  lemma SameRest(q: nat, x: nat)
    ensures (16 * q + x) % 16 == x % 16
  {
  }

  lemma SameTail(a: seq<Entry>, b: seq<Entry>, c: seq<Entry>, tail: seq<Entry>)
    requires a + b == c + tail && |tail| <= |b|
    ensures b[|b| - |tail|..] == tail
  {
    assert b[|b| - |tail|..] == (a + b)[|a + b| - |tail|..];
    assert tail == (c + tail)[|c + tail| - |tail|..];
  }

  // ---------- The full history ----------

  /** Sorted by round, one entry per round and container, all from positive rounds up to
      `bound`, each naming the task of its round and container, none ever RUNNING. */
  ghost predicate HistoryOk(name: string, full: seq<Entry>, bound: int32) {
    && (forall i | 0 <= i < |full| ::
          && 0 < full[i].round <= bound
          && full[i].taskName == TaskName(name, full[i].round, full[i].container)
          && full[i].result != RunningResult)
    && (forall i, j | 0 <= i < j < |full| ::
          full[i].round <= full[j].round
          && !(full[i].round == full[j].round && full[i].container == full[j].container))
  }

  ghost predicate HasRound(full: seq<Entry>, round: int32) {
    exists i | 0 <= i < |full| :: full[i].round == round
  }

  /** How one entry may change: its identity never, its result only until it is settled. */
  predicate Matures(a: Entry, b: Entry) {
    && b == a.(result := b.result, failedReason := b.failedReason)
    && (Settled(a.result) ==> b == a)
    && (b.result == a.result || b.result == CreatedResult || Settled(b.result))
  }

  /** How one persisted history may follow another: old entries mature, and new ones all
      belong to one round that was not there before. */
  ghost predicate Extends(a: seq<Entry>, b: seq<Entry>, round: int32) {
    && |a| <= |b|
    && (forall i | 0 <= i < |a| :: Matures(a[i], b[i]))
    && (forall i | |a| <= i < |b| :: b[i].round == round)
    && (|a| < |b| ==> !HasRound(a, round))
  }

  lemma ExtendsTrans(a: seq<Entry>, b: seq<Entry>, c: seq<Entry>, round: int32)
    requires Extends(a, b, round) && |b| == |c| && forall i | 0 <= i < |b| :: Matures(b[i], c[i])
    ensures Extends(a, c, round)
  {
    forall i | 0 <= i < |a| ensures Matures(a[i], c[i]) {
      assert Matures(a[i], b[i]) && Matures(b[i], c[i]);
    }
  }

  /** The guard of reconcileTasks looks at the trimmed list only, and yet sees every round
      that matters: trimming never removes the last entry. */
  lemma GuardSeesAll(name: string, st: SpStatus, round: int32)
    requires HistoryOk(name, Full(st), round) && WindowOk(st)
    ensures RoundKnown(st.runs, round) <==> HasRound(Full(st), round)
  {
    hide WindowLen;
    if Full(st) != [] { LastIsKept(st); }
    if RoundKnown(st.runs, round) {
      var i :| 0 <= i < |st.runs| && st.runs[i].round == round;
      assert Full(st)[|st.past| + i].round == round;
    }
    if HasRound(Full(st), round) {
      var full := Full(st);
      var i :| 0 <= i < |full| && full[i].round == round;
      assert full[i].round <= full[|full| - 1].round <= round;
      assert st.runs[|st.runs| - 1].round == round;
    }
  }

  lemma LastIsKept(st: SpStatus)
    requires WindowOk(st) && Full(st) != []
    ensures st.runs != [] && st.runs[|st.runs| - 1] == Full(st)[|Full(st)| - 1]
  {
    WindowBound(|Full(st)|);
  }

  // ---------- One reconcile ----------

  /** A worker under way, relative to the status its copy is based on. */
  ghost predicate WorkerOk(name: string, base: SpStatus, w: Worker) {
    && HistoryOk(name, Full(w.st), w.spec.triggerRound)
    && WindowOk(w.st)
    && Extends(Full(base), Full(w.st), w.spec.triggerRound)
    && (!w.pc.Stopped? ==> w.spec.triggerRound > 0)
    && (w.pc.Validating? || w.pc.Entering? ==> Full(w.st) == Full(base))
    && (w.pc.Creating? ==>
          && NoDup(w.pc.todo)
          && !HasRound(Full(base), w.spec.triggerRound)
          && forall i | 0 <= i < |Full(w.st)| && Full(w.st)[i].round == w.spec.triggerRound ::
               Full(w.st)[i].container !in w.pc.todo)
  }

  lemma StartOk(name: string, spec: SpSpec, base: SpStatus)
    requires HistoryOk(name, Full(base), spec.triggerRound) && WindowOk(base)
    ensures WorkerOk(name, base, Start(spec, base))
  {
  }

  lemma AppendKeepsHistory(name: string, full: seq<Entry>, e: Entry, bound: int32)
    requires HistoryOk(name, full, bound) && 0 < e.round == bound
    requires e.taskName == TaskName(name, e.round, e.container) && e.result != RunningResult
    requires forall i | 0 <= i < |full| && full[i].round == bound :: full[i].container != e.container
    ensures HistoryOk(name, full + [e], bound)
  {
  }

  lemma RefreshMatures(st: SpStatus, view: map<string, TP.Status>)
    ensures var full, full' := Full(st), Full(st.(runs := RefreshAll(st.runs, view)));
            |full| == |full'| && forall i | 0 <= i < |full| :: Matures(full[i], full'[i])
  {
  }

  lemma MatureKeepsHistory(name: string, full: seq<Entry>, full': seq<Entry>, bound: int32)
    requires HistoryOk(name, full, bound)
    requires |full| == |full'| && forall i | 0 <= i < |full| :: Matures(full[i], full'[i])
    ensures HistoryOk(name, full', bound)
  {
    forall i | 0 <= i < |full'|
      ensures full'[i].round == full[i].round && full'[i].container == full[i].container
      ensures full'[i].taskName == full[i].taskName && full'[i].result != RunningResult
    {
      assert Matures(full[i], full'[i]);
    }
  }

  lemma SameFull(a: SpStatus, b: SpStatus)
    requires b == a.(conds := b.conds)
    ensures Full(b) == Full(a) && (WindowOk(a) ==> WindowOk(b))
  {
  }

  lemma MadeKeepsWorker(name: string, base: SpStatus, w: Worker, a: CreateAnswer)
    requires WorkerOk(name, base, w) && w.pc.Creating? && Next(name, w, Made(a)).Some?
    requires a.Created? || a.Existed?
    ensures WorkerOk(name, base, Next(name, w, Made(a)).value)
  {
    hide HistoryOk, WindowOk, AppendRun, Full;
    var w' := Next(name, w, Made(a)).value;
    var e := NewEntry(name, w.spec.triggerRound, w.pc.todo[0], a.image, a.Created?);
    SameFull(AppendRun(w.st, e), w'.st);
    AppendSlides(w.st, e);
    AppendKeepsHistory(name, Full(w.st), e, w.spec.triggerRound);
    assert Full(w'.st) == Full(w.st) + [e];
    if w'.pc.Creating? {
      assert forall c | c in w'.pc.todo :: c in w.pc.todo && c != w.pc.todo[0];
    }
  }

  lemma ListedKeepsWorker(name: string, base: SpStatus, w: Worker, list: ListAnswer)
    requires WorkerOk(name, base, w) && w.pc.Listing?
    ensures WorkerOk(name, base, Next(name, w, Listed(list)).value)
  {
    var w' := Next(name, w, Listed(list)).value;
    if list.TaskList? {
      RefreshMatures(w.st, list.view);
      MatureKeepsHistory(name, Full(w.st), Full(w'.st), w.spec.triggerRound);
      ExtendsTrans(Full(base), Full(w.st), Full(w'.st), w.spec.triggerRound);
    } else {
      assert Full(w'.st) == Full(w.st);
    }
  }

  /** A change that leaves the history alone. */
  lemma SameHistory(name: string, base: SpStatus, w: Worker, w': Worker)
    requires WorkerOk(name, base, w) && !w.pc.Stopped? && w'.spec == w.spec
    requires w'.st.runs == w.st.runs && w'.st.past == w.st.past && !w'.pc.Creating? && !w'.pc.Validating?
    requires w'.pc.Entering? ==> w.pc.Validating?
    ensures WorkerOk(name, base, w')
  {
    assert Full(w'.st) == Full(w.st);
  }

  lemma EnteredKeepsWorker(name: string, base: SpStatus, w: Worker, pod: PodAnswer)
    requires WorkerOk(name, base, w) && w.pc.Entering? && Next(name, w, Entered(pod)).Some?
    requires pod.Containers? ==> NoDup(pod.names)
    ensures WorkerOk(name, base, Next(name, w, Entered(pod)).value)
  {
    var w' := Next(name, w, Entered(pod)).value;
    GuardSeesAll(name, w.st, w.spec.triggerRound);
    if !w'.pc.Creating? { SameHistory(name, base, w, w'); }
  }

  /** One event of a reconcile keeps the history in order, provided the pod's container
      names differ. */
  lemma NextKeepsWorker(name: string, base: SpStatus, w: Worker, e: Event)
    requires WorkerOk(name, base, w) && Next(name, w, e).Some?
    requires e.Entered? && e.pod.Containers? ==> NoDup(e.pod.names)
    ensures WorkerOk(name, base, Next(name, w, e).value)
  {
    if w.pc.Entering? {
      EnteredKeepsWorker(name, base, w, e.pod);
    } else if w.pc.Listing? {
      ListedKeepsWorker(name, base, w, e.list);
    } else if w.pc.Creating? && (e.answer.Created? || e.answer.Existed?) {
      MadeKeepsWorker(name, base, w, e.answer);
    } else {
      SameHistory(name, base, w, Next(name, w, e).value);
    }
  }
}
