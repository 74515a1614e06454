/** Which containers a round covers. */
module Coverage {
  import opened Api
  import opened Rounds
  import opened History

  predicate Good(a: CreateAnswer) {
    a.Created? || a.Existed?
  }

  function Mades(answers: seq<CreateAnswer>): seq<Event> {
    seq(|answers|, i requires 0 <= i < |answers| => Made(answers[i]))
  }

  /** The entries for the first containers, all of whose answers are good. */
  function Block(name: string, round: int32, names: seq<string>, answers: seq<CreateAnswer>): seq<Entry>
    requires |answers| <= |names| && forall i | 0 <= i < |answers| :: Good(answers[i])
  {
    seq(|answers|, i requires 0 <= i < |answers| && Good(answers[i]) =>
      NewEntry(name, round, names[i], answers[i].image, answers[i].Created?))
  }

  /** How many answers came before the first error. */
  function Errorless(answers: seq<CreateAnswer>): (n: nat)
    ensures n <= |answers| && forall i | 0 <= i < n :: Good(answers[i])
  {
    if answers != [] && !Good(answers[|answers| - 1]) then
      Errorless(answers[..|answers| - 1])
    else if answers == [] then 0
    else
      var n := Errorless(answers[..|answers| - 1]);
      if n == |answers| - 1 then n + 1 else n
  }

  /** The loop after some answers: it has appended one entry per container up to the first
      error, in order, and nothing else; it is through exactly when there was none. */
  lemma {:induction false} LoopAppends(name: string, w: Worker, names: seq<string>, answers: seq<CreateAnswer>)
    requires w.pc == Creating(names) && names != [] && Replay(name, w, Mades(answers)).Some?
    ensures |answers| <= |names|
    ensures var w' := Replay(name, w, Mades(answers)).value; var n := Errorless(answers);
            && w'.spec == w.spec && (WindowOk(w.st) ==> WindowOk(w'.st))
            && Full(w'.st) == Full(w.st) + Block(name, w.spec.triggerRound, names, answers[..n])
            && (n == |answers| < |names| ==> w'.pc == Creating(names[n..]))
            && (n == |answers| == |names| ==> w'.pc == Listing)
            && (n < |answers| ==> n == |answers| - 1 && w'.pc == Saving)
  {
    hide Next, NewEntry, AppendRun, WindowOk;
    if answers == [] {
      assert Full(w.st) + [] == Full(w.st);
      assert names[0..] == names;
    } else {
      var init, a := answers[..|answers| - 1], answers[|answers| - 1];
      assert Mades(answers)[..|answers| - 1] == Mades(init);
      LoopAppends(name, w, names, init);
      var w1 := Replay(name, w, Mades(init)).value;
      OnlyInLoop(name, w1, a);
      assert w1.pc == Creating(names[|init|..]);
      assert init[..|init|] == init && answers[..|init|] == init;
      LoopStep(name, w1, names[|init|..], a);
      if Good(a) {
        var e := NewEntry(name, w.spec.triggerRound, names[|init|], a.image, a.Created?);
        assert answers[..|answers|] == answers;
        assert Block(name, w.spec.triggerRound, names, answers)
            == Block(name, w.spec.triggerRound, names, init) + [e];
        assert names[|init|..][1..] == names[|answers|..];
      }
    }
  }

  lemma OnlyInLoop(name: string, w: Worker, a: CreateAnswer)
    requires Next(name, w, Made(a)).Some?
    ensures w.pc.Creating? && w.pc.todo != [] && Next(name, w, Made(a)).value.st.lastTriggerRound == w.st.lastTriggerRound
  {
  }

  lemma LoopStep(name: string, w: Worker, names: seq<string>, a: CreateAnswer)
    requires w.pc == Creating(names) && names != []
    ensures Next(name, w, Made(a)).Some?
    ensures var w' := Next(name, w, Made(a)).value;
            && w'.spec == w.spec && (WindowOk(w.st) ==> WindowOk(w'.st))
            && if Good(a) then
                 && Full(w'.st) == Full(w.st) + [NewEntry(name, w.spec.triggerRound, names[0], a.image, a.Created?)]
                 && w'.pc == if |names| == 1 then Listing else Creating(names[1..])
               else Full(w'.st) == Full(w.st) && w'.pc == Saving
  {
    if Good(a) {
      AppendSlides(w.st, NewEntry(name, w.spec.triggerRound, names[0], a.image, a.Created?));
    }
  }

  ghost predicate Covered(full: seq<Entry>, round: int32, c: string) {
    exists i | 0 <= i < |full| :: full[i].round == round && full[i].container == c
  }

  /** The entries of a new round cover the containers they were made for and no others. */
  lemma BlockCovers(name: string, before: seq<Entry>, round: int32, names: seq<string>, answers: seq<CreateAnswer>)
    requires NoDup(names) && !HasRound(before, round)
    requires |answers| <= |names| && forall i | 0 <= i < |answers| :: Good(answers[i])
    ensures forall i | 0 <= i < |names| ::
              Covered(before + Block(name, round, names, answers), round, names[i]) <==> i < |answers|
  {
    var block := Block(name, round, names, answers);
    forall i | 0 <= i < |names| ensures Covered(before + block, round, names[i]) <==> i < |answers| {
      if i < |answers| {
        assert (before + block)[|before| + i] == block[i];
      }
      if Covered(before + block, round, names[i]) {
        var k :| 0 <= k < |before + block| && (before + block)[k].round == round
                 && (before + block)[k].container == names[i];
        assert k >= |before|;
        assert block[k - |before|].container == names[k - |before|];
      }
    }
  }

  /** When the loop has ended, every container of a new round is covered exactly if none met
      an error. */
  lemma EveryContainerUnlessError(name: string, w: Worker, names: seq<string>, answers: seq<CreateAnswer>)
    requires w.pc == Creating(names) && names != [] && NoDup(names) && !HasRound(Full(w.st), w.spec.triggerRound)
    requires Replay(name, w, Mades(answers)).Some? && !Replay(name, w, Mades(answers)).value.pc.Creating?
    ensures var full := Full(Replay(name, w, Mades(answers)).value.st);
            && ((forall c | c in names :: Covered(full, w.spec.triggerRound, c)) <==> forall a | a in answers :: Good(a))
            && (forall i | 0 <= i < |names| :: Covered(full, w.spec.triggerRound, names[i]) <==> i < Errorless(answers))
  {
    hide Replay, HasRound, Full, Block, Mades;
    LoopAppends(name, w, names, answers);
    var n := Errorless(answers);
    BlockCovers(name, Full(w.st), w.spec.triggerRound, names, answers[..n]);
    if n < |answers| {
      assert !Good(answers[n]);
      assert names[n] in names;
    } else {
      assert n == |names|;
    }
  }

  /** The round is listed in full when the loop ends exactly if there was room for it. */
  lemma RoundStaysListed(name: string, w: Worker, names: seq<string>, answers: seq<CreateAnswer>)
    requires w.pc == Creating(names) && names != [] && WindowOk(w.st) && Replay(name, w, Mades(answers)).Some?
    ensures Errorless(answers) <= |names|
    ensures var n := Errorless(answers);
            AllListed(Replay(name, w, Mades(answers)).value.st.runs, Block(name, w.spec.triggerRound, names, answers[..n]))
            <==> RoomFor(|w.st.runs|, n)
  {
    hide WindowOk, AllListed, RoomFor;
    LoopAppends(name, w, names, answers);
    var n := Errorless(answers);
    TailFits(w.st, Replay(name, w, Mades(answers)).value.st, Block(name, w.spec.triggerRound, names, answers[..n]));
  }

  // ---------- A whole reconcile ----------

  /** The answers its loop got, in order. */
  function Answers(trace: seq<Event>): seq<CreateAnswer> {
    if trace == [] then []
    else Answers(trace[..|trace| - 1]) + match trace[|trace| - 1] case Made(a) => [a] case _ => []
  }

  /** The containers it was to snapshot; none if it never asked for the pod. */
  function PodNames(trace: seq<Event>): seq<string> {
    if trace == [] then []
    else match trace[|trace| - 1]
      case Entered(Containers(names)) => names
      case _ => PodNames(trace[..|trace| - 1])
  }

  lemma MoreTrace(trace: seq<Event>, e: Event)
    ensures Answers(trace + [e]) == Answers(trace) + (match e case Made(a) => [a] case _ => [])
    ensures PodNames(trace + [e]) == match e case Entered(Containers(names)) => names case _ => PodNames(trace)
  {
    assert (trace + [e])[..|trace|] == trace;
  }

  /** The old entries still stand for their rounds and containers, in their places, and the
      new ones for the first `n` of `names`. */
  ghost predicate Adds(before: seq<Entry>, after: seq<Entry>, round: int32, names: seq<string>, n: nat)
    requires n <= |names|
  {
    && |after| == |before| + n
    && (forall i | 0 <= i < |before| :: after[i].round == before[i].round && after[i].container == before[i].container)
    && forall i | |before| <= i < |after| :: after[i].round == round && after[i].container == names[i - |before|]
  }

  /** What the containers and the answers of a trace say about the worker at its end. */
  ghost predicate Told(spec: SpSpec, st: SpStatus, names: seq<string>, answers: seq<CreateAnswer>, w: Worker) {
    var n := Errorless(answers);
    && w.spec == spec && n <= |names| && Adds(Full(st), Full(w.st), spec.triggerRound, names, n)
    && (if names == [] then answers == []
        else st.lastTriggerRound == w.st.lastTriggerRound != spec.triggerRound && !RoundKnown(st.runs, spec.triggerRound))
    && match w.pc
       case Validating => names == [] && w.st.runs == st.runs && w.st.lastTriggerRound == st.lastTriggerRound
       case Entering => names == [] && w.st.runs == st.runs && w.st.lastTriggerRound == st.lastTriggerRound
       case Creating(todo) => n == |answers| < |names| && todo == names[n..]
       case _ => if n < |answers| then n + 1 == |answers| <= |names| else n == |names|
  }

  lemma ErrorlessSnoc(answers: seq<CreateAnswer>, a: CreateAnswer)
    requires Errorless(answers) == |answers|
    ensures Errorless(answers + [a]) == if Good(a) then |answers| + 1 else |answers|
  {
    assert (answers + [a])[..|answers|] == answers;
  }

  lemma AddsOne(before: seq<Entry>, after: seq<Entry>, round: int32, names: seq<string>, n: nat, e: Entry)
    requires n < |names| && Adds(before, after, round, names, n) && e.round == round && e.container == names[n]
    ensures Adds(before, after + [e], round, names, n + 1)
  {
  }

  lemma AddsNone(before: seq<Entry>, after: seq<Entry>, round: int32, names: seq<string>, names': seq<string>)
    requires Adds(before, after, round, names, 0)
    ensures Adds(before, after, round, names', 0)
  {
  }

  lemma AddsStill(before: seq<Entry>, after: seq<Entry>, after': seq<Entry>, round: int32, names: seq<string>, n: nat)
    requires n <= |names| && Adds(before, after, round, names, n)
    requires |after| == |after'| && forall i | 0 <= i < |after| :: Matures(after[i], after'[i])
    ensures Adds(before, after', round, names, n)
  {
    forall i | 0 <= i < |after| ensures after'[i].round == after[i].round && after'[i].container == after[i].container {
      assert Matures(after[i], after'[i]);
    }
  }

  lemma MadeTold(name: string, spec: SpSpec, st: SpStatus, names: seq<string>, answers: seq<CreateAnswer>, w: Worker, a: CreateAnswer)
    requires Told(spec, st, names, answers, w) && Next(name, w, Made(a)).Some?
    ensures Told(spec, st, names, answers + [a], Next(name, w, Made(a)).value)
  {
    hide RoundKnown, Adds, Next;
    OnlyInLoop(name, w, a);
    LoopStep(name, w, w.pc.todo, a);
    ErrorlessSnoc(answers, a);
    if Good(a) {
      AddsOne(Full(st), Full(w.st), spec.triggerRound, names, |answers|,
              NewEntry(name, spec.triggerRound, names[|answers|], a.image, a.Created?));
    }
    assert names[|answers|..][1..] == names[|answers| + 1..];
  }

  lemma OtherTold(name: string, spec: SpSpec, st: SpStatus, names: seq<string>, answers: seq<CreateAnswer>, w: Worker, e: Event)
    requires Told(spec, st, names, answers, w) && Next(name, w, e).Some? && !e.Made?
    ensures Told(spec, st, if e.Entered? && e.pod.Containers? then e.pod.names else names, answers, Next(name, w, e).value)
  {
    hide RoundKnown, Adds, Approve, Reject;
    var w' := Next(name, w, e).value;
    if e.Listed? && e.list.TaskList? {
      RefreshMatures(w.st, e.list.view);
      AddsStill(Full(st), Full(w.st), Full(w'.st), spec.triggerRound, names, Errorless(answers));
    } else {
      assert Full(w'.st) == Full(w.st);
      if e.Entered? && e.pod.Containers? {
        AddsNone(Full(st), Full(w.st), spec.triggerRound, names, e.pod.names);
        assert e.pod.names[0..] == e.pod.names;
      }
    }
  }

  /** The containers and the answers of a reconcile decide which entries it has added. */
  lemma {:induction false} TraceTold(name: string, spec: SpSpec, st: SpStatus, trace: seq<Event>)
    requires Replay(name, Start(spec, st), trace).Some?
    ensures Told(spec, st, PodNames(trace), Answers(trace), Replay(name, Start(spec, st), trace).value)
  {
    hide Told, Next;
    if trace == [] {
      NothingTold(spec, st);
    } else {
      var init, e := trace[..|trace| - 1], trace[|trace| - 1];
      TraceTold(name, spec, st, init);
      var w := Replay(name, Start(spec, st), init).value;
      if e.Made? {
        MadeTold(name, spec, st, PodNames(init), Answers(init), w, e.answer);
      } else {
        OtherTold(name, spec, st, PodNames(init), Answers(init), w, e);
        assert Answers(init) + [] == Answers(init);
      }
    }
  }

  lemma NothingTold(spec: SpSpec, st: SpStatus)
    ensures Told(spec, st, [], [], Start(spec, st))
  {
  }
}
