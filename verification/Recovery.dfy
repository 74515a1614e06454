/** Which image a new pod is given back: the recovery choice of the admission webhook, and
    why neither the unstable sort nor the trimmed history can make it an old one. */
module Recovery {
  import opened Api
  import opened Rounds
  import opened History

  ghost predicate Descending(runs: seq<Entry>) {
    forall i, j | 0 <= i < j < |runs| :: runs[i].round >= runs[j].round
  }

  /** What sort.Slice may leave behind: any arrangement with the rounds descending. */
  ghost predicate IsSortOf(sorted: seq<Entry>, runs: seq<Entry>) {
    multiset(sorted) == multiset(runs) && Descending(sorted)
  }

  function Insert(sorted: seq<Entry>, e: Entry): seq<Entry> {
    if sorted == [] || sorted[0].round <= e.round then [e] + sorted
    else [sorted[0]] + Insert(sorted[1..], e)
  }

  lemma ConsDescending(e: Entry, rest: seq<Entry>)
    requires Descending(rest) && forall x | x in rest :: x.round <= e.round
    ensures Descending([e] + rest)
  {
  }

  lemma {:induction false} InsertSorts(sorted: seq<Entry>, e: Entry)
    requires Descending(sorted)
    ensures Descending(Insert(sorted, e)) && multiset(Insert(sorted, e)) == multiset(sorted) + multiset{e}
  {
    if sorted == [] || sorted[0].round <= e.round {
      ConsDescending(e, sorted);
    } else {
      var rest := Insert(sorted[1..], e);
      InsertSorts(sorted[1..], e);
      assert sorted == [sorted[0]] + sorted[1..];
      forall x | x in rest ensures x.round <= sorted[0].round {
        SameMembers(rest, sorted[1..] + [e], x);
      }
      ConsDescending(sorted[0], rest);
    }
  }

  /** Every list has such an arrangement. */
  lemma {:induction false} SortExists(runs: seq<Entry>) returns (sorted: seq<Entry>)
    ensures IsSortOf(sorted, runs)
  {
    if runs == [] {
      sorted := [];
    } else {
      var rest := SortExists(runs[1..]);
      InsertSorts(rest, runs[0]);
      sorted := Insert(rest, runs[0]);
      assert runs == [runs[0]] + runs[1..];
    }
  }

  /** The first success of every container, in the order given. */
  function FirstSuccesses(sorted: seq<Entry>): map<string, string> {
    if sorted == [] then map[]
    else
      var out, item := FirstSuccesses(sorted[..|sorted| - 1]), sorted[|sorted| - 1];
      if item.container in out || item.result != SucceedResult then out
      else out[item.container := item.image]
  }

  /** The last entry of the round for every container, in the order given. */
  function OfRound(runs: seq<Entry>, round: int32): map<string, string> {
    if runs == [] then map[]
    else
      var out, item := OfRound(runs[..|runs| - 1], round), runs[|runs| - 1];
      if item.round == round then out[item.container := item.image] else out
  }

  /** `e` is the success with the greatest round among those of its container. */
  ghost predicate Newest(runs: seq<Entry>, e: Entry) {
    && e in runs && e.result == SucceedResult
    && forall e' | e' in runs && e'.container == e.container && e'.result == SucceedResult ::
         e'.round < e.round || e' == e
  }

  ghost predicate Succeeded(runs: seq<Entry>, c: string) {
    exists e :: e in runs && e.container == c && e.result == SucceedResult
  }

  /** No two entries for one round and container. */
  ghost predicate Distinct(runs: seq<Entry>) {
    forall e, e' | e in runs && e' in runs && e.round == e'.round && e.container == e'.container :: e == e'
  }

  lemma HistoryDistinct(name: string, full: seq<Entry>, bound: int32)
    requires HistoryOk(name, full, bound)
    ensures Distinct(full)
  {
  }

  lemma SameMembers(a: seq<Entry>, b: seq<Entry>, e: Entry)
    requires multiset(a) == multiset(b)
    ensures e in a <==> e in b
  {
    assert e in a <==> e in multiset(a);
    assert e in b <==> e in multiset(b);
  }

  /** Where the image of a container comes from. */
  lemma {:induction false} FirstSuccessIndex(sorted: seq<Entry>, c: string) returns (k: nat)
    requires c in FirstSuccesses(sorted)
    ensures k < |sorted| && sorted[k].container == c && sorted[k].result == SucceedResult
    ensures FirstSuccesses(sorted)[c] == sorted[k].image
    ensures forall i | 0 <= i < k :: !(sorted[i].container == c && sorted[i].result == SucceedResult)
  {
    var n := |sorted| - 1;
    if c in FirstSuccesses(sorted[..n]) {
      k := FirstSuccessIndex(sorted[..n], c);
    } else {
      k := n;
      forall i | 0 <= i < n ensures !(sorted[i].container == c && sorted[i].result == SucceedResult) {
        if sorted[i].container == c && sorted[i].result == SucceedResult {
          SuccessIsFound(sorted[..n], i);
        }
      }
    }
  }

  lemma {:induction false} SuccessIsFound(sorted: seq<Entry>, i: nat)
    requires i < |sorted| && sorted[i].result == SucceedResult
    ensures sorted[i].container in FirstSuccesses(sorted)
  {
    var n := |sorted| - 1;
    if i < n { SuccessIsFound(sorted[..n], i); }
  }

  /** Every order the sort may produce gives the same answer: a container is mapped exactly
      if it has a success, and then to the image of its newest one. */
  lemma UnstableSortIsHarmless(sorted: seq<Entry>, runs: seq<Entry>, c: string)
    requires IsSortOf(sorted, runs) && Distinct(runs)
    ensures c in FirstSuccesses(sorted) <==> Succeeded(runs, c)
    ensures c in FirstSuccesses(sorted) ==>
              exists e :: Newest(runs, e) && e.container == c && e.image == FirstSuccesses(sorted)[c]
    ensures forall e | Newest(runs, e) && e.container == c ::
              c in FirstSuccesses(sorted) && FirstSuccesses(sorted)[c] == e.image
  {
    hide FirstSuccesses;
    forall e ensures e in sorted <==> e in runs { SameMembers(sorted, runs, e); }
    if Succeeded(runs, c) {
      var e :| e in runs && e.container == c && e.result == SucceedResult;
      var i :| 0 <= i < |sorted| && sorted[i] == e;
      SuccessIsFound(sorted, i);
    }
    if c in FirstSuccesses(sorted) {
      var k := FirstSuccessIndex(sorted, c);
      assert sorted[k] in runs;
      forall e | e in runs && e.container == c && e.result == SucceedResult
        ensures e.round < sorted[k].round || e == sorted[k]
      {
        var i :| 0 <= i < |sorted| && sorted[i] == e;
        assert i >= k;
      }
      assert Newest(runs, sorted[k]);
    }
  }

  /** Recovering a given round takes its entries whatever came of them. */
  lemma {:induction false} OfRoundIs(runs: seq<Entry>, round: int32, c: string)
    requires Distinct(runs)
    ensures c in OfRound(runs, round) <==> exists e :: e in runs && e.round == round && e.container == c
    ensures forall e | e in runs && e.round == round && e.container == c ::
              c in OfRound(runs, round) && OfRound(runs, round)[c] == e.image
  {
    if runs != [] {
      var init, item := runs[..|runs| - 1], runs[|runs| - 1];
      assert runs == init + [item];
      assert forall e :: e in runs <==> e in init || e == item;
      OfRoundIs(init, round, c);
    }
  }

  /** The trimmed list is a window on the full history that may lose an answer but never
      gives an older one. */
  lemma WindowNewest(name: string, st: SpStatus, bound: int32, e: Entry)
    requires HistoryOk(name, Full(st), bound) && Newest(st.runs, e)
    ensures Newest(Full(st), e)
  {
    var full := Full(st);
    var k :| 0 <= k < |st.runs| && st.runs[k] == e;
    assert full[|st.past| + k] == e;
    forall e' | e' in full && e'.container == e.container && e'.result == SucceedResult
      ensures e'.round < e.round || e' == e
    {
      var i :| 0 <= i < |full| && full[i] == e';
      if i >= |st.past| { assert st.runs[i - |st.past|] == e'; }
    }
  }

  /** Window and full history agree on a container exactly when its newest success, if there
      is one, has not been trimmed away. */
  lemma WindowAgreement(name: string, st: SpStatus, bound: int32, sorted: seq<Entry>, whole: seq<Entry>, c: string)
    requires HistoryOk(name, Full(st), bound)
    requires IsSortOf(sorted, st.runs) && IsSortOf(whole, Full(st))
    ensures c in FirstSuccesses(sorted) ==>
              c in FirstSuccesses(whole) && FirstSuccesses(sorted)[c] == FirstSuccesses(whole)[c]
    ensures c in FirstSuccesses(whole) && c !in FirstSuccesses(sorted) <==>
              exists e :: Newest(Full(st), e) && e.container == c && e !in st.runs
  {
    HistoryDistinct(name, Full(st), bound);
    assert forall e | e in st.runs :: e in Full(st);
    UnstableSortIsHarmless(sorted, st.runs, c);
    UnstableSortIsHarmless(whole, Full(st), c);
    if c in FirstSuccesses(sorted) {
      var e :| Newest(st.runs, e) && e.container == c && e.image == FirstSuccesses(sorted)[c];
      WindowNewest(name, st, bound, e);
      forall e' | Newest(Full(st), e') && e'.container == c ensures e' in st.runs {
        assert e' == e;
      }
    }
  }
}
