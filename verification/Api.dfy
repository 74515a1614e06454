/** The part of the Kubernetes API vocabulary that both controllers share: 32-bit
    counters, status conditions, and the lookup the reconcilers do on them. */
module Api {

  datatype Option<+T> = None | Some(value: T)

  const MAX_INT32: int := 0x7fff_ffff
  const MIN_INT32: int := -0x8000_0000

  /** Go's int32, as a range; arithmetic on it must say how it wraps. */
  type int32 = x: int | MIN_INT32 <= x <= MAX_INT32

  /** Go's `x++` on an int32: wraps to the least value. */
  function Inc32(x: int32): (r: int32)
    ensures r - x == 1 || (r - x == 1 - 0x1_0000_0000 && x == MAX_INT32)
  {
    if x == MAX_INT32 then MIN_INT32 else x + 1
  }

  datatype CondType = Accept | Commit | Push | Tasks | TaskStatus | Foreign(name: string)

  datatype CondStatus = IsTrue | IsFalse | IsUnknown

  /** metav1.Condition without its Reason (a function of the type) and its time. */
  datatype Cond = Cond(typ: CondType, status: CondStatus, message: string)

  /** Index of the first condition of the given type, or |conds|. */
  function FindCond(conds: seq<Cond>, typ: CondType): (i: nat)
    ensures i <= |conds|
    ensures i < |conds| ==> conds[i].typ == typ
    ensures forall j | 0 <= j < i :: conds[j].typ != typ
  {
    if conds == [] then 0
    else if conds[0].typ == typ then 0
    else 1 + FindCond(conds[1..], typ)
  }

  lemma FindCondIs(conds: seq<Cond>, typ: CondType, i: nat)
    requires i <= |conds|
    requires i < |conds| ==> conds[i].typ == typ
    requires forall j | 0 <= j < i :: conds[j].typ != typ
    ensures FindCond(conds, typ) == i
  {
  }

  /** The conditions with the first one of type `typ` replaced, or a new one appended. */
  function PutCond(conds: seq<Cond>, c: Cond): seq<Cond> {
    var i := FindCond(conds, c.typ);
    if i < |conds| then conds[i := c] else conds + [c]
  }

  predicate AllTrue(conds: seq<Cond>) {
    forall i | 0 <= i < |conds| :: conds[i].status == IsTrue
  }

  ghost predicate NoDup<T>(s: seq<T>) {
    forall i, j | 0 <= i < j < |s| :: s[i] != s[j]
  }
}
