/** Task names: the SnapshotPod's name, the round in decimal and the container's name,
    joined by dashes. */
module Naming {
  import opened Api

  function Digit(d: nat): char
    requires d < 10
  {
    ['0', '1', '2', '3', '4', '5', '6', '7', '8', '9'][d]
  }

  /** Go's %d of a number that is not negative. */
  function Decimal(n: nat): string {
    if n < 10 then [Digit(n)] else Decimal(n / 10) + [Digit(n % 10)]
  }

  function TaskName(pod: string, round: nat, container: string): string {
    pod + "-" + Decimal(round) + "-" + container
  }

  lemma DecimalHasNoDash(n: nat)
    ensures |Decimal(n)| > 0 && '-' !in Decimal(n)
  {
  }

  lemma {:induction false} DecimalInjective(m: nat, n: nat)
    requires Decimal(m) == Decimal(n)
    ensures m == n
  {
    var a, b := Decimal(m), Decimal(n);
    if m >= 10 { DecimalHasNoDash(m / 10); }
    if n >= 10 { DecimalHasNoDash(n / 10); }
    assert a[|a| - 1] == Digit(m % 10) && b[|b| - 1] == Digit(n % 10);
    if m >= 10 && n >= 10 {
      assert a[..|a| - 1] == Decimal(m / 10) && b[..|b| - 1] == Decimal(n / 10);
      DecimalInjective(m / 10, n / 10);
    }
  }

  /** Position of the first dash, or the length. */
  function FirstDash(s: string): (i: nat)
    ensures i <= |s|
  {
    if s == "" || s[0] == '-' then 0 else 1 + FirstDash(s[1..])
  }

  lemma {:induction false} FirstDashIs(a: string, x: string)
    requires '-' !in a
    ensures FirstDash(a + "-" + x) == |a|
  {
    if a != "" {
      assert (a + "-" + x)[1..] == a[1..] + "-" + x;
      FirstDashIs(a[1..], x);
    }
  }

  /** Text before the first dash is determined by the whole. */
  lemma SplitAtDash(a: string, x: string, b: string, y: string)
    requires '-' !in a && '-' !in b && a + "-" + x == b + "-" + y
    ensures a == b && x == y
  {
    var s := a + "-" + x;
    FirstDashIs(a, x);
    FirstDashIs(b, y);
    assert a == s[..|a|] && b == s[..|b|];
    assert x == s[|a| + 1..] && y == s[|b| + 1..];
  }

  /** For one SnapshotPod the name determines the round and the container, whatever digits
      and dashes the container's name contains. */
  lemma TaskNameInjective(pod: string, r1: nat, c1: string, r2: nat, c2: string)
    requires TaskName(pod, r1, c1) == TaskName(pod, r2, c2)
    ensures r1 == r2 && c1 == c2
  {
    var n1, n2 := Decimal(r1) + "-" + c1, Decimal(r2) + "-" + c2;
    assert TaskName(pod, r1, c1) == (pod + "-") + n1;
    assert TaskName(pod, r2, c2) == (pod + "-") + n2;
    assert n1 == TaskName(pod, r1, c1)[|pod| + 1..] == n2;
    DecimalHasNoDash(r1);
    DecimalHasNoDash(r2);
    SplitAtDash(Decimal(r1), c1, Decimal(r2), c2);
    DecimalInjective(r1, r2);
  }

  // ---------- Two SnapshotPods of one namespace ----------

  lemma TailsAgree(a: string, x: string, b: string, y: string)
    requires a + x == b + y && |a| <= |b|
    ensures b[..|a|] == a && x == b[|a|..] + y
  {
    var s := a + x;
    assert s[..|a|] == a == b[..|a|];
    assert s[|a|..] == x;
    assert (b + y)[|a|..] == b[|a|..] + y;
  }

  /** Names of the same length never collide. */
  lemma SameLengthSameName(p: string, r1: nat, c1: string, q: string, r2: nat, c2: string)
    requires |p| == |q| && TaskName(p, r1, c1) == TaskName(q, r2, c2)
    ensures p == q && r1 == r2 && c1 == c2
  {
    var s := TaskName(p, r1, c1);
    assert p == s[..|p|] == q;
    TaskNameInjective(p, r1, c1, r2, c2);
  }

  /** The tasks have the same name: the longer name goes on where the shorter one has its
      round, either up to the round's end or into the container. */
  ghost predicate Overlaps(p: string, r1: nat, c1: string, q: string, r2: nat, c2: string) {
    || (q == p + "-" + Decimal(r1) && c1 == Decimal(r2) + "-" + c2)
    || exists b :: q == p + "-" + Decimal(r1) + "-" + b && c1 == b + "-" + Decimal(r2) + "-" + c2
  }

  /** Tasks of two SnapshotPods have the same name exactly if one name overlaps the other. */
  lemma CollisionExactly(p: string, r1: nat, c1: string, q: string, r2: nat, c2: string)
    requires |p| < |q|
    ensures TaskName(p, r1, c1) == TaskName(q, r2, c2) <==> Overlaps(p, r1, c1, q, r2, c2)
  {
    if TaskName(p, r1, c1) == TaskName(q, r2, c2) {
      CollisionOverlaps(p, r1, c1, q, r2, c2);
    }
    if Overlaps(p, r1, c1, q, r2, c2) {
      OverlapCollides(p, r1, c1, q, r2, c2);
    }
  }

  lemma OverlapCollides(p: string, r1: nat, c1: string, q: string, r2: nat, c2: string)
    requires Overlaps(p, r1, c1, q, r2, c2)
    ensures TaskName(p, r1, c1) == TaskName(q, r2, c2)
  {
    if q == p + "-" + Decimal(r1) && c1 == Decimal(r2) + "-" + c2 {
      assert TaskName(p, r1, c1) == q + "-" + c1;
    } else {
      var b :| q == p + "-" + Decimal(r1) + "-" + b && c1 == b + "-" + Decimal(r2) + "-" + c2;
      assert TaskName(p, r1, c1) == p + "-" + Decimal(r1) + "-" + b + "-" + Decimal(r2) + "-" + c2;
    }
  }

  /** The dash after `a` is the one after `x`, or lies in `x`. */
  lemma DashWithin(a: string, c: string, x: string, y: string) returns (b: string)
    requires '-' !in a && a + "-" + c == x + "-" + y
    ensures (x == a && c == y) || (x == a + "-" + b && c == b + "-" + y)
  {
    FirstDashSplits(x);
    b := "";
    if '-' in x {
      var i := FirstDash(x);
      b := x[i + 1..];
      assert x + "-" + y == x[..i] + "-" + (b + "-" + y);
      SplitAtDash(a, c, x[..i], b + "-" + y);
    } else {
      SplitAtDash(a, c, x, y);
    }
  }

  lemma CollisionOverlaps(p: string, r1: nat, c1: string, q: string, r2: nat, c2: string)
    requires |p| < |q| && TaskName(p, r1, c1) == TaskName(q, r2, c2)
    ensures Overlaps(p, r1, c1, q, r2, c2)
  {
    var d, y := Decimal(r1), Decimal(r2) + "-" + c2;
    assert TaskName(p, r1, c1) == (p + "-") + (d + "-" + c1);
    assert TaskName(q, r2, c2) == q + ("-" + y);
    TailsAgree(p + "-", d + "-" + c1, q, "-" + y);
    var x := q[|p| + 1..]; // what the longer name has beyond the shorter one and its dash
    assert x + ("-" + y) == x + "-" + y;
    DecimalHasNoDash(r1);
    var b := DashWithin(d, c1, x, y);
    assert q == (p + "-") + x;
    if !(x == d && c1 == y) {
      assert (p + "-") + (d + "-" + b) == p + "-" + d + "-" + b;
      assert b + "-" + y == b + "-" + Decimal(r2) + "-" + c2;
    }
  }

  lemma {:induction false} FirstDashSplits(s: string)
    ensures '-' !in s[..FirstDash(s)]
    ensures '-' in s <==> FirstDash(s) < |s|
    ensures '-' in s ==> s == s[..FirstDash(s)] + "-" + s[FirstDash(s) + 1..]
  {
    if s != "" && s[0] != '-' {
      FirstDashSplits(s[1..]);
      assert s[..FirstDash(s)] == [s[0]] + s[1..][..FirstDash(s[1..])];
      assert s == [s[0]] + s[1..];
    }
  }

  predicate IsDigit(c: char) {
    '0' <= c <= '9'
  }

  /** A positive number in decimal without leading zeros. */
  predicate IsNumeral(s: string) {
    s != "" && s[0] != '0' && forall i | 0 <= i < |s| :: IsDigit(s[i])
  }

  function Number(s: string): nat {
    if s == "" || !IsDigit(s[|s| - 1]) then 0
    else 10 * Number(s[..|s| - 1]) + (s[|s| - 1] - '0') as nat
  }

  lemma {:induction false} NumberIsDecimal(s: string)
    requires IsNumeral(s)
    ensures Number(s) > 0 && Decimal(Number(s)) == s
  {
    var d := (s[|s| - 1] - '0') as nat;
    assert Digit(d) == s[|s| - 1];
    if |s| > 1 {
      NumberIsDecimal(s[..|s| - 1]);
      assert Number(s) / 10 == Number(s[..|s| - 1]) && Number(s) % 10 == d;
    }
  }

  lemma {:induction false} DecimalIsNumber(n: nat)
    requires n > 0
    ensures IsNumeral(Decimal(n)) && Number(Decimal(n)) == n
  {
    DecimalDigits(n);
    NumberIsDecimal(Decimal(n));
    DecimalInjective(Number(Decimal(n)), n);
  }

  lemma {:induction false} DecimalDigits(n: nat)
    requires n > 0
    ensures IsNumeral(Decimal(n))
  {
    if n >= 10 { DecimalDigits(n / 10); }
  }

  predicate LabelText(s: string) {
    forall i | 0 <= i < |s| :: IsDigit(s[i]) || 'a' <= s[i] <= 'z' || s[i] == '-'
  }

  /** What Kubernetes admits as the name of a container. */
  predicate ContainerName(c: string) {
    0 < |c| <= 63 && LabelText(c) && c[0] != '-' && c[|c| - 1] != '-'
  }

  /** Names of objects have at most this many characters. */
  const MAX_NAME := 253

  /** What can be read off two names: one goes on with a dash and a number in the range of
      rounds, up to its end, or to another dash and what can begin a container's name. */
  predicate NumberedAfter(p: string, q: string) {
    && |p| < |q| <= MAX_NAME - 4 && q[..|p| + 1] == p + "-"
    && NumberedText(q[|p| + 1..])
  }

  predicate NumberedText(x: string) {
    var i := FirstDash(x);
    && IsNumeral(x[..i]) && Number(x[..i]) <= MAX_INT32
    && (i < |x| ==> StartsContainer(x[i + 1..]))
  }

  /** Leaves room for a dash, a digit, a dash and a letter. */
  predicate StartsContainer(b: string) {
    0 < |b| <= 59 && LabelText(b) && b[0] != '-'
  }

  ghost predicate Collide(p: string, r1: nat, c1: string, q: string, r2: nat, c2: string) {
    && 0 < r1 <= MAX_INT32 && 0 < r2 <= MAX_INT32 && ContainerName(c1) && ContainerName(c2)
    && TaskName(p, r1, c1) == TaskName(q, r2, c2) && |TaskName(p, r1, c1)| <= MAX_NAME
  }

  /** With rounds and containers that Kubernetes admits their tasks can have the same name. */
  ghost predicate CanCollide(p: string, q: string) {
    exists r1: nat, c1, r2: nat, c2 :: Collide(p, r1, c1, q, r2, c2)
  }

  lemma CollideIsNumbered(p: string, r1: nat, c1: string, q: string, r2: nat, c2: string)
    requires Collide(p, r1, c1, q, r2, c2) && |p| < |q|
    ensures NumberedAfter(p, q)
  {
    hide TaskName, ContainerName, LabelText, NumberedText;
    var d := Decimal(r1);
    CollisionOverlaps(p, r1, c1, q, r2, c2);
    DecimalHasNoDash(r1);
    DecimalHasNoDash(r2);
    NameLength(q, r2, c2);
    if q == p + "-" + d && c1 == Decimal(r2) + "-" + c2 {
      assert q == (p + "-") + d && q[|p| + 1..] == d;
      NumberedEnd(r1);
    } else {
      var b :| q == p + "-" + d + "-" + b && c1 == b + "-" + Decimal(r2) + "-" + c2;
      assert q == (p + "-") + (d + "-" + b) && q[|p| + 1..] == d + "-" + b;
      BeginsContainer(b, r2, c2);
      NumberedWithin(r1, b);
    }
  }

  lemma NameLength(q: string, r: nat, c: string)
    requires ContainerName(c)
    ensures |TaskName(q, r, c)| >= |q| + 4
  {
    DecimalHasNoDash(r);
  }

  lemma BeginsContainer(b: string, r: nat, c: string)
    requires ContainerName(b + "-" + Decimal(r) + "-" + c) && ContainerName(c)
    ensures StartsContainer(b)
  {
    var s := b + "-" + Decimal(r) + "-" + c;
    DecimalHasNoDash(r);
    assert forall i | 0 <= i < |b| :: s[i] == b[i];
    assert s[|b|] == '-';
  }

  lemma NumberedEnd(r: nat)
    requires 0 < r <= MAX_INT32
    ensures NumberedText(Decimal(r))
  {
    var d := Decimal(r);
    DecimalHasNoDash(r);
    DecimalIsNumber(r);
    FirstDashSplits(d);
    assert d[..|d|] == d;
  }

  lemma NumberedWithin(r: nat, b: string)
    requires 0 < r <= MAX_INT32 && StartsContainer(b)
    ensures NumberedText(Decimal(r) + "-" + b)
  {
    hide StartsContainer, IsNumeral, Number, Decimal;
    var d := Decimal(r);
    DecimalHasNoDash(r);
    DecimalIsNumber(r);
    FirstDashIs(d, b);
    assert (d + "-" + b)[..|d|] == d && (d + "-" + b)[|d| + 1..] == b;
  }

  lemma ShortestTask(q: string)
    ensures TaskName(q, 1, "c") == q + "-1-c" && Decimal(1) == "1"
  {
    assert q + "-" + "1" + "-" + "c" == q + "-1-c";
  }

  lemma EndCollides(p: string, r: nat, q: string)
    requires 0 < r <= MAX_INT32 && q == p + "-" + Decimal(r) && |q| <= MAX_NAME - 4
    ensures CanCollide(p, q)
  {
    var c := Decimal(1) + "-" + "c";
    ShortestTask(q);
    assert c == "1-c";
    assert Overlaps(p, r, c, q, 1, "c");
    OverlapCollides(p, r, c, q, 1, "c");
    assert Collide(p, r, c, q, 1, "c");
  }

  lemma WithinCollides(p: string, r: nat, b: string, q: string)
    requires 0 < r <= MAX_INT32 && q == p + "-" + Decimal(r) + "-" + b && |q| <= MAX_NAME - 4 && StartsContainer(b)
    ensures CanCollide(p, q)
  {
    hide TaskName, Decimal;
    var c := b + "-" + Decimal(1) + "-" + "c";
    ShortestTask(q);
    assert c == b + "-1-c";
    assert Overlaps(p, r, c, q, 1, "c");
    OverlapCollides(p, r, c, q, 1, "c");
    ExtendsToContainer(b);
    assert Collide(p, r, c, q, 1, "c");
  }

  lemma ExtendsToContainer(b: string)
    requires StartsContainer(b)
    ensures ContainerName(b + "-1-c") && ContainerName("c")
  {
  }

  lemma Regroup(a: string, d: string, b: string)
    ensures a + (d + "-" + b) == a + d + "-" + b
  {
  }

  lemma NumberedCollides(p: string, q: string)
    requires NumberedAfter(p, q)
    ensures CanCollide(p, q)
  {
    hide CanCollide, Decimal, FirstDash, Number, StartsContainer, IsNumeral;
    var x := q[|p| + 1..];
    var i := FirstDash(x);
    FirstDashSplits(x);
    NumberIsDecimal(x[..i]);
    var r := Number(x[..i]);
    assert q == (p + "-") + x;
    if '-' in x {
      Regroup(p + "-", x[..i], x[i + 1..]);
      WithinCollides(p, r, x[i + 1..], q);
    } else {
      assert x[..i] == x;
      EndCollides(p, r, q);
    }
  }

  /** Two SnapshotPods can come to share a task name exactly if one of their names goes on,
      where the other ends, with a dash and a number. */
  lemma TaskNamesCollideExactly(p: string, q: string)
    requires p != q
    ensures CanCollide(p, q) <==> NumberedAfter(p, q) || NumberedAfter(q, p)
  {
    hide NumberedAfter, TaskName, ContainerName;
    if CanCollide(p, q) {
      var r1: nat, c1, r2: nat, c2 :| Collide(p, r1, c1, q, r2, c2);
      if |p| < |q| {
        CollideIsNumbered(p, r1, c1, q, r2, c2);
      } else if |q| < |p| {
        CollideIsNumbered(q, r2, c2, p, r1, c1);
      } else {
        SameLengthSameName(p, r1, c1, q, r2, c2);
      }
    }
    if NumberedAfter(p, q) { NumberedCollides(p, q); }
    if NumberedAfter(q, p) {
      NumberedCollides(q, p);
      var r1: nat, c1, r2: nat, c2 :| Collide(q, r1, c1, p, r2, c2);
      assert Collide(p, r2, c2, q, r1, c1);
    }
  }

  /** For example. */
  lemma TaskNamesCanCollide()
    ensures TaskName("a", 1, "2-x") == TaskName("a-1", 2, "x") && ContainerName("2-x") && ContainerName("x")
    ensures "a" != "a-1" && "2-x" != "x"
  {
    assert TaskName("a", 1, "2-x") == "a-1-2-x";
    assert TaskName("a-1", 2, "x") == "a-1-2-x";
  }
}
