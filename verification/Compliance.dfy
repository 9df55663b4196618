/** Compliance figures: counters per severity, their order, and the overall percentage as a weighted
    mean of theirs. Percentages are exact numbers, rounded to tenths at the end. */
module Compliance {

  datatype Row = Row(severity: string, status: string)

  datatype Class = Passed | Partial | Failed | Errors | Skipped

  /** The counter a status goes to; everything unknown counts as failed. */
  function ClassOf(status: string): Class {
    if status == "pass" then Passed
    else if status == "partial" then Partial
    else if status == "skipped" then Skipped
    else if status == "error" then Errors
    else Failed
  }

  datatype Bucket = Bucket(total: nat, passed: nat, partial: nat, failed: nat, errors: nat, skipped: nat)

  const EMPTY := Bucket(0, 0, 0, 0, 0, 0)

  function Count(b: Bucket, c: Class): nat {
    match c
    case Passed => b.passed
    case Partial => b.partial
    case Failed => b.failed
    case Errors => b.errors
    case Skipped => b.skipped
  }

  function Bump(b: Bucket, c: Class): Bucket {
    var u := b.(total := b.total + 1);
    match c
    case Passed => u.(passed := u.passed + 1)
    case Partial => u.(partial := u.partial + 1)
    case Failed => u.(failed := u.failed + 1)
    case Errors => u.(errors := u.errors + 1)
    case Skipped => u.(skipped := u.skipped + 1)
  }

  function Plus(a: Bucket, b: Bucket): Bucket {
    Bucket(a.total + b.total, a.passed + b.passed, a.partial + b.partial, a.failed + b.failed, a.errors + b.errors,
           a.skipped + b.skipped)
  }

  /** How many of the rows are of a severity and a class: the reference the counters are held to. */
  function Occurrences(rows: seq<Row>, severity: string, c: Class): nat {
    if rows == [] then 0
    else
      var last := rows[|rows| - 1];
      Occurrences(rows[..|rows| - 1], severity, c) + if last.severity == severity && ClassOf(last.status) == c then 1 else 0
  }

  function Tally(rows: seq<Row>, severity: string): Bucket {
    if rows == [] then EMPTY
    else
      var last := rows[|rows| - 1];
      var front := Tally(rows[..|rows| - 1], severity);
      if last.severity == severity then Bump(front, ClassOf(last.status)) else front
  }

  predicate Balanced(b: Bucket) { b.total == b.passed + b.partial + b.failed + b.errors + b.skipped }

  /** MAIN: every counter counts its rows, and the total is the sum of the five counters. */
  lemma {:induction false} TallyCounts(rows: seq<Row>, severity: string)
    ensures Balanced(Tally(rows, severity))
    ensures forall c :: Count(Tally(rows, severity), c) == Occurrences(rows, severity, c)
  {
    if rows != [] { TallyCounts(rows[..|rows| - 1], severity); }
  }

  /** How many rows of the severity have this status. */
  function WithStatus(rows: seq<Row>, severity: string, status: string): nat {
    if rows == [] then 0
    else (if rows[0] == Row(severity, status) then 1 else 0) + WithStatus(rows[1..], severity, status)
  }

  function OfSeverity(rows: seq<Row>, severity: string): nat {
    if rows == [] then 0 else (if rows[0].severity == severity then 1 else 0) + OfSeverity(rows[1..], severity)
  }

  lemma {:induction false} CountedFromFront(rows: seq<Row>, last: Row, severity: string, status: string)
    ensures WithStatus(rows + [last], severity, status)
            == WithStatus(rows, severity, status) + if last == Row(severity, status) then 1 else 0
    ensures OfSeverity(rows + [last], severity) == OfSeverity(rows, severity) + if last.severity == severity then 1 else 0
  {
    if rows == [] {
      assert rows + [last] == [last] && [last][1..] == [];
    } else {
      assert (rows + [last])[1..] == rows[1..] + [last];
      CountedFromFront(rows[1..], last, severity, status);
    }
  }

  /** MAIN: the counters are those of the statuses `pass`, `partial`, `error` and `skipped`; every other
      status counts as failed. */
  lemma {:induction false} CountersAreStatuses(rows: seq<Row>, severity: string)
    ensures var b := Tally(rows, severity);
            && b.total == OfSeverity(rows, severity) && b.passed == WithStatus(rows, severity, "pass")
            && b.partial == WithStatus(rows, severity, "partial") && b.errors == WithStatus(rows, severity, "error")
            && b.skipped == WithStatus(rows, severity, "skipped")
            && b.failed == b.total - b.passed - b.partial - b.errors - b.skipped
  {
    hide WithStatus, OfSeverity;
    if rows == [] {
      NothingCounted(severity);
    } else {
      var front, last := rows[..|rows| - 1], rows[|rows| - 1];
      assert rows == front + [last];
      CountersAreStatuses(front, severity);
      CountedFromFront(front, last, severity, "pass");
      CountedFromFront(front, last, severity, "partial");
      CountedFromFront(front, last, severity, "error");
      CountedFromFront(front, last, severity, "skipped");
    }
  }

  lemma NothingCounted(severity: string)
    ensures OfSeverity([], severity) == 0 && forall status :: WithStatus([], severity, status) == 0
  {
  }

  // ---------- percentages ----------

  function Assessed(b: Bucket): int { b.total - b.skipped }

  function Score(b: Bucket): real { b.passed as real + 0.5 * (b.partial as real) }

  function Exact(b: Bucket): real {
    if Assessed(b) <= 0 then 0.0 else 100.0 * Score(b) / (Assessed(b) as real)
  }

  /** Nearest tenth, the even one of two. */
  function Tenths(x: real): int {
    var n := (10.0 * x).Floor;
    var rest := 10.0 * x - n as real;
    if rest < 0.5 then n else if rest > 0.5 then n + 1 else if n % 2 == 0 then n else n + 1
  }

  function Rounded(x: real): real { Tenths(x) as real / 10.0 }

  /** `_compliance_percent`. */
  function Percent(b: Bucket): real { Rounded(Exact(b)) }

  lemma RoundingIsMonotone(x: real, y: real)
    requires x <= y
    ensures Tenths(x) <= Tenths(y) && Rounded(x) <= Rounded(y)
  {
    var m, n := (10.0 * x).Floor, (10.0 * y).Floor;
    assert m <= n;
  }

  /** A percentage of what is assessed: passed requirements count whole, partial ones half, and skipped
      ones not at all. */
  lemma ExactIsShare(b: Bucket)
    requires Balanced(b)
    ensures b.total == b.skipped ==> Exact(b) == 0.0
    ensures b.total > b.skipped ==>
              Exact(b) * ((b.total - b.skipped) as real) == 100.0 * (b.passed as real) + 50.0 * (b.partial as real)
  {
    if b.total > b.skipped {
      var a := (b.total - b.skipped) as real;
      Divide(Exact(b), 100.0 * Score(b), a);
      assert Exact(b) == 100.0 * Score(b) / a;
    }
  }

  /** Rounded to the nearest tenth; half-way to the even one. */
  lemma RoundedIsNearest(x: real)
    ensures Rounded(x) == Tenths(x) as real / 10.0 && -0.05 <= x - Rounded(x) <= 0.05
    ensures x - Rounded(x) == 0.05 || x - Rounded(x) == -0.05 ==> Tenths(x) % 2 == 0
  {
  }

  lemma RoundingKeepsTenths(n: int)
    ensures Tenths(n as real / 10.0) == n
  {
    assert 10.0 * (n as real / 10.0) == n as real;
  }

  lemma ZeroStaysZero()
    ensures Rounded(0.0) == 0.0
  {
    assert 0 as real / 10.0 == 0.0;
    RoundingKeepsTenths(0);
    hide Tenths;
  }

  lemma Divide(a: real, b: real, c: real)
    requires c > 0.0
    ensures a <= b / c <==> a * c <= b
    ensures b / c <= a <==> b <= a * c
  {
    assert (b / c) * c == b;
  }

  /** MAIN: every percentage, exact or rounded, lies within 0..100. */
  lemma PercentInRange(b: Bucket)
    requires Balanced(b)
    ensures 0.0 <= Exact(b) <= 100.0 && 0.0 <= Percent(b) <= 100.0
  {
    if Assessed(b) > 0 {
      var a := Assessed(b) as real;
      assert 0.0 <= Score(b) <= a;
      Divide(0.0, 100.0 * Score(b), a);
      Divide(100.0, 100.0 * Score(b), a);
    }
    RoundingIsMonotone(0.0, Exact(b));
    RoundingIsMonotone(Exact(b), 100.0);
    RoundingKeepsTenths(0);
    RoundingKeepsTenths(1000);
    assert 0.0 == 0 as real / 10.0 && 100.0 == 1000 as real / 10.0;
  }

  // ---------- buckets and the overall figure ----------

  function Sum(bs: seq<Bucket>): Bucket {
    if bs == [] then EMPTY else Plus(Sum(bs[..|bs| - 1]), bs[|bs| - 1])
  }

  function Overall(rows: seq<Row>): Bucket {
    if rows == [] then EMPTY else Bump(Overall(rows[..|rows| - 1]), ClassOf(rows[|rows| - 1].status))
  }

  function Tallies(rows: seq<Row>, severities: seq<string>): (bs: seq<Bucket>)
    ensures |bs| == |severities| && forall i :: 0 <= i < |bs| ==> bs[i] == Tally(rows, severities[i])
  {
    seq(|severities|, i requires 0 <= i < |severities| => Tally(rows, severities[i]))
  }

  predicate NoneTwice(s: seq<string>) { forall i, j :: 0 <= i < j < |s| ==> s[i] != s[j] }

  predicate Cover(severities: seq<string>, rows: seq<Row>) { forall r <- rows :: r.severity in severities }

  /** MAIN: the buckets' counters add up to the overall ones. */
  lemma {:induction false} BucketsSumToOverall(rows: seq<Row>, severities: seq<string>)
    requires NoneTwice(severities) && Cover(severities, rows)
    ensures Sum(Tallies(rows, severities)) == Overall(rows)
  {
    if rows == [] {
      SumOfNothing(Tallies(rows, severities));
    } else {
      var front, last := rows[..|rows| - 1], rows[|rows| - 1];
      assert rows == front + [last] && last in rows && forall r <- front :: r in rows;
      BucketsSumToOverall(front, severities);
      var k :| 0 <= k < |severities| && severities[k] == last.severity;
      var bs, cs := Tallies(front, severities), Tallies(rows, severities);
      assert forall i :: 0 <= i < |cs| ==> cs[i] == if i == k then Bump(bs[i], ClassOf(last.status)) else bs[i];
      SumBump(bs, cs, k, ClassOf(last.status));
    }
  }

  lemma PlusNothing(b: Bucket)
    ensures Plus(b, EMPTY) == b
  {
  }

  lemma {:induction false} SumOfNothing(bs: seq<Bucket>)
    requires forall i :: 0 <= i < |bs| ==> bs[i] == EMPTY
    ensures Sum(bs) == EMPTY
  {
    hide Plus, EMPTY;
    if bs != [] {
      SumOfNothing(bs[..|bs| - 1]);
      PlusNothing(EMPTY);
    }
  }

  lemma {:induction false} SumBump(bs: seq<Bucket>, cs: seq<Bucket>, k: nat, c: Class)
    requires k < |bs| == |cs| && forall i :: 0 <= i < |cs| ==> cs[i] == if i == k then Bump(bs[i], c) else bs[i]
    ensures Sum(cs) == Bump(Sum(bs), c)
  {
    var n := |bs| - 1;
    if k < n {
      SumBump(bs[..n], cs[..n], k, c);
    } else {
      assert bs[..n] == cs[..n];
    }
  }

  // ---------- the weighted mean ----------

  /** The index of an assessed bucket with the smallest (or, with `most`, the largest) percentage. */
  function Extreme(bs: seq<Bucket>, most: bool): (k: nat)
    requires exists i :: 0 <= i < |bs| && Assessed(bs[i]) > 0
    ensures k < |bs| && Assessed(bs[k]) > 0
    ensures forall i :: 0 <= i < |bs| && Assessed(bs[i]) > 0 ==>
              if most then Exact(bs[i]) <= Exact(bs[k]) else Exact(bs[k]) <= Exact(bs[i])
  {
    var n := |bs| - 1;
    if forall i :: 0 <= i < n ==> Assessed(bs[i]) <= 0 then n
    else
      assert exists i :: 0 <= i < |bs[..n]| && Assessed(bs[..n][i]) > 0 by {
        var i :| 0 <= i < n && Assessed(bs[i]) > 0;
        assert bs[..n][i] == bs[i];
      }
      var k := Extreme(bs[..n], most);
      assert forall i :: 0 <= i < n ==> bs[..n][i] == bs[i];
      if Assessed(bs[n]) > 0 && (if most then Exact(bs[k]) < Exact(bs[n]) else Exact(bs[n]) < Exact(bs[k])) then n else k
  }

  /** The score lies between the bounds, taken of what is assessed. */
  predicate Within(b: Bucket, lo: real, hi: real) {
    lo * Assessed(b) as real <= 100.0 * Score(b) <= hi * Assessed(b) as real
  }

  lemma ExactIsWithin(b: Bucket, lo: real, hi: real)
    requires Balanced(b)
    ensures Assessed(b) > 0 ==> (lo <= Exact(b) <= hi <==> Within(b, lo, hi))
    ensures Assessed(b) == 0 ==> Within(b, lo, hi)
  {
    if Assessed(b) > 0 {
      Divide(lo, 100.0 * Score(b), Assessed(b) as real);
      Divide(hi, 100.0 * Score(b), Assessed(b) as real);
    } else {
      assert Score(b) == 0.0 && lo * 0.0 == 0.0 && hi * 0.0 == 0.0;
    }
  }

  lemma WithinPlus(a: Bucket, b: Bucket, lo: real, hi: real)
    requires Within(a, lo, hi) && Within(b, lo, hi)
    ensures Within(Plus(a, b), lo, hi)
  {
    var x, y := Assessed(a) as real, Assessed(b) as real;
    assert Assessed(Plus(a, b)) as real == x + y;
    assert Score(Plus(a, b)) == Score(a) + Score(b);
    hide Score, Plus;
    Distribute(lo, x, y);
    Distribute(hi, x, y);
  }

  lemma Distribute(x: real, a: real, b: real)
    ensures x * (a + b) == x * a + x * b
  {
  }

  lemma {:induction false} SumIsBalanced(bs: seq<Bucket>)
    requires forall i :: 0 <= i < |bs| ==> Balanced(bs[i])
    ensures Balanced(Sum(bs))
  {
    if bs != [] { SumIsBalanced(bs[..|bs| - 1]); }
  }

  predicate Bounded(b: Bucket, lo: real, hi: real) {
    Balanced(b) && (Assessed(b) > 0 ==> lo <= Exact(b) <= hi)
  }

  lemma BoundedIsWithin(b: Bucket, lo: real, hi: real)
    requires Bounded(b, lo, hi)
    ensures Within(b, lo, hi)
  {
    hide Exact, Within;
    ExactIsWithin(b, lo, hi);
  }

  lemma {:induction false} SumIsWithin(bs: seq<Bucket>, lo: real, hi: real)
    requires forall i :: 0 <= i < |bs| ==> Bounded(bs[i], lo, hi)
    ensures Within(Sum(bs), lo, hi)
  {
    hide Bounded, Within, Plus;
    if bs == [] {
      ExactIsWithin(EMPTY, lo, hi);
    } else {
      var front, last := bs[..|bs| - 1], bs[|bs| - 1];
      SumIsWithin(front, lo, hi);
      BoundedIsWithin(last, lo, hi);
      WithinPlus(Sum(front), last, lo, hi);
    }
  }

  lemma {:induction false} SomeAssessed(bs: seq<Bucket>)
    requires (forall b <- bs :: Balanced(b)) && Assessed(Sum(bs)) > 0
    ensures exists i :: 0 <= i < |bs| && Assessed(bs[i]) > 0
  {
    if bs != [] && Assessed(bs[|bs| - 1]) <= 0 {
      var front := bs[..|bs| - 1];
      assert forall b <- front :: b in bs;
      SomeAssessed(front);
      var i :| 0 <= i < |front| && Assessed(front[i]) > 0;
      assert bs[i] == front[i];
    }
  }

  /** Some row was not skipped. */
  predicate SomeCounts(rows: seq<Row>) { exists r <- rows :: r.status != "skipped" }

  /** Something is assessed exactly if some row was not skipped. */
  lemma {:induction false} AssessedIs(rows: seq<Row>)
    ensures Assessed(Overall(rows)) >= 0 && (Assessed(Overall(rows)) > 0 <==> SomeCounts(rows))
  {
    if rows != [] {
      var front, last := rows[..|rows| - 1], rows[|rows| - 1];
      AssessedIs(front);
      hide Overall;
      assert rows == front + [last];
      OneMore(rows);
    }
  }

  lemma OneMore(rows: seq<Row>)
    requires rows != []
    ensures Assessed(Overall(rows))
            == Assessed(Overall(rows[..|rows| - 1])) + if rows[|rows| - 1].status == "skipped" then 0 else 1
  {
  }

  /** MAIN: the overall percentage lies between the smallest and the largest percentage of the buckets
      with something assessed, exactly and after rounding to tenths. */
  lemma OverallIsBetween(rows: seq<Row>, severities: seq<string>) returns (low: nat, high: nat)
    requires NoneTwice(severities) && Cover(severities, rows) && SomeCounts(rows)
    ensures var bs := Tallies(rows, severities);
            && low < |bs| && high < |bs| && Assessed(bs[low]) > 0 && Assessed(bs[high]) > 0
            && Exact(bs[low]) <= Exact(Overall(rows)) <= Exact(bs[high])
            && Percent(bs[low]) <= Percent(Overall(rows)) <= Percent(bs[high])
            && forall i :: 0 <= i < |bs| && Assessed(bs[i]) > 0 ==> Exact(bs[low]) <= Exact(bs[i]) <= Exact(bs[high])
  {
    var bs, all := Tallies(rows, severities), Overall(rows);
    BucketsSumToOverall(rows, severities);
    AssessedIs(rows);
    forall i | 0 <= i < |bs| ensures Balanced(bs[i]) { TallyCounts(rows, severities[i]); }
    SomeAssessed(bs);
    low, high := Extreme(bs, false), Extreme(bs, true);
    hide Tallies, Overall, Score, Rounded, Exact, Balanced, Within, SomeCounts;
    assert forall i :: 0 <= i < |bs| ==> Bounded(bs[i], Exact(bs[low]), Exact(bs[high]));
    SumIsBalanced(bs);
    SumIsWithin(bs, Exact(bs[low]), Exact(bs[high]));
    ExactIsWithin(all, Exact(bs[low]), Exact(bs[high]));
    RoundingIsMonotone(Exact(bs[low]), Exact(all));
    RoundingIsMonotone(Exact(all), Exact(bs[high]));
  }
}
