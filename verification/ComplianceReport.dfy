/** Building the compliance figures from the rows of a report. */
module ComplianceReport {
  import opened Compliance
  import opened Ordering

  datatype Stat = Stat(severity: string, bucket: Bucket, percent: real)

  const SEVERITY_ORDER := ["Critical", "High", "Medium", "Low", "Info", "Unknown"]

  /** The position of a severity in the fixed order; all others come behind it. */
  function Rank(severity: string): (r: nat)
    ensures r <= |SEVERITY_ORDER| && (r < |SEVERITY_ORDER| ==> SEVERITY_ORDER[r] == severity)
    ensures forall k :: 0 <= k < r ==> SEVERITY_ORDER[k] != severity
  {
    RankFrom(severity, 0)
  }

  function RankFrom(severity: string, from: nat): (r: nat)
    requires from <= |SEVERITY_ORDER|
    ensures from <= r <= |SEVERITY_ORDER| && (r < |SEVERITY_ORDER| ==> SEVERITY_ORDER[r] == severity)
    ensures forall k :: from <= k < r ==> SEVERITY_ORDER[k] != severity
    decreases |SEVERITY_ORDER| - from
  {
    if from == |SEVERITY_ORDER| || SEVERITY_ORDER[from] == severity then from else RankFrom(severity, from + 1)
  }

  predicate Precedes(a: string, b: string) {
    Rank(a) < Rank(b) || (Rank(a) == Rank(b) == |SEVERITY_ORDER| && Less(a, b))
  }

  /** MAIN: critical findings come first, then high, medium, low and informational ones, then those of
      unknown severity; all other severities follow, alphabetically. */
  lemma SeverityOrder(a: string, b: string)
    ensures Precedes("Critical", "High") && Precedes("High", "Medium") && Precedes("Medium", "Low") && Precedes("Low", "Info")
         && Precedes("Info", "Unknown")
    ensures a !in ["Critical", "High", "Medium", "Low", "Info", "Unknown"] ==>
              Precedes("Unknown", a)
              && (b !in ["Critical", "High", "Medium", "Low", "Info", "Unknown"] ==> (Precedes(a, b) <==> Less(a, b)))
  {
    RankOf(0);
    RankOf(1);
    RankOf(2);
    RankOf(3);
    RankOf(4);
    RankOf(5);
    hide Less;
  }

  predicate IsStat(rows: seq<Row>, s: Stat) {
    s.bucket == Tally(rows, s.severity) && s.percent == Percent(s.bucket)
  }

  predicate Ordered(stats: seq<Stat>) {
    forall i, j :: 0 <= i < j < |stats| ==> Precedes(stats[i].severity, stats[j].severity)
  }

  predicate Lists(stats: seq<Stat>, severities: set<string>) {
    (forall s <- stats :: s.severity in severities) && forall v <- severities :: exists i :: 0 <= i < |stats| && stats[i].severity == v
  }

  function Severities(rows: seq<Row>): set<string> { set r | r in rows :: r.severity }

  method CountRows(rows: seq<Row>) returns (buckets: map<string, Bucket>)
    ensures buckets.Keys == Severities(rows)
    ensures forall v :: v in buckets ==> buckets[v] == Tally(rows, v)
  {
    buckets := map[];
    assert rows[..0] == [];
    for n := 0 to |rows|
      invariant buckets.Keys == Severities(rows[..n])
      invariant forall v :: Tally(rows[..n], v) == if v in buckets then buckets[v] else EMPTY
    {
      assert rows[..n + 1][..n] == rows[..n];
      var row := rows[n];
      SeveritiesSnoc(rows[..n], row);
      assert rows[..n] + [row] == rows[..n + 1];
      var b := if row.severity in buckets then buckets[row.severity] else EMPTY;
      buckets := buckets[row.severity := Bump(b, ClassOf(row.status))];
    }
    assert rows[..|rows|] == rows;
  }

  lemma SeveritiesSnoc(rows: seq<Row>, row: Row)
    ensures Severities(rows + [row]) == Severities(rows) + {row.severity}
  {
    assert row in rows + [row];
    forall v | v in Severities(rows) ensures v in Severities(rows + [row]) {
      var r :| r in rows && r.severity == v;
      assert r in rows + [row];
    }
  }

  lemma Extends(stats: seq<Stat>, listed: set<string>, s: Stat)
    requires Ordered(stats) && Lists(stats, listed) && forall v <- listed :: Precedes(v, s.severity)
    ensures Ordered(stats + [s]) && Lists(stats + [s], listed + {s.severity})
  {
    hide Precedes;
    var more := stats + [s];
    assert forall i :: 0 <= i < |stats| ==> more[i] == stats[i] && stats[i] in stats;
    assert more[|stats|] == s;
    forall v | v in listed ensures exists i :: 0 <= i < |more| && more[i].severity == v {
      var i :| 0 <= i < |stats| && stats[i].severity == v;
      assert more[i].severity == v;
    }
  }

  /** The entries of the known severities, and which they are. */
  method KnownStats(rows: seq<Row>, buckets: map<string, Bucket>) returns (stats: seq<Stat>, used: set<string>)
    requires forall v :: v in buckets ==> buckets[v] == Tally(rows, v)
    ensures Ordered(stats) && Lists(stats, used) && forall s <- stats :: IsStat(rows, s)
    ensures forall v :: v in used <==> v in buckets && Rank(v) < |SEVERITY_ORDER|
  {
    hide Less, Tally, Percent, Ordered, Lists;
    stats, used := [], {};
    NothingListed();
    for n := 0 to |SEVERITY_ORDER|
      invariant Ordered(stats) && Lists(stats, used)
      invariant forall v :: v in used <==> v in buckets && Rank(v) < n
      invariant forall s <- stats :: IsStat(rows, s)
    {
      var v := SEVERITY_ORDER[n];
      RankOf(n);
      if v !in buckets { continue; }
      var s := Stat(v, buckets[v], Percent(buckets[v]));
      Extends(stats, used, s);
      stats, used := stats + [s], used + {v};
    }
  }

  /** MAIN: one entry for every severity that occurs, with its counters and percentage, the known ones
      in their fixed order and the others alphabetically behind them. */
  method ComplianceBySeverity(rows: seq<Row>) returns (stats: seq<Stat>)
    ensures Ordered(stats) && Lists(stats, Severities(rows)) && forall s <- stats :: IsStat(rows, s)
  {
    hide *;
    var buckets := CountRows(rows);
    var used: set<string>;
    stats, used := KnownStats(rows, buckets);
    var rest := buckets.Keys - used;
    KnownSplit(buckets.Keys, used);
    while rest != {}
      invariant rest <= buckets.Keys && Ordered(stats) && Lists(stats, buckets.Keys - rest) && Behind(buckets.Keys, rest)
      invariant forall s <- stats :: IsStat(rows, s)
      decreases |rest|
    {
      var v := Smallest(rest);
      var s := Stat(v, buckets[v], Percent(buckets[v]));
      BehindStep(buckets.Keys, rest, v);
      ghost var listed := buckets.Keys - rest;
      Extends(stats, listed, s);
      FreshStat(rows, s);
      rest := rest - {v};
      OneMore(buckets.Keys, listed, rest, v);
      stats := stats + [s];
    }
    assert buckets.Keys - rest == buckets.Keys;
  }

  lemma OneMore(all: set<string>, listed: set<string>, rest: set<string>, v: string)
    requires v in all && listed == all - (rest + {v}) && v !in rest
    ensures all - rest == listed + {v}
  {
  }

  lemma KnownSplit(all: set<string>, used: set<string>)
    requires forall v :: v in used <==> v in all && Rank(v) < |SEVERITY_ORDER|
    ensures all - (all - used) == used && Behind(all, all - used)
  {
    hide Rank, Less;
  }

  /** The severities of `rest` are none of the known ones and come behind all others. */
  predicate Behind(all: set<string>, rest: set<string>) {
    forall w <- rest :: Rank(w) == |SEVERITY_ORDER| && forall v <- all - rest :: Precedes(v, w)
  }

  lemma BehindStep(all: set<string>, rest: set<string>, least: string)
    requires Behind(all, rest) && least in rest && rest <= all && forall v <- rest :: v == least || Less(least, v)
    ensures Behind(all, rest - {least}) && forall v <- all - rest :: Precedes(v, least)
  {
    hide Less, Rank;
  }

  lemma FreshStat(rows: seq<Row>, s: Stat)
    requires s.bucket == Tally(rows, s.severity) && s.percent == Percent(s.bucket)
    ensures IsStat(rows, s)
  {
  }

  lemma NothingListed()
    ensures Ordered([]) && Lists([], {})
  {
  }

  lemma RankOf(n: nat)
    requires n < |SEVERITY_ORDER|
    ensures Rank(SEVERITY_ORDER[n]) == n
    ensures forall v :: Rank(v) == n <==> v == SEVERITY_ORDER[n]
  {
    assert SEVERITY_ORDER[2][0] == 'M' && SEVERITY_ORDER[3][0] == 'L' && SEVERITY_ORDER[4][0] == 'I' && SEVERITY_ORDER[5][0] == 'U';
    assert SEVERITY_ORDER[0][0] == 'C' && SEVERITY_ORDER[1][0] == 'H';
  }

  /** `overall_compliance`: all rows under one severity. */
  method OverallCompliance(rows: seq<Row>) returns (s: Stat)
    ensures s == Stat("Overall", Overall(rows), Percent(Overall(rows)))
  {
    var renamed := seq(|rows|, n requires 0 <= n < |rows| => Row("Overall", rows[n].status));
    hide *;
    var stats := ComplianceBySeverity(renamed);
    OneSeverity(rows, renamed, stats);
    if stats == [] { return Stat("Overall", EMPTY, 0.0); }
    return stats[0];
  }

  lemma OneSeverity(rows: seq<Row>, renamed: seq<Row>, stats: seq<Stat>)
    requires |rows| == |renamed| && forall n :: 0 <= n < |rows| ==> renamed[n] == Row("Overall", rows[n].status)
    requires Lists(stats, Severities(renamed)) && forall s <- stats :: IsStat(renamed, s)
    ensures var s := Stat("Overall", Overall(rows), Percent(Overall(rows)));
            if stats == [] then s == Stat("Overall", EMPTY, 0.0) else stats[0] == s
  {
    hide Percent, Tally, Overall;
    RenamedTally(rows, renamed);
    NothingAssessed();
    EmptyOverall();
    assert forall r <- renamed :: r.severity == "Overall";
    assert renamed != [] ==> renamed[0] in renamed && renamed[0].severity in Severities(renamed);
    assert stats != [] ==> stats[0] in stats && stats[0].severity in Severities(renamed);
  }

  lemma EmptyOverall()
    ensures Overall([]) == EMPTY
  {
  }

  lemma NothingAssessed()
    ensures Percent(EMPTY) == 0.0
  {
    hide Rounded;
    ZeroStaysZero();
    assert Exact(EMPTY) == 0.0;
  }

  lemma {:induction false} RenamedTally(rows: seq<Row>, renamed: seq<Row>)
    requires |rows| == |renamed| && forall n :: 0 <= n < |rows| ==> renamed[n] == Row("Overall", rows[n].status)
    ensures Tally(renamed, "Overall") == Overall(rows)
  {
    if rows != [] { RenamedTally(rows[..|rows| - 1], renamed[..|rows| - 1]); }
  }

  function Names(stats: seq<Stat>): (names: seq<string>)
    ensures |names| == |stats| && forall i :: 0 <= i < |stats| ==> names[i] == stats[i].severity
  {
    seq(|stats|, i requires 0 <= i < |stats| => stats[i].severity)
  }

  function Buckets(stats: seq<Stat>): (bs: seq<Bucket>)
    ensures |bs| == |stats| && forall i :: 0 <= i < |stats| ==> bs[i] == stats[i].bucket
  {
    seq(|stats|, i requires 0 <= i < |stats| => stats[i].bucket)
  }

  lemma NamesAreDistinct(stats: seq<Stat>)
    requires Ordered(stats)
    ensures NoneTwice(Names(stats))
  {
    var names := Names(stats);
    forall i, j | 0 <= i < j < |names| ensures names[i] != names[j] {
      assert Precedes(stats[i].severity, stats[j].severity);
      NotBeforeItself(names[i]);
    }
  }

  lemma NamesCover(rows: seq<Row>, stats: seq<Stat>)
    requires Lists(stats, Severities(rows))
    ensures Cover(Names(stats), rows)
  {
    var names := Names(stats);
    forall r | r in rows ensures r.severity in names {
      assert r.severity in Severities(rows);
      var i :| 0 <= i < |stats| && stats[i].severity == r.severity;
      assert names[i] == r.severity;
    }
  }

  lemma BucketsAreTallies(rows: seq<Row>, stats: seq<Stat>)
    requires forall s <- stats :: IsStat(rows, s)
    ensures Buckets(stats) == Tallies(rows, Names(stats))
  {
    assert forall i :: 0 <= i < |stats| ==> stats[i] in stats;
  }

  /** Two percentages of buckets with something assessed between which `p` lies. */
  predicate Between(stats: seq<Stat>, i: nat, j: nat, p: real) {
    && i < |stats| && j < |stats| && Assessed(stats[i].bucket) > 0 && Assessed(stats[j].bucket) > 0
    && stats[i].percent <= p <= stats[j].percent
  }

  /** MAIN: the list's buckets are balanced, add up to the overall figure, and bound its percentage. */
  lemma StatsMeetOverall(rows: seq<Row>, stats: seq<Stat>)
    requires Ordered(stats) && Lists(stats, Severities(rows)) && forall s <- stats :: IsStat(rows, s)
    ensures forall s <- stats :: Balanced(s.bucket) && 0.0 <= s.percent <= 100.0
    ensures Sum(Buckets(stats)) == Overall(rows)
    ensures SomeCounts(rows) ==> exists i, j :: Between(stats, i, j, Percent(Overall(rows)))
  {
    NamesAreDistinct(stats);
    NamesCover(rows, stats);
    BucketsAreTallies(rows, stats);
    hide Ordered, Lists, Severities, Cover, NoneTwice, Tally, Percent, Balanced, Names, Buckets, Tallies, Overall, Exact, SomeCounts;
    BucketsSumToOverall(rows, Names(stats));
    forall s | s in stats ensures Balanced(s.bucket) && 0.0 <= s.percent <= 100.0 {
      TallyCounts(rows, s.severity);
      PercentInRange(s.bucket);
    }
    if SomeCounts(rows) {
      var i, j := OverallIsBetween(rows, Names(stats));
      assert stats[i] in stats && stats[j] in stats;
      assert Between(stats, i, j, Percent(Overall(rows)));
    }
  }
}
