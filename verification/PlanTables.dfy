/** How a plan's table is read: its columns found under the first heading of either kind, whatever other
    columns stand between, and its rows by these columns. */
module PlanTables {
  import opened Characters
  import opened Options
  import opened PlanForms
  import opened PlanPrinted
  import opened PlanText
  import opened PythonText
  import opened ScopePlan

  // ---------- lines of cells ----------

  function JoinBars(cs: seq<string>): string
    requires cs != []
  {
    if |cs| == 1 then cs[0] else cs[0] + ("|" + JoinBars(cs[1..]))
  }

  function TableLine(cs: seq<string>): string
    requires cs != []
  {
    "|" + (JoinBars(cs) + "|")
  }

  predicate NoBars(cs: seq<string>) { forall c <- cs :: '|' !in c }

  function Stripped(cs: seq<string>): seq<string> { seq(|cs|, n requires 0 <= n < |cs| => Strip(cs[n])) }

  lemma {:induction false} CellsAre(cs: seq<string>)
    requires cs != [] && NoBars(cs)
    ensures Cells(JoinBars(cs)) == Stripped(cs)
    decreases |cs|
  {
    hide Cells, Strip;
    CellsStep(cs[0], if |cs| > 1 then JoinBars(cs[1..]) else "");
    if |cs| > 1 {
      CellsAre(cs[1..]);
      assert Stripped(cs) == [Strip(cs[0])] + Stripped(cs[1..]);
    }
  }

  // ---------- headings ----------

  /** The first cell with a heading for hosts. */
  ghost predicate FirstHost(cs: seq<string>, h: nat) {
    h < |cs| && HostHeading(Norm(Strip(cs[h]))) && forall k :: 0 <= k < h ==> !HostHeading(Norm(Strip(cs[k])))
  }

  ghost predicate FirstFramework(cs: seq<string>, f: nat) {
    f < |cs| && FrameworkHeading(Norm(Strip(cs[f]))) && forall k :: 0 <= k < f ==> !FrameworkHeading(Norm(Strip(cs[k])))
  }

  lemma {:induction false} HostColumnIs(cells: seq<string>)
    ensures match HostColumn(cells)
            case None => forall k :: 0 <= k < |cells| ==> !NamesHost(Norm(cells[k]))
            case Some(h) => h < |cells| && NamesHost(Norm(cells[h])) && forall k :: 0 <= k < h ==> !NamesHost(Norm(cells[k]))
  {
    hide NamesHost, Norm;
    if cells != [] {
      HostColumnIs(cells[1..]);
      assert forall k :: 0 < k < |cells| ==> cells[k] == cells[1..][k - 1];
    }
  }

  lemma {:induction false} FrameworkColumnIs(cells: seq<string>)
    ensures match FrameworkColumn(cells)
            case None => forall k :: 0 <= k < |cells| ==> !NamesFrameworks(Norm(cells[k]))
            case Some(f) => f < |cells| && NamesFrameworks(Norm(cells[f])) && forall k :: 0 <= k < f ==> !NamesFrameworks(Norm(cells[k]))
  {
    hide NamesFrameworks, Norm;
    if cells != [] {
      FrameworkColumnIs(cells[1..]);
      assert forall k :: 0 < k < |cells| ==> cells[k] == cells[1..][k - 1];
    }
  }

  lemma ColumnsAre(cs: seq<string>, h: nat, f: nat)
    ensures HostColumn(Stripped(cs)) == Some(h) <==> FirstHost(cs, h)
    ensures FrameworkColumn(Stripped(cs)) == Some(f) <==> FirstFramework(cs, f)
  {
    HostColumnIs(Stripped(cs));
    FrameworkColumnIs(Stripped(cs));
    hide NamesHost, NamesFrameworks, HostHeading, FrameworkHeading, Norm, Strip, HostColumn, FrameworkColumn;
    forall w ensures (NamesHost(w) <==> HostHeading(w)) && (NamesFrameworks(w) <==> FrameworkHeading(w)) { HeadingsAre(w); }
    assert forall k :: 0 <= k < |cs| ==> Stripped(cs)[k] == Strip(cs[k]);
  }

  lemma LineIs(cs: seq<string>)
    requires cs != [] && JoinBars(cs) != ""
    ensures var line := TableLine(cs); Strip(line) == line && IsTableRow(line) && line[1..|line| - 1] == JoinBars(cs)
  {
    var line := TableLine(cs);
    assert line[0] == '|' && line[|line| - 1] == '|';
    hide JoinBars, Strip;
    Bare(line);
  }

  /** MAIN: a line of cells is a table's head exactly if it has a heading of either kind; the columns are
      those of the first ones. */
  lemma HeadIs(cs: seq<string>, h: nat, f: nat)
    requires cs != [] && NoBars(cs) && JoinBars(cs) != ""
    ensures Header(TableLine(cs)) == Some((h, f)) <==> FirstHost(cs, h) && FirstFramework(cs, f)
  {
    hide *;
    LineIs(cs);
    CellsAre(cs);
    ColumnsAre(cs, h, f);
    HeaderOf(TableLine(cs), Stripped(cs), h, f);
  }

  lemma HeaderOf(line: string, cells: seq<string>, h: nat, f: nat)
    requires Strip(line) == line && IsTableRow(line) && Cells(line[1..|line| - 1]) == cells
    ensures Header(line) == Some((h, f)) <==> HostColumn(cells) == Some(h) && FrameworkColumn(cells) == Some(f)
  {
    hide Strip, Cells, HostColumn, FrameworkColumn;
  }

  // ---------- rows ----------

  /** The stripped cell of a column; a row may be too short to have it. */
  function CellOf(cs: seq<string>, n: nat): string { if n < |cs| then Strip(cs[n]) else "" }

  predicate RuleChar(c: char) { c in WHITE || c in "|:-" }

  /** A row with text, whose first and last cells are not squeezed to nothing. */
  predicate GoodRow(cs: seq<string>) {
    cs != [] && NoBars(cs) && cs[0] != "" && cs[|cs| - 1] != "" && exists k :: 0 <= k < |JoinBars(cs)| && !RuleChar(JoinBars(cs)[k])
  }

  lemma {:induction false} JoinEnds(cs: seq<string>)
    requires cs != [] && NoBars(cs) && cs[|cs| - 1] != ""
    ensures JoinBars(cs) != "" && JoinBars(cs)[|JoinBars(cs)| - 1] != '|' && (cs[0] != "" ==> JoinBars(cs)[0] != '|')
    decreases |cs|
  {
    assert cs[0] in cs && cs[|cs| - 1] in cs;
    if cs[0] != "" { assert cs[0][0] in cs[0]; }
    if |cs| > 1 {
      JoinEnds(cs[1..]);
    } else {
      assert cs[0][|cs[0]| - 1] in cs[0];
    }
  }

  lemma TrimmedLine(inner: string)
    requires inner != "" && inner[0] != '|' && inner[|inner| - 1] != '|'
    ensures Trim("|" + (inner + "|"), '|') == inner
  {
    var line := "|" + (inner + "|");
    assert line[1..] == inner + "|" && (inner + "|")[..|inner|] == inner;
    assert Trim(line, '|') == Trim(inner + "|", '|') == Trim(inner, '|') == inner;
  }

  lemma NoRule(cs: seq<string>)
    requires GoodRow(cs)
    ensures !IsRule(TableLine(cs))
  {
    var k :| 0 <= k < |JoinBars(cs)| && !RuleChar(JoinBars(cs)[k]);
    hide JoinBars, WHITE, IsSpace;
    SpaceIsWhite(JoinBars(cs)[k]);
    assert TableLine(cs)[k + 1] == JoinBars(cs)[k];
  }

  lemma RowIs(known: Known, lines: seq<string>, i: nat, h: nat, f: nat, plan: Plan, cs: seq<string>)
    requires i < |lines| && GoodRow(cs) && lines[i] == TableLine(cs)
    ensures Rows(known, lines, i, h, f, plan) == Rows(known, lines, i + 1, h, f, Add(known, plan, CellOf(cs, h), SplitIds(CellOf(cs, f))))
  {
    hide *;
    RowParts(cs);
    LineIs(cs);
    NoRule(cs);
    RowStep(known, lines, i, h, f, plan, TableLine(cs), Stripped(cs));
    CellsAt(cs, h);
    CellsAt(cs, f);
  }

  lemma RowParts(cs: seq<string>)
    requires GoodRow(cs)
    ensures cs != [] && JoinBars(cs) != "" && Cells(Trim(TableLine(cs), '|')) == Stripped(cs)
  {
    hide Cells, Trim, JoinBars, Stripped;
    JoinEnds(cs);
    TrimmedLine(JoinBars(cs));
    CellsAre(cs);
  }

  lemma CellsAt(cs: seq<string>, n: nat)
    ensures CellAt(Stripped(cs), n) == CellOf(cs, n)
  {
    hide Strip;
  }

  lemma RowStep(known: Known, lines: seq<string>, i: nat, h: nat, f: nat, plan: Plan, line: string, body: seq<string>)
    requires i < |lines| && lines[i] == line && Strip(line) == line && IsTableRow(line) && !IsRule(line) && Cells(Trim(line, '|')) == body
    ensures Rows(known, lines, i, h, f, plan) == Rows(known, lines, i + 1, h, f, Add(known, plan, CellAt(body, h), SplitIds(CellAt(body, f))))
  {
    hide Strip, IsRule, Cells, Trim, Add, SplitIds;
  }

  /** The plan of the rows, one after the other. */
  function Added(known: Known, rows: seq<seq<string>>, h: nat, f: nat, plan: Plan): Plan {
    if rows == [] then plan else Added(known, rows[1..], h, f, Add(known, plan, CellOf(rows[0], h), SplitIds(CellOf(rows[0], f))))
  }

  /** The rows stand in the lines from `i` on. */
  predicate StandAt(lines: seq<string>, i: nat, rows: seq<seq<string>>) {
    i + |rows| <= |lines| && forall k :: 0 <= k < |rows| ==> GoodRow(rows[k]) && lines[i + k] == TableLine(rows[k])
  }

  lemma {:induction false} RowsAre(known: Known, lines: seq<string>, i: nat, h: nat, f: nat, plan: Plan, rows: seq<seq<string>>)
    requires StandAt(lines, i, rows)
    ensures Rows(known, lines, i, h, f, plan) == Rows(known, lines, i + |rows|, h, f, Added(known, rows, h, f, plan))
    decreases |rows|
  {
    hide GoodRow, Rows, Add, SplitIds, TableLine, CellOf;
    if rows != [] {
      RowIs(known, lines, i, h, f, plan, rows[0]);
      RowsAre(known, lines, i + 1, h, f, Add(known, plan, CellOf(rows[0], h), SplitIds(CellOf(rows[0], f))), rows[1..]);
    }
  }

  /** The line begins with a bar. */
  predicate Barred(line: string) { Strip(line) != "" && Strip(line)[0] == '|' }

  lemma RowsStop(known: Known, lines: seq<string>, i: nat, h: nat, f: nat, plan: Plan)
    requires plan != [] && (i >= |lines| || !Barred(lines[i]))
    ensures Rows(known, lines, i, h, f, plan) == plan
  {
    hide Strip, Add, Cells, SplitIds, IsRule, Trim;
  }

  lemma {:induction false} TableFrom(known: Known, lines: seq<string>, i: nat, n: nat)
    requires i <= n < |lines| && forall k :: i <= k < n ==> Header(lines[k]) == None
    ensures Table(known, lines, i) == Table(known, lines, n)
    decreases n - i
  {
    hide Header, Rows;
    if i < n { TableFrom(known, lines, i + 1, n); }
  }

  lemma TableAt(known: Known, lines: seq<string>, n: nat, h: nat, f: nat)
    requires n < |lines| && Header(lines[n]) == Some((h, f))
    ensures Table(known, lines, n) == Rows(known, lines, n + 1, h, f, [])
  {
    hide Header, Rows;
  }

  /** Bars, colons, dashes and white space between bars. */
  predicate RuleLine(s: string) {
    |s| >= 3 && s[0] == '|' && s[|s| - 1] == '|' && forall k :: 0 <= k < |s| ==> RuleChar(s[k])
  }

  lemma RuleIsPassed(known: Known, lines: seq<string>, i: nat, h: nat, f: nat)
    requires i < |lines| && RuleLine(lines[i])
    ensures Rows(known, lines, i, h, f, []) == Rows(known, lines, i + 1, h, f, [])
  {
    hide WHITE, Rows;
    assert forall k :: 0 <= k < |lines[i]| ==> RuleChar(lines[i][k]);
    RuleIsNoRow(known, lines, i, h, f, []);
  }

  /** MAIN: a table is read whatever its columns are and wherever it stands: behind lines that are no head
      and a rule line, its rows are added one after the other by the columns that the head names first,
      up to the first line that begins otherwise. */
  lemma TableIsRead(known: Known, lines: seq<string>, n: nat, head: seq<string>, rows: seq<seq<string>>, h: nat, f: nat)
    requires n + 1 < |lines| && (forall k :: 0 <= k < n ==> Header(lines[k]) == None)
    requires head != [] && NoBars(head) && JoinBars(head) != "" && lines[n] == TableLine(head)
    requires FirstHost(head, h) && FirstFramework(head, f)
    requires RuleLine(lines[n + 1])
    requires StandAt(lines, n + 2, rows) && (n + 2 + |rows| == |lines| || !Barred(lines[n + 2 + |rows|]))
    requires Added(known, rows, h, f, []) != []
    ensures Parse(known, lines) == Added(known, rows, h, f, [])
  {
    hide *;
    HeadIs(head, h, f);
    TableFrom(known, lines, 0, n);
    TableAt(known, lines, n, h, f);
    RuleIsPassed(known, lines, n + 1, h, f);
    RowsAre(known, lines, n + 2, h, f, [], rows);
    RowsStop(known, lines, n + 2 + |rows|, h, f, Added(known, rows, h, f, []));
    ParseTakesTable(known, lines);
  }

  lemma ParseTakesTable(known: Known, lines: seq<string>)
    ensures Table(known, lines, 0) != [] ==> Parse(known, lines) == Table(known, lines, 0)
  {
    hide Table, Bullets;
  }
}
