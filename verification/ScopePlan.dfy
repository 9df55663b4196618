/** Host-to-framework plans: parsing an operator's Markdown and printing a proposed plan. */
module ScopePlan {
  import opened Lines
  import opened Options
  import opened PlanText
  import opened PythonText

  // ---------- plans ----------

  /** A host, as first written, and its frameworks. */
  datatype Target = Target(host: string, frameworks: seq<string>)

  type Plan = seq<Target>

  /** The allow-list, in lower case, if there is one. */
  type Known = Option<set<string>>

  predicate Wanted(known: Known, id: string) {
    !IsDiscovery(id) && (known.None? || Lower(id) in known.value)
  }

  function Append(ids: seq<string>, id: string): seq<string> { if Has(ids, id) then ids else ids + [id] }

  function Keep(known: Known, ids: seq<string>): (kept: seq<string>)
    ensures Distinct(kept) && forall id <- kept :: Wanted(known, id)
  {
    if ids == [] then []
    else
      var front, last := Keep(known, ids[..|ids| - 1]), ids[|ids| - 1];
      if Wanted(known, last) then Append(front, last) else front
  }

  function Union(ids: seq<string>, more: seq<string>): (all: seq<string>)
    ensures Distinct(ids) ==> Distinct(all)
    ensures forall id <- all :: id in ids || id in more
    ensures ids <= all
  {
    if more == [] then ids else Append(Union(ids, more[..|more| - 1]), more[|more| - 1])
  }

  /** Where the host stands in the plan, or its length. */
  function IndexOf(plan: Plan, host: string): (i: nat)
    ensures i <= |plan| && (i < |plan| ==> Lower(plan[i].host) == Lower(host))
    ensures forall j :: 0 <= j < i ==> Lower(plan[j].host) != Lower(host)
  {
    if plan == [] || Lower(plan[0].host) == Lower(host) then 0 else 1 + IndexOf(plan[1..], host)
  }

  /** `_add`. */
  function Add(known: Known, plan: Plan, host: string, ids: seq<string>): Plan {
    var name := Trim(Strip(host), '`');
    var kept := Keep(known, ids);
    if name == "" || kept == [] then plan
    else
      var i := IndexOf(plan, name);
      if i < |plan| then plan[i := Target(plan[i].host, Union(plan[i].frameworks, kept))]
      else plan + [Target(name, Union([], kept))]
  }

  /** No host and no framework twice, whatever the case; no discovery-only or unknown framework, and
      no host without any. */
  ghost predicate Clean(known: Known, plan: Plan) {
    && (forall i, j :: 0 <= i < j < |plan| ==> Lower(plan[i].host) != Lower(plan[j].host))
    && (forall e <- plan :: e.host != "" && e.frameworks != [] && Distinct(e.frameworks)
                            && forall id <- e.frameworks :: Wanted(known, id))
  }

  lemma AddKeepsClean(known: Known, plan: Plan, host: string, ids: seq<string>)
    requires Clean(known, plan)
    ensures Clean(known, Add(known, plan, host, ids))
  {
    hide Wanted, Lower, Trim, Strip;
    var name, kept, next := Trim(Strip(host), '`'), Keep(known, ids), Add(known, plan, host, ids);
    if name != "" && kept != [] {
      var i := IndexOf(plan, name);
      if i < |plan| {
        assert plan[i] in plan;
        assert plan[i].frameworks <= Union(plan[i].frameworks, kept);
      } else {
        UnionFromNone(kept);
      }
      assert forall j :: 0 <= j < |next| && j != i ==> next[j] == plan[j];
    }
  }

  lemma {:induction false} UnionFromNone(ids: seq<string>)
    requires Distinct(ids)
    ensures Union([], ids) == ids
  {
    if ids != [] {
      var front, last := ids[..|ids| - 1], ids[|ids| - 1];
      UnionFromNone(front);
      assert ids == front + [last];
    }
  }

  // ---------- parsing ----------

  function CellAt(cells: seq<string>, n: nat): string { if n < |cells| then cells[n] else "" }

  /** The rows below a table's header, up to the first line that is no row once there is a plan. */
  function Rows(known: Known, lines: seq<string>, i: nat, hostCol: nat, fwCol: nat, plan: Plan): Plan
    decreases |lines| - i
  {
    if i >= |lines| then plan
    else
      var line := Strip(lines[i]);
      if line == "" || line[0] != '|' then
        if plan != [] then plan else Rows(known, lines, i + 1, hostCol, fwCol, plan)
      else if IsRule(line) then Rows(known, lines, i + 1, hostCol, fwCol, plan)
      else
        var body := Cells(Trim(line, '|'));
        Rows(known, lines, i + 1, hostCol, fwCol, Add(known, plan, CellAt(body, hostCol), SplitIds(CellAt(body, fwCol))))
  }

  /** The columns of a table header, if the line is one. */
  function Header(text: string): Option<(nat, nat)> {
    var line := Strip(text);
    if !IsTableRow(line) then None
    else
      var cells := Cells(line[1..|line| - 1]);
      match (HostColumn(cells), FrameworkColumn(cells))
      case (Some(h), Some(f)) => Some((h, f))
      case _ => None
  }

  /** The first table of the text. */
  function Table(known: Known, lines: seq<string>, i: nat): Plan
    decreases |lines| - i
  {
    if i >= |lines| then []
    else match Header(lines[i])
      case None => Table(known, lines, i + 1)
      case Some((h, f)) => Rows(known, lines, i + 1, h, f, [])
  }

  function Bullets(known: Known, lines: seq<string>, plan: Plan): Plan {
    if lines == [] then plan
    else match Bullet(lines[0])
      case None => Bullets(known, lines[1..], plan)
      case Some((host, rest)) => Bullets(known, lines[1..], Add(known, plan, host, SplitIds(rest)))
  }

  /** `parse_audit_plan_markdown`, as hosts with frameworks. */
  function Parse(known: Known, lines: seq<string>): Plan {
    var plan := Table(known, lines, 0);
    if plan != [] then plan else Bullets(known, lines, [])
  }

  lemma {:induction false} RowsAreClean(known: Known, lines: seq<string>, i: nat, h: nat, f: nat, plan: Plan)
    requires Clean(known, plan)
    ensures Clean(known, Rows(known, lines, i, h, f, plan))
    decreases |lines| - i
  {
    hide Clean, Add, Strip, IsRule, SplitIds, Cells, Trim;
    if i < |lines| {
      var line := Strip(lines[i]);
      if line == "" || line[0] != '|' || IsRule(line) {
        RowsAreClean(known, lines, i + 1, h, f, plan);
      } else {
        var body := Cells(Trim(line, '|'));
        AddKeepsClean(known, plan, CellAt(body, h), SplitIds(CellAt(body, f)));
        RowsAreClean(known, lines, i + 1, h, f, Add(known, plan, CellAt(body, h), SplitIds(CellAt(body, f))));
      }
    }
  }

  lemma {:induction false} TableIsClean(known: Known, lines: seq<string>, i: nat)
    ensures Clean(known, Table(known, lines, i))
    decreases |lines| - i
  {
    hide Rows, Header;
    if i < |lines| {
      match Header(lines[i])
      case None => TableIsClean(known, lines, i + 1);
      case Some((h, f)) => RowsAreClean(known, lines, i + 1, h, f, []);
    }
  }

  lemma {:induction false} BulletsAreClean(known: Known, lines: seq<string>, plan: Plan)
    requires Clean(known, plan)
    ensures Clean(known, Bullets(known, lines, plan))
    decreases |lines|
  {
    hide Clean, Add, Bullet, SplitIds;
    if lines != [] {
      match Bullet(lines[0])
      case None => BulletsAreClean(known, lines[1..], plan);
      case Some((host, rest)) =>
        AddKeepsClean(known, plan, host, SplitIds(rest));
        BulletsAreClean(known, lines[1..], Add(known, plan, host, SplitIds(rest)));
    }
  }

  /** MAIN: whatever the text, a parsed plan repeats no host and no framework in any case, and holds
      no discovery-only framework and no empty row. */
  lemma ParsedIsClean(known: Known, lines: seq<string>)
    ensures Clean(known, Parse(known, lines))
  {
    hide *;
    TableIsClean(known, lines, 0);
    EmptyIsClean(known);
    BulletsAreClean(known, lines, []);
    ParseIsOneOf(known, lines);
  }

  lemma EmptyIsClean(known: Known)
    ensures Clean(known, [])
  {
  }

  lemma ParseIsOneOf(known: Known, lines: seq<string>)
    ensures Parse(known, lines) in {Table(known, lines, 0), Bullets(known, lines, [])}
  {
    hide Table, Bullets;
  }

  // ---------- the parser ----------

  /** `_add`, on the parser's growing plan. */
  method AddHost(known: Known, plan: Plan, host: string, ids: seq<string>) returns (next: Plan)
    ensures next == Add(known, plan, host, ids)
  {
    hide Wanted, Strip, Trim, Lower;
    var name := Trim(Strip(host), '`');
    if name == "" { return plan; }
    var kept: seq<string> := [];
    assert ids[..0] == [];
    for n := 0 to |ids|
      invariant kept == Keep(known, ids[..n])
    {
      assert ids[..n + 1][..n] == ids[..n];
      if Wanted(known, ids[n]) && !Has(kept, ids[n]) { kept := kept + [ids[n]]; }
    }
    assert ids[..|ids|] == ids;
    if kept == [] { return plan; }
    var i := IndexOf(plan, name);
    var start := if i < |plan| then plan[i].frameworks else [];
    var cur := start;
    assert kept[..0] == [];
    for n := 0 to |kept|
      invariant cur == Union(start, kept[..n])
    {
      assert kept[..n + 1][..n] == kept[..n];
      if !Has(cur, kept[n]) { cur := cur + [kept[n]]; }
    }
    assert kept[..|kept|] == kept;
    return if i < |plan| then plan[i := Target(plan[i].host, cur)] else plan + [Target(name, cur)];
  }

  method ParseRows(known: Known, lines: seq<string>, start: nat, hostCol: nat, fwCol: nat) returns (plan: Plan)
    ensures plan == Rows(known, lines, start, hostCol, fwCol, [])
  {
    hide Add, Strip, IsRule, SplitIds, Cells, Trim;
    plan := [];
    var i := start;
    while i < |lines|
      invariant Rows(known, lines, i, hostCol, fwCol, plan) == Rows(known, lines, start, hostCol, fwCol, [])
    {
      var line := Strip(lines[i]);
      i := i + 1;
      if line == "" || line[0] != '|' {
        if plan != [] { return; }
        continue;
      }
      if IsRule(line) { continue; }
      var body := Cells(Trim(line, '|'));
      var ids := SplitFrameworkIds(CellAt(body, fwCol));
      plan := AddHost(known, plan, CellAt(body, hostCol), ids);
    }
  }

  method ParseTable(known: Known, lines: seq<string>) returns (plan: Plan)
    ensures plan == Table(known, lines, 0)
  {
    hide Header, Rows;
    for i := 0 to |lines|
      invariant Table(known, lines, i) == Table(known, lines, 0)
    {
      var columns := Header(lines[i]);
      if columns.Some? {
        plan := ParseRows(known, lines, i + 1, columns.value.0, columns.value.1);
        return;
      }
    }
    return [];
  }

  method ParseBullets(known: Known, lines: seq<string>) returns (plan: Plan)
    ensures plan == Bullets(known, lines, [])
  {
    hide Add, Bullet, SplitIds;
    plan := [];
    assert lines[0..] == lines;
    for i := 0 to |lines|
      invariant Bullets(known, lines[i..], plan) == Bullets(known, lines, [])
    {
      assert lines[i..][1..] == lines[i + 1..];
      var bullet := Bullet(lines[i]);
      if bullet == None { continue; }
      var ids := SplitFrameworkIds(bullet.value.1);
      plan := AddHost(known, plan, bullet.value.0, ids);
    }
    assert lines[|lines|..] == [];
  }

  method ParseAuditPlan(known: Known, text: string) returns (plan: Plan)
    ensures plan == Parse(known, SplitLines(text)) && Clean(known, plan)
  {
    var lines := SplitLines(text);
    ParsedIsClean(known, lines);
    hide *;
    plan := ParseTable(known, lines);
    if plan == [] { plan := ParseBullets(known, lines); }
    ParseMeaning(known, lines);
  }

  lemma ParseMeaning(known: Known, lines: seq<string>)
    ensures var t := Table(known, lines, 0); Parse(known, lines) == if t != [] then t else Bullets(known, lines, [])
  {
    hide Table, Bullets;
  }
}
