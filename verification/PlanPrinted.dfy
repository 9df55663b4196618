/** Printing a proposed plan as a table and reading it back. */
module PlanPrinted {
  import opened Options
  import opened PlanText
  import opened PythonText
  import opened ScopePlan
  import opened Sequences
  import Text

  /** A proposed job: the host to reach, its display name and its frameworks. */
  datatype Job = Job(host: string, hostname: string, frameworks: seq<string>)

  const DASH := "\U{2014}"

  function Tick(s: string): string { "`" + (s + "`") }

  function FrameworkCell(ids: seq<string>): string
    requires ids != []
  {
    if |ids| == 1 then Tick(ids[0]) else Tick(ids[0]) + (", " + FrameworkCell(ids[1..]))
  }

  function NameCell(name: string): string { if name == "" then DASH else name }

  function Padding(s: string): string { " " + (s + " ") }

  function RowLine(j: Job): string
    requires j.frameworks != []
  {
    "|" + (Padding(Tick(j.host)) + ("|" + (Padding(NameCell(j.hostname)) + ("|" + (Padding(FrameworkCell(j.frameworks)) + "|")))))
  }

  function RowLines(js: seq<Job>): seq<string>
    requires forall j <- js :: j.frameworks != []
  {
    if js == [] then [] else [RowLine(js[0])] + RowLines(js[1..])
  }

  const TITLE := "### Proposed host \U{2192} frameworks"
  const HEADER := "|" + (Padding("Host") + ("|" + (Padding("Hostname") + ("|" + (Padding("Frameworks") + "|")))))
  const RULE := "|------|----------|------------|"
  const NO_HOSTS := "_" + ("No hosts discovered \U{2014} no framework plan yet." + "_")

  /** `format_proposed_jobs_markdown`, for jobs with frameworks and without errors. */
  function Printed(js: seq<Job>): seq<string>
    requires forall j <- js :: j.frameworks != []
  {
    if js == [] then [NO_HOSTS] else Body(js) + [""]
  }

  function Body(js: seq<Job>): seq<string>
    requires forall j <- js :: j.frameworks != []
  {
    [TITLE, "", HEADER, RULE] + RowLines(js)
  }

  // ---------- what can be printed ----------

  predicate GoodId(id: string) {
    && id != "" && (forall k :: 0 <= k < |id| ==> !Separates(id[k]))
    && id[0] != '`' && id[|id| - 1] != '`' && !IsFiller(id) && !IsDiscovery(id)
  }

  predicate GoodHost(h: string) {
    h != "" && '|' !in h && !IsSpace(h[0]) && !IsSpace(h[|h| - 1]) && h[0] != '`' && h[|h| - 1] != '`'
  }

  predicate Good(j: Job) {
    && GoodHost(j.host) && '|' !in j.hostname
    && j.frameworks != [] && Distinct(j.frameworks) && forall id <- j.frameworks :: GoodId(id)
  }

  predicate GoodPlan(js: seq<Job>) {
    && (forall j <- js :: Good(j))
    && (forall m, n :: 0 <= m < n < |js| ==> Lower(js[m].host) != Lower(js[n].host))
  }

  function Targets(js: seq<Job>): Plan {
    if js == [] then [] else [Target(js[0].host, js[0].frameworks)] + Targets(js[1..])
  }

  // ---------- the framework cell ----------

  lemma RunIs(run: string, rest: string)
    requires forall k :: 0 <= k < |run| ==> !Separates(run[k])
    requires rest == "" || Separates(rest[0])
    ensures RunLength(run + rest) == |run|
  {
    var s := run + rest;
    assert forall k :: 0 <= k < |run| ==> s[k] == run[k];
    assert rest != "" ==> s[|run|] == rest[0];
    RunLengthIs(s, |run|);
  }

  lemma RunLengthIs(s: string, n: nat)
    requires n <= |s| && (forall k :: 0 <= k < n ==> !Separates(s[k])) && (n < |s| ==> Separates(s[n]))
    ensures RunLength(s) == n
  {
  }

  lemma BarAtIs(s: string, n: nat)
    requires n <= |s| && (forall k :: 0 <= k < n ==> s[k] != '|') && (n < |s| ==> s[n] == '|')
    ensures BarAt(s) == n
  {
  }

  lemma TokensStep(run: string, rest: string)
    requires run != "" && forall k :: 0 <= k < |run| ==> !Separates(run[k])
    requires rest == "" || Separates(rest[0])
    ensures Tokens(run + rest) == [run] + Tokens(rest)
  {
    RunIs(run, rest);
    assert (run + rest)[..|run|] == run && (run + rest)[|run|..] == rest;
    assert (run + rest)[0] == run[0];
  }

  lemma TokensSkip(rest: string)
    ensures Tokens(", " + rest) == Tokens(rest)
  {
    assert (", " + rest)[1..] == " " + rest && (" " + rest)[1..] == rest;
  }

  function Ticked(ids: seq<string>): seq<string> {
    if ids == [] then [] else [Tick(ids[0])] + Ticked(ids[1..])
  }

  lemma TickIsRun(id: string)
    requires GoodId(id)
    ensures forall k :: 0 <= k < |Tick(id)| ==> !Separates(Tick(id)[k])
    ensures Trim(Tick(id), '`') == id
  {
    TrimTick(id);
  }

  lemma TrimTick(s: string)
    requires s != "" && s[0] != '`' && s[|s| - 1] != '`'
    ensures Trim(Tick(s), '`') == s
  {
    assert Tick(s)[1..] == s + "`" && (s + "`")[..|s|] == s;
    assert Trim(Tick(s), '`') == Trim(s + "`", '`') == Trim(s, '`') == s;
  }

  lemma {:induction false} CellTokens(ids: seq<string>)
    requires ids != [] && forall id <- ids :: GoodId(id)
    ensures Tokens(FrameworkCell(ids)) == Ticked(ids)
    decreases |ids|
  {
    assert ids[0] in ids && forall id <- ids[1..] :: id in ids;
    TickIsRun(ids[0]);
    if |ids| == 1 {
      assert Tick(ids[0]) + "" == Tick(ids[0]);
      TokensStep(Tick(ids[0]), "");
    } else {
      CellTokens(ids[1..]);
      TokensStep(Tick(ids[0]), ", " + FrameworkCell(ids[1..]));
      TokensSkip(FrameworkCell(ids[1..]));
    }
  }

  /** Tokens of distinct good ids are all added. */
  lemma {:induction false} AddTicked(done: seq<string>, ids: seq<string>)
    requires Distinct(done + ids) && forall id <- ids :: GoodId(id)
    ensures AddIds(done, Ticked(ids)) == done + ids
    decreases |ids|
  {
    if ids == [] {
      assert done + ids == done;
    } else {
      assert ids[0] in ids && forall id <- ids[1..] :: id in ids;
      TickIsRun(ids[0]);
      assert (done + ids)[|done|] == ids[0];
      assert forall k :: 0 <= k < |done| ==> (done + ids)[k] == done[k];
      assert !Has(done, ids[0]);
      assert (done + [ids[0]]) + ids[1..] == done + ids;
      assert Ticked(ids)[0] == Tick(ids[0]) && Ticked(ids)[1..] == Ticked(ids[1..]);
      AddTicked(done + [ids[0]], ids[1..]);
      hide Lower, IsFiller, Trim, Tick, Distinct, Has;
    }
  }

  lemma {:induction false} CellIsBare(ids: seq<string>)
    requires ids != []
    ensures var c := FrameworkCell(ids); |c| >= 2 && c[0] == '`' && c[|c| - 1] == '`'
    decreases |ids|
  {
    if |ids| > 1 { CellIsBare(ids[1..]); }
  }

  lemma {:induction false} CellHasNoBar(ids: seq<string>)
    requires ids != [] && forall id <- ids :: GoodId(id)
    ensures '|' !in FrameworkCell(ids)
    decreases |ids|
  {
    assert ids[0] in ids && forall id <- ids[1..] :: id in ids;
    assert '|' !in ids[0];
    if |ids| > 1 { CellHasNoBar(ids[1..]); }
  }

  lemma SplitCell(ids: seq<string>)
    requires ids != [] && Distinct(ids) && forall id <- ids :: GoodId(id)
    ensures SplitIds(FrameworkCell(ids)) == ids
  {
    var c := FrameworkCell(ids);
    CellIsBare(ids);
    Bare(c);
    CellTokens(ids);
    assert [] + ids == ids;
    AddTicked([], ids);
    assert |c| >= 2 && |"\U{2014}"| == 1;
    hide Tokens, AddIds, FrameworkCell, GoodId, Strip, Ticked, Distinct;
  }

  // ---------- one row ----------

  lemma CellsStep(a: string, rest: string)
    requires '|' !in a
    ensures Cells(a + ("|" + rest)) == [Strip(a)] + Cells(rest)
    ensures Cells(a) == [Strip(a)]
  {
    var s := a + ("|" + rest);
    assert s[|a|] == '|' && forall k :: 0 <= k < |a| ==> s[k] == a[k];
    BarAtIs(s, |a|);
    BarAtIs(a, |a|);
    assert s[..|a|] == a && s[|a| + 1..] == rest;
    hide Strip;
  }

  lemma Padded(s: string)
    ensures Strip(Padding(s)) == Strip(s)
  {
    var p := Padding(s);
    SkipPadded(s);
    var i := SkipSpace(s, 0);
    assert p[SkipSpace(p, 0)..] == (if i == |s| then "" else s[i..] + " ");
    if i < |s| {
      assert (s[i..] + " ")[..|s| - i] == s[i..];
    } else {
      assert s[i..] == "";
    }
  }

  lemma SkipPadded(s: string)
    ensures var p, i := Padding(s), SkipSpace(s, 0);
            SkipSpace(p, 0) == if i < |s| then i + 1 else |p|
  {
    var p, i := Padding(s), SkipSpace(s, 0);
    assert forall k :: 1 <= k < |s| + 1 ==> p[k] == s[k - 1];
    assert forall k :: 1 <= k < i + 1 ==> IsSpace(p[k]);
    if i < |s| {
      SkipIs(p, 0, i + 1);
    } else {
      assert forall k :: 0 <= k < |p| ==> IsSpace(p[k]);
    }
  }

  lemma CellFacts(j: Job)
    requires Good(j)
    ensures var a, b, c := Padding(Tick(j.host)), Padding(NameCell(j.hostname)), Padding(FrameworkCell(j.frameworks));
            && '|' !in a && '|' !in b && '|' !in c && |a| > 1 && a[0] == ' ' && a[1] == '`' && c != "" && c[|c| - 1] == ' '
            && Strip(a) == Tick(j.host) && Strip(b) == Strip(NameCell(j.hostname)) && Strip(c) == FrameworkCell(j.frameworks)
  {
    CellHasNoBar(j.frameworks);
    CellIsBare(j.frameworks);
    Padded(Tick(j.host));
    Padded(NameCell(j.hostname));
    Padded(FrameworkCell(j.frameworks));
    Bare(Tick(j.host));
    Bare(FrameworkCell(j.frameworks));
    hide Strip, FrameworkCell;
  }

  lemma RowCells(j: Job)
    requires Good(j)
    ensures var line := RowLine(j);
            && Strip(line) == line && line != "" && line[0] == '|' && !IsRule(line)
            && Cells(Trim(line, '|')) == [Tick(j.host), Strip(NameCell(j.hostname)), FrameworkCell(j.frameworks)]
  {
    var a, b, c := Padding(Tick(j.host)), Padding(NameCell(j.hostname)), Padding(FrameworkCell(j.frameworks));
    CellFacts(j);
    hide Tick, NameCell, FrameworkCell, Padding;
    RowShape(j, a, b, c);
    CellsStep(a, b + ("|" + c));
    CellsStep(b, c);
    CellsStep(c, "");
    hide *;
    assert Cells(Trim(RowLine(j), '|')) == [Strip(a)] + ([Strip(b)] + [Strip(c)]);
  }

  lemma RowShape(j: Job, a: string, b: string, c: string)
    requires j.frameworks != [] && RowLine(j) == "|" + (a + ("|" + (b + ("|" + (c + "|")))))
    requires |a| > 1 && a[0] == ' ' && a[1] == '`' && c != "" && c[|c| - 1] == ' '
    ensures var line := RowLine(j);
            && Strip(line) == line && line != "" && line[0] == '|' && !IsRule(line)
            && Trim(line, '|') == a + ("|" + (b + ("|" + c)))
  {
    hide RowLine, Strip, Trim;
    var line, inner := RowLine(j), a + ("|" + (b + ("|" + c)));
    Gather(a, b, c);
    assert line == "|" + (inner + "|");
    assert line[0] == '|' && line[|line| - 1] == '|' && line[2] == '`';
    Bare(line);
    TrimBars(inner);
  }

  lemma Gather(a: string, b: string, c: string)
    ensures a + ("|" + (b + ("|" + (c + "|")))) == (a + ("|" + (b + ("|" + c)))) + "|"
    ensures a != "" && c != "" ==> var inner := a + ("|" + (b + ("|" + c))); inner[0] == a[0] && inner[|inner| - 1] == c[|c| - 1]
    ensures |a| > 1 ==> (a + ("|" + (b + ("|" + c))))[1] == a[1]
  {
  }

  lemma TrimBars(inner: string)
    requires inner != "" && inner[0] == ' ' && inner[|inner| - 1] == ' '
    ensures Trim("|" + (inner + "|"), '|') == inner
  {
    var line := "|" + (inner + "|");
    assert line[1..] == inner + "|" && (inner + "|")[..|inner|] == inner;
    assert Trim(line, '|') == Trim(inner + "|", '|') == Trim(inner, '|') == inner;
  }

  lemma {:induction false} KeepsGood(ids: seq<string>)
    requires Distinct(ids) && forall id <- ids :: GoodId(id)
    ensures Keep(None, ids) == ids
  {
    if ids != [] {
      var front, last := ids[..|ids| - 1], ids[|ids| - 1];
      assert ids == front + [last] && last in ids && forall id <- front :: id in ids;
      assert forall k :: 0 <= k < |front| ==> Lower(front[k]) != Lower(last);
      hide Lower, GoodId;
      KeepsGood(front);
      GoodIsWanted(last);
      hide Wanted;
      assert !Has(front, last);
      hide Has;
    }
  }

  lemma GoodIsWanted(id: string)
    requires GoodId(id)
    ensures Wanted(None, id)
  {
  }

  lemma {:induction false} IndexIsEnd(plan: Plan, host: string)
    requires forall k :: 0 <= k < |plan| ==> Lower(plan[k].host) != Lower(host)
    ensures IndexOf(plan, host) == |plan|
  {
  }

  lemma AddRow(plan: Plan, j: Job)
    requires Good(j) && forall k :: 0 <= k < |plan| ==> Lower(plan[k].host) != Lower(j.host)
    ensures Add(None, plan, Tick(j.host), j.frameworks) == plan + [Target(j.host, j.frameworks)]
  {
    Bare(Tick(j.host));
    TrimTick(j.host);
    KeepsGood(j.frameworks);
    IndexIsEnd(plan, j.host);
    UnionFromNone(j.frameworks);
    hide Strip, Trim, Keep, IndexOf, Union, Lower, Tick;
  }

  // ---------- the table ----------

  /** The lines from `i` on are the rows of the jobs. */
  ghost predicate RowsAt(lines: seq<string>, i: nat, js: seq<Job>)
    decreases |js|
  {
    if js == [] then i == |lines|
    else i < |lines| && Good(js[0]) && lines[i] == RowLine(js[0]) && RowsAt(lines, i + 1, js[1..])
  }

  ghost predicate Fresh(plan: Plan, js: seq<Job>) {
    && (forall k, n :: 0 <= k < |plan| && 0 <= n < |js| ==> Lower(plan[k].host) != Lower(js[n].host))
    && (forall m, n :: 0 <= m < n < |js| ==> Lower(js[m].host) != Lower(js[n].host))
  }

  lemma FreshStep(plan: Plan, js: seq<Job>)
    requires Fresh(plan, js) && js != []
    ensures Fresh(plan + [Target(js[0].host, js[0].frameworks)], js[1..])
    ensures forall k :: 0 <= k < |plan| ==> Lower(plan[k].host) != Lower(js[0].host)
  {
    hide Lower;
  }

  lemma RowsStep(lines: seq<string>, i: nat, plan: Plan, j: Job)
    requires i < |lines| && Good(j) && lines[i] == RowLine(j)
    ensures Rows(None, lines, i, 0, 2, plan) == Rows(None, lines, i + 1, 0, 2, Add(None, plan, Tick(j.host), j.frameworks))
  {
    RowCells(j);
    SplitCell(j.frameworks);
    hide Strip, IsRule, Cells, Trim, SplitIds, Add, RowLine, Good, Tick, NameCell, FrameworkCell;
  }

  lemma {:induction false} RowsRead(lines: seq<string>, i: nat, js: seq<Job>, plan: Plan)
    requires RowsAt(lines, i, js) && Fresh(plan, js)
    ensures Rows(None, lines, i, 0, 2, plan) == plan + Targets(js)
    decreases |js|
  {
    hide Good, RowLine, Lower, Add, Fresh, Strip, IsRule, SplitIds, Cells, Trim;
    if js == [] {
      assert plan + Targets(js) == plan;
    } else {
      var j := js[0];
      var next := plan + [Target(j.host, j.frameworks)];
      FreshStep(plan, js);
      RowsStep(lines, i, plan, j);
      AddRow(plan, j);
      hide Rows;
      RowsRead(lines, i + 1, js[1..], next);
    }
  }

  lemma {:induction false} RowsStand(pre: seq<string>, js: seq<Job>)
    requires forall j <- js :: Good(j)
    ensures (forall j <- js :: j.frameworks != []) && RowsAt(pre + RowLines(js), |pre|, js)
    decreases |js|
  {
    assert forall j <- js :: j.frameworks != [];
    hide Good, RowLine;
    if js != [] {
      assert js[0] in js && Good(js[0]) && forall j <- js[1..] :: j in js;
      RowsStand(pre + [RowLine(js[0])], js[1..]);
      Associate(pre, [RowLine(js[0])], RowLines(js[1..]));
      assert (pre + ([RowLine(js[0])] + RowLines(js[1..])))[|pre|] == RowLine(js[0]);
    }
  }

  // ---------- header and rule ----------

  lemma HeaderCells()
    ensures Strip(HEADER) == HEADER && IsTableRow(HEADER)
    ensures Cells(HEADER[1..|HEADER| - 1]) == ["Host", "Hostname", "Frameworks"]
  {
    hide Cells, Strip, Padding;
    var a, b, c := Padding("Host"), Padding("Hostname"), Padding("Frameworks");
    WordCell("Host");
    WordCell("Hostname");
    WordCell("Frameworks");
    HeaderShape(a, b, c);
    CellsStep(a, b + ("|" + c));
    CellsStep(b, c);
    CellsStep(c, "");
    assert Cells(HEADER[1..|HEADER| - 1]) == ["Host"] + (["Hostname"] + ["Frameworks"]);
  }

  lemma WordCell(w: string)
    requires w != "" && forall k :: 0 <= k < |w| ==> 'A' <= w[k] <= 'z'
    ensures '|' !in Padding(w) && Strip(Padding(w)) == w
  {
    Padded(w);
    Bare(w);
    hide Strip;
  }

  lemma HeaderShape(a: string, b: string, c: string)
    ensures var h := "|" + (a + ("|" + (b + ("|" + (c + "|")))));
            Strip(h) == h && IsTableRow(h) && h[1..|h| - 1] == a + ("|" + (b + ("|" + c)))
  {
    var h := "|" + (a + ("|" + (b + ("|" + (c + "|")))));
    assert h[0] == '|' && h[|h| - 1] == '|';
    Bare(h);
    hide Strip;
  }

  lemma HeaderNorms()
    ensures Norm("Host") == "host" && Norm("Hostname") == "hostname" && Norm("Frameworks") == "frameworks"
  {
    NormCapital('H', "ost");
    NormCapital('H', "ostname");
    NormCapital('F', "rameworks");
    assert ['H'] + "ost" == "Host" && ['H'] + "ostname" == "Hostname" && ['F'] + "rameworks" == "Frameworks";
    assert ['h'] + "ost" == "host" && ['h'] + "ostname" == "hostname" && ['f'] + "rameworks" == "frameworks";
    hide Norm;
  }

  lemma NormCapital(c: char, rest: string)
    requires 'A' <= c <= 'Z' && forall k :: 0 <= k < |rest| ==> 'a' <= rest[k] <= 'z'
    ensures Norm([c] + rest) == [LowerChar(c)] + rest
  {
    assert Lower([c] + rest) == [LowerChar(c)] + rest;
    KeepsAll([LowerChar(c)] + rest);
  }

  lemma {:induction false} KeepsAll(s: string)
    requires forall k :: 0 <= k < |s| ==> 'a' <= s[k] <= 'z'
    ensures KeepHeader(s) == s
  {
    if s != "" {
      KeepsAll(s[1..]);
      assert s == [s[0]] + s[1..];
    }
  }

  /** A short word does not hold a word that starts with another letter or is longer. */
  lemma NotInWord(h: string, word: string)
    requires word != "" && (|h| < |word| || word[0] !in h)
    ensures Text.IndexOf(h, word, 0) == -1
  {
    forall k: nat ensures !Text.HasAt(h, word, k) {
      if k + |word| <= |h| {
        Text.HasAtChars(h, word, k);
        assert h[k + 0] in h;
      }
    }
    Text.NotFound(h, word, 0);
  }

  lemma NamesNoFrameworks(h: string)
    requires h !in FRAMEWORK_HEADERS && 'c' !in h && 'f' !in h && '\U{444}' !in h
    ensures !NamesFrameworks(h)
  {
    NotInWord(h, "framework");
    NotInWord(h, "check");
    NotInWord(h, "\U{444}\U{440}\U{435}\U{439}\U{43C}");
  }

  lemma HeaderWords()
    ensures NamesHost("host") && !NamesFrameworks("host") && !NamesFrameworks("hostname") && NamesFrameworks("frameworks")
  {
    assert "host"[0] == 'h' && "hostname"[0] == 'h';
    NamesNoFrameworks("host");
    NamesNoFrameworks("hostname");
  }

  lemma HeaderReads()
    ensures Header(HEADER) == Some((0, 2))
  {
    HeaderCells();
    HeaderNorms();
    HeaderWords();
    hide Strip, IsTableRow, Cells, Norm, NamesHost, NamesFrameworks;
    var cells := ["Host", "Hostname", "Frameworks"];
    assert cells[1..] == ["Hostname", "Frameworks"] && cells[1..][1..] == ["Frameworks"];
    assert FrameworkColumn(cells[1..][1..]) == Some(0);
    assert FrameworkColumn(cells[1..]) == Some(1);
  }

  lemma NoHeaders()
    ensures Header("") == None && Header(TITLE) == None && Header(NO_HOSTS) == None
    ensures Bullet(NO_HOSTS) == None
  {
    assert TITLE[0] == '#' && TITLE[|TITLE| - 1] == 's';
    assert NO_HOSTS[0] == '_' && NO_HOSTS[|NO_HOSTS| - 1] == '_';
    Bare(TITLE);
    Bare(NO_HOSTS);
    assert Strip("") == "";
    SkipIs(NO_HOSTS, 0, 0);
    hide Strip, Cells;
  }

  lemma RuleIsSkipped()
    ensures Strip(RULE) == RULE && IsRule(RULE) && RULE[0] == '|'
  {
    Bare(RULE);
  }

  // ---------- the whole plan ----------

  lemma PrintedAt(js: seq<Job>)
    requires js != [] && forall j <- js :: Good(j)
    ensures (forall j <- js :: j.frameworks != [])
    ensures var lines := Body(js);
            && |lines| > 4 && lines[0] == TITLE && lines[1] == "" && lines[2] == HEADER && lines[3] == RULE
            && RowsAt(lines, 4, js)
  {
    RowsStand([TITLE, "", HEADER, RULE], js);
    hide TITLE, HEADER, RULE, RowLines, RowsAt, Good;
  }

  lemma TableStep(lines: seq<string>, i: nat)
    requires i < |lines| && Header(lines[i]) == None
    ensures Table(None, lines, i) == Table(None, lines, i + 1)
  {
    hide Header, Rows;
  }

  /** The table is read from its rows. */
  lemma TableIsRows(lines: seq<string>)
    requires |lines| >= 4 && lines[0] == TITLE && lines[1] == "" && lines[2] == HEADER && lines[3] == RULE
    ensures Table(None, lines, 0) == Rows(None, lines, 4, 0, 2, [])
  {
    NoHeaders();
    HeaderReads();
    RuleIsSkipped();
    hide Header, Strip, IsRule, TITLE, HEADER, RULE, SplitIds, Cells, Trim, Add;
    TableStep(lines, 0);
    TableStep(lines, 1);
    assert Rows(None, lines, 3, 0, 2, []) == Rows(None, lines, 4, 0, 2, []);
    assert Table(None, lines, 2) == Rows(None, lines, 3, 0, 2, []);
  }

  /** Reading the lines of a printed plan gives back its hosts with their frameworks, in order. */
  lemma LinesRead(js: seq<Job>)
    requires GoodPlan(js)
    ensures forall j <- js :: j.frameworks != []
    ensures Parse(None, if js == [] then [NO_HOSTS] else Body(js)) == Targets(js)
  {
    assert forall j <- js :: j.frameworks != [];
    if js == [] {
      NothingPrinted();
    } else {
      var lines := Body(js);
      PrintedAt(js);
      assert Fresh([], js);
      hide *;
      TableIsRows(lines);
      RowsRead(lines, 4, js, []);
      TargetsOf(js);
      ParseIsOneOf(None, lines);
      ParseFinds(lines);
    }
  }

  lemma TargetsOf(js: seq<Job>)
    ensures |Targets(js)| == |js| && [] + Targets(js) == Targets(js)
  {
  }

  lemma ParseFinds(lines: seq<string>)
    ensures Parse(None, lines) == if Table(None, lines, 0) != [] then Table(None, lines, 0) else Bullets(None, lines, [])
  {
    hide Table, Bullets;
  }

  lemma NothingPrinted()
    ensures Parse(None, [NO_HOSTS]) == []
  {
    NoHeaders();
    var lines := [NO_HOSTS];
    hide NO_HOSTS, Header, Rows, Bullet, SplitIds, Add;
    assert lines[1..] == [];
    TableStep(lines, 0);
    assert Bullets(None, lines, []) == Bullets(None, lines[1..], []);
  }
}
