/** Printing a proposed plan as text and parsing the text: what line ends in hosts and names do. */
module PlanMarkdown {
  import opened Lines
  import opened Options
  import opened PlanPrinted
  import opened PlanText
  import opened PythonText
  import opened ScopePlan
  import opened Sequences

  function Markdown(js: seq<Job>): string
    requires forall j <- js :: j.frameworks != []
  {
    Join(Printed(js))
  }

  predicate OnOneRow(j: Job) { OneLine(j.host) && OneLine(j.hostname) }

  predicate OnRows(js: seq<Job>) { forall j <- js :: OnOneRow(j) }

  // ---------- rows that are lines ----------

  lemma BreakIsSpace(c: char)
    requires IsBreak(c)
    ensures IsSpace(c) && Separates(c)
  {
  }

  lemma IdOnLine(id: string)
    requires GoodId(id)
    ensures OneLine(id)
  {
    forall k | 0 <= k < |id| ensures !IsBreak(id[k]) { if IsBreak(id[k]) { BreakIsSpace(id[k]); } }
  }

  lemma {:induction false} CellOnLine(ids: seq<string>)
    requires ids != [] && forall id <- ids :: GoodId(id)
    ensures OneLine(FrameworkCell(ids))
    decreases |ids|
  {
    assert OneLine("`") && OneLine(", ");
    IdOnLine(ids[0]);
    hide OneLine, GoodId;
    OneLineParts("`", ids[0] + "`");
    OneLineParts(ids[0], "`");
    if |ids| > 1 {
      assert forall id <- ids[1..] :: id in ids;
      CellOnLine(ids[1..]);
      OneLineParts(Tick(ids[0]), ", " + FrameworkCell(ids[1..]));
      OneLineParts(", ", FrameworkCell(ids[1..]));
    }
  }

  lemma PaddedOnLine(s: string)
    ensures OneLine(Padding(s)) <==> OneLine(s)
  {
    assert OneLine(" ");
    hide OneLine;
    OneLineParts(" ", s + " ");
    OneLineParts(s, " ");
  }

  /** The part of a row before the display name, and the part behind it. */
  function Before(j: Job): string { "|" + (Padding(Tick(j.host)) + "| ") }

  function After(j: Job): string
    requires j.frameworks != []
  {
    " |" + (Padding(FrameworkCell(j.frameworks)) + "|")
  }

  lemma RowParts(j: Job)
    requires j.frameworks != []
    ensures RowLine(j) == Before(j) + (NameCell(j.hostname) + After(j))
  {
    var a, n, c := Padding(Tick(j.host)), NameCell(j.hostname), Padding(FrameworkCell(j.frameworks));
    hide Padding, FrameworkCell, NameCell, Tick;
    assert Padding(n) == " " + (n + " ") by { PaddingIs(n); }
    RegroupRow(a, n, c);
  }

  lemma PaddingIs(n: string)
    ensures Padding(n) == " " + (n + " ")
  {
  }

  lemma RegroupRow(a: string, n: string, c: string)
    ensures "|" + (a + ("|" + ((" " + (n + " ")) + ("|" + (c + "|"))))) == ("|" + (a + "| ")) + (n + (" |" + (c + "|")))
  {
  }

  lemma BeforeOnLine(j: Job)
    ensures OneLine(Before(j)) <==> OneLine(j.host)
  {
    assert OneLine("|") && OneLine("| ") && OneLine("`");
    PaddedOnLine(Tick(j.host));
    hide OneLine, Padding;
    OneLineParts("|", Padding(Tick(j.host)) + "| ");
    OneLineParts(Padding(Tick(j.host)), "| ");
    OneLineParts("`", j.host + "`");
    OneLineParts(j.host, "`");
  }

  lemma AfterOnLine(j: Job)
    requires Good(j)
    ensures OneLine(After(j))
  {
    assert OneLine("|") && OneLine(" |");
    CellOnLine(j.frameworks);
    PaddedOnLine(FrameworkCell(j.frameworks));
    hide OneLine, Padding, FrameworkCell;
    OneLineParts(" |", Padding(FrameworkCell(j.frameworks)) + "|");
    OneLineParts(Padding(FrameworkCell(j.frameworks)), "|");
  }

  lemma RowOnLine(j: Job)
    requires Good(j)
    ensures OneLine(RowLine(j)) <==> OnOneRow(j)
  {
    assert OneLine(NameCell(j.hostname)) <==> OneLine(j.hostname);
    RowParts(j);
    BeforeOnLine(j);
    AfterOnLine(j);
    hide OneLine, RowLine, Before, After, NameCell;
    OneLineParts(Before(j), NameCell(j.hostname) + After(j));
    OneLineParts(NameCell(j.hostname), After(j));
  }

  lemma {:induction false} RowsOnLines(js: seq<Job>)
    requires forall j <- js :: Good(j)
    ensures forall j <- js :: j.frameworks != []
    ensures (forall l <- RowLines(js) :: OneLine(l)) <==> OnRows(js)
    decreases |js|
  {
    assert forall j <- js :: j.frameworks != [];
    hide Good, OneLine, RowLine, OnOneRow;
    if js != [] {
      assert js == [js[0]] + js[1..];
      RowOnLine(js[0]);
      RowsOnLines(js[1..]);
    }
  }

  lemma FixedOnLines()
    ensures OneLine(TITLE) && OneLine("") && OneLine(HEADER) && OneLine(RULE) && OneLine(NO_HOSTS) && NO_HOSTS != ""
  {
    assert OneLine("Host") && OneLine("Hostname") && OneLine("Frameworks") && OneLine("|");
    PaddedOnLine("Host");
    PaddedOnLine("Hostname");
    PaddedOnLine("Frameworks");
    PrintableOnLine(TITLE);
    PrintableOnLine(RULE);
    NoHostsOnLine("No hosts discovered \U{2014} no framework plan yet.");
    HeaderOnLine();
    hide OneLine;
  }

  lemma PrintableOnLine(s: string)
    requires forall k :: 0 <= k < |s| ==> ' ' <= s[k] <= '~' || s[k] == '\U{2014}' || s[k] == '\U{2192}'
    ensures OneLine(s)
  {
  }

  lemma NoHostsOnLine(s: string)
    requires s == "No hosts discovered \U{2014} no framework plan yet."
    ensures OneLine("_" + (s + "_"))
  {
    assert OneLine("_");
    PrintableOnLine(s);
    hide OneLine;
    OneLineParts(s, "_");
    OneLineParts("_", s + "_");
  }

  lemma HeaderOnLine()
    requires OneLine(Padding("Host")) && OneLine(Padding("Hostname")) && OneLine(Padding("Frameworks")) && OneLine("|")
    ensures OneLine(HEADER)
  {
    hide OneLine, Padding;
    var a, b, c := Padding("Host"), Padding("Hostname"), Padding("Frameworks");
    OneLineParts(c, "|");
    OneLineParts("|", c + "|");
    OneLineParts(b, "|" + (c + "|"));
    OneLineParts("|", b + ("|" + (c + "|")));
    OneLineParts(a, "|" + (b + ("|" + (c + "|"))));
    OneLineParts("|", a + ("|" + (b + ("|" + (c + "|")))));
  }

  /** The plan's text has exactly the printed lines. */
  lemma TextHasLines(js: seq<Job>)
    requires GoodPlan(js) && OnRows(js)
    ensures forall j <- js :: j.frameworks != []
    ensures SplitLines(Markdown(js)) == if js == [] then [NO_HOSTS] else Body(js)
  {
    FixedOnLines();
    RowsOnLines(js);
    hide OneLine, TITLE, HEADER, RULE, NO_HOSTS, RowLines;
    if js == [] {
      SplitJoin([NO_HOSTS]);
    } else {
      var ls := Printed(js);
      assert ls == Body(js) + [""];
      assert forall l <- ls :: l in {TITLE, "", HEADER, RULE} || l in RowLines(js);
      SplitJoin(ls);
    }
  }

  // ---------- hosts that are read ----------

  lemma SliceOnLine(s: string, i: nat, j: nat)
    requires i <= j <= |s| && OneLine(s)
    ensures OneLine(s[i..j])
  {
  }

  lemma {:induction false} StripEndOnLine(s: string)
    requires OneLine(s)
    ensures OneLine(StripEnd(s))
  {
    if s != "" && IsSpace(s[|s| - 1]) { StripEndOnLine(s[..|s| - 1]); }
  }

  lemma StripOnLine(s: string)
    requires OneLine(s)
    ensures OneLine(Strip(s))
  {
    StripEndOnLine(s[SkipSpace(s, 0)..]);
  }

  lemma {:induction false} TrimOnLine(s: string, c: char)
    requires OneLine(s)
    ensures OneLine(Trim(s, c))
    decreases |s|
  {
    if s != "" && s[0] == c {
      TrimOnLine(s[1..], c);
    } else if s != "" && s[|s| - 1] == c {
      TrimOnLine(s[..|s| - 1], c);
    }
  }

  lemma {:induction false} CellsOnLine(s: string)
    requires OneLine(s)
    ensures forall c <- Cells(s) :: OneLine(c)
    decreases |s|
  {
    hide OneLine, Strip;
    var n := BarAt(s);
    if n == |s| {
      StripOnLine(s);
    } else {
      SliceOnLine(s, 0, n);
      SliceOnLine(s, n + 1, |s|);
      assert s[0..n] == s[..n] && s[n + 1..|s|] == s[n + 1..];
      StripOnLine(s[..n]);
      CellsOnLine(s[n + 1..]);
    }
  }

  ghost predicate HostsOnLines(plan: Plan) { forall t <- plan :: OneLine(t.host) }

  lemma AddOnLine(plan: Plan, host: string, ids: seq<string>)
    requires HostsOnLines(plan) && OneLine(host)
    ensures HostsOnLines(Add(None, plan, host, ids))
  {
    hide OneLine, Strip, Trim, Keep, Union, IndexOf;
    StripOnLine(host);
    TrimOnLine(Strip(host), '`');
    var next := Add(None, plan, host, ids);
    forall t | t in next ensures OneLine(t.host) {
      var k :| 0 <= k < |next| && next[k] == t;
      if k < |plan| { assert plan[k] in plan; }
    }
  }

  lemma RowHostOnLine(line: string, n: nat)
    requires OneLine(line)
    ensures OneLine(CellAt(Cells(Trim(Strip(line), '|')), n))
  {
    StripOnLine(line);
    TrimOnLine(Strip(line), '|');
    CellsOnLine(Trim(Strip(line), '|'));
  }

  lemma {:induction false} RowsOnLine(lines: seq<string>, i: nat, h: nat, f: nat, plan: Plan)
    requires AllSingle(lines) && HostsOnLines(plan)
    ensures HostsOnLines(Rows(None, lines, i, h, f, plan))
    decreases |lines| - i
  {
    hide HostsOnLines, OneLine, Add, Strip, IsRule, SplitIds, Cells, Trim;
    if i < |lines| {
      var line := Strip(lines[i]);
      if line == "" || line[0] != '|' || IsRule(line) {
        RowsOnLine(lines, i + 1, h, f, plan);
      } else {
        var body := Cells(Trim(line, '|'));
        assert lines[i] in lines;
        RowHostOnLine(lines[i], h);
        AddOnLine(plan, CellAt(body, h), SplitIds(CellAt(body, f)));
        RowsOnLine(lines, i + 1, h, f, Add(None, plan, CellAt(body, h), SplitIds(CellAt(body, f))));
      }
    }
  }

  lemma {:induction false} TableOnLine(lines: seq<string>, i: nat)
    requires AllSingle(lines)
    ensures HostsOnLines(Table(None, lines, i))
    decreases |lines| - i
  {
    hide Rows, Header, AllSingle;
    if i < |lines| {
      match Header(lines[i])
      case None => TableOnLine(lines, i + 1);
      case Some((h, f)) => RowsOnLine(lines, i + 1, h, f, []);
    }
  }

  lemma {:induction false} LongestOnLine(s: string, from: nat, till: nat)
    requires from <= till <= |s| && OneLine(s)
    ensures LongestHost(s, from, till).Some? ==> OneLine(LongestHost(s, from, till).value.0)
    decreases till
  {
    hide RestAt;
    if from < till { LongestOnLine(s, from, till - 1); }
  }

  lemma BulletOnLine(s: string)
    requires OneLine(s)
    ensures Bullet(s).Some? ==> OneLine(Bullet(s).value.0)
  {
    hide OneLine, LongestHost;
    var mark := SkipSpace(s, 0);
    if mark < |s| {
      var i := SkipSpace(s, mark + 1);
      var from := if i < |s| && s[i] == '`' then i + 1 else i;
      LongestOnLine(s, from, HostEnd(s, from));
    }
  }

  lemma {:induction false} BulletsOnLine(lines: seq<string>, plan: Plan)
    requires AllSingle(lines) && HostsOnLines(plan)
    ensures HostsOnLines(Bullets(None, lines, plan))
    decreases |lines|
  {
    hide HostsOnLines, OneLine, Add, Bullet, SplitIds;
    if lines != [] {
      assert lines[0] in lines && forall l <- lines[1..] :: l in lines;
      BulletOnLine(lines[0]);
      match Bullet(lines[0])
      case None => BulletsOnLine(lines[1..], plan);
      case Some((host, rest)) =>
        AddOnLine(plan, host, SplitIds(rest));
        BulletsOnLine(lines[1..], Add(None, plan, host, SplitIds(rest)));
    }
  }

  /** Whatever the lines, a host that is read holds no line end. */
  lemma ParsedOnLine(lines: seq<string>)
    requires AllSingle(lines)
    ensures HostsOnLines(Parse(None, lines))
  {
    assert HostsOnLines([]);
    hide *;
    TableOnLine(lines, 0);
    BulletsOnLine(lines, []);
    ParseFinds(lines);
  }

  // ---------- rows that are split ----------

  function Bars(s: string): nat { if s == "" then 0 else (if s[0] == '|' then 1 else 0) + Bars(s[1..]) }

  lemma {:induction false} BarsJoin(a: string, b: string)
    ensures Bars(a + b) == Bars(a) + Bars(b)
  {
    if a == "" {
      assert a + b == b;
    } else {
      assert (a + b)[1..] == a[1..] + b;
      BarsJoin(a[1..], b);
    }
  }

  lemma {:induction false} NoBars(s: string)
    requires '|' !in s
    ensures Bars(s) == 0
  {
    if s != "" { NoBars(s[1..]); }
  }

  lemma BarsOfSlice(s: string, i: nat, j: nat)
    requires i <= j <= |s|
    ensures Bars(s[i..j]) <= Bars(s)
  {
    hide Bars;
    ThreeSlices(s, i, j);
    BarsJoin(s[..i], s[i..j] + s[j..]);
    BarsJoin(s[i..j], s[j..]);
  }

  lemma ThreeSlices(s: string, i: nat, j: nat)
    requires i <= j <= |s|
    ensures s == s[..i] + (s[i..j] + s[j..])
  {
  }

  lemma BarsOfStrip(s: string)
    ensures Bars(Strip(s)) <= Bars(s)
  {
    var i := SkipSpace(s, 0);
    StripEndIsPrefix(s[i..]);
    var n := |Strip(s)|;
    assert Strip(s) == s[i..i + n];
    BarsOfSlice(s, i, i + n);
  }

  lemma {:induction false} BarsOfTrim(s: string)
    ensures Bars(Trim(s, '|')) <= Bars(s)
    decreases |s|
  {
    if s != "" && s[0] == '|' {
      BarsOfTrim(s[1..]);
    } else if s != "" && s[|s| - 1] == '|' {
      BarsOfSlice(s, 0, |s| - 1);
      assert s[0..|s| - 1] == s[..|s| - 1];
      BarsOfTrim(s[..|s| - 1]);
    }
  }

  lemma {:induction false} CellsAreBars(s: string)
    ensures |Cells(s)| == Bars(s) + 1
    decreases |s|
  {
    hide Strip;
    var n := BarAt(s);
    if n == |s| {
      NoBars(s);
    } else {
      assert s == s[..n] + s[n..];
      BarsJoin(s[..n], s[n..]);
      NoBars(s[..n]);
      assert s[n..][1..] == s[n + 1..];
      CellsAreBars(s[n + 1..]);
    }
  }

  /** A row with at most two bars adds nothing to a plan. */
  lemma NarrowAddsNothing(line: string, plan: Plan)
    requires Bars(line) <= 2 && Strip(line) != "" && Strip(line)[0] == '|'
    ensures var body := Cells(Trim(Strip(line), '|')); Add(None, plan, CellAt(body, 0), SplitIds(CellAt(body, 2))) == plan
  {
    hide Strip, Trim;
    var s := Strip(line);
    BarsOfStrip(line);
    BarsOfTrim(s[1..]);
    assert Trim(s, '|') == Trim(s[1..], '|') by { TrimFirst(s); }
    CellsAreBars(Trim(s, '|'));
    assert CellAt(Cells(Trim(s, '|')), 2) == "";
    NoIds();
    hide SplitIds, Cells;
  }

  lemma TrimFirst(s: string)
    requires s != "" && s[0] == '|'
    ensures Trim(s, '|') == Trim(s[1..], '|')
  {
  }

  lemma NoIds()
    ensures SplitIds("") == [] && Keep(None, []) == []
  {
    assert Strip("") == "";
  }

  /** How many lines have more than two bars. */
  function Wide(ls: seq<string>): nat {
    if ls == [] then 0 else (if Bars(ls[0]) > 2 then 1 else 0) + Wide(ls[1..])
  }

  lemma {:induction false} WideJoin(a: seq<string>, b: seq<string>)
    ensures Wide(a + b) == Wide(a) + Wide(b)
    decreases |a|
  {
    hide Bars;
    if a == [] {
      assert a + b == b;
    } else {
      assert (a + b)[1..] == a[1..] + b;
      WideJoin(a[1..], b);
    }
  }

  lemma {:induction false} NarrowLines(ls: seq<string>)
    requires forall l <- ls :: Bars(l) <= 2
    ensures Wide(ls) == 0
    decreases |ls|
  {
    hide Bars;
    if ls != [] {
      assert ls[0] in ls && forall l <- ls[1..] :: l in ls;
      NarrowLines(ls[1..]);
    }
  }

  lemma AddGrows(plan: Plan, host: string, ids: seq<string>)
    ensures |Add(None, plan, host, ids)| <= |plan| + 1
  {
    hide Strip, Trim, Keep, IndexOf, Union;
  }

  /** Only wide lines add hosts. */
  lemma {:induction false} RowsAreWide(lines: seq<string>, i: nat, plan: Plan)
    requires i <= |lines|
    ensures |Rows(None, lines, i, 0, 2, plan)| <= |plan| + Wide(lines[i..])
    decreases |lines| - i
  {
    hide Add, Strip, IsRule, SplitIds, Cells, Trim, Bars;
    if i < |lines| {
      assert lines[i..][1..] == lines[i + 1..] && lines[i..][0] == lines[i];
      var line := Strip(lines[i]);
      if line == "" || line[0] != '|' || IsRule(line) {
        RowsAreWide(lines, i + 1, plan);
      } else {
        var body := Cells(Trim(line, '|'));
        AddGrows(plan, CellAt(body, 0), SplitIds(CellAt(body, 2)));
        if Bars(lines[i]) <= 2 { NarrowAddsNothing(lines[i], plan); }
        RowsAreWide(lines, i + 1, Add(None, plan, CellAt(body, 0), SplitIds(CellAt(body, 2))));
      }
    }
  }

  // ---------- the lines of a row whose name holds line ends ----------

  /** The line does not begin, behind white space, like a bullet. */
  predicate Unmarked(l: string) {
    var m := SkipSpace(l, 0);
    m < |l| ==> l[m] !in "-*\U{2022}"
  }

  predicate NameUnmarked(j: Job) { forall l <- SplitLines(j.hostname) :: Unmarked(l) }

  lemma NoBullet(l: string)
    requires Unmarked(l)
    ensures Bullet(l) == None
  {
  }

  lemma UnmarkedJoin(l: string, post: string)
    requires Unmarked(l) && |post| > 1 && post[0] == ' ' && post[1] == '|'
    ensures Unmarked(l + post)
  {
    var w, m := l + post, SkipSpace(l, 0);
    assert forall k :: 0 <= k < |l| ==> w[k] == l[k];
    assert w[|l|] == ' ' && w[|l| + 1] == '|';
    SkipIs(w, 0, if m < |l| then m else |l| + 1);
  }

  /** What a line of a broken row is like. */
  predicate Idle(l: string) { Bars(l) <= 2 && Unmarked(l) }

  lemma {:induction false} NameFragments(name: string, post: string)
    requires '|' !in name && (forall l <- SplitLines(name) :: Unmarked(l))
    requires OneLine(post) && Bars(post) <= 2 && |post| > 1 && post[0] == ' ' && post[1] == '|'
    ensures forall l <- SplitLines(name + post) :: Idle(l)
    decreases |name|
  {
    hide Bars, Unmarked, OneLine, IsBreak, SplitLines, BreakAt, Behind;
    var n := BreakAt(name);
    if n == |name| {
      NoBreakIn(name);
      OneLineParts(name, post);
      SplitFirst(name, "");
      SplitFirst(name + post, "");
      if name == "" { EmptyUnmarked(); }
      UnmarkedJoin(name, post);
      NoBars(name);
      BarsJoin(name, post);
    } else {
      BehindJoin(name, post);
      SplitStep(name);
      SplitStep(name + post);
      NoBars(name[..n]);
      BehindIs(name, n);
      assert '|' !in Behind(name);
      NameFragments(Behind(name), post);
    }
  }

  lemma EmptyUnmarked()
    ensures Unmarked("")
  {
  }

  /** The lines of a row whose host is on one line and whose name is not. */
  lemma RowFragments(pre: string, name: string, post: string)
    requires OneLine(pre) && Bars(pre) == 2 && pre != "" && pre[0] == '|' && !OneLine(name)
    requires '|' !in name && (forall l <- SplitLines(name) :: Unmarked(l))
    requires OneLine(post) && Bars(post) <= 2 && |post| > 1 && post[0] == ' ' && post[1] == '|'
    ensures forall l <- SplitLines(pre + (name + post)) :: Idle(l)
  {
    hide Bars, Unmarked, OneLine, IsBreak, SplitLines, BreakAt, Behind;
    var n := BreakAt(name);
    if n == |name| { NoBreakIn(name); }
    BehindJoin(name, post);
    BreakBehind(pre, name + post);
    SplitStep(name);
    SplitStep(pre + (name + post));
    NoBars(name[..n]);
    BarsJoin(pre, name[..n]);
    StartsWithBar(pre + name[..n]);
    BehindIs(name, n);
    assert '|' !in Behind(name);
    NameFragments(Behind(name), post);
  }

  lemma StartsWithBar(l: string)
    requires l != "" && l[0] == '|'
    ensures Unmarked(l)
  {
    SkipIs(l, 0, 0);
  }

  lemma BeforeHasTwoBars(j: Job)
    requires Good(j)
    ensures Bars(Before(j)) == 2 && Before(j) != "" && Before(j)[0] == '|'
  {
    var a := Padding(Tick(j.host));
    assert '|' !in a;
    NoBars(a);
    assert Bars("| ") == 1 by { assert "| "[1..] == " " && " "[1..] == ""; }
    assert Bars("|") == 1 by { assert "|"[1..] == ""; }
    hide Bars, Padding;
    BarsJoin("|", a + "| ");
    BarsJoin(a, "| ");
  }

  lemma AfterHasTwoBars(j: Job)
    requires Good(j)
    ensures Bars(After(j)) == 2 && |After(j)| > 1 && After(j)[0] == ' ' && After(j)[1] == '|'
  {
    var c := Padding(FrameworkCell(j.frameworks));
    CellHasNoBar(j.frameworks);
    assert '|' !in c;
    NoBars(c);
    assert Bars(" |") == 1 by { assert " |"[1..] == "|" && "|"[1..] == ""; }
    assert Bars("|") == 1 by { assert "|"[1..] == ""; }
    hide Bars, Padding;
    BarsJoin(" |", c + "|");
    BarsJoin(c, "|");
  }

  lemma RowIsIdle(j: Job)
    requires Good(j) && OneLine(j.host) && !OneLine(j.hostname) && NameUnmarked(j)
    ensures forall l <- SplitLines(RowLine(j)) :: Idle(l)
  {
    RowParts(j);
    BeforeOnLine(j);
    AfterOnLine(j);
    BeforeHasTwoBars(j);
    AfterHasTwoBars(j);
    assert j.hostname != "";
    hide Before, After, OneLine, SplitLines, RowLine, Bars, Unmarked, Idle;
    RowFragments(Before(j), j.hostname, After(j));
  }

  lemma RowIsALine(j: Job)
    requires Good(j) && OnOneRow(j)
    ensures SplitLines(RowLine(j)) == [RowLine(j)] && Unmarked(RowLine(j))
  {
    RowOnLine(j);
    RowParts(j);
    BeforeHasTwoBars(j);
    hide OneLine, SplitLines, Unmarked, Before, After, NameCell, Bars;
    SplitFirst(RowLine(j), "");
    StartsWithBar(RowLine(j));
  }

  // ---------- the lines of a plan whose names hold line ends ----------

  function Fragments(js: seq<Job>): seq<string>
    requires forall j <- js :: j.frameworks != []
  {
    if js == [] then [] else SplitLines(RowLine(js[0])) + Fragments(js[1..])
  }

  lemma RowEnds(j: Job)
    requires j.frameworks != []
    ensures RowLine(j) != "" && !IsBreak(RowLine(j)[|RowLine(j)| - 1])
  {
    var line := RowLine(j);
    assert line[|line| - 1] == '|';
  }

  lemma {:induction false} RowsApart(js: seq<Job>)
    requires js != [] && forall j <- js :: j.frameworks != []
    ensures SplitLines(Join(RowLines(js) + [""])) == Fragments(js)
    decreases |js|
  {
    var rest, row := RowLines(js[1..]) + [""], RowLine(js[0]);
    RowEnds(js[0]);
    assert RowLines(js) + [""] == [row] + rest;
    JoinFirst([row] + rest);
    assert ([row] + rest)[1..] == rest;
    hide RowLine, IsBreak, SplitLines, Join;
    if |js| == 1 {
      assert rest == [""] && Fragments(js[1..]) == [];
      NoLines();
      JoinEmpty();
      SplitApart(row, "");
    } else {
      assert forall j <- js[1..] :: j in js;
      SplitApart(row, Join(rest));
      RowsApart(js[1..]);
    }
  }

  lemma JoinEmpty()
    ensures Join([""]) == ""
  {
  }

  lemma JoinOne(line: string, more: seq<string>)
    requires OneLine(line) && more != []
    ensures SplitLines(Join([line] + more)) == [line] + SplitLines(Join(more))
  {
    JoinFirst([line] + more);
    assert ([line] + more)[1..] == more;
    hide Join, SplitLines, OneLine;
    SplitFirst(line, Join(more));
  }

  function Four(a: string, b: string, c: string, d: string, more: seq<string>): seq<string> {
    [a] + ([b] + ([c] + ([d] + more)))
  }

  lemma FourIs(a: string, b: string, c: string, d: string, more: seq<string>)
    ensures var ls := Four(a, b, c, d, more);
            && ls == [a, b, c, d] + more && |ls| >= 4 && ls[0] == a && ls[1] == b && ls[2] == c && ls[3] == d
            && ls[4..] == more && forall l <- ls :: l == a || l == b || l == c || l == d || l in more
  {
  }

  lemma JoinFour(a: string, b: string, c: string, d: string, more: seq<string>)
    requires OneLine(a) && OneLine(b) && OneLine(c) && OneLine(d) && more != []
    ensures SplitLines(Join(Four(a, b, c, d, more))) == Four(a, b, c, d, SplitLines(Join(more)))
  {
    hide Join, SplitLines, OneLine;
    JoinOne(a, [b] + ([c] + ([d] + more)));
    JoinOne(b, [c] + ([d] + more));
    JoinOne(c, [d] + more);
    JoinOne(d, more);
  }

  lemma JoinFirst(ls: seq<string>)
    requires |ls| > 1
    ensures Join(ls) == ls[0] + ("\n" + Join(ls[1..]))
  {
  }

  /** The lines of the text of any good plan. */
  lemma TextLines(js: seq<Job>)
    requires js != [] && forall j <- js :: j.frameworks != []
    ensures SplitLines(Markdown(js)) == Four(TITLE, "", HEADER, RULE, Fragments(js))
  {
    FixedOnLines();
    hide OneLine, SplitLines, Fragments, Join, TITLE, HEADER, RULE, RowLines, Four;
    FourIs(TITLE, "", HEADER, RULE, RowLines(js) + [""]);
    assert Printed(js) == [TITLE, "", HEADER, RULE] + (RowLines(js) + [""]);
    JoinFour(TITLE, "", HEADER, RULE, RowLines(js) + [""]);
    RowsApart(js);
  }

  lemma {:induction false} FewWide(js: seq<Job>)
    requires forall j <- js :: Good(j) && OneLine(j.host) && NameUnmarked(j)
    ensures forall j <- js :: j.frameworks != []
    ensures Wide(Fragments(js)) <= |js| && (!OnRows(js) ==> Wide(Fragments(js)) < |js|)
    ensures forall l <- Fragments(js) :: Unmarked(l)
    decreases |js|
  {
    assert forall j <- js :: j.frameworks != [];
    hide Good, OneLine, NameUnmarked, RowLine, SplitLines, Unmarked, Bars;
    if js != [] {
      var j, row := js[0], SplitLines(RowLine(js[0]));
      assert j in js && js == [j] + js[1..];
      FewWide(js[1..]);
      WideJoin(row, Fragments(js[1..]));
      if OneLine(j.hostname) {
        RowIsALine(j);
        assert row[1..] == [] && Wide(row) <= 1;
      } else {
        RowIsIdle(j);
        NarrowLines(row);
      }
    }
  }

  lemma {:induction false} NoBullets(lines: seq<string>)
    requires forall l <- lines :: Unmarked(l)
    ensures Bullets(None, lines, []) == []
    decreases |lines|
  {
    hide Bullet, Unmarked;
    if lines != [] {
      assert lines[0] in lines && forall l <- lines[1..] :: l in lines;
      NoBullet(lines[0]);
      NoBullets(lines[1..]);
    }
  }

  lemma FixedUnmarked()
    ensures Unmarked(TITLE) && Unmarked("") && Unmarked(HEADER) && Unmarked(RULE)
  {
    SkipIs(TITLE, 0, 0);
    assert HEADER[0] == '|';
    StartsWithBar(HEADER);
    StartsWithBar(RULE);
  }

  /** A name on more than one line loses its host. */
  lemma BrokenNameIsLost(js: seq<Job>)
    requires GoodPlan(js) && !OnRows(js) && forall j <- js :: OneLine(j.host) && NameUnmarked(j)
    ensures forall j <- js :: j.frameworks != []
    ensures |Parse(None, SplitLines(Markdown(js)))| < |js|
  {
    assert forall j <- js :: j.frameworks != [];
    assert js != [];
    FewWide(js);
    FixedUnmarked();
    hide *;
    TextLines(js);
    FourIs(TITLE, "", HEADER, RULE, Fragments(js));
    var lines := SplitLines(Markdown(js));
    TableIsRows(lines);
    RowsAreWide(lines, 4, []);
    NoBullets(lines);
    ParseFinds(lines);
  }

  /** MAIN: parsing the text of a printed plan gives back its hosts with their frameworks, in order,
      exactly if no host and no display name holds a line end. Only a name with a line that begins like
      a bullet can make up for what its line ends lose. */
  lemma PlanRoundTrip(js: seq<Job>)
    requires GoodPlan(js)
    ensures forall j <- js :: j.frameworks != []
    ensures OnRows(js) ==> Parse(None, SplitLines(Markdown(js))) == Targets(js)
    ensures (forall j <- js :: NameUnmarked(j)) ==> (Parse(None, SplitLines(Markdown(js))) == Targets(js) <==> OnRows(js))
    ensures (exists j <- js :: !OneLine(j.host)) ==> Parse(None, SplitLines(Markdown(js))) != Targets(js)
  {
    assert forall j <- js :: j.frameworks != [];
    hide Parse, SplitLines, Markdown, Targets, OneLine, NameUnmarked, GoodPlan;
    if OnRows(js) {
      TextHasLines(js);
      LinesRead(js);
    } else if j :| j in js && !OneLine(j.host) {
      BrokenHostIsLost(js, j);
    } else if forall j <- js :: NameUnmarked(j) {
      BrokenNameIsLost(js);
      TargetsOf(js);
    }
  }

  lemma {:induction false} TargetsHave(js: seq<Job>, j: Job)
    requires j in js
    ensures Target(j.host, j.frameworks) in Targets(js)
    decreases |js|
  {
    if j != js[0] { TargetsHave(js[1..], j); }
  }

  lemma BrokenHostIsLost(js: seq<Job>, j: Job)
    requires j in js && !OneLine(j.host) && forall j <- js :: j.frameworks != []
    ensures Parse(None, SplitLines(Markdown(js))) != Targets(js)
  {
    hide *;
    SplitIsSingle(Markdown(js));
    ParsedOnLine(SplitLines(Markdown(js)));
    TargetsHave(js, j);
    LostHost(Parse(None, SplitLines(Markdown(js))), Target(j.host, j.frameworks));
  }

  lemma SplitIsSingle(s: string)
    ensures AllSingle(SplitLines(s))
  {
  }

  lemma LostHost(plan: Plan, t: Target)
    requires HostsOnLines(plan) && !OneLine(t.host)
    ensures t !in plan
  {
  }
}
