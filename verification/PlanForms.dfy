/** The forms in which a plan may be written: tables under any of the known headings, rule lines, and
    bullets. */
module PlanForms {
  import opened Characters
  import opened Options
  import opened PlanMarkdown
  import opened PlanPrinted
  import opened PlanText
  import opened PythonText
  import opened ScopePlan
  import opened Sequences
  import Text

  // ---------- headings ----------

  const HOST_WORDS := ["host", "hosts", "hostip", "ip", "ips", "target", "targets", "hostname", "address", "server",
    "\U{445}\U{43E}\U{441}\U{442}", "\U{430}\U{434}\U{440}\U{435}\U{441}", "\U{441}\U{435}\U{440}\U{432}\U{435}\U{440}"]

  const FRAMEWORK_WORDS := ["framework", "frameworks", "check", "checks", "checklist", "audit", "audits", "scope",
    "\U{444}\U{440}\U{435}\U{439}\U{43C}\U{432}\U{43E}\U{440}\U{43A}",
    "\U{444}\U{440}\U{435}\U{439}\U{43C}\U{432}\U{43E}\U{440}\U{43A}\U{438}",
    "\U{43F}\U{440}\U{43E}\U{432}\U{435}\U{440}\U{43A}\U{438}", "\U{43F}\U{440}\U{43E}\U{432}\U{435}\U{440}\U{43A}\U{430}"]

  lemma {:induction false} KeepJoin(a: string, b: string)
    ensures KeepHeader(a + b) == KeepHeader(a) + KeepHeader(b)
  {
    if a == "" {
      assert a + b == b;
    } else {
      KeepJoin(a[1..], b);
      assert a + b == [a[0]] + (a[1..] + b) && a == [a[0]] + a[1..];
      KeepCons(a[0], a[1..] + b);
      KeepCons(a[0], a[1..]);
      hide KeepHeader;
      Associate(KeepHeader([a[0]]), KeepHeader(a[1..]), KeepHeader(b));
    }
  }

  lemma KeepCons(c: char, s: string)
    ensures KeepHeader([c] + s) == KeepHeader([c]) + KeepHeader(s)
  {
    assert ([c] + s)[1..] == s && [c][1..] == "" && KeepHeader("") == "";
  }

  /** A heading is compared by its letters and digits, in lower case. */
  lemma NormIs(a: string, c: char, b: string)
    ensures Norm(a + ([c] + b)) == Norm(a) + Norm([c]) + Norm(b)
    ensures Norm([c]) == if LowerChar(c) in SMALL || LowerChar(c) in "0123456789" || LowerChar(c) in RUSSIAN_SMALL then [LowerChar(c)] else ""
  {
    assert Lower(a + ([c] + b)) == Lower(a) + (Lower([c]) + Lower(b));
    KeepJoin(Lower(a), Lower([c]) + Lower(b));
    KeepJoin(Lower([c]), Lower(b));
    assert Lower([c]) == [LowerChar(c)] && [LowerChar(c)][1..] == "";
    HeaderCharIs(LowerChar(c));
    hide SMALL, RUSSIAN_SMALL;
  }

  lemma HeaderCharIs(c: char)
    ensures HeaderChar(c) <==> c in SMALL || c in "0123456789" || c in RUSSIAN_SMALL
  {
    if 'a' <= c <= 'z' { LatinIs(c as int - 'a' as int); assert SMALL[c as int - 'a' as int] == c; }
    if '\U{430}' <= c <= '\U{44F}' { RussianIs(c as int - 0x430); assert RUSSIAN_SMALL[c as int - 0x430] == c; }
    if '0' <= c <= '9' { assert "0123456789"[c as int - '0' as int] == c; }
    assert RUSSIAN_SMALL[32] == '\U{451}';
    hide SMALL, RUSSIAN_SMALL;
    InTables(c);
  }

  lemma InTables(c: char)
    ensures c in SMALL ==> 'a' <= c <= 'z'
    ensures c in RUSSIAN_SMALL ==> '\U{430}' <= c <= '\U{44F}' || c == '\U{451}'
  {
    if c in SMALL {
      var k :| 0 <= k < |SMALL| && SMALL[k] == c;
      LatinIs(k);
    }
    if c in RUSSIAN_SMALL {
      var k :| 0 <= k < |RUSSIAN_SMALL| && RUSSIAN_SMALL[k] == c;
      if k < 32 { RussianIs(k); }
    }
  }

  /** A heading for hosts is one of these words, or holds `host`. */
  ghost predicate HostHeading(w: string) { w in HOST_WORDS || Text.Contains(w, "host") }

  ghost predicate FrameworkHeading(w: string) {
    w in FRAMEWORK_WORDS || Text.Contains(w, "framework") || Text.Contains(w, "check")
    || Text.Contains(w, "\U{444}\U{440}\U{435}\U{439}\U{43C}")
  }

  lemma Holds(w: string, p: string)
    ensures Text.IndexOf(w, p, 0) != -1 <==> Text.Contains(w, p)
  {
    if Text.IndexOf(w, p, 0) == -1 {
      forall k: nat ensures !Text.HasAt(w, p, k) { Text.NoneBefore(w, p, 0, k); }
    }
  }

  lemma HeadingsAre(w: string)
    ensures NamesHost(w) <==> HostHeading(w)
    ensures NamesFrameworks(w) <==> FrameworkHeading(w)
  {
    Holds(w, "host");
    Holds(w, "framework");
    Holds(w, "check");
    Holds(w, "\U{444}\U{440}\U{435}\U{439}\U{43C}");
    WordsAre(w);
    hide Text.IndexOf, Text.Contains, HOST_HEADERS, FRAMEWORK_HEADERS, HOST_WORDS, FRAMEWORK_WORDS;
  }

  lemma WordsAre(w: string)
    ensures w in HOST_HEADERS <==> w in HOST_WORDS
    ensures w in FRAMEWORK_HEADERS <==> w in FRAMEWORK_WORDS
  {
  }

  // ---------- rules ----------

  /** A line of bars, colons, dashes and white space below the headings is no row. */
  lemma RuleIsNoRow(known: Known, lines: seq<string>, i: nat, h: nat, f: nat, plan: Plan)
    requires i < |lines| && |lines[i]| >= 3 && lines[i][0] == '|' && lines[i][|lines[i]| - 1] == '|'
    requires forall k :: 0 <= k < |lines[i]| ==> lines[i][k] in WHITE || lines[i][k] in "|:-"
    ensures Rows(known, lines, i, h, f, plan) == Rows(known, lines, i + 1, h, f, plan)
  {
    var line := lines[i];
    hide WHITE, Strip, Rows, IsSpace;
    forall k | 0 <= k < |line| ensures IsSpace(line[k]) || line[k] in "|:-" { SpaceIsWhite(line[k]); }
    LineIsRule(line);
    RuleStep(known, lines, i, h, f, plan);
  }

  lemma LineIsRule(line: string)
    requires |line| >= 3 && line[0] == '|' && line[|line| - 1] == '|'
    requires forall k :: 0 <= k < |line| ==> IsSpace(line[k]) || line[k] in "|:-"
    ensures Strip(line) == line && IsRule(line)
  {
    Bare(line);
    hide IsSpace, Strip;
  }

  lemma RuleStep(known: Known, lines: seq<string>, i: nat, h: nat, f: nat, plan: Plan)
    requires i < |lines| && Strip(lines[i]) == lines[i] && lines[i] != "" && lines[i][0] == '|' && IsRule(lines[i])
    ensures Rows(known, lines, i, h, f, plan) == Rows(known, lines, i + 1, h, f, plan)
  {
    hide Strip, Add, Cells, SplitIds, Trim, IsRule;
  }

  // ---------- bullets ----------

  predicate HostName(s: string) {
    s != "" && forall k :: 0 <= k < |s| ==> 'A' <= s[k] <= 'Z' || 'a' <= s[k] <= 'z' || '0' <= s[k] <= '9' || s[k] in "._:-"
  }

  function BulletLine(mark: char, host: string, cell: string): string { [mark] + (" " + (host + (": " + cell))) }

  lemma BulletShape(mark: char, host: string, cell: string)
    requires mark in "-*\U{2022}" && HostName(host) && cell != "" && cell[0] == '`'
    ensures var s, n := BulletLine(mark, host, cell), |host|;
            && |s| == n + 4 + |cell| && s[0] == mark && !IsSpace(mark) && s[1] == ' ' && s[2..2 + n] == host && s[2 + n] == ':'
            && s[3 + n] == ' ' && s[4 + n..] == cell && s[4 + n] == '`'
            && (forall k :: 2 <= k < 3 + n ==> HostChar(s[k]))
  {
    var s, n := BulletLine(mark, host, cell), |host|;
    assert forall k :: 2 <= k < 2 + n ==> s[k] == host[k - 2];
  }

  lemma {:induction false} HostTo(s: string, i: nat, j: nat)
    requires i <= j < |s| && (forall k :: i <= k < j ==> HostChar(s[k])) && !HostChar(s[j])
    ensures HostEnd(s, i) == j
    decreases j - i
  {
    if i < j { HostTo(s, i + 1, j); }
  }

  /** A bullet line with a mark, a host, a colon and the frameworks is read as such. */
  lemma BulletIsRead(mark: char, host: string, cell: string)
    requires mark in "-*\U{2022}" && HostName(host) && cell != "" && cell[0] == '`'
    ensures Bullet(BulletLine(mark, host, cell)) == Some((host, cell))
  {
    var s, n := BulletLine(mark, host, cell), |host|;
    BulletShape(mark, host, cell);
    hide BulletLine;
    assert s[2] != '`';
    HostTo(s, 2, 3 + n);
    SkipIs(s, 0, 0);
    SkipIs(s, 1, 2);
    RestBehind(s, 2 + n);
    RestNone(s, 3 + n);
    hide HostEnd, RestAt, SkipSpace;
    LongestIs(s, n);
    hide LongestHost;
    BulletWith(s, 3 + n);
  }

  lemma LongestIs(s: string, n: nat)
    requires n > 0 && 4 + n < |s| && RestAt(s, 2 + n) == Some(4 + n) && RestAt(s, 3 + n) == None
    ensures LongestHost(s, 2, 3 + n) == Some((s[2..2 + n], s[4 + n..]))
  {
    hide RestAt;
    assert LongestHost(s, 2, 2 + n) == Some((s[2..2 + n], s[4 + n..]));
  }

  lemma BulletWith(s: string, end: nat)
    requires |s| > 2 && SkipSpace(s, 0) == 0 && s[0] in "-*\U{2022}" && SkipSpace(s, 1) == 2 && s[2] != '`' && HostEnd(s, 2) == end
    ensures Bullet(s) == LongestHost(s, 2, end)
  {
    hide LongestHost, HostEnd, SkipSpace;
  }

  /** Behind the host stands the colon, and then the frameworks. */
  lemma RestBehind(s: string, i: nat)
    requires i + 2 < |s| && s[i] == ':' && s[i + 1] == ' ' && s[i + 2] == '`'
    ensures RestAt(s, i) == Some(i + 2)
  {
    SkipIs(s, i, i);
    assert SignEnd(s, i + 1) == i + 1;
    assert SignEnd(s, i) == i + 1;
    SkipIs(s, i + 1, i + 2);
    hide SkipSpace, SignEnd;
  }

  /** Behind the colon there is no sign. */
  lemma RestNone(s: string, i: nat)
    requires i + 1 < |s| && s[i] == ' ' && s[i + 1] == '`'
    ensures RestAt(s, i) == None
  {
    SkipIs(s, i, i + 1);
    assert SignEnd(s, i + 1) == i + 1;
    hide SkipSpace, SignEnd;
  }

  function BulletLines(mark: char, js: seq<Job>): seq<string>
    requires forall j <- js :: j.frameworks != []
  {
    if js == [] then [] else [BulletLine(mark, js[0].host, FrameworkCell(js[0].frameworks))] + BulletLines(mark, js[1..])
  }

  lemma {:induction false} BulletsAreNoTable(mark: char, js: seq<Job>)
    requires mark in "-*\U{2022}" && forall j <- js :: j.frameworks != []
    ensures forall l <- BulletLines(mark, js) :: Header(l) == None
    decreases |js|
  {
    hide Header, BulletLine;
    if js != [] {
      assert js[0] in js && forall j <- js[1..] :: j in js;
      MarkIsNoBar(mark, BulletLine(mark, js[0].host, FrameworkCell(js[0].frameworks))) by {
        BulletStarts(mark, js[0].host, FrameworkCell(js[0].frameworks));
      }
      BulletsAreNoTable(mark, js[1..]);
    }
  }

  lemma BulletStarts(mark: char, host: string, cell: string)
    ensures BulletLine(mark, host, cell) != "" && BulletLine(mark, host, cell)[0] == mark
  {
  }

  lemma MarkIsNoBar(mark: char, line: string)
    requires mark in "-*\U{2022}" && line != "" && line[0] == mark
    ensures Header(line) == None
  {
    SkipIs(line, 0, 0);
    assert line[0..] == line;
    StripEndIsPrefix(line);
    assert Strip(line) != "" ==> Strip(line)[0] == mark;
    hide StripEnd;
  }

  lemma {:induction false} NoTable(known: Known, lines: seq<string>, i: nat)
    requires forall l <- lines :: Header(l) == None
    ensures Table(known, lines, i) == []
    decreases |lines| - i
  {
    hide Header, Rows;
    if i < |lines| { NoTable(known, lines, i + 1); }
  }

  predicate GoodBullet(j: Job) {
    HostName(j.host) && j.frameworks != [] && Distinct(j.frameworks) && forall id <- j.frameworks :: GoodId(id)
  }

  lemma AddBullet(plan: Plan, j: Job)
    requires GoodBullet(j) && forall k :: 0 <= k < |plan| ==> Lower(plan[k].host) != Lower(j.host)
    ensures Add(None, plan, j.host, SplitIds(FrameworkCell(j.frameworks))) == plan + [Target(j.host, j.frameworks)]
  {
    hide Strip, Trim, Keep, IndexOf, Union, Lower, SplitIds, GoodId, HostName, Distinct, FrameworkCell;
    SplitCell(j.frameworks);
    HostStands(j.host);
    KeepsGood(j.frameworks);
    IndexIsEnd(plan, j.host);
    UnionFromNone(j.frameworks);
  }

  lemma HostStands(host: string)
    requires HostName(host)
    ensures host != "" && Trim(Strip(host), '`') == host
  {
    assert !IsSpace(host[0]) && !IsSpace(host[|host| - 1]) && host[0] != '`' && host[|host| - 1] != '`';
    Bare(host);
    hide Strip;
  }

  lemma {:induction false} BulletsRead(mark: char, js: seq<Job>, plan: Plan)
    requires mark in "-*\U{2022}" && (forall j <- js :: GoodBullet(j)) && Fresh(plan, js)
    ensures forall j <- js :: j.frameworks != []
    ensures Bullets(None, BulletLines(mark, js), plan) == plan + Targets(js)
    decreases |js|
  {
    assert forall j <- js :: j.frameworks != [];
    hide GoodBullet, Bullet, BulletLine, Add, Fresh, SplitIds;
    if js == [] {
      assert plan + Targets(js) == plan;
    } else {
      var j, next := js[0], plan + [Target(js[0].host, js[0].frameworks)];
      assert j in js && forall k <- js[1..] :: k in js;
      BulletLinesCons(mark, js);
      hide *;
      CellIsBare(j.frameworks);
      HostIsName(j);
      BulletIsRead(mark, j.host, FrameworkCell(j.frameworks));
      FreshStep(plan, js);
      AddBullet(plan, j);
      BulletsRead(mark, js[1..], next);
      BulletFirst(BulletLine(mark, j.host, FrameworkCell(j.frameworks)), j.host, FrameworkCell(j.frameworks),
                  BulletLines(mark, js[1..]), plan);
      TargetsCons(plan, js);
    }
  }

  lemma BulletLinesCons(mark: char, js: seq<Job>)
    requires js != [] && forall j <- js :: j.frameworks != []
    ensures forall j <- js[1..] :: j.frameworks != []
    ensures BulletLines(mark, js) == [BulletLine(mark, js[0].host, FrameworkCell(js[0].frameworks))] + BulletLines(mark, js[1..])
  {
  }

  lemma BulletFirst(line: string, host: string, cell: string, more: seq<string>, plan: Plan)
    requires Bullet(line) == Some((host, cell))
    ensures Bullets(None, [line] + more, plan) == Bullets(None, more, Add(None, plan, host, SplitIds(cell)))
  {
    assert ([line] + more)[1..] == more;
    hide Bullet, Add, SplitIds;
  }

  lemma TargetsCons(plan: Plan, js: seq<Job>)
    requires js != []
    ensures plan + Targets(js) == (plan + [Target(js[0].host, js[0].frameworks)]) + Targets(js[1..])
  {
  }

  lemma HostIsName(j: Job)
    requires GoodBullet(j)
    ensures HostName(j.host)
  {
  }

  /** MAIN: a plan written as bullets reads back as one written as a table does. */
  lemma BulletRoundTrip(mark: char, js: seq<Job>)
    requires mark in "-*\U{2022}" && forall j <- js :: GoodBullet(j)
    requires forall m, n :: 0 <= m < n < |js| ==> Lower(js[m].host) != Lower(js[n].host)
    ensures forall j <- js :: j.frameworks != []
    ensures Parse(None, BulletLines(mark, js)) == Targets(js)
  {
    assert forall j <- js :: j.frameworks != [];
    assert Fresh([], js);
    hide *;
    BulletsRead(mark, js, []);
    BulletsAreNoTable(mark, js);
    NoTable(None, BulletLines(mark, js), 0);
    ParseFinds(BulletLines(mark, js));
    TargetsOf(js);
  }
}
