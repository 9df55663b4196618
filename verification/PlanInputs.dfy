/** Plans whose hosts or names hold line ends: two that do not read back, and one that does. */
module PlanInputs {
  import opened Lines
  import opened Options
  import opened PlanMarkdown
  import opened PlanPrinted
  import opened PlanText
  import opened PythonText
  import opened ScopePlan
  import opened Sequences

  lemma CisIsGood()
    ensures GoodId("cis") && Distinct(["cis"])
  {
    assert |Lower("cis")| == 3 && Lower("cis")[0] == 'c';
    assert !IsFiller("cis") by { assert "and"[0] == 'a' && |"plus"| == 4; }
    assert !IsDiscovery("cis") by {
      Bare("cis");
      assert "host_facts"[0] == 'h';
    }
    hide IsDiscovery, IsFiller;
  }

  lemma IsGoodJob(j: Job)
    requires j.frameworks == ["cis"] && GoodHost(j.host) && '|' !in j.hostname
    ensures GoodPlan([j]) && Good(j)
  {
    CisIsGood();
    hide GoodId, Distinct, GoodHost;
  }

  /** A host on two lines does not read back. */
  lemma HostOnTwoLines()
    ensures var js := [Job("a\nb", "", ["cis"])]; GoodPlan(js) && Parse(None, SplitLines(Markdown(js))) != Targets(js)
  {
    var j := Job("a\nb", "", ["cis"]);
    IsGoodJob(j);
    assert IsBreak(j.host[1]);
    hide *;
    BrokenHost(j);
  }

  lemma BrokenHost(j: Job)
    requires GoodPlan([j]) && exists k :: 0 <= k < |j.host| && IsBreak(j.host[k])
    ensures j.frameworks != [] && Parse(None, SplitLines(Markdown([j]))) != Targets([j])
  {
    assert !OneLine(j.host) && j in [j];
    hide *;
    PlanRoundTrip([j]);
  }

  /** Nor does a name. */
  lemma NameOnTwoLines()
    ensures var js := [Job("h", "x\ny", ["cis"])]; GoodPlan(js) && Parse(None, SplitLines(Markdown(js))) != Targets(js)
  {
    var j := Job("h", "x\ny", ["cis"]);
    IsGoodJob(j);
    assert "x" + ("\n" + "y") == "x\ny";
    assert !IsBreak('x') && !IsBreak('y') && !IsSpace('x') && !IsSpace('y');
    hide *;
    BrokenName(j, 'x', 'y');
  }

  lemma BrokenName(j: Job, x: char, y: char)
    requires GoodPlan([j]) && j.host == "h" && j.hostname == [x] + ("\n" + [y])
    requires !IsBreak(x) && !IsBreak(y) && !IsSpace(x) && !IsSpace(y) && x !in "-*\U{2022}" && y !in "-*\U{2022}"
    ensures j.frameworks != [] && Parse(None, SplitLines(Markdown([j]))) != Targets([j])
  {
    assert j.hostname[1] == '\n' && !OneLine(j.hostname) && OneLine([x]) && OneLine([y]);
    hide *;
    SplitFirst([x], [y]);
    SplitFirst([y], "");
    UnmarkedFirst([x], "");
    UnmarkedFirst([y], "");
    TwoUnmarked(j, [x], [y]);
    NotOnRows(j);
    PlanRoundTrip([j]);
  }

  lemma TwoUnmarked(j: Job, x: string, y: string)
    requires SplitLines(j.hostname) == [x] + [y] && Unmarked(x + "") && Unmarked(y + "")
    ensures NameUnmarked(j)
  {
    hide Unmarked;
    assert x + "" == x && y + "" == y;
  }

  lemma NotOnRows(j: Job)
    requires !OneLine(j.hostname)
    ensures !OnRows([j])
  {
    assert j in [j];
  }

  lemma UnmarkedFirst(l: string, post: string)
    requires l != "" && !IsSpace(l[0]) && l[0] !in "-*\U{2022}"
    ensures Unmarked(l + post)
  {
    assert (l + post)[0] == l[0];
    SkipIs(l + post, 0, 0);
  }

  lemma RegroupLines(a: string, x: string, m: string, y: string, b: string)
    ensures a + ((x + ("\n" + (m + ("\n" + y)))) + b) == (a + x) + ("\n" + (m + ("\n" + (y + b))))
  {
    var u := "\n" + y;
    var t := "\n" + (m + u);
    Associate("\n", y, b);
    Associate(m, u, b);
    Associate("\n", m + u, b);
    Associate(x, t, b);
    Associate(a, x, t + b);
  }

  lemma ThreeLines(a: string, x: string, m: string, y: string, b: string)
    requires OneLine(a) && OneLine(x) && OneLine(m) && OneLine(y) && OneLine(b) && y != ""
    ensures SplitLines(a + ((x + ("\n" + (m + ("\n" + y)))) + b)) == [a + x, m, y + b]
  {
    hide *;
    RegroupLines(a, x, m, y, b);
    OneLineParts(a, x);
    OneLineParts(y, b);
    SplitFirst(a + x, m + ("\n" + (y + b)));
    SplitFirst(m, y + b);
    SplitFirst(y + b, "");
  }

  lemma {:induction false} BulletsSkip(pre: seq<string>, more: seq<string>, plan: Plan)
    requires forall l <- pre :: Unmarked(l)
    ensures Bullets(None, pre + more, plan) == Bullets(None, more, plan)
    decreases |pre|
  {
    hide Bullet, Unmarked, Add, SplitIds;
    if pre == [] {
      assert pre + more == more;
    } else {
      assert pre[0] in pre && forall l <- pre[1..] :: l in pre;
      assert (pre + more)[1..] == pre[1..] + more;
      NoBullet(pre[0]);
      BulletsSkip(pre[1..], more, plan);
    }
  }

  lemma BulletReads(m: string, host: string, rest: string, last: string)
    requires Bullet(m) == Some((host, rest)) && Unmarked(last)
    ensures Bullets(None, [m, last], []) == Add(None, [], host, SplitIds(rest))
  {
    var plan := Add(None, [], host, SplitIds(rest));
    BulletsSkip([last], [], plan);
    hide Bullet, Unmarked, Add, SplitIds;
    assert [m, last][1..] == [last] && [last] + [] == [last];
    assert Bullets(None, [], plan) == plan;
  }

  /** A table whose rows add nothing leaves the plan to the bullets. */
  lemma BulletAlone(lines: seq<string>, a: string, m: string, b: string, host: string, rest: string)
    requires lines == Four(TITLE, "", HEADER, RULE, [a, m, b])
    requires Bars(a) <= 2 && Bars(m) <= 2 && Bars(b) <= 2 && Unmarked(a) && Unmarked(b) && Bullet(m) == Some((host, rest))
    ensures Parse(None, lines) == Add(None, [], host, SplitIds(rest))
  {
    FixedUnmarked();
    hide *;
    NarrowLines([a, m, b]);
    FourIs(TITLE, "", HEADER, RULE, [a, m, b]);
    TableIsRows(lines);
    RowsAreWide(lines, 4, []);
    assert lines == [TITLE, "", HEADER, RULE, a] + [m, b];
    BulletsSkip([TITLE, "", HEADER, RULE, a], [m, b], []);
    BulletReads(m, host, rest, b);
    ParseFinds(lines);
  }

  /** A bullet in a name makes up for the row that the name breaks. */
  lemma BulletInNameReadsBack()
    ensures var js := [Job("h", "x\n- h: cis\ny", ["cis"])];
            GoodPlan(js) && !OnRows(js) && Parse(None, SplitLines(Markdown(js))) == Targets(js)
  {
    var j := Job("h", "x\n- h: cis\ny", ["cis"]);
    IsGoodJob(j);
    NameParts(j.hostname, "x", "- h: cis", "y");
    hide *;
    NotOnRows(j);
    BulletReadsBack(j, "x", "- h: cis", "y");
  }

  lemma NameParts(name: string, x: string, m: string, y: string)
    requires name == "x\n- h: cis\ny" && x == "x" && m == "- h: cis" && y == "y"
    ensures name == x + ("\n" + (m + ("\n" + y))) && !OneLine(name)
  {
    assert IsBreak(name[1]);
  }

  lemma BulletReadsBack(j: Job, x: string, m: string, y: string)
    requires Good(j) && j.host == "h" && j.frameworks == ["cis"] && j.hostname == x + ("\n" + (m + ("\n" + y)))
    requires x == "x" && m == "- h: cis" && y == "y"
    ensures Parse(None, SplitLines(Markdown([j]))) == Targets([j])
  {
    TheBullet(m);
    PlainParts(x, m, y, j.host);
    UnmarkedFirst(y, After(j));
    BulletTarget(j);
    hide *;
    SameHost(j, x, m, y, j.host, j.frameworks[0]);
  }

  lemma BulletTarget(j: Job)
    ensures j.frameworks != [] ==> Targets([j]) == [Target(j.host, j.frameworks)]
  {
    assert [j][1..] == [];
  }

  lemma SameHost(j: Job, x: string, m: string, y: string, host: string, rest: string)
    requires Good(j) && j.hostname == x + ("\n" + (m + ("\n" + y))) && y != "" && j.frameworks == [rest] && j.host == host
    requires OneLine(x) && OneLine(m) && OneLine(y) && OneLine(j.host)
    requires Bars(x) == 0 && Bars(m) == 0 && Bars(y) == 0 && Unmarked(y + After(j)) && Bullet(m) == Some((host, rest))
    requires Add(None, [], host, SplitIds(rest)) == [Target(host, [rest])] && Targets([j]) == [Target(host, j.frameworks)]
    ensures Parse(None, SplitLines(Markdown([j]))) == Targets([j])
  {
    hide *;
    BulletInName(j, x, m, y, host, rest);
  }

  lemma PlainParts(x: string, m: string, y: string, host: string)
    requires x == "x" && m == "- h: cis" && y == "y" && host == "h"
    ensures OneLine(x) && OneLine(m) && OneLine(y) && OneLine(host) && Bars(x) == 0 && Bars(m) == 0 && Bars(y) == 0
    ensures !IsSpace(y[0])
  {
    NoBars(x);
    NoBars(m);
    NoBars(y);
    hide Bars;
  }

  lemma BulletInName(j: Job, x: string, m: string, y: string, host: string, rest: string)
    requires Good(j) && j.hostname == x + ("\n" + (m + ("\n" + y))) && y != ""
    requires OneLine(x) && OneLine(m) && OneLine(y) && OneLine(j.host)
    requires Bars(x) == 0 && Bars(m) == 0 && Bars(y) == 0 && Unmarked(y + After(j)) && Bullet(m) == Some((host, rest))
    ensures Parse(None, SplitLines(Markdown([j]))) == Add(None, [], host, SplitIds(rest))
  {
    assert j.frameworks != [];
    var lines := SplitLines(Markdown([j]));
    hide *;
    BrokenRow(j, x, m, y);
    BeforeHasTwoBars(j);
    AfterHasTwoBars(j);
    FirstPart(Before(j), x);
    BarsJoin(y, After(j));
    BulletAlone(lines, Before(j) + x, m, y + After(j), host, rest);
  }

  lemma FirstPart(pre: string, x: string)
    requires Bars(pre) == 2 && pre != "" && pre[0] == '|' && Bars(x) == 0
    ensures Bars(pre + x) == 2 && Unmarked(pre + x)
  {
    hide *;
    BarsJoin(pre, x);
    StartsWithBar(pre + x);
  }

  lemma BrokenRow(j: Job, x: string, m: string, y: string)
    requires Good(j) && j.hostname == x + ("\n" + (m + ("\n" + y)))
    requires OneLine(x) && OneLine(m) && OneLine(y) && OneLine(j.host) && y != ""
    ensures SplitLines(Markdown([j])) == Four(TITLE, "", HEADER, RULE, [Before(j) + x, m, y + After(j)])
  {
    assert forall k <- [j] :: k.frameworks != [];
    TextLines([j]);
    RowParts(j);
    BeforeOnLine(j);
    AfterOnLine(j);
    assert NameCell(j.hostname) == j.hostname;
    hide OneLine, SplitLines, Markdown, RowLine, Before, After, Four, NameCell;
    ThreeLines(Before(j), x, m, y, After(j));
    OneJob(j);
  }

  lemma OneJob(j: Job)
    requires j.frameworks != []
    ensures Fragments([j]) == SplitLines(RowLine(j))
  {
    hide SplitLines, RowLine;
    assert [j][1..] == [] && Fragments([]) == [];
  }

  lemma TheBullet(s: string)
    requires s == "- h: cis"
    ensures Bullet(s) == Some(("h", "cis")) && Add(None, [], "h", SplitIds("cis")) == [Target("h", ["cis"])]
  {
    TheMark(s);
    CisIsRead();
    hide SplitIds, Bullet;
    AddCis();
  }

  lemma TheMark(s: string)
    requires s == "- h: cis"
    ensures Bullet(s) == Some(("h", "cis"))
  {
    SkipIs(s, 0, 0);
    SkipIs(s, 1, 2);
    TheHost(s);
    hide LongestHost, HostEnd, SkipSpace, Bullet;
    BulletAt(s);
  }

  lemma BulletAt(s: string)
    requires |s| > 2 && SkipSpace(s, 0) == 0 && s[0] == '-' && SkipSpace(s, 1) == 2 && s[2] != '`'
    ensures Bullet(s) == LongestHost(s, 2, HostEnd(s, 2))
  {
    hide LongestHost, HostEnd, SkipSpace;
  }

  lemma TheHost(s: string)
    requires s == "- h: cis"
    ensures HostEnd(s, 2) == 4 && LongestHost(s, 2, 4) == Some(("h", "cis"))
  {
    assert HostEnd(s, 4) == 4;
    assert HostEnd(s, 3) == 4;
    TheRest(s);
    hide RestAt;
    assert LongestHost(s, 2, 3) == Some((s[2..3], s[5..]));
    assert s[2..3] == "h" && s[5..] == "cis";
  }

  lemma TheRest(s: string)
    requires s == "- h: cis"
    ensures RestAt(s, 4) == None && RestAt(s, 3) == Some(5)
  {
    SkipIs(s, 4, 5);
    SkipIs(s, 5, 5);
    SkipIs(s, 3, 3);
    assert SignEnd(s, 4) == 4;
    assert SignEnd(s, 3) == 4;
    assert SignEnd(s, 5) == 5;
    hide SkipSpace, SignEnd;
  }

  lemma CisIsRead()
    ensures SplitIds("cis") == ["cis"]
  {
    Bare("cis");
    CisIsGood();
    TokensStep("cis", "");
    assert "cis" + "" == "cis" && Tokens("") == [];
    assert [] + ["cis"] == ["cis"];
    assert Trim("cis", '`') == "cis";
    hide Strip, Tokens, IsDiscovery, IsFiller, Lower, Trim;
    assert !Has([], "cis");
    assert AddIds(["cis"], []) == ["cis"];
    assert ["cis"][1..] == [];
  }

  lemma AddCis()
    ensures Add(None, [], "h", ["cis"]) == [Target("h", ["cis"])]
  {
    Bare("h");
    CisIsGood();
    assert Trim("h", '`') == "h";
    assert [] + ["cis"] == ["cis"];
    KeepsGood(["cis"]);
    UnionFromNone(["cis"]);
    hide Strip, Trim, Keep, Union, GoodId, Distinct, Lower;
  }
}
