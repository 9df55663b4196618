/** Evidence numbers over whole runs: tickets handed out to concurrent writers, files written, writers
    that die, reports, and re-openings that read the counters back from the folders. */
module EvidenceNumbers {
  import opened EvidenceNames
  import opened Options
  import opened Ordering
  import Text

  // ---------- folders ----------

  /** A folder below the run root: framework and requirement, or host, framework and requirement. */
  type Path = seq<string>

  /** The requirement folders with their file names, and the folders that hold a `report.md`. */
  datatype Disk = Disk(files: map<Path, set<string>>, reports: set<Path>)

  predicate StartsReq(name: string) { "req" <= Text.Lower(name) }

  predicate Dotted(name: string) { name != "" && name[0] == '.' }

  predicate Below(p: Path, q: Path) { |p| < |q| && q[..|p|] == p }

  /** The folder counts as a framework: a report lies in it, or a folder named like a requirement. */
  predicate Recognised(d: Disk, p: Path) {
    p in d.reports || exists q :: q in d.files.Keys + d.reports && Below(p, q) && StartsReq(q[|p|])
  }

  /** Seeding looks into requirement folder `p`. */
  predicate Counted(d: Disk, p: Path) {
    || (|p| == 2 && !Dotted(p[0]) && Recognised(d, p[..1]))
    || (|p| == 3 && !Dotted(p[0]) && !Recognised(d, p[..1]) && !Dotted(p[1]) && Recognised(d, p[..2]))
  }

  function NumberIn(name: string): nat { if SeqOf(name).Some? then SeqOf(name).value else 0 }

  function Max(a: nat, b: nat): nat { if a < b then b else a }

  predicate IsMaxSeq(names: set<string>, m: nat) {
    && (forall name :: name in names ==> NumberIn(name) <= m)
    && (m > 0 ==> exists name :: name in names && NumberIn(name) == m)
  }

  /** The largest number in a folder, 0 without any. */
  ghost function MaxSeq(names: set<string>): (m: nat)
    ensures IsMaxSeq(names, m)
    decreases |names|
  {
    if names == {} then 0
    else
      var name :| name in names;
      var rest := MaxSeq(names - {name});
      assert names == names - {name} + {name};
      Max(NumberIn(name), rest)
  }

  type Counters = map<Path, nat>

  function Count(c: Counters, p: Path): nat { if p in c then c[p] else 0 }

  /** `seed_counters_from_disk`, for one folder. */
  ghost function Seeded(d: Disk, c: Counters, p: Path): nat {
    if p in d.files && Counted(d, p) then Max(Count(c, p), MaxSeq(d.files[p])) else Count(c, p)
  }

  // ---------- runs ----------

  /** A number handed out; `tool` is set once the files are written. */
  datatype Ticket = Ticket(path: Path, number: nat, tool: Option<string>)

  datatype Run = Run(disk: Disk, counters: Counters, tickets: seq<Ticket>)

  datatype Step =
    | Reserve(path: Path)
    | Finish(ticket: nat, tool: string)
    | Lose(ticket: nat)
    | Report(folder: Path)
    | Reopen

  function Files(d: Disk, p: Path): set<string> { if p in d.files then d.files[p] else {} }

  function WithFiles(d: Disk, p: Path, names: set<string>): Disk {
    d.(files := d.files[p := Files(d, p) + names])
  }

  predicate Enabled(r: Run, s: Step) {
    match s
    case Reserve(p) => |p| == 2 || |p| == 3
    case Finish(i, tool) => i < |r.tickets| && r.tickets[i].tool == None && tool != ""
    case Lose(i) => i < |r.tickets| && r.tickets[i].tool == None
    case Report(_) => true
    case Reopen => true
  }

  function Names(n: nat, tool: string): set<string> { {Name(n, tool, ".json"), Name(n, tool, ".txt")} }

  ghost function Next(r: Run, s: Step): Run
    requires Enabled(r, s)
  {
    match s
    case Reserve(p) =>
      var n := Count(r.counters, p) + 1;
      Run(WithFiles(r.disk, p, {}), r.counters[p := n], r.tickets + [Ticket(p, n, None)])
    case Finish(i, tool) =>
      var t := r.tickets[i];
      r.(disk := WithFiles(r.disk, t.path, Names(t.number, tool)), tickets := r.tickets[i := t.(tool := Some(tool))])
    case Lose(i) => r.(tickets := Without(r.tickets, i))
    case Report(p) => r.(disk := r.disk.(reports := r.disk.reports + {p}))
    case Reopen => r.(counters := map p | p in r.disk.files :: Seeded(r.disk, map[], p))
  }

  // ---------- what every run keeps ----------

  /** Later tickets of a folder carry larger numbers: no number is used twice. */
  ghost predicate Increasing(ts: seq<Ticket>) {
    forall i, j :: 0 <= i < j < |ts| && ts[i].path == ts[j].path ==> ts[i].number < ts[j].number
  }

  ghost predicate Covered(ts: seq<Ticket>, c: Counters) {
    forall t <- ts :: 1 <= t.number <= Count(c, t.path)
  }

  /** Written tickets have their files, and every file that seeding or listing looks at has its ticket. */
  ghost predicate Linked(r: Run) {
    && (forall t <- r.tickets :: t.path in r.disk.files)
    && (forall t <- r.tickets :: t.tool.Some? ==> t.tool.value != "" && Names(t.number, t.tool.value) <= r.disk.files[t.path])
    && (forall p, name :: p in r.disk.files && name in r.disk.files[p] && (SeqOf(name).Some? || IsListed(name)) ==>
          Accounted(r.tickets, p, name))
  }

  predicate Wrote(t: Ticket, p: Path, name: string) {
    t.path == p && t.tool.Some? && name in Names(t.number, t.tool.value)
  }

  ghost predicate Accounted(ts: seq<Ticket>, p: Path, name: string) { exists t :: t in ts && Wrote(t, p, name) }

  ghost predicate Ok(r: Run) { Increasing(r.tickets) && Covered(r.tickets, r.counters) && Linked(r) }

  lemma MoreAccounted(ts: seq<Ticket>, t: Ticket)
    ensures forall q, n :: Accounted(ts, q, n) ==> Accounted(ts + [t], q, n)
  {
    forall q, n | Accounted(ts, q, n) ensures Accounted(ts + [t], q, n) {
      var u :| u in ts && Wrote(u, q, n);
      assert u in ts + [t];
    }
  }

  lemma ReserveKeepsOk(r: Run, p: Path)
    requires Ok(r) && Enabled(r, Reserve(p))
    ensures Ok(Next(r, Reserve(p)))
  {
    var s := Next(r, Reserve(p));
    var t := Ticket(p, Count(r.counters, p) + 1, None);
    MoreAccounted(r.tickets, t);
    hide Accounted;
    forall i | 0 <= i < |r.tickets| && r.tickets[i].path == p ensures r.tickets[i].number < t.number {
      assert r.tickets[i] in r.tickets;
    }
    assert forall u <- s.tickets :: u in r.tickets || u == t;
  }

  lemma NamesNumber(n: nat, tool: string, name: string)
    requires tool != "" && name in Names(n, tool)
    ensures SeqOf(name) == if n <= 999 then Some(n) else None
  {
    SeqOfName(n, tool, ".json");
    SeqOfName(n, tool, ".txt");
  }

  lemma FinishKeepsOk(r: Run, i: nat, tool: string)
    requires Ok(r) && Enabled(r, Finish(i, tool))
    ensures Ok(Next(r, Finish(i, tool)))
  {
    var s := Next(r, Finish(i, tool));
    var t, w := r.tickets[i], s.tickets[i];
    assert t in r.tickets && w in s.tickets;
    assert forall u <- s.tickets :: u == w || u in r.tickets;
    forall q, n | Accounted(r.tickets, q, n) ensures Accounted(s.tickets, q, n) {
      var u :| u in r.tickets && Wrote(u, q, n);
      var k :| 0 <= k < |r.tickets| && r.tickets[k] == u;
      assert s.tickets[k] == u;
    }
    forall p, name | p in s.disk.files && name in s.disk.files[p] && (SeqOf(name).Some? || IsListed(name))
      ensures Accounted(s.tickets, p, name)
    {
      if p == t.path && name in Names(t.number, tool) { assert Wrote(w, p, name); }
    }
  }

  function Without(ts: seq<Ticket>, i: nat): seq<Ticket>
    requires i < |ts|
  {
    ts[..i] + ts[i + 1..]
  }

  lemma WithoutKeeps(ts: seq<Ticket>, i: nat)
    requires i < |ts|
    ensures Increasing(ts) ==> Increasing(Without(ts, i))
    ensures forall u :: u in Without(ts, i) ==> u in ts
    ensures forall u :: u in ts && u != ts[i] ==> u in Without(ts, i)
  {
    var rest := Without(ts, i);
    assert forall k :: 0 <= k < |rest| ==> rest[k] == ts[if k < i then k else k + 1];
    forall u | u in ts && u != ts[i] ensures u in rest {
      var k :| 0 <= k < |ts| && ts[k] == u;
      assert rest[if k < i then k else k - 1] == u;
    }
  }

  lemma LoseKeepsOk(r: Run, i: nat)
    requires Ok(r) && Enabled(r, Lose(i))
    ensures Ok(Next(r, Lose(i)))
  {
    WithoutKeeps(r.tickets, i);
    hide Increasing, Without;
    var s := Next(r, Lose(i));
    assert s.tickets == Without(r.tickets, i);
    forall q, n | Accounted(r.tickets, q, n) ensures Accounted(s.tickets, q, n) {
      var u :| u in r.tickets && Wrote(u, q, n);
      assert u in s.tickets;
    }
  }

  // ---------- re-opening ----------

  /** A written ticket of the same folder, at or past this one, that seeding finds. */
  ghost predicate Found(r: Run, t: Ticket) {
    exists u :: u in r.tickets && u.path == t.path && u.tool.Some? && t.number <= u.number <= 999
      && Counted(r.disk, t.path)
  }

  ghost predicate Recoverable(r: Run) { forall t <- r.tickets :: Found(r, t) }

  lemma SeededIsMax(r: Run, t: Ticket)
    requires Ok(r) && t in r.tickets
    ensures Found(r, t) <==> t.number <= Seeded(r.disk, map[], t.path)
  {
    var p := t.path;
    var names := r.disk.files[p];
    var m := MaxSeq(names);
    hide MaxSeq, Counted;
    if Found(r, t) {
      var u :| u in r.tickets && u.path == p && u.tool.Some? && t.number <= u.number <= 999;
      var name := Name(u.number, u.tool.value, ".txt");
      assert name in Names(u.number, u.tool.value);
      NamesNumber(u.number, u.tool.value, name);
      assert NumberIn(name) <= m;
    }
    if t.number <= Seeded(r.disk, map[], p) {
      var name :| name in names && NumberIn(name) == m;
      assert Accounted(r.tickets, p, name);
      var u :| u in r.tickets && Wrote(u, p, name);
      NamesNumber(u.number, u.tool.value, name);
      SeqBound(name);
    }
  }

  lemma SeqBound(name: string)
    ensures NumberIn(name) <= 999
  {
  }

  /** MAIN: re-opening keeps the promise exactly if every ticket still out or written is covered by a
      written one with at most three digits in a folder that seeding looks into. */
  lemma ReopenIsSafe(r: Run)
    requires Ok(r)
    ensures Ok(Next(r, Reopen)) <==> Recoverable(r)
  {
    var s := Next(r, Reopen);
    assert Increasing(s.tickets) && Linked(s);
    forall t <- r.tickets ensures Found(r, t) <==> t.number <= Count(s.counters, t.path) { SeededIsMax(r, t); }
    hide Found, Linked, Increasing;
  }

  // ---------- whole runs ----------

  /** The steps can be taken one after another, each re-opening from a recoverable state. */
  ghost predicate CanRun(r: Run, steps: seq<Step>)
    decreases |steps|
  {
    steps == [] || (Enabled(r, steps[0]) && (steps[0].Reopen? ==> Recoverable(r)) && CanRun(Next(r, steps[0]), steps[1..]))
  }

  ghost function After(r: Run, steps: seq<Step>): Run
    requires CanRun(r, steps)
    decreases |steps|
  {
    if steps == [] then r else After(Next(r, steps[0]), steps[1..])
  }

  lemma StepKeepsOk(r: Run, s: Step)
    requires Ok(r) && Enabled(r, s) && (s.Reopen? ==> Recoverable(r))
    ensures Ok(Next(r, s))
  {
    match s {
      case Reserve(p) => ReserveKeepsOk(r, p);
      case Finish(i, tool) => FinishKeepsOk(r, i, tool);
      case Lose(i) => LoseKeepsOk(r, i);
      case Report(_) =>
      case Reopen => ReopenIsSafe(r);
    }
  }

  /** MAIN: whatever writers, losses, reports and recoverable re-openings are mixed, no folder ever
      sees a number twice, and later tickets have larger numbers. */
  lemma {:induction false} RunsNeverReuse(r: Run, steps: seq<Step>)
    requires Ok(r) && CanRun(r, steps)
    ensures Ok(After(r, steps))
    decreases |steps|
  {
    hide Ok, Recoverable, Next, Enabled;
    if steps != [] {
      StepKeepsOk(r, steps[0]);
      RunsNeverReuse(Next(r, steps[0]), steps[1..]);
    }
  }

  const NEW_RUN := Run(Disk(map[], {}), map[], [])

  lemma NewRunsNeverReuse(steps: seq<Step>)
    requires CanRun(NEW_RUN, steps)
    ensures Increasing(After(NEW_RUN, steps).tickets)
  {
    RunsNeverReuse(NEW_RUN, steps);
  }

  // ---------- listing ----------

  /** What `list_tool_result_files` returns for a folder with these files. */
  ghost predicate IsListing(names: set<string>, list: seq<string>) {
    Sorted(list) && forall name :: name in list <==> name in names && IsListed(name)
  }

  /** The text files of the folder, in the order in which their numbers were handed out. */
  function TextFiles(ts: seq<Ticket>, p: Path): seq<string> {
    if ts == [] then []
    else
      var t := ts[|ts| - 1];
      TextFiles(ts[..|ts| - 1], p)
      + if t.path == p && t.tool.Some? && t.number <= 999 then [Name(t.number, t.tool.value, ".txt")] else []
  }

  lemma {:induction false} TextFileOf(ts: seq<Ticket>, p: Path, name: string) returns (t: Ticket)
    requires name in TextFiles(ts, p)
    ensures t in ts && t.path == p && t.tool.Some? && t.number <= 999 && name == Name(t.number, t.tool.value, ".txt")
  {
    hide Name;
    t := ts[|ts| - 1];
    if name in TextFiles(ts[..|ts| - 1], p) { t := TextFileOf(ts[..|ts| - 1], p, name); }
  }

  lemma {:induction false} HasTextFile(ts: seq<Ticket>, p: Path, t: Ticket)
    requires t in ts && t.path == p && t.tool.Some? && t.number <= 999
    ensures Name(t.number, t.tool.value, ".txt") in TextFiles(ts, p)
  {
    hide Name;
    assert ts == ts[..|ts| - 1] + [ts[|ts| - 1]];
    if t in ts[..|ts| - 1] { HasTextFile(ts[..|ts| - 1], p, t); }
  }

  lemma {:induction false} TextFilesSorted(ts: seq<Ticket>, p: Path)
    requires Increasing(ts)
    ensures Sorted(TextFiles(ts, p))
  {
    hide Name, Less;
    if ts != [] {
      var front, t := ts[..|ts| - 1], ts[|ts| - 1];
      TextFilesSorted(front, p);
      if t.path == p && t.tool.Some? && t.number <= 999 {
        forall name | name in TextFiles(front, p) ensures Less(name, Name(t.number, t.tool.value, ".txt")) {
          var u := TextFileOf(front, p, name);
          NamesInOrder(u.number, t.number, u.tool.value, t.tool.value);
        }
      }
    }
  }

  lemma ListedIsText(t: Ticket, p: Path, name: string)
    requires Wrote(t, p, name) && IsListed(name)
    ensures t.number <= 999 && name == Name(t.number, t.tool.value, ".txt")
  {
    ListedName(t.number, t.tool.value, ".txt");
    ListedName(t.number, t.tool.value, ".json");
  }

  /** MAIN: after every run, listing a folder gives the text files of its written tickets in the order
      in which their numbers were handed out, up to number 999, and no other. */
  lemma ListingIsTicketOrder(r: Run, p: Path, list: seq<string>)
    requires Ok(r) && IsListing(Files(r.disk, p), list)
    ensures list == TextFiles(r.tickets, p)
  {
    var expected := TextFiles(r.tickets, p);
    TextFilesSorted(r.tickets, p);
    forall name | name in expected ensures name in list {
      var t := TextFileOf(r.tickets, p, name);
      ListedName(t.number, t.tool.value, ".txt");
      assert name in Names(t.number, t.tool.value);
    }
    hide IsListed, SeqOf, Name, Names, Increasing, Covered, Sorted;
    forall name | name in list ensures name in expected {
      assert Accounted(r.tickets, p, name);
      var t :| t in r.tickets && Wrote(t, p, name);
      ListedIsText(t, p, name);
      HasTextFile(r.tickets, p, t);
    }
    SortedIsUnique(list, expected);
  }

  // ---------- what happens otherwise ----------

  ghost function ReserveTimes(r: Run, p: Path, k: nat): Run
    requires |p| == 2 || |p| == 3
  {
    if k == 0 then r else Next(ReserveTimes(r, p, k - 1), Reserve(p))
  }

  /** MAIN: after an unsafe re-opening a number is used again: some later ticket of the folder carries
      the number of an earlier one. */
  lemma UnsafeReopenReuses(r: Run, t: Ticket) returns (k: nat)
    requires Ok(r) && t in r.tickets && !Found(r, t) && (|t.path| == 2 || |t.path| == 3)
    ensures k > 0
    ensures var s := ReserveTimes(Next(r, Reopen), t.path, k);
            && |s.tickets| == |r.tickets| + k && s.tickets[..|r.tickets|] == r.tickets
            && s.tickets[|s.tickets| - 1].path == t.path && s.tickets[|s.tickets| - 1].number == t.number
  {
    SeededIsMax(r, t);
    var s := Next(r, Reopen);
    k := t.number - Count(s.counters, t.path);
    hide Ok, Found, Seeded;
    Reserving(s, t.path, k);
  }

  lemma {:induction false} Reserving(r: Run, p: Path, k: nat)
    requires |p| == 2 || |p| == 3
    ensures var s := ReserveTimes(r, p, k);
            && |s.tickets| == |r.tickets| + k && s.tickets[..|r.tickets|] == r.tickets
            && Count(s.counters, p) == Count(r.counters, p) + k
            && (k > 0 ==> s.tickets[|s.tickets| - 1] == Ticket(p, Count(r.counters, p) + k, None))
  {
    if k > 0 { Reserving(r, p, k - 1); }
  }

  /** The name begins with the letters REQ, small or capital. */
  predicate ReqName(name: string) {
    |name| >= 3 && name[0] in "rR" && name[1] in "eE" && name[2] in "qQ"
  }

  predicate Hidden(name: string) { name != "" && name[0] == '.' }

  lemma NamesAreRead(name: string)
    ensures StartsReq(name) <==> ReqName(name)
    ensures Dotted(name) <==> Hidden(name)
  {
    var low := Text.Lower(name);
    if |name| >= 3 {
      assert low[0] == Text.LowerChar(name[0]);
      assert name[1..] == [name[1]] + name[2..] && low[1..] == Text.Lower(name[1..]);
      assert low[1] == Text.LowerChar(name[1]);
      assert name[1..][1..] == name[2..] && Text.Lower(name[1..])[1..] == Text.Lower(name[2..]);
      assert low[2] == Text.LowerChar(name[2]);
    }
  }

  /** A folder holds a report, or a folder named REQ-something. */
  predicate IsFramework(d: Disk, p: Path) {
    p in d.reports || exists q :: q in d.files.Keys + d.reports && |p| < |q| && q[..|p|] == p && ReqName(q[|p|])
  }

  lemma FrameworksAreRecognised(d: Disk, p: Path)
    ensures Recognised(d, p) <==> IsFramework(d, p)
  {
    forall name ensures StartsReq(name) <==> ReqName(name) { NamesAreRead(name); }
    hide StartsReq, ReqName;
    if Recognised(d, p) && p !in d.reports {
      var q :| q in d.files.Keys + d.reports && Below(p, q) && StartsReq(q[|p|]);
      assert ReqName(q[|p|]);
    }
    if IsFramework(d, p) && p !in d.reports {
      var q :| q in d.files.Keys + d.reports && |p| < |q| && q[..|p|] == p && ReqName(q[|p|]);
      assert Below(p, q);
    }
  }

  /** MAIN: exactly which folders seeding looks into, by their names: those of frameworks at the root, or
      of frameworks below a host folder that is none itself, hidden folders left out. */
  lemma CountedExactly(d: Disk, p: Path)
    ensures Counted(d, p) <==>
      || (|p| == 2 && !Hidden(p[0]) && IsFramework(d, p[..1]))
      || (|p| == 3 && !Hidden(p[0]) && !IsFramework(d, p[..1]) && !Hidden(p[1]) && IsFramework(d, p[..2]))
  {
    if |p| >= 2 {
      NamesAreRead(p[0]);
      NamesAreRead(p[1]);
      FrameworksAreRecognised(d, p[..1]);
      FrameworksAreRecognised(d, p[..2]);
    }
    hide Recognised, IsFramework, Hidden, Dotted;
  }

  /** So folders in the usual shape are: the requirement's name begins with REQ in any case, nothing is
      hidden, and a host folder holds neither a report nor a folder with such a name. */
  lemma UsualFolderIsCounted(d: Disk, p: Path)
    requires p in d.files && (|p| == 2 || |p| == 3) && ReqName(p[|p| - 1])
    requires forall k :: 0 <= k < |p| ==> !Hidden(p[k])
    requires |p| == 3 ==> !IsFramework(d, p[..1])
    ensures Counted(d, p)
  {
    CountedExactly(d, p);
    var fw := p[..|p| - 1];
    assert p in d.files.Keys + d.reports && p[..|fw|] == fw && ReqName(p[|fw|]);
    hide Counted, ReqName, Hidden;
  }

  /** No folder next to `p`, nor `p` itself, is named like a requirement, and their framework has no
      report. */
  predicate Unreported(d: Disk, p: Path)
    requires |p| > 0
  {
    var fw := p[..|p| - 1];
    fw !in d.reports && forall q :: q in d.files.Keys + d.reports && Below(fw, q) ==> !ReqName(q[|fw|])
  }

  /** Of folders in a framework without such names exactly those with a report are looked into. */
  lemma OtherFolderNeedsReport(d: Disk, p: Path)
    requires |p| == 2 || |p| == 3
    requires Unreported(d.(reports := d.reports - {p[..|p| - 1]}), p)
    ensures Counted(d, p) <==>
      && p[..|p| - 1] in d.reports && !Hidden(p[0])
      && (|p| == 3 ==> !Hidden(p[1]) && !IsFramework(d, p[..1]))
  {
    var fw := p[..|p| - 1];
    CountedExactly(d, p);
    assert |p| == 3 ==> p[..2] == fw;
    assert IsFramework(d, fw) <==> fw in d.reports by {
      forall q | q in d.files.Keys + d.reports && |fw| < |q| && q[..|fw|] == fw ensures !ReqName(q[|fw|]) {
        assert q != fw && Below(fw, q);
        assert q in d.files.Keys + (d.reports - {fw});
      }
    }
    hide Counted, IsFramework, Hidden;
  }

  /** A re-opening that does not look into a folder starts its numbers over. */
  lemma UncountedStartsOver(r: Run, p: Path)
    requires Ok(r) && (|p| == 2 || |p| == 3) && !Counted(r.disk, p)
    ensures forall t <- r.tickets :: t.path == p ==> !Found(r, t)
    ensures Next(Next(r, Reopen), Reserve(p)).tickets == r.tickets + [Ticket(p, 1, None)]
    ensures (exists t <- r.tickets :: t.path == p) ==> !Ok(Next(Next(r, Reopen), Reserve(p)))
  {
    var s := Next(Next(r, Reopen), Reserve(p));
    assert Count(Next(r, Reopen).counters, p) == 0;
    hide Counted, Linked, MaxSeq;
    if t :| t in r.tickets && t.path == p { NotLarger(r, s, t, 1); }
  }

  lemma NotLarger(r: Run, s: Run, t: Ticket, n: nat)
    requires t in r.tickets && s.tickets == r.tickets + [Ticket(t.path, n, None)] && n <= t.number
    ensures !Ok(s)
  {
    var i :| 0 <= i < |r.tickets| && r.tickets[i] == t;
    assert s.tickets[i] == t && s.tickets[|r.tickets|] == Ticket(t.path, n, None);
  }

  /** MAIN: so numbers start over, at one, in every folder whose framework has neither a report nor a
      folder named like a requirement, at both depths. */
  lemma UnreportedStartsOver(r: Run, t: Ticket)
    requires Ok(r) && t in r.tickets && (|t.path| == 2 || |t.path| == 3) && Unreported(r.disk, t.path)
    ensures !Found(r, t)
    ensures var s := Next(Next(r, Reopen), Reserve(t.path)); s.tickets == r.tickets + [Ticket(t.path, 1, None)] && !Ok(s)
  {
    var d, p := r.disk, t.path;
    assert d.reports - {p[..|p| - 1]} == d.reports;
    OtherFolderNeedsReport(d, p);
    hide Counted, Unreported, Found, Ok, Next;
    UncountedStartsOver(r, p);
  }

  /** MAIN: past 999 a re-opening repeats numbers in every folder. */
  lemma PastThreeDigitsRepeats(r: Run, t: Ticket)
    requires Ok(r) && t in r.tickets && (|t.path| == 2 || |t.path| == 3) && t.number > 999
    ensures !Found(r, t)
    ensures var s := Next(Next(r, Reopen), Reserve(t.path));
            s.tickets[|r.tickets|].number <= 1000 && !Ok(s)
  {
    SeededIsMax(r, t);
    SeededBound(r.disk, t.path);
    hide Ok, Found, Seeded;
    var s := Next(Next(r, Reopen), Reserve(t.path));
    NotLarger(r, s, t, s.tickets[|r.tickets|].number);
  }

  lemma SeededBound(d: Disk, p: Path)
    ensures Seeded(d, map[], p) <= 999
  {
    if p in d.files {
      var m := MaxSeq(d.files[p]);
      assert IsMaxSeq(d.files[p], m);
      if m > 0 {
        var name :| name in d.files[p] && NumberIn(name) == m;
        SeqBound(name);
      }
    }
  }

  /** The numbers of a folder "WIN-001" start over: one is written, the run re-opened, and one given again. */
  lemma WindowsIdStartsOver(tool: string)
    requires tool != ""
    ensures var p := ["win", "WIN-001"];
            var steps := [Reserve(p), Finish(0, tool)];
            && CanRun(NEW_RUN, steps) && Ok(After(NEW_RUN, steps)) && !Recoverable(After(NEW_RUN, steps))
            && Next(Next(After(NEW_RUN, steps), Reopen), Reserve(p)).tickets
               == [Ticket(p, 1, Some(tool)), Ticket(p, 1, None)]
  {
    var p := ["win", "WIN-001"];
    var t := Ticket(p, 1, Some(tool));
    var r := OneWritten(p, tool);
    RunsNeverReuse(NEW_RUN, [Reserve(p), Finish(0, tool)]);
    WindowsIsUnreported(r.disk, p);
    hide *;
    UnreportedStartsOver(r, t);
    NotRecoverable(r, t);
  }

  lemma NotRecoverable(r: Run, t: Ticket)
    requires t in r.tickets && !Found(r, t)
    ensures !Recoverable(r)
  {
  }

  lemma OneWritten(p: Path, tool: string) returns (r: Run)
    requires |p| == 2 && tool != ""
    ensures var steps := [Reserve(p), Finish(0, tool)]; CanRun(NEW_RUN, steps) && r == After(NEW_RUN, steps)
    ensures r.tickets == [Ticket(p, 1, Some(tool))] && r.disk.files.Keys == {p} && r.disk.reports == {}
  {
    var steps := [Reserve(p), Finish(0, tool)];
    r := Next(Next(NEW_RUN, Reserve(p)), Finish(0, tool));
    hide Names;
    assert steps[1..] == [Finish(0, tool)] && steps[1..][1..] == [];
    assert CanRun(r, []) && After(r, []) == r;
  }

  lemma WindowsIsUnreported(d: Disk, p: Path)
    requires p == ["win", "WIN-001"] && d.files.Keys == {p} && d.reports == {}
    ensures Unreported(d, p)
  {
  }

  /** A ticket up to 999 is written as two files, one of either kind, named by three digits and the tool. */
  lemma FilesAreNamed(a: nat, b: nat, c: nat, tool: string)
    requires a < 10 && b < 10 && c < 10
    ensures Names(100 * a + 10 * b + c, tool)
            == set ext | ext in [".json", ".txt"] :: [DIGIT_CHARS[a], DIGIT_CHARS[b], DIGIT_CHARS[c]] + ("_" + (tool + ext))
  {
    NameIs(a, b, c, tool, ".json");
    NameIs(a, b, c, tool, ".txt");
    hide Name;
    assert ".json" in [".json", ".txt"] && ".txt" in [".json", ".txt"];
  }
}
