/** Which words of a plan's text become frameworks, and how its tables, rules and bullets are told: every
    table of words and characters written out. */
module PlanWords {
  import opened Characters
  import opened Options
  import opened PlanPrinted
  import opened PlanText
  import opened PythonText
  import opened ScopePlan
  import Text

  // ---------- ids ----------

  predicate FillerWord(id: string) { Lower(id) in ["and", "\U{438}", "plus", "+"] }

  /** A discovery-only framework, in any case. */
  predicate HostFacts(id: string) { Lower(id) == "host_facts" || (|id| > 10 && Lower(id[..11]) == "host_facts_") }

  /** A word between separators. */
  predicate Unbroken(id: string) { id != "" && forall k :: 0 <= k < |id| ==> id[k] !in ",;/|" && id[k] !in WHITE }

  lemma SeparatesIs(c: char)
    ensures Separates(c) <==> c in ",;/|" || c in WHITE
  {
    SpaceIsWhite(c);
    hide WHITE;
  }

  lemma UnbrokenIs(id: string)
    ensures Unbroken(id) <==> id != "" && forall k :: 0 <= k < |id| ==> !Separates(id[k])
  {
    hide WHITE, Separates;
    forall k | 0 <= k < |id| ensures Separates(id[k]) <==> id[k] in ",;/|" || id[k] in WHITE { SeparatesIs(id[k]); }
  }

  lemma DiscoveryIs(id: string)
    ensures IsDiscovery(id) <==> HostFacts(Strip(id))
  {
    hide Strip;
    var name := Strip(id);
    var low := Lower(name);
    if |name| > 10 {
      assert Lower(name[..11]) == low[..11];
      assert DISCOVERY + "_" == "host_facts_" && |"host_facts_"| == 11;
    }
    hide Lower;
  }

  lemma UnbrokenDiscovery(id: string)
    requires Unbroken(id)
    ensures IsDiscovery(id) <==> HostFacts(id)
  {
    hide Strip, IsDiscovery, HostFacts, Separates, WHITE;
    UnbrokenIs(id);
    assert !Separates(id[0]) && !Separates(id[|id| - 1]);
    NoSeparatorIsNoSpace(id[0]);
    NoSeparatorIsNoSpace(id[|id| - 1]);
    Bare(id);
    DiscoveryIs(id);
  }

  lemma NoSeparatorIsNoSpace(c: char)
    requires !Separates(c)
    ensures !IsSpace(c)
  {
  }

  /** What an id may be to be printed and read back: one word, no filler, no discovery. */
  lemma GoodIdIs(id: string)
    ensures GoodId(id) <==> Unbroken(id) && id[0] != '`' && id[|id| - 1] != '`' && !FillerWord(id) && !HostFacts(id)
  {
    UnbrokenIs(id);
    if Unbroken(id) { UnbrokenDiscovery(id); }
    hide Lower, WHITE, Separates, IsDiscovery, HostFacts;
  }

  // ---------- what can be read at all ----------

  /** One word, without backticks at its ends, and no filler. */
  predicate PlainWord(id: string) { Unbroken(id) && id[0] != '`' && id[|id| - 1] != '`' && !FillerWord(id) }

  lemma {:induction false} TokensAreUnbroken(s: string)
    ensures forall t <- Tokens(s) :: t != "" && forall k :: 0 <= k < |t| ==> !Separates(t[k])
    decreases |s|
  {
    hide Separates;
    if s != "" {
      if Separates(s[0]) { TokensAreUnbroken(s[1..]); } else { TokensAreUnbroken(s[RunLength(s)..]); }
    }
  }

  lemma {:induction false} TrimIs(s: string, c: char)
    ensures var r := Trim(s, c); (r != "" ==> r[0] != c && r[|r| - 1] != c) && forall x <- r :: x in s
    decreases |s|
  {
    if s != "" && s[0] == c {
      TrimIs(s[1..], c);
    } else if s != "" && s[|s| - 1] == c {
      TrimIs(s[..|s| - 1], c);
    }
  }

  lemma TrimmedWord(t: string)
    requires t != "" && forall k :: 0 <= k < |t| ==> !Separates(t[k])
    ensures var id := Trim(t, '`'); id != "" && !IsFiller(id) ==> PlainWord(id)
  {
    var id := Trim(t, '`');
    TrimIs(t, '`');
    hide Separates, Trim, Lower, Unbroken;
    if id != "" {
      forall k | 0 <= k < |id| ensures !Separates(id[k]) { assert id[k] in t; }
      UnbrokenIs(id);
    }
  }

  lemma {:induction false} AddedWords(ids: seq<string>, tokens: seq<string>)
    requires (forall id <- ids :: PlainWord(id)) && forall t <- tokens :: t != "" && forall k :: 0 <= k < |t| ==> !Separates(t[k])
    ensures forall id <- AddIds(ids, tokens) :: PlainWord(id)
    decreases |tokens|
  {
    hide PlainWord, Separates, Trim, IsFiller, Has;
    if tokens != [] {
      assert tokens == [tokens[0]] + tokens[1..];
      TrimmedWord(tokens[0]);
      AddedWords(AddId(ids, tokens[0]), tokens[1..]);
    }
  }

  lemma SplitWords(text: string)
    ensures forall id <- SplitIds(text) :: PlainWord(id)
  {
    TokensAreUnbroken(Strip(text));
    hide PlainWord, Strip, Tokens, AddIds, Separates;
    AddedWords([], Tokens(Strip(text)));
  }

  /** A framework as it may stand in a plan. */
  predicate PlanWord(known: Known, id: string) {
    PlainWord(id) && !HostFacts(id) && (known.Some? ==> Lower(id) in known.value)
  }

  predicate RowOfWords(known: Known, t: Target) { forall id <- t.frameworks :: PlanWord(known, id) }

  predicate AllWords(known: Known, plan: Plan) { forall t <- plan :: RowOfWords(known, t) }

  lemma WantedWord(known: Known, id: string)
    requires PlainWord(id)
    ensures Wanted(known, id) <==> PlanWord(known, id)
  {
    UnbrokenDiscovery(id);
    hide IsDiscovery, HostFacts, Lower, PlainWord;
  }

  lemma {:induction false} KeptWords(known: Known, ids: seq<string>)
    requires forall id <- ids :: PlainWord(id)
    ensures forall id <- Keep(known, ids) :: PlanWord(known, id)
  {
    hide PlainWord, PlanWord, Wanted, Has;
    if ids != [] {
      var front, last := ids[..|ids| - 1], ids[|ids| - 1];
      assert ids == front + [last] && last in ids;
      KeptWords(known, front);
      WantedWord(known, last);
    }
  }

  lemma AddWords(known: Known, plan: Plan, host: string, ids: seq<string>)
    requires AllWords(known, plan) && forall id <- ids :: PlainWord(id)
    ensures AllWords(known, Add(known, plan, host, ids))
  {
    KeptWords(known, ids);
    hide PlainWord, PlanWord, Keep, Strip, Trim, IndexOf, Union;
    var next := Add(known, plan, host, ids);
    forall t | t in next ensures RowOfWords(known, t) {
      var k :| 0 <= k < |next| && next[k] == t;
      if k < |plan| { assert plan[k] in plan && RowOfWords(known, plan[k]); }
    }
  }

  lemma {:induction false} RowsOfWords(known: Known, lines: seq<string>, i: nat, h: nat, f: nat, plan: Plan)
    requires AllWords(known, plan)
    ensures AllWords(known, Rows(known, lines, i, h, f, plan))
    decreases |lines| - i
  {
    hide AllWords, Add, Strip, IsRule, SplitIds, Cells, Trim, PlainWord;
    if i < |lines| {
      var line := Strip(lines[i]);
      if line == "" || line[0] != '|' || IsRule(line) {
        RowsOfWords(known, lines, i + 1, h, f, plan);
      } else {
        var body := Cells(Trim(line, '|'));
        SplitWords(CellAt(body, f));
        AddWords(known, plan, CellAt(body, h), SplitIds(CellAt(body, f)));
        RowsOfWords(known, lines, i + 1, h, f, Add(known, plan, CellAt(body, h), SplitIds(CellAt(body, f))));
      }
    }
  }

  lemma {:induction false} TableOfWords(known: Known, lines: seq<string>, i: nat)
    ensures AllWords(known, Table(known, lines, i))
    decreases |lines| - i
  {
    hide Rows, Header, RowOfWords;
    if i < |lines| {
      match Header(lines[i])
      case None => TableOfWords(known, lines, i + 1);
      case Some((h, f)) => RowsOfWords(known, lines, i + 1, h, f, []);
    }
  }

  lemma {:induction false} BulletsOfWords(known: Known, lines: seq<string>, plan: Plan)
    requires AllWords(known, plan)
    ensures AllWords(known, Bullets(known, lines, plan))
    decreases |lines|
  {
    hide AllWords, Add, Bullet, SplitIds, PlainWord;
    if lines != [] {
      match Bullet(lines[0])
      case None => BulletsOfWords(known, lines[1..], plan);
      case Some((host, rest)) =>
        SplitWords(rest);
        AddWords(known, plan, host, SplitIds(rest));
        BulletsOfWords(known, lines[1..], Add(known, plan, host, SplitIds(rest)));
    }
  }

  /** MAIN: whatever the text, every framework of a parsed plan is one word without separators and
      backticks around it, none of `and`, `plus`, `+` and their Russian like, nothing that only
      discovers, and on the allow-list if there is one. */
  lemma ParsedAreWords(known: Known, lines: seq<string>)
    ensures AllWords(known, Parse(known, lines))
  {
    assert AllWords(known, []);
    hide *;
    TableOfWords(known, lines, 0);
    BulletsOfWords(known, lines, []);
    ParseIsOneOf(known, lines);
  }

  /** A cell that is only a dash names nothing. */
  lemma DashIsNothing(cell: string)
    ensures Strip(cell) in ["-", "\U{2013}", "\U{2014}"] ==> SplitIds(cell) == []
  {
  }

  // ---------- the same host again ----------

  /** MAIN: a row for a host that the plan has already, in whatever case, adds to that host: its name
      stays as first written, and so do its frameworks, and every wanted one of the row is there. */
  lemma SameHostUnites(known: Known, plan: Plan, host: string, ids: seq<string>, k: nat)
    requires Clean(known, plan) && k < |plan| && Lower(Trim(Strip(host), '`')) == Lower(plan[k].host)
    ensures var next := Add(known, plan, host, ids);
            && |next| == |plan| && next[k].host == plan[k].host && plan[k].frameworks <= next[k].frameworks
            && (forall id <- ids :: !IsDiscovery(id) && (known.Some? ==> Lower(id) in known.value) ==> Has(next[k].frameworks, id))
            && (forall j :: 0 <= j < |plan| && j != k ==> next[j] == plan[j])
  {
    var name, kept := Trim(Strip(host), '`'), Keep(known, ids);
    KeepHolds(known, ids);
    UnionHolds(plan[k].frameworks, kept);
    hide Strip, Trim, Keep, Union, IsDiscovery;
    assert plan[k] in plan && |Lower(name)| == |name|;
    var i := IndexOf(plan, name);
    assert i == k;
    hide Lower;
    if kept == [] { assert Union(plan[k].frameworks, kept) == plan[k].frameworks by { UnionOfNone(plan[k].frameworks); } }
  }

  lemma UnionOfNone(ids: seq<string>)
    ensures Union(ids, []) == ids
  {
  }

  lemma {:induction false} KeepHolds(known: Known, ids: seq<string>)
    ensures forall id <- ids :: !IsDiscovery(id) && (known.Some? ==> Lower(id) in known.value) ==> Has(Keep(known, ids), id)
  {
    hide Lower, IsDiscovery;
    if ids != [] {
      var front, last := ids[..|ids| - 1], ids[|ids| - 1];
      assert ids == front + [last];
      KeepHolds(known, front);
      forall id | id in ids && !IsDiscovery(id) && (known.Some? ==> Lower(id) in known.value) ensures Has(Keep(known, ids), id) {
        if id in front {
          StillHas(Keep(known, front), Keep(known, ids), id);
        } else {
          AppendHas(Keep(known, front), id);
        }
      }
    }
  }

  lemma StillHas(a: seq<string>, b: seq<string>, id: string)
    requires a <= b && Has(a, id)
    ensures Has(b, id)
  {
    var k :| 0 <= k < |a| && Lower(a[k]) == Lower(id);
    assert b[k] == a[k];
  }

  lemma AppendHas(ids: seq<string>, id: string)
    ensures Has(Append(ids, id), id) && ids <= Append(ids, id)
  {
    if !Has(ids, id) { assert (ids + [id])[|ids|] == id; }
  }

  lemma {:induction false} UnionHolds(ids: seq<string>, more: seq<string>)
    ensures forall id :: Has(more, id) ==> Has(Union(ids, more), id)
  {
    hide Lower;
    if more != [] {
      var front, last := more[..|more| - 1], more[|more| - 1];
      UnionHolds(ids, front);
      AppendHas(Union(ids, front), last);
      forall id | Has(more, id) ensures Has(Union(ids, more), id) {
        var k :| 0 <= k < |more| && Lower(more[k]) == Lower(id);
        if k < |front| {
          assert front[k] == more[k];
          StillHas(Union(ids, front), Union(ids, more), id);
        } else {
          SameWord(Union(ids, more), last, id);
        }
      }
    }
  }

  lemma SameWord(ids: seq<string>, a: string, b: string)
    requires Has(ids, a) && Lower(a) == Lower(b)
    ensures Has(ids, b)
  {
    hide Lower;
  }
}
