/** What a file of blocks means, read off its printed entries alone: the controls of items and reports, and
    which helper probes a report takes. */
module AuditComposite {
  import opened AuditControls
  import opened AuditParser
  import opened AuditPrinted
  import opened AuditShapes
  import opened AuditStrings
  import opened AuditText
  import opened Lines
  import opened Options
  import opened PythonText
  import Text

  // ---------- printed entries ----------

  /** The value last printed under a key, empty without any. */
  function ValueOf(es: seq<Entry>, key: string): string {
    if es == [] then "" else if es[|es| - 1].key == key then es[|es| - 1].value else ValueOf(es[..|es| - 1], key)
  }

  lemma {:induction false} DictionarySnoc(fields: Fields, es: seq<Entry>)
    requires es != []
    ensures var last := es[|es| - 1]; Dictionary(fields, es) == Dictionary(fields, es[..|es| - 1])[last.key := last.value]
    decreases |es|
  {
    if |es| > 1 {
      var next := fields[es[0].key := es[0].value];
      DictionarySnoc(next, es[1..]);
      assert es[1..][..|es| - 2] == es[..|es| - 1][1..];
    }
  }

  lemma {:induction false} LookupIsValue(es: seq<Entry>, key: string)
    ensures Lookup(Dictionary(map[], es), key) == ValueOf(es, key)
    decreases |es|
  {
    if es != [] {
      DictionarySnoc(map[], es);
      hide Dictionary;
      LookupIsValue(es[..|es| - 1], key);
    }
  }

  lemma TrimmedIsValue(es: seq<Entry>, key: string)
    ensures Trimmed(Dictionary(map[], es), key) == Strip(ValueOf(es, key))
  {
    LookupIsValue(es, key);
  }

  /** The id and the title that the entries' description gives. */
  ghost predicate Describes(es: seq<Entry>, id: string, title: string) {
    IsTitle(Strip(ValueOf(es, "description")), id, title)
  }

  ghost predicate Untitled(es: seq<Entry>) { forall id, title :: !Describes(es, id, title) }

  lemma DescriptionIs(es: seq<Entry>)
    ensures match ControlTitle(Trimmed(Dictionary(map[], es), "description"))
            case None => Untitled(es)
            case Some((id, title)) => Describes(es, id, title)
  {
    hide IsTitle, ControlTitle, Dictionary, ValueOf, Strip, Trimmed;
    TrimmedIsValue(es, "description");
    var text := Strip(ValueOf(es, "description"));
    forall id, title ensures ControlTitle(text) == Some((id, title)) <==> IsTitle(text, id, title) { TitleIs(text, id, title); }
    match ControlTitle(text)
    case None =>
    case Some((id, title)) =>
  }

  // ---------- what helpers give ----------

  function Filled(value: string): seq<string> { if value == "" then [] else [Strip(value)] }

  /** The values the helpers print under a key, stripped, in order; empty ones are left out. */
  function Printed(hs: seq<seq<Entry>>, key: string): seq<string> {
    if hs == [] then [] else Printed(hs[..|hs| - 1], key) + Filled(ValueOf(hs[|hs| - 1], key))
  }

  /** Without repetition, each where it came first. */
  function FirstSeen(s: seq<string>): (r: seq<string>)
    ensures (forall x :: x in r <==> x in s) && forall i, j :: 0 <= i < j < |r| ==> r[i] != r[j]
  {
    if s == [] then []
    else
      var front := FirstSeen(s[..|s| - 1]);
      assert s == s[..|s| - 1] + [s[|s| - 1]];
      if s[|s| - 1] in front then front else front + [s[|s| - 1]]
  }

  function Joined(s: seq<string>, sep: string): string {
    if s == [] then "" else if |s| == 1 then s[0] else Joined(s[..|s| - 1], sep) + (sep + s[|s| - 1])
  }

  function Types(hs: seq<seq<Entry>>): string {
    var types := Joined(FirstSeen(Printed(hs, "type")), "+");
    if types == "" then "COMPOSITE" else types
  }

  function Dictionaries(hs: seq<seq<Entry>>): (fs: seq<Fields>)
    ensures |fs| == |hs| && forall n :: 0 <= n < |fs| ==> fs[n] == Dictionary(map[], hs[n])
  {
    seq(|hs|, n requires 0 <= n < |hs| => Dictionary(map[], hs[n]))
  }

  lemma {:induction false} GatheredIsPrinted(hs: seq<seq<Entry>>, key: string)
    ensures Gathered(Dictionaries(hs), key) == Printed(hs, key)
  {
    hide Dictionary, Lookup, ValueOf, Strip;
    if hs != [] {
      GatheredIsPrinted(hs[..|hs| - 1], key);
      LookupIsValue(hs[|hs| - 1], key);
      assert Dictionaries(hs)[..|hs| - 1] == Dictionaries(hs[..|hs| - 1]);
    }
  }

  lemma TypesAre(hs: seq<seq<Entry>>)
    ensures Types(hs) == var types := JoinPlus(AuditParser.Distinct(Printed(hs, "type")));
                         if types == "" then "COMPOSITE" else types
  {
    DistinctIsFirstSeen(Printed(hs, "type"));
    PlusIsJoined(FirstSeen(Printed(hs, "type")));
    hide Printed, FirstSeen, Joined, JoinPlus, AuditParser.Distinct;
  }

  lemma {:induction false} DistinctIsFirstSeen(s: seq<string>)
    ensures AuditParser.Distinct(s) == FirstSeen(s)
  {
    if s != [] { DistinctIsFirstSeen(s[..|s| - 1]); }
  }

  lemma {:induction false} PlusIsJoined(s: seq<string>)
    ensures JoinPlus(s) == Joined(s, "+")
  {
    if |s| > 1 { PlusIsJoined(s[..|s| - 1]); }
  }

  lemma FirstChar(line: string, k: nat)
    requires Indented(line, k) && k < |line| && !IsSpace(line[k])
    ensures SkipSpace(line, 0) == k
  {
    SkipIs(line, 0, k);
  }

  lemma WordStarts(line: string, word: string, k: nat)
    requires Indented(line, k) && EndsWord(line, word, k) && word != "" && word[0] == '<'
    ensures SkipSpace(line, 0) == k && HasWordAt(line, word, k)
  {
    assert line[k] == line[k..k + |word|][0] == '<';
    FirstChar(line, k);
  }

  lemma LineResets(line: string)
    ensures Resets(line) <==> Drops(line)
  {
    if Drops(line) {
      var k: nat :| Indented(line, k) && (EndsWord(line, "</if", k) || EndsWord(line, "<else", k));
      hide SkipSpace, EndsWord, HasWordAt;
      if EndsWord(line, "</if", k) { WordStarts(line, "</if", k); } else { WordStarts(line, "<else", k); }
    } else {
      var m := SkipSpace(line, 0);
      assert Indented(line, m);
      assert !EndsWord(line, "</if", m) && !EndsWord(line, "<else", m);
      hide SkipSpace;
    }
  }

  // ---------- which helpers wait ----------

  /** The first `k` characters are white space. */
  predicate Indented(line: string, k: nat) { k <= |line| && forall j :: 0 <= j < k ==> IsSpace(line[j]) }

  /** Behind the word stands no letter, digit or underscore. */
  predicate EndsWord(line: string, word: string, k: nat) {
    WordAt(line, word, k)
    && (k + |word| < |line| ==>
          var c := line[k + |word|]; !('a' <= c <= 'z') && !('A' <= c <= 'Z') && !('0' <= c <= '9') && c != '_')
  }

  /** The line is a closing `if` or an opening `else`, after white space. */
  ghost predicate Drops(line: string) {
    exists k: nat :: Indented(line, k) && (EndsWord(line, "</if", k) || EndsWord(line, "<else", k))
  }

  /** The helpers that wait behind the blocks: items without a title; those with one, reports, and lines
      that close or turn a condition drop them. */
  ghost function Active(bs: seq<Block>): seq<seq<Entry>> {
    if bs == [] then []
    else
      var front := Active(bs[..|bs| - 1]);
      match bs[|bs| - 1]
      case Item(es) => if Untitled(es) then front + [es] else []
      case Report(_, _) => []
      case Plain(line) => if Drops(line) then [] else front
  }

  // ---------- what blocks tell ----------

  /** The control of an item, all texts its own. */
  function OwnControl(id: string, title: string, es: seq<Entry>): Control {
    Control(id, title, Strip(ValueOf(es, "type")), Strip(ValueOf(es, "info")), Strip(ValueOf(es, "solution")),
            Strip(ValueOf(es, "expect")), Filled(ValueOf(es, "cmd")), Strip(ValueOf(es, "file")), Strip(ValueOf(es, "regex")),
            Strip(ValueOf(es, "reference")), Strip(ValueOf(es, "see_also")))
  }

  /** The control of a report: texts of its own, commands and types of its helpers. */
  function CompositeControl(id: string, title: string, es: seq<Entry>, hs: seq<seq<Entry>>): Control {
    Control(id, title, Types(hs), Strip(ValueOf(es, "info")), Strip(ValueOf(es, "solution")),
            "composite: all condition checks must pass", Printed(hs, "cmd"), "", "",
            Strip(ValueOf(es, "reference")), Strip(ValueOf(es, "see_also")))
  }

  /** The block, behind these helpers, defines these controls: one or none. */
  ghost predicate Tells(b: Block, hs: seq<seq<Entry>>, cs: seq<Control>) {
    match b
    case Item(es) =>
      if Untitled(es) then cs == [] else exists id, title :: Describes(es, id, title) && cs == [OwnControl(id, title, es)]
    case Report(rtype, es) =>
      if Untitled(es) || rtype !in ["PASSED", "FAILED", "WARNING"] then cs == []
      else exists id, title :: Describes(es, id, title) && cs == [CompositeControl(id, title, es, hs)]
    case Plain(_) => cs == []
  }

  /** The blocks define these controls, one block after the other. */
  ghost predicate Told(bs: seq<Block>, cs: seq<Control>)
    decreases |bs|
  {
    if bs == [] then cs == []
    else
      var front, last := bs[..|bs| - 1], bs[|bs| - 1];
      exists n: nat :: n <= |cs| && Told(front, cs[..n]) && Tells(last, Active(front), cs[n..])
  }

  lemma ItemTells(es: seq<Entry>, hs: seq<seq<Entry>>)
    ensures Tells(Item(es), hs, Listed(ItemControl(Dictionary(map[], es))))
  {
    hide Describes, Untitled, ControlTitle, Dictionary, ValueOf, Strip, Trimmed;
    DescriptionIs(es);
    forall key ensures Trimmed(Dictionary(map[], es), key) == Strip(ValueOf(es, key)) { TrimmedIsValue(es, key); }
    LookupIsValue(es, "cmd");
    assert Untitled(es) <==> ControlTitle(Trimmed(Dictionary(map[], es), "description")) == None by { UntitledIs(es); }
  }

  lemma UntitledIs(es: seq<Entry>)
    ensures Untitled(es) <==> ControlTitle(Trimmed(Dictionary(map[], es), "description")) == None
  {
    hide Describes, ControlTitle, Dictionary, Trimmed;
    DescriptionIs(es);
  }

  lemma ReportTells(rtype: string, es: seq<Entry>, hs: seq<seq<Entry>>)
    ensures Tells(Report(rtype, es), hs, Listed(ReportControl(rtype, Dictionary(map[], es), Dictionaries(hs))))
  {
    hide Describes, Untitled, ControlTitle, Dictionary, ValueOf, Strip, Trimmed, Gathered, Printed, Types, JoinPlus, AuditParser.Distinct;
    DescriptionIs(es);
    UntitledIs(es);
    forall key ensures Trimmed(Dictionary(map[], es), key) == Strip(ValueOf(es, key)) { TrimmedIsValue(es, key); }
    GatheredIsPrinted(hs, "cmd");
    GatheredIsPrinted(hs, "type");
    TypesAre(hs);
  }

  lemma BlockTells(b: Block, hs: seq<seq<Entry>>)
    ensures Tells(b, hs, Listed(DefinedBy(b, Dictionaries(hs))))
  {
    hide Tells;
    match b
    case Item(es) => ItemTells(es, hs);
    case Report(rtype, es) => ReportTells(rtype, es, hs);
    case Plain(line) => PlainTells(line, hs);
  }

  lemma PlainTells(line: string, hs: seq<seq<Entry>>)
    ensures Tells(Plain(line), hs, [])
  {
  }

  lemma BlockWaits(bs: seq<Block>)
    requires bs != []
    ensures Waiting(bs[|bs| - 1], Dictionaries(Active(bs[..|bs| - 1]))) == Dictionaries(Active(bs))
  {
    hide Untitled, ControlTitle, Dictionary, Drops, Resets, Trimmed;
    var hs := Active(bs[..|bs| - 1]);
    match bs[|bs| - 1]
    case Item(es) =>
      UntitledIs(es);
      assert Dictionaries(hs + [es]) == Dictionaries(hs) + [Dictionary(map[], es)] && Dictionaries([]) == [];
    case Report(_, _) => assert Dictionaries([]) == [];
    case Plain(line) =>
      LineResets(line);
      assert Dictionaries([]) == [];
  }

  // ---------- whole files ----------

  /** The helpers waiting behind the blocks, and what they define, from the front. */
  lemma {:induction false} DefinedJoin(bs: seq<Block>, more: seq<Block>)
    ensures Defined(bs + more, []) == Defined(bs, []) + Defined(more, Dictionaries(Active(bs)))
    decreases |bs|
  {
    hide Defined, Dictionaries, Waiting, DefinedBy;
    if bs == [] {
      NothingWaits();
      assert bs + more == more;
    } else {
      var front, last := bs[..|bs| - 1], bs[|bs| - 1];
      assert bs == front + [last] && bs + more == front + ([last] + more);
      DefinedJoin(front, [last] + more);
      DefinedJoin(front, [last]);
      BlockWaits(bs);
      hide Active;
      DefinedFirst(last, more, Dictionaries(Active(front)));
      DefinedFirst(last, [], Dictionaries(Active(front)));
      assert [last] + [] == [last];
      NothingDefined(Waiting(last, Dictionaries(Active(front))));
    }
  }

  lemma NothingWaits()
    ensures Dictionaries(Active([])) == [] && Defined([], []) == []
  {
  }

  lemma NothingDefined(helpers: seq<Fields>)
    ensures Defined([], helpers) == []
  {
  }

  lemma DefinedFirst(b: Block, more: seq<Block>, helpers: seq<Fields>)
    ensures Defined([b] + more, helpers) == Listed(DefinedBy(b, helpers)) + Defined(more, Waiting(b, helpers))
  {
    assert ([b] + more)[1..] == more;
    hide DefinedBy, Waiting;
  }

  lemma {:induction false} BlocksAreTold(bs: seq<Block>)
    ensures Told(bs, Defined(bs, []))
    decreases |bs|
  {
    hide Defined, Dictionaries, Waiting, DefinedBy, Tells, Active;
    if bs == [] {
      NothingDefined([]);
    } else {
      var front, last := bs[..|bs| - 1], bs[|bs| - 1];
      assert bs == front + [last];
      BlocksAreTold(front);
      DefinedJoin(front, [last]);
      DefinedFirst(last, [], Dictionaries(Active(front)));
      assert [last] + [] == [last];
      NothingDefined(Waiting(last, Dictionaries(Active(front))));
      BlockTells(last, Active(front));
      var cs, n := Defined(bs, []), |Defined(front, [])|;
      assert cs[..n] == Defined(front, []) && cs[n..] == Listed(DefinedBy(last, Dictionaries(Active(front))));
    }
  }

  /** Entries and lines as a file may hold them: keys of small letters and underscores, no line end but
      newlines in values, and lines between blocks that open none. */
  ghost predicate Readable(b: Block) {
    match b
    case Item(es) => ReadableEntries(es)
    case Report(rtype, es) => ReadableEntries(es) && OneLine(rtype) && rtype != "" && '"' !in rtype
    case Plain(line) =>
      OneLine(line) && Strip(line) != "<custom_item>" && forall a: nat, b: nat, c: nat, d: nat :: !ReportTagAt(line, a, b, c, d)
  }

  predicate ReadableEntries(es: seq<Entry>) {
    forall e <- es :: e.key != "" && OnlyNewlines(e.value) && forall k :: 0 <= k < |e.key| ==> e.key[k] in KEY_CHARS
  }

  lemma EntriesAreGood(es: seq<Entry>)
    requires ReadableEntries(es)
    ensures GoodKeys(es) && forall e <- es :: OnlyNewlines(e.value)
  {
    hide KeyChar, KEY_CHARS, OnlyNewlines;
    forall c ensures KeyChar(c) <==> c in KEY_CHARS { KeyCharIs(c); }
  }

  lemma NoReportTag(line: string)
    requires forall a: nat, b: nat, c: nat, d: nat :: !ReportTagAt(line, a, b, c, d)
    ensures ReportType(line) == None
  {
    hide ReportTagAt, ReportType;
    if ReportType(line).Some? { ReportTagIs(line, ReportType(line).value); }
  }

  lemma ReadableIsGood(b: Block)
    requires Readable(b)
    ensures AuditPrinted.Good(b) && OnLines(b)
  {
    hide GoodKeys, ReadableEntries, ReportTagAt, ReportType, Strip, OnlyNewlines;
    match b
    case Item(es) => EntriesAreGood(es);
    case Report(_, es) => EntriesAreGood(es);
    case Plain(line) => NoReportTag(line);
  }

  /** MAIN: parsing the text of any file of items, reports and lines finds exactly the controls its blocks
      tell, in order. An item with a title is a control with its own texts. A PASSED, FAILED or WARNING
      report with one has its own texts, the commands of the helpers that wait before it, in order and
      none lost, and their types, each once, joined. Everything else defines nothing. */
  lemma FileIsTold(bs: seq<Block>)
    requires forall b <- bs :: Readable(b)
    ensures Told(bs, Occurrences(SplitLines(FileText(bs)), 0, []))
  {
    hide *;
    forall b | b in bs ensures AuditPrinted.Good(b) && OnLines(b) { ReadableIsGood(b); }
    FileRoundTrip(bs);
    BlocksAreTold(bs);
  }

  /** And no other: what the blocks tell is determined. */
  lemma {:induction false} ToldOnce(bs: seq<Block>, cs: seq<Control>, ds: seq<Control>)
    requires Told(bs, cs) && Told(bs, ds)
    ensures cs == ds
    decreases |bs|
  {
    hide *;
    if bs == [] {
      NothingIsTold(cs);
      NothingIsTold(ds);
    } else {
      var m := ToldParts(bs, cs);
      var n := ToldParts(bs, ds);
      ToldOnce(bs[..|bs| - 1], cs[..m], ds[..n]);
      TellsOnce(bs[|bs| - 1], Active(bs[..|bs| - 1]), cs[m..], ds[n..]);
      assert cs == cs[..m] + cs[m..] && ds == ds[..n] + ds[n..];
    }
  }

  lemma NothingIsTold(cs: seq<Control>)
    requires Told([], cs)
    ensures cs == []
  {
  }

  lemma ToldParts(bs: seq<Block>, cs: seq<Control>) returns (n: nat)
    requires bs != [] && Told(bs, cs)
    ensures n <= |cs| && Told(bs[..|bs| - 1], cs[..n]) && Tells(bs[|bs| - 1], Active(bs[..|bs| - 1]), cs[n..])
  {
    hide Tells, Active;
    n :| n <= |cs| && Told(bs[..|bs| - 1], cs[..n]) && Tells(bs[|bs| - 1], Active(bs[..|bs| - 1]), cs[n..]);
  }

  lemma TellsOnce(b: Block, hs: seq<seq<Entry>>, cs: seq<Control>, ds: seq<Control>)
    requires Tells(b, hs, cs) && Tells(b, hs, ds)
    ensures cs == ds
  {
    hide Untitled, OwnControl, CompositeControl, IsTitle;
    forall es, id, title, id', title' | Describes(es, id, title) && Describes(es, id', title') ensures id == id' && title == title' {
      TitleIs(Strip(ValueOf(es, "description")), id, title);
      TitleIs(Strip(ValueOf(es, "description")), id', title');
    }
    hide Describes;
  }
}
