/** Printing `.audit` files and reading them back. */
module AuditPrinted {
  import opened AuditControls
  import opened AuditParser
  import opened AuditStrings
  import opened Options
  import opened PythonText
  import opened Sequences
  import Text

  // ---------- printed files ----------

  /** What a file consists of: item blocks, report blocks, and lines outside blocks. */
  datatype Block = Item(entries: seq<Entry>) | Report(rtype: string, entries: seq<Entry>) | Plain(line: string)

  predicate Good(b: Block) {
    match b
    case Item(es) => GoodKeys(es)
    case Report(rtype, es) => GoodKeys(es) && rtype != "" && '"' !in rtype
    case Plain(line) => Strip(line) != ITEM && ReportType(line) == None
  }

  predicate GoodKeys(es: seq<Entry>) { forall e <- es :: GoodKey(e.key) }

  function EntryLines(es: seq<Entry>): (r: seq<string>)
    ensures |r| == |es|
  {
    if es == [] then [] else [EntryLine(es[0])] + EntryLines(es[1..])
  }

  function ReportTag(rtype: string): string { "<report type:\"" + (rtype + "\">") }

  function BlockLines(b: Block): seq<string> {
    match b
    case Item(es) => [ITEM] + (EntryLines(es) + [ITEM_END])
    case Report(rtype, es) => [ReportTag(rtype)] + (EntryLines(es) + [REPORT_END])
    case Plain(line) => [line]
  }

  function FileLines(bs: seq<Block>): seq<string> {
    if bs == [] then [] else BlockLines(bs[0]) + FileLines(bs[1..])
  }

  /** The control a block defines when `helpers` are waiting, if any. */
  function DefinedBy(b: Block, helpers: seq<Fields>): Option<Control> {
    match b
    case Item(es) => ItemControl(Dictionary(map[], es))
    case Report(rtype, es) => ReportControl(rtype, Dictionary(map[], es), helpers)
    case Plain(_) => None
  }

  /** The helpers waiting behind a block: an item without a control is one more, a report or a
      control takes them all. */
  function Waiting(b: Block, helpers: seq<Fields>): seq<Fields> {
    match b
    case Item(es) => if DefinedBy(b, helpers).Some? then [] else helpers + [Dictionary(map[], es)]
    case Report(_, _) => []
    case Plain(line) => if Resets(line) then [] else helpers
  }

  /** The controls a list of blocks defines, read off the blocks. */
  function Defined(bs: seq<Block>, helpers: seq<Fields>): seq<Control>
    decreases |bs|
  {
    if bs == [] then [] else Listed(DefinedBy(bs[0], helpers)) + Defined(bs[1..], Waiting(bs[0], helpers))
  }

  ghost predicate BlockAt(lines: seq<string>, i: nat, b: Block) {
    i < |lines| && match b
    case Item(es) => Strip(lines[i]) == ITEM && PrintedAt(lines, i + 1, es, ITEM_END)
    case Report(rtype, es) =>
      ReportType(lines[i]) == Some(rtype) && Strip(lines[i]) != ITEM && PrintedAt(lines, i + 1, es, REPORT_END)
    case Plain(line) => lines[i] == line && ReportType(line) == None && Strip(line) != ITEM
  }

  /** The file from line `i` on is the blocks. */
  ghost predicate FileAt(lines: seq<string>, i: nat, bs: seq<Block>)
    decreases |bs|
  {
    if bs == [] then i == |lines|
    else BlockAt(lines, i, bs[0]) && FileAt(lines, i + |BlockLines(bs[0])|, bs[1..])
  }

  lemma ReportTagShape(rtype: string)
    ensures var line, n := ReportTag(rtype), |rtype|;
            && |line| == 16 + n && line[0] == '<' && line[7] == ' ' && line[8] == 't' && line[14 + n] == '"' && line[15 + n] == '>'
            && line[0..7] == "<report" && line[8..14] == "type:\"" && line[14..14 + n] == rtype
            && forall k :: 14 <= k < 14 + n ==> line[k] == rtype[k - 14]
  {
    var line, n := ReportTag(rtype), |rtype|;
    assert forall k :: 14 <= k < 14 + n ==> line[k] == rtype[k - 14];
  }

  lemma ReportTypePrinted(rtype: string)
    requires rtype != "" && '"' !in rtype
    ensures ReportType(ReportTag(rtype)) == Some(rtype)
  {
    hide SkipSpace, QuoteEnd, ReportTag;
    var line, n := ReportTag(rtype), |rtype|;
    ReportTagShape(rtype);
    SkipIs(line, 0, 0);
    SkipIs(line, 7, 8);
    QuoteEndIs(line, 14, 14 + n);
    SkipIs(line, 15 + n, 15 + n);
    assert SkipSpace(line, 16 + n) == 16 + n;
  }

  lemma ReportTagIsNoItem(rtype: string)
    ensures Strip(ReportTag(rtype)) != ITEM
  {
    var line := ReportTag(rtype);
    assert line[0] == '<' && line[1] == 'r' && ITEM[1] == 'c';
    SkipIs(line, 0, 0);
    assert line[0..] == line;
    StripEndIsPrefix(line);
    hide StripEnd, SkipSpace, ReportTag;
  }

  lemma {:induction false} QuoteEndIs(s: string, i: nat, j: nat)
    requires i <= j < |s| && s[j] == '"' && forall k :: i <= k < j ==> s[k] != '"'
    ensures QuoteEnd(s, i) == j
    decreases j - i
  {
    if i < j { QuoteEndIs(s, i + 1, j); }
  }

  /** Printed entries between two parts of a file. */
  lemma {:induction false} EntriesStand(pre: seq<string>, es: seq<Entry>, close: string, post: seq<string>)
    requires GoodKeys(es) && Tight(close)
    ensures PrintedAt(pre + (EntryLines(es) + ([close] + post)), |pre|, es, close)
    decreases |es|
  {
    var lines := pre + (EntryLines(es) + ([close] + post));
    if es == [] {
      TightStays(close);
      assert lines[|pre|] == close;
    } else {
      assert es[0] in es && forall e <- es[1..] :: e in es;
      assert lines[|pre|] == EntryLine(es[0]);
      Regroup(pre, EntryLine(es[0]), EntryLines(es[1..]), [close] + post);
      EntriesStand(pre + [EntryLine(es[0])], es[1..], close, post);
    }
  }

  lemma Regroup(pre: seq<string>, line: string, more: seq<string>, post: seq<string>)
    ensures pre + (([line] + more) + post) == (pre + [line]) + (more + post)
  {
  }

  lemma RegroupBlock(pre: seq<string>, tag: string, es: seq<string>, close: string, post: seq<string>)
    ensures pre + (([tag] + (es + [close])) + post) == (pre + [tag]) + (es + ([close] + post))
    ensures (pre + (([tag] + (es + [close])) + post))[|pre|] == tag
  {
  }

  lemma BlockStands(pre: seq<string>, tag: string, es: seq<Entry>, close: string, post: seq<string>)
    requires GoodKeys(es) && Tight(close)
    ensures var lines := pre + (([tag] + (EntryLines(es) + [close])) + post);
            lines[|pre|] == tag && PrintedAt(lines, |pre| + 1, es, close)
  {
    hide *;
    RegroupBlock(pre, tag, EntryLines(es), close, post);
    EntriesStand(pre + [tag], es, close, post);
  }

  lemma AnyBlockStands(pre: seq<string>, b: Block, post: seq<string>)
    requires Good(b)
    ensures BlockAt(pre + (BlockLines(b) + post), |pre|, b)
  {
    Bare(ITEM);
    assert Tight(ITEM_END) && Tight(REPORT_END);
    hide PrintedAt, Strip, ReportType, EntryLines, GoodKeys, ReportTag;
    match b {
      case Item(es) => BlockStands(pre, ITEM, es, ITEM_END, post);
      case Report(rtype, es) =>
        ReportTypePrinted(rtype);
        ReportTagIsNoItem(rtype);
        BlockStands(pre, ReportTag(rtype), es, REPORT_END, post);
      case Plain(line) =>
    }
  }

  lemma {:induction false} LinesStand(pre: seq<string>, bs: seq<Block>)
    requires forall b <- bs :: Good(b)
    ensures FileAt(pre + FileLines(bs), |pre|, bs)
    decreases |bs|
  {
    hide Good, BlockAt, BlockLines;
    if bs != [] {
      var b, post := bs[0], FileLines(bs[1..]);
      assert b in bs && forall c <- bs[1..] :: c in bs;
      LinesStand(pre + BlockLines(b), bs[1..]);
      Associate(pre, BlockLines(b), post);
      AnyBlockStands(pre, b, post);
    }
  }

  lemma ItemReads(lines: seq<string>, i: nat, es: seq<Entry>, helpers: seq<Fields>)
    requires BlockAt(lines, i, Item(es))
    ensures var c := DefinedBy(Item(es), helpers);
            Occurrences(lines, i, helpers)
            == Listed(c) + Occurrences(lines, i + |es| + 2, Waiting(Item(es), helpers))
  {
    hide Occurrences, BlockFields, PrintedAt, Strip, ItemControl, Dictionary;
    BlockRoundTrip(lines, i + 1, es, ITEM_END, map[]);
    ItemStep(lines, i, helpers, Dictionary(map[], es), i + 1 + |es|, Waiting(Item(es), helpers));
  }

  lemma ReportReads(lines: seq<string>, i: nat, rtype: string, es: seq<Entry>, helpers: seq<Fields>)
    requires BlockAt(lines, i, Report(rtype, es))
    ensures Occurrences(lines, i, helpers)
            == Listed(DefinedBy(Report(rtype, es), helpers)) + Occurrences(lines, i + |es| + 2, [])
  {
    hide Occurrences, BlockFields, PrintedAt, Strip, ReportType, ReportControl, Dictionary;
    BlockRoundTrip(lines, i + 1, es, REPORT_END, map[]);
    ReportStep(lines, i, helpers, rtype, Dictionary(map[], es), i + 1 + |es|);
  }

  lemma BlockReads(lines: seq<string>, i: nat, b: Block, helpers: seq<Fields>)
    requires BlockAt(lines, i, b)
    ensures Occurrences(lines, i, helpers)
            == Listed(DefinedBy(b, helpers)) + Occurrences(lines, i + |BlockLines(b)|, Waiting(b, helpers))
  {
    hide Occurrences, EntryLines, PrintedAt, Strip, ReportType, ItemControl, ReportControl, Resets, Dictionary;
    match b {
      case Item(es) => ItemReads(lines, i, es, helpers);
      case Report(rtype, es) => ReportReads(lines, i, rtype, es, helpers);
      case Plain(line) =>
        PlainStep(lines, i, helpers);
        NothingListed(Occurrences(lines, i, helpers));
    }
  }

  lemma {:induction false} FileReads(lines: seq<string>, i: nat, bs: seq<Block>, helpers: seq<Fields>)
    requires FileAt(lines, i, bs)
    ensures Occurrences(lines, i, helpers) == Defined(bs, helpers)
    decreases |bs|
  {
    hide Occurrences, BlockAt, BlockLines, DefinedBy, Waiting;
    if bs == [] {
      NothingLeft(lines, i, helpers);
    } else {
      BlockReads(lines, i, bs[0], helpers);
      FileReads(lines, i + |BlockLines(bs[0])|, bs[1..], Waiting(bs[0], helpers));
    }
  }

  lemma LinesRead(bs: seq<Block>)
    requires forall b <- bs :: Good(b)
    ensures Occurrences(FileLines(bs), 0, []) == Defined(bs, [])
  {
    hide *;
    LinesStand([], bs);
    assert [] + FileLines(bs) == FileLines(bs);
    FileReads(FileLines(bs), 0, bs, []);
  }

  // ---------- printed controls ----------

  function TitleLine(id: string, title: string): string { id + (" " + title) }

  /** A dotted number: digits, then one or more groups of a dot and digits. */
  predicate GoodId(id: string) {
    var major := DigitsEnd(id, 0);
    0 < major < |id| && GroupsEnd(id, major) == |id|
  }

  predicate GoodTitle(title: string) {
    title != "" && NoNewline(title) && !IsSpace(title[0]) && !IsSpace(title[|title| - 1])
  }

  lemma {:induction false} DigitsEndStays(s: string, more: string, i: nat)
    requires i <= |s| && more != "" && !Digit(more[0])
    ensures DigitsEnd(s + more, i) == DigitsEnd(s, i)
    decreases |s| - i
  {
    if i < |s| && Digit(s[i]) { DigitsEndStays(s, more, i + 1); }
  }

  lemma {:induction false} GroupsEndStays(s: string, more: string, i: nat)
    requires i <= |s| && more != "" && !Digit(more[0]) && more[0] != '.'
    ensures GroupsEnd(s + more, i) == GroupsEnd(s, i)
    decreases |s| - i
  {
    if i < |s| && s[i] == '.' {
      DigitsEndStays(s, more, i + 1);
      if DigitsEnd(s, i + 1) > i + 1 { GroupsEndStays(s, more, DigitsEnd(s, i + 1)); }
    }
  }

  lemma DigitFirst(s: string)
    ensures DigitsEnd(s, 0) > 0 ==> s != "" && Digit(s[0])
  {
  }

  lemma DigitIsNoLetter(desc: string)
    requires desc != "" && Digit(desc[0])
    ensures Text.Lower(desc) != "check distribution release" && !("cis_ubuntu" <= Text.Lower(desc))
  {
    assert Text.Lower(desc)[0] == desc[0];
  }

  /** MAIN: the id and title of a printed description are found again. */
  lemma TitleRoundTrip(id: string, title: string)
    requires GoodId(id) && GoodTitle(title)
    ensures ControlTitle(TitleLine(id, title)) == Some((id, title))
    ensures Strip(TitleLine(id, title)) == TitleLine(id, title)
  {
    var desc, tail := TitleLine(id, title), " " + title;
    DigitsEndStays(id, tail, 0);
    GroupsEndStays(id, tail, DigitsEnd(id, 0));
    DigitFirst(id);
    assert desc[0] == id[0] && desc[|desc| - 1] == title[|title| - 1];
    Bare(desc);
    Bare(title);
    DigitIsNoLetter(desc);
    assert desc[|id|] == ' ' && desc[|id| + 1] == title[0];
    SkipIs(desc, |id|, |id| + 1);
    assert desc[..|id|] == id && desc[|id| + 1..] == title;
    hide Strip, DigitsEnd, GroupsEnd, SkipSpace, TitleLine, Text.Lower;
  }

  /** A control as an item block can carry it: at most one command, and no field with white space at
      its ends. */
  predicate Printable(c: Control) {
    && GoodId(c.id) && GoodTitle(c.title)
    && |c.cmds| <= 1 && (forall cmd <- c.cmds :: cmd != "" && Tight(cmd))
    && Tight(c.checkType) && Tight(c.info) && Tight(c.solution) && Tight(c.expected) && Tight(c.file) && Tight(c.regex)
    && Tight(c.reference) && Tight(c.seeAlso)
  }

  const KEYS := ["type", "description", "info", "solution", "expect", "cmd", "file", "regex", "reference", "see_also"]

  function Values(c: Control): (vs: seq<string>)
    ensures |vs| == |KEYS|
  {
    [c.checkType, TitleLine(c.id, c.title), c.info, c.solution, c.expected, if c.cmds == [] then "" else c.cmds[0],
     c.file, c.regex, c.reference, c.seeAlso]
  }

  function Zip(keys: seq<string>, values: seq<string>): (es: seq<Entry>)
    requires |keys| == |values|
    ensures |es| == |keys| && forall n :: 0 <= n < |es| ==> es[n] == Entry(keys[n], values[n])
  {
    seq(|keys|, n requires 0 <= n < |keys| => Entry(keys[n], values[n]))
  }

  function ControlBlock(c: Control): Block { Item(Zip(KEYS, Values(c))) }

  function ControlBlocks(cs: seq<Control>): (bs: seq<Block>)
    ensures |bs| == |cs|
  {
    if cs == [] then [] else [ControlBlock(cs[0])] + ControlBlocks(cs[1..])
  }

  lemma KeysAreDistinct()
    ensures forall m, n :: 0 <= m < n < |KEYS| ==> KEYS[m] != KEYS[n]
    ensures forall n :: 0 <= n < |KEYS| ==> GoodKey(KEYS[n])
  {
    assert KEYS[7][2] == 'g' && KEYS[8][2] == 'f';
    assert KEYS[3][1] == 'o' && KEYS[9][1] == 'e';
    assert forall n :: 0 <= n < |KEYS| ==> KEYS[n][0] == "tdisecfrrs"[n];
  }

  /** Distinct keys keep their values. */
  lemma {:induction false} DictionaryHolds(fields: Fields, es: seq<Entry>, n: nat)
    requires n < |es| && forall m, k :: 0 <= m < k < |es| ==> es[m].key != es[k].key
    ensures es[n].key in Dictionary(fields, es) && Dictionary(fields, es)[es[n].key] == es[n].value
    decreases |es|
  {
    if n > 0 {
      DictionaryHolds(fields[es[0].key := es[0].value], es[1..], n - 1);
    } else {
      DictionaryKeeps(fields[es[0].key := es[0].value], es[1..], es[0].key);
    }
  }

  lemma {:induction false} DictionaryKeeps(fields: Fields, es: seq<Entry>, key: string)
    requires key in fields && forall m :: 0 <= m < |es| ==> es[m].key != key
    ensures key in Dictionary(fields, es) && Dictionary(fields, es)[key] == fields[key]
    decreases |es|
  {
    if es != [] { DictionaryKeeps(fields[es[0].key := es[0].value], es[1..], key); }
  }

  lemma PrintedHolds(c: Control, n: nat)
    requires n < |KEYS|
    ensures Lookup(Dictionary(map[], Zip(KEYS, Values(c))), KEYS[n]) == Values(c)[n]
  {
    KeysAreDistinct();
    hide Values, Dictionary;
    DictionaryHolds(map[], Zip(KEYS, Values(c)), n);
  }

  lemma PrintedText(c: Control)
    ensures var fields := Dictionary(map[], Zip(KEYS, Values(c)));
            && Lookup(fields, "type") == c.checkType && Lookup(fields, "description") == TitleLine(c.id, c.title)
            && Lookup(fields, "info") == c.info && Lookup(fields, "solution") == c.solution
            && Lookup(fields, "expect") == c.expected
  {
    PrintedHolds(c, 0);
    PrintedHolds(c, 1);
    PrintedHolds(c, 2);
    PrintedHolds(c, 3);
    PrintedHolds(c, 4);
    hide Dictionary, Lookup, Zip, TitleLine;
  }

  lemma PrintedProbe(c: Control)
    ensures var fields := Dictionary(map[], Zip(KEYS, Values(c)));
            && Lookup(fields, "cmd") == (if c.cmds == [] then "" else c.cmds[0])
            && Lookup(fields, "file") == c.file && Lookup(fields, "regex") == c.regex
            && Lookup(fields, "reference") == c.reference && Lookup(fields, "see_also") == c.seeAlso
  {
    PrintedHolds(c, 5);
    PrintedHolds(c, 6);
    PrintedHolds(c, 7);
    PrintedHolds(c, 8);
    PrintedHolds(c, 9);
    hide Dictionary, Lookup, Zip, TitleLine;
  }

  /** MAIN: reading a printed control gives the control back. */
  lemma ControlRoundTrip(c: Control)
    requires Printable(c)
    ensures ItemControl(Dictionary(map[], Zip(KEYS, Values(c)))) == Some(c)
  {
    hide Lookup, Dictionary, Strip, ControlTitle, TitleLine, Zip, Values, GoodId, GoodTitle, Tight;
    forall s | Tight(s) ensures Strip(s) == s { TightStays(s); }
    PrintedText(c);
    PrintedProbe(c);
    TitleRoundTrip(c.id, c.title);
    assert |c.cmds| == 1 ==> c.cmds == [c.cmds[0]] && c.cmds[0] in c.cmds;
  }

  lemma ControlBlockIsGood(c: Control)
    ensures Good(ControlBlock(c))
  {
    KeysAreDistinct();
    hide Values, GoodKey;
  }

  lemma {:induction false} ControlsAreDefined(cs: seq<Control>)
    requires forall c <- cs :: Printable(c)
    ensures Defined(ControlBlocks(cs), []) == cs && forall b <- ControlBlocks(cs) :: Good(b)
    decreases |cs|
  {
    hide Printable, ItemControl, Good, Values, Zip;
    if cs != [] {
      assert cs[0] in cs && forall c <- cs[1..] :: c in cs;
      ControlsAreDefined(cs[1..]);
      ControlRoundTrip(cs[0]);
      ControlBlockIsGood(cs[0]);
      assert ControlBlocks(cs)[0] == ControlBlock(cs[0]) && ControlBlocks(cs)[1..] == ControlBlocks(cs[1..]);
      assert cs == [cs[0]] + cs[1..];
    }
  }
}
