/** Printing `.audit` files as text and parsing the text: what line ends inside values and lines do. */
module AuditText {
  import opened AuditControls
  import opened AuditParser
  import opened AuditPrinted
  import opened AuditStrings
  import opened Lines
  import opened Options
  import opened PythonText
  import opened Sequences
  import Text

  // ---------- printed text ----------

  function FileText(bs: seq<Block>): string { Join(FileLines(bs)) }

  /** No line end but newlines, which are escaped. */
  predicate OnlyNewlines(s: string) { forall c <- s :: IsBreak(c) ==> c == '\n' }

  predicate OnLines(b: Block) {
    match b
    case Item(es) => forall e <- es :: OnlyNewlines(e.value)
    case Report(rtype, es) => OneLine(rtype) && forall e <- es :: OnlyNewlines(e.value)
    case Plain(line) => OneLine(line)
  }

  lemma {:induction false} EscapeOnLine(s: string)
    ensures OneLine(Escape(s)) <==> OnlyNewlines(s)
  {
    if s != "" {
      assert s == [s[0]] + s[1..];
      EscapeOnLine(s[1..]);
      CharOnLine(s[0]);
      hide EscapeChar, IsBreak;
      OneLineParts(EscapeChar(s[0]), Escape(s[1..]));
      assert OnlyNewlines(s) <==> (IsBreak(s[0]) ==> s[0] == '\n') && OnlyNewlines(s[1..]);
    }
  }

  lemma CharOnLine(c: char)
    ensures OneLine(EscapeChar(c)) <==> (IsBreak(c) ==> c == '\n')
  {
    var e := EscapeChar(c);
    assert |e| == 1 ==> e[0] == c;
  }

  lemma EntryOnLine(e: Entry)
    requires GoodKey(e.key)
    ensures OneLine(EntryLine(e)) <==> OnlyNewlines(e.value)
  {
    EscapeOnLine(e.value);
    assert OneLine(e.key) && OneLine("      ") && OneLine(" : ") && OneLine("\"");
    hide OneLine, OnlyNewlines, Escape;
    OneLineParts("\"" + Escape(e.value), "\"");
    OneLineParts("\"", Escape(e.value));
    OneLineParts(" : ", Quoted(e.value));
    OneLineParts(e.key, " : " + Quoted(e.value));
    OneLineParts("      ", e.key + (" : " + Quoted(e.value)));
  }

  lemma {:induction false} EntriesOnLines(es: seq<Entry>)
    requires GoodKeys(es)
    ensures (forall l <- EntryLines(es) :: OneLine(l)) <==> forall e <- es :: OnlyNewlines(e.value)
    decreases |es|
  {
    hide OneLine, EntryLine, OnlyNewlines, GoodKey;
    if es != [] {
      assert es == [es[0]] + es[1..];
      EntryOnLine(es[0]);
      EntriesOnLines(es[1..]);
    }
  }

  lemma BlockOnLines(b: Block)
    requires Good(b)
    ensures (forall l <- BlockLines(b) :: OneLine(l)) <==> OnLines(b)
  {
    TagsOnLines();
    if b.Report? { ReportTagOnLine(b.rtype); }
    if !b.Plain? { EntriesOnLines(b.entries); }
    hide OneLine, OnlyNewlines, EntryLines, ITEM, ITEM_END, REPORT_END, ReportTag;
    match b
    case Item(es) => BetweenTags(ITEM, EntryLines(es), ITEM_END);
    case Report(rtype, es) => BetweenTags(ReportTag(rtype), EntryLines(es), REPORT_END);
    case Plain(line) => assert line in [line];
  }

  lemma BetweenTags(open: string, more: seq<string>, close: string)
    ensures (forall l <- [open] + (more + [close]) :: OneLine(l)) <==> OneLine(open) && (forall l <- more :: OneLine(l)) && OneLine(close)
  {
    hide OneLine;
    var all := [open] + (more + [close]);
    assert open in all && close in all && forall l <- more :: l in all;
  }

  lemma TagsOnLines()
    ensures OneLine(ITEM) && OneLine(ITEM_END) && OneLine(REPORT_END)
  {
  }

  lemma ReportTagOnLine(rtype: string)
    ensures OneLine(ReportTag(rtype)) <==> OneLine(rtype)
  {
    assert OneLine("<report type:\"") && OneLine("\">");
    hide OneLine;
    OneLineParts(rtype, "\">");
    OneLineParts("<report type:\"", rtype + "\">");
  }

  lemma {:induction false} FileOnLines(bs: seq<Block>)
    requires forall b <- bs :: Good(b)
    ensures (forall l <- FileLines(bs) :: OneLine(l)) <==> forall b <- bs :: OnLines(b)
    decreases |bs|
  {
    hide Good, OnLines, OneLine, BlockLines;
    if bs != [] {
      assert bs == [bs[0]] + bs[1..];
      BlockOnLines(bs[0]);
      FileOnLines(bs[1..]);
    }
  }

  /** MAIN: splitting the text of a file into lines finds the lines of its blocks exactly if no value
      holds a line end but newlines, and no report type and plain line any. */
  lemma FileLinesAreFound(bs: seq<Block>)
    requires forall b <- bs :: Good(b)
    ensures SplitLines(FileText(bs)) == Shown(FileLines(bs)) <==> forall b <- bs :: OnLines(b)
  {
    FileOnLines(bs);
    SplitJoinIsExact(FileLines(bs));
    hide Good, OnLines, FileLines, SplitLines, Shown, Join, OneLine;
  }

  lemma {:induction false} LastBlock(bs: seq<Block>, b: Block, helpers: seq<Fields>)
    ensures FileLines(bs + [b]) == FileLines(bs) + BlockLines(b)
    ensures b.Plain? ==> Defined(bs + [b], helpers) == Defined(bs, helpers)
    decreases |bs|
  {
    hide BlockLines, DefinedBy, Waiting;
    if bs == [] {
      assert [b][1..] == [] && [] + [b] == [b] && BlockLines(b) + [] == BlockLines(b);
      assert b.Plain? ==> Listed(DefinedBy(b, helpers)) == [] by { PlainDefinesNone(b, helpers); }
    } else {
      assert (bs + [b])[1..] == bs[1..] + [b];
      LastBlock(bs[1..], b, Waiting(bs[0], helpers));
      Associate(BlockLines(bs[0]), FileLines(bs[1..]), BlockLines(b));
    }
  }

  lemma PlainDefinesNone(b: Block, helpers: seq<Fields>)
    ensures b.Plain? ==> DefinedBy(b, helpers) == None
  {
  }

  lemma BlockLast(b: Block)
    ensures BlockLines(b) != [] && (BlockLines(b)[|BlockLines(b)| - 1] == "" <==> b == Plain(""))
  {
  }

  /** An empty line at the end is no line of the text, and defines nothing. */
  lemma ShownFile(bs: seq<Block>) returns (cs: seq<Block>)
    ensures Shown(FileLines(bs)) == FileLines(cs) && Defined(cs, []) == Defined(bs, []) && forall b <- cs :: b in bs
  {
    hide BlockLines, Defined, FileLines;
    cs := bs;
    if bs == [] {
      assert FileLines(bs) == [] by { NoBlocks(); }
    } else {
      var front, last := bs[..|bs| - 1], bs[|bs| - 1];
      assert bs == front + [last];
      LastBlock(front, last, []);
      BlockLast(last);
      if last == Plain("") {
        assert BlockLines(last) == [""] by { EmptyLine(); }
        cs := front;
      }
    }
  }

  lemma NoBlocks()
    ensures FileLines([]) == []
  {
  }

  lemma EmptyLine()
    ensures BlockLines(Plain("")) == [""]
  {
  }

  /** MAIN: the text of a printed file defines exactly the controls read off its blocks. */
  lemma FileRoundTrip(bs: seq<Block>)
    requires forall b <- bs :: Good(b) && OnLines(b)
    ensures Occurrences(SplitLines(FileText(bs)), 0, []) == Defined(bs, [])
  {
    FileOnLines(bs);
    SplitJoin(FileLines(bs));
    hide Good, OnLines, Occurrences, Defined, FileLines, SplitLines, Shown, Join, OneLine;
    var cs := ShownFile(bs);
    LinesRead(cs);
  }

  // ---------- controls ----------

  /** No text of the control holds a line end but newlines. */
  predicate Clear(c: Control) {
    && OnlyNewlines(c.id) && OnlyNewlines(c.title) && OnlyNewlines(c.checkType) && OnlyNewlines(c.info)
    && OnlyNewlines(c.solution) && OnlyNewlines(c.expected) && (forall cmd <- c.cmds :: OnlyNewlines(cmd))
    && OnlyNewlines(c.file) && OnlyNewlines(c.regex) && OnlyNewlines(c.reference) && OnlyNewlines(c.seeAlso)
  }

  lemma ValuesAreClear(c: Control)
    requires Clear(c)
    ensures forall v <- Values(c) :: OnlyNewlines(v)
  {
    assert OnlyNewlines(TitleLine(c.id, c.title));
    assert c.cmds != [] ==> c.cmds[0] in c.cmds;
    hide OnlyNewlines, TitleLine;
  }

  lemma ControlOnLines(c: Control)
    requires Clear(c)
    ensures OnLines(ControlBlock(c))
  {
    ValuesAreClear(c);
    hide OnlyNewlines, Values, Clear;
    var vs, es := Values(c), Zip(KEYS, Values(c));
    assert forall n :: 0 <= n < |es| ==> es[n].value == vs[n] && vs[n] in vs;
  }

  lemma {:induction false} ControlsOnLines(cs: seq<Control>)
    requires forall c <- cs :: Clear(c)
    ensures forall b <- ControlBlocks(cs) :: OnLines(b)
    decreases |cs|
  {
    hide Clear, OnLines, ControlBlock;
    if cs != [] {
      assert cs[0] in cs && forall c <- cs[1..] :: c in cs;
      ControlOnLines(cs[0]);
      ControlsOnLines(cs[1..]);
    }
  }

  /** MAIN: printing controls and parsing the text finds them again, in order, exactly if their texts
      hold no line end but newlines: the others are not escaped, and read back as newlines. */
  lemma PrintedControlsAreFound(cs: seq<Control>)
    requires forall c <- cs :: Printable(c)
    ensures Occurrences(SplitLines(FileText(ControlBlocks(cs))), 0, []) == cs <==> forall c <- cs :: Clear(c)
  {
    var text := FileText(ControlBlocks(cs));
    ControlsAreDefined(cs);
    hide *;
    if forall c <- cs :: Clear(c) {
      ControlsOnLines(cs);
      FileRoundTrip(ControlBlocks(cs));
    }
    ParsedIsClear(SplitLines(text), 0, []);
  }

  // ---------- what can be read at all ----------

  lemma {:induction false} UnescapeClear(s: string)
    requires OnlyNewlines(s)
    ensures OnlyNewlines(Unescape(s))
  {
    if s != "" {
      assert s[0] in s && (|s| > 1 ==> s[1] in s);
      if s[0] == '\\' && |s| > 1 { UnescapeClear(s[2..]); } else { UnescapeClear(s[1..]); }
    }
  }

  lemma {:induction false} StripEndClear(s: string)
    requires OnlyNewlines(s)
    ensures OnlyNewlines(StripEnd(s))
  {
    if s != "" && IsSpace(s[|s| - 1]) { StripEndClear(s[..|s| - 1]); }
  }

  lemma StripClear(s: string)
    requires OnlyNewlines(s)
    ensures OnlyNewlines(Strip(s))
  {
    StripEndClear(s[SkipSpace(s, 0)..]);
  }

  lemma {:induction false} StripQuotesClear(s: string)
    requires OnlyNewlines(s)
    ensures OnlyNewlines(StripQuotes(s))
  {
    if s != "" && s[0] == '"' {
      StripQuotesClear(s[1..]);
    } else if s != "" && s[|s| - 1] == '"' {
      StripQuotesClear(s[..|s| - 1]);
    }
  }

  lemma LineIsClear(lines: seq<string>, i: nat)
    requires AllSingle(lines) && i < |lines|
    ensures OnlyNewlines(lines[i])
  {
    assert lines[i] in lines;
  }

  lemma {:induction false} JoinedClear(first: string, lines: seq<string>, from: nat, till: nat)
    requires from <= till <= |lines| && OnlyNewlines(first) && AllSingle(lines)
    ensures OnlyNewlines(Joined(first, lines, from, till))
    decreases till
  {
    if from < till {
      JoinedClear(first, lines, from, till - 1);
      LineIsClear(lines, till - 1);
    }
  }

  lemma ReadValueClear(field: string, lines: seq<string>, idx: nat)
    requires idx < |lines| && OnlyNewlines(field) && AllSingle(lines)
    ensures OnlyNewlines(ReadValue(field, lines, idx).0)
  {
    hide OnlyNewlines, Strip, Joined, QuoteAt, Unescape, Newlines, AllSingle;
    var rest := Strip(field);
    StripClear(field);
    if rest == "" || rest[0] != '"' {
      StripClear(rest);
      StripQuotesClear(Strip(rest));
    } else {
      SliceClear(rest, 1, |rest|);
      assert rest[1..|rest|] == rest[1..];
      var whole := Joined(rest[1..], lines, idx + 1, |lines|);
      JoinedClear(rest[1..], lines, idx + 1, |lines|);
      UnescapeClear(whole);
      var q := QuoteAt(whole, 0);
      if q != -1 {
        SliceClear(whole, 0, q);
        assert whole[0..q] == whole[..q];
        UnescapeClear(whole[..q]);
      }
    }
  }

  lemma SliceClear(s: string, i: nat, j: nat)
    requires i <= j <= |s| && OnlyNewlines(s)
    ensures OnlyNewlines(s[i..j])
  {
    assert forall c <- s[i..j] :: c in s;
  }

  ghost predicate ClearFields(fields: Fields) { forall k <- fields :: OnlyNewlines(fields[k]) }

  lemma FieldClear(line: string)
    requires OnlyNewlines(line) && FieldOf(line).Some?
    ensures OnlyNewlines(FieldOf(line).value.1)
  {
  }

  lemma {:induction false} BlockFieldsClear(lines: seq<string>, i: nat, close: string, fields: Fields)
    requires AllSingle(lines) && ClearFields(fields)
    ensures ClearFields(BlockFields(lines, i, close, fields).0)
    decreases |lines| - i
  {
    hide OnlyNewlines, AllSingle, Strip, FieldOf, ReadValue;
    if i < |lines| && Strip(lines[i]) != close {
      match FieldOf(lines[i])
      case None => BlockFieldsClear(lines, i + 1, close, fields);
      case Some((key, rest)) =>
        LineIsClear(lines, i);
        FieldClear(lines[i]);
        ReadValueClear(rest, lines, i);
        var (value, last) := ReadValue(rest, lines, i);
        BlockFieldsClear(lines, last + 1, close, fields[key := value]);
    }
  }

  lemma TrimmedClear(fields: Fields, key: string)
    requires ClearFields(fields)
    ensures OnlyNewlines(Trimmed(fields, key))
  {
    StripClear(Lookup(fields, key));
  }

  lemma TitleClear(description: string)
    requires OnlyNewlines(description) && ControlTitle(description).Some?
    ensures OnlyNewlines(ControlTitle(description).value.0) && OnlyNewlines(ControlTitle(description).value.1)
  {
    hide OnlyNewlines, Strip, Text.Lower;
    StripClear(description);
    var desc := Strip(description);
    var end := GroupsEnd(desc, DigitsEnd(desc, 0));
    var title := SkipSpace(desc, end);
    SliceClear(desc, 0, end);
    SliceClear(desc, title, |desc|);
    assert desc[0..end] == desc[..end] && desc[title..|desc|] == desc[title..];
    StripClear(desc[title..]);
  }

  lemma ItemClear(fields: Fields)
    requires ClearFields(fields)
    ensures ItemControl(fields).Some? ==> Clear(ItemControl(fields).value)
  {
    hide OnlyNewlines, Trimmed, ControlTitle, Lookup, ClearFields;
    AllTrimmedClear(fields);
    if ItemControl(fields).Some? { TitleClear(Trimmed(fields, "description")); }
  }

  lemma AllTrimmedClear(fields: Fields)
    requires ClearFields(fields)
    ensures forall key :: OnlyNewlines(Trimmed(fields, key))
  {
    forall key ensures OnlyNewlines(Trimmed(fields, key)) { TrimmedClear(fields, key); }
  }

  lemma {:induction false} GatheredClear(helpers: seq<Fields>, key: string)
    requires forall f <- helpers :: ClearFields(f)
    ensures forall s <- Gathered(helpers, key) :: OnlyNewlines(s)
  {
    hide ClearFields, OnlyNewlines, Trimmed, Lookup;
    if helpers != [] {
      var front, last := helpers[..|helpers| - 1], helpers[|helpers| - 1];
      assert helpers == front + [last];
      GatheredClear(front, key);
      TrimmedClear(last, key);
    }
  }

  lemma {:induction false} DistinctFrom(s: seq<string>)
    ensures forall x <- Distinct(s) :: x in s
  {
    if s != [] { DistinctFrom(s[..|s| - 1]); }
  }

  lemma {:induction false} JoinPlusClear(s: seq<string>)
    requires forall x <- s :: OnlyNewlines(x)
    ensures OnlyNewlines(JoinPlus(s))
  {
    if s != [] { assert s[|s| - 1] in s && s[0] in s; }
    if |s| > 1 { JoinPlusClear(s[..|s| - 1]); }
  }

  lemma OneLineIsClear(s: string)
    requires OneLine(s)
    ensures OnlyNewlines(s)
  {
  }

  lemma ConstantsClear()
    ensures OnlyNewlines("COMPOSITE") && OnlyNewlines("composite: all condition checks must pass") && OnlyNewlines("")
  {
    CompositeIsOneLine("composite: all condition checks must pass");
    hide OnlyNewlines;
    OneLineIsClear("COMPOSITE");
    OneLineIsClear("composite: all condition checks must pass");
    OneLineIsClear("");
  }

  lemma CompositeIsOneLine(s: string)
    requires s == "composite: all condition checks must pass"
    ensures OneLine(s)
  {
    assert forall k :: 0 <= k < |s| ==> ' ' <= s[k] <= 'z';
  }

  lemma TypesClear(helpers: seq<Fields>)
    requires forall f <- helpers :: ClearFields(f)
    ensures OnlyNewlines(JoinPlus(Distinct(Gathered(helpers, "type"))))
  {
    GatheredClear(helpers, "type");
    DistinctFrom(Gathered(helpers, "type"));
    hide *;
    JoinPlusClear(Distinct(Gathered(helpers, "type")));
  }

  lemma ReportClear(rtype: string, fields: Fields, helpers: seq<Fields>)
    requires ClearFields(fields) && forall f <- helpers :: ClearFields(f)
    ensures var c := ReportControl(rtype, fields, helpers); c.Some? ==> Clear(c.value)
  {
    ConstantsClear();
    hide OnlyNewlines, Trimmed, ControlTitle, Gathered, Distinct, JoinPlus, ClearFields;
    AllTrimmedClear(fields);
    if ReportControl(rtype, fields, helpers).Some? { TitleClear(Trimmed(fields, "description")); }
    GatheredClear(helpers, "cmd");
    TypesClear(helpers);
  }

  /** Whatever the lines, a control that is read holds no line end but newlines. */
  lemma {:induction false} ParsedIsClear(lines: seq<string>, i: nat, helpers: seq<Fields>)
    requires AllSingle(lines) && forall f <- helpers :: ClearFields(f)
    ensures forall c <- Occurrences(lines, i, helpers) :: Clear(c)
    decreases |lines| - i
  {
    hide AllSingle, ClearFields, Clear, Strip, BlockFields, ItemControl, ReportControl, ReportType, Resets;
    if i < |lines| {
      if Strip(lines[i]) == ITEM {
        var (fields, end) := BlockFields(lines, i + 1, ITEM_END, map[]);
        NewFieldsClear(lines, i + 1, ITEM_END);
        BlockEnds(lines, i + 1, ITEM_END, map[]);
        ItemClear(fields);
        ParsedIsClear(lines, end + 1, if ItemControl(fields).Some? then [] else helpers + [fields]);
      } else if ReportType(lines[i]).Some? {
        var (fields, end) := BlockFields(lines, i + 1, REPORT_END, map[]);
        NewFieldsClear(lines, i + 1, REPORT_END);
        BlockEnds(lines, i + 1, REPORT_END, map[]);
        ReportClear(ReportType(lines[i]).value, fields, helpers);
        ParsedIsClear(lines, end + 1, []);
      } else {
        ParsedIsClear(lines, i + 1, if Resets(lines[i]) then [] else helpers);
      }
    }
  }

  lemma NewFieldsClear(lines: seq<string>, i: nat, close: string)
    requires AllSingle(lines)
    ensures ClearFields(BlockFields(lines, i, close, map[]).0)
  {
    BlockFieldsClear(lines, i, close, map[]);
  }

  // ---------- a line that is none ----------

  /** A plain line with line ends in it can hold whole blocks: no block defines the control, and it is
      found. */
  lemma BlocksInAPlainLine(c: Control)
    requires Printable(c) && Clear(c)
    ensures var b := Plain("x" + ("\n" + FileText(ControlBlocks([c]))));
            && Good(b) && !OnLines(b) && Defined([b], []) == []
            && Occurrences(SplitLines(FileText([b])), 0, []) == [c]
  {
    hide *;
    StartsPlain("x", FileText(ControlBlocks([c])));
    LineBeforeControl("x", c);
  }

  lemma LineBeforeControl(line: string, c: Control)
    requires Printable(c) && Clear(c) && Good(Plain(line)) && OnLines(Plain(line))
    ensures Occurrences(SplitLines(FileText([Plain(line + ("\n" + FileText(ControlBlocks([c]))))])), 0, []) == [c]
  {
    hide *;
    var more := ControlBlocks([c]);
    var all := [Plain(line)] + more;
    ControlsAreDefined([c]);
    ControlsOnLines([c]);
    PlainFirst(line, more);
    FileOfLine(line + ("\n" + FileText(more)));
    assert forall b <- all :: b == Plain(line) || b in more;
    FileRoundTrip(all);
  }

  lemma FileOfLine(line: string)
    ensures FileText([Plain(line)]) == line
  {
    assert [Plain(line)][1..] == [] && [line] + [] == [line] && FileLines([]) == [];
    assert FileLines([Plain(line)]) == [line];
  }

  lemma PlainFirst(line: string, bs: seq<Block>)
    requires bs != []
    ensures FileText([Plain(line)] + bs) == line + ("\n" + FileText(bs))
    ensures Defined([Plain(line)] + bs, []) == Defined(bs, [])
  {
    var all := [Plain(line)] + bs;
    assert all[1..] == bs;
    BlockLast(bs[0]);
    hide Defined;
    assert FileLines(all) == [line] + FileLines(bs) && ([line] + FileLines(bs))[1..] == FileLines(bs);
    assert FileLines(bs) != [];
    PlainDefines(line, bs);
    hide FileLines;
  }

  lemma PlainDefines(line: string, bs: seq<Block>)
    ensures Defined([Plain(line)] + bs, []) == Defined(bs, [])
  {
    assert ([Plain(line)] + bs)[1..] == bs;
    hide Resets;
  }

  lemma StartsPlain(line: string, rest: string)
    requires line == "x"
    ensures var b := Plain(line + ("\n" + rest)); Good(b) && !OnLines(b) && Defined([b], []) == []
    ensures Good(Plain(line)) && OnLines(Plain(line)) && !Resets(line)
  {
    var w := line + ("\n" + rest);
    assert w[0] == 'x' && w[1] == '\n';
    NotATag(w);
    NotATag(line);
    assert [Plain(w)][1..] == [];
    hide Strip, ReportType;
  }

  lemma NotAt(w: string, p: string)
    requires w != "" && p != "" && w[0] != p[0]
    ensures !Text.HasAt(w, p, 0)
  {
    if |w| >= |p| { Text.HasAtChars(w, p, 0); }
    assert |w| >= |p| ==> w[0 + 0] != p[0];
  }

  lemma NotATag(w: string)
    requires w != "" && w[0] == 'x'
    ensures Strip(w) != ITEM && ReportType(w) == None && !Resets(w)
  {
    assert SkipSpace(w, 0) == 0 && w[0..] == w;
    StripEndIsPrefix(w);
    assert Strip(w) != "" ==> Strip(w)[0] == 'x';
    NotAt(w, "<report");
    NotAt(w, "</if");
    NotAt(w, "<else");
    hide Text.HasAt, Strip;
  }
}
