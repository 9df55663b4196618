/** Parsing a whole `.audit` file: control titles, blocks, pending helper probes, and the parser's
    mutable catalogue. */
module AuditParser {
  import opened AuditControls
  import opened AuditStrings
  import opened Lines
  import opened Options
  import opened PythonText
  import opened Sequences
  import Text

  // ---------- control titles ----------

  predicate Digit(c: char) { '0' <= c <= '9' }

  function DigitsEnd(s: string, i: nat): (j: nat)
    requires i <= |s|
    ensures i <= j <= |s|
    decreases |s| - i
  {
    if i < |s| && Digit(s[i]) then DigitsEnd(s, i + 1) else i
  }

  /** The end of as many groups `.digits` as follow `i`. */
  function GroupsEnd(s: string, i: nat): (j: nat)
    requires i <= |s|
    ensures i <= j <= |s|
    decreases |s| - i
  {
    if i < |s| && s[i] == '.' && DigitsEnd(s, i + 1) > i + 1 then GroupsEnd(s, DigitsEnd(s, i + 1)) else i
  }

  /** Id and title of a control description. */
  function ControlTitle(description: string): Option<(string, string)> {
    var desc := Strip(description);
    if desc == "" || Text.Lower(desc) == "check distribution release" || "cis_ubuntu" <= Text.Lower(desc) then None
    else
      var major := DigitsEnd(desc, 0);
      var end := GroupsEnd(desc, major);
      var title := SkipSpace(desc, end);
      if 0 < major < end < title < |desc| && NoNewline(desc[title..]) then Some((desc[..end], Strip(desc[title..])))
      else None
  }

  // ---------- tags ----------

  const ITEM := "<custom_item>"
  const ITEM_END := "</custom_item>"
  const REPORT_END := "</report>"

  function QuoteEnd(s: string, i: nat): (j: nat)
    requires i <= |s|
    ensures i <= j <= |s|
    decreases |s| - i
  {
    if i < |s| && s[i] != '"' then QuoteEnd(s, i + 1) else i
  }

  /** The type of an opening report tag. */
  function ReportType(line: string): Option<string> {
    var tag := SkipSpace(line, 0);
    if !Text.HasAt(line, "<report", tag) then None
    else
      var attr := SkipSpace(line, tag + 7);
      if attr == tag + 7 || !Text.HasAt(line, "type:\"", attr) then None
      else
        var end := QuoteEnd(line, attr + 6);
        if end == attr + 6 || end == |line| then None
        else
          var close := SkipSpace(line, end + 1);
          if close < |line| && line[close] == '>' && SkipSpace(line, close + 1) == |line| then Some(line[attr + 6..end])
          else None
  }

  predicate WordChar(c: char) { 'a' <= c <= 'z' || 'A' <= c <= 'Z' || Digit(c) || c == '_' }

  predicate HasWordAt(line: string, p: string, i: nat) {
    Text.HasAt(line, p, i) && (i + |p| == |line| || !WordChar(line[i + |p|]))
  }

  /** A tag behind which earlier helper probes no longer count. */
  predicate Resets(line: string) {
    HasWordAt(line, "</if", SkipSpace(line, 0)) || HasWordAt(line, "<else", SkipSpace(line, 0))
  }

  // ---------- controls of blocks ----------

  function Lookup(fields: Fields, key: string): string { if key in fields then fields[key] else "" }

  function Trimmed(fields: Fields, key: string): string { Strip(Lookup(fields, key)) }

  function ItemControl(fields: Fields): Option<Control> {
    match ControlTitle(Trimmed(fields, "description"))
    case None => None
    case Some((id, title)) =>
      Some(Control(id, title, Trimmed(fields, "type"), Trimmed(fields, "info"), Trimmed(fields, "solution"),
                   Trimmed(fields, "expect"), if Lookup(fields, "cmd") == "" then [] else [Trimmed(fields, "cmd")],
                   Trimmed(fields, "file"), Trimmed(fields, "regex"), Trimmed(fields, "reference"),
                   Trimmed(fields, "see_also")))
  }

  /** The stripped, originally non-empty values of `key` in the helpers. */
  function Gathered(helpers: seq<Fields>, key: string): seq<string> {
    if helpers == [] then []
    else Gathered(helpers[..|helpers| - 1], key)
         + if Lookup(helpers[|helpers| - 1], key) == "" then [] else [Trimmed(helpers[|helpers| - 1], key)]
  }

  function Distinct(s: seq<string>): seq<string> {
    if s == [] then []
    else
      var front := Distinct(s[..|s| - 1]);
      if s[|s| - 1] in front then front else front + [s[|s| - 1]]
  }

  function JoinPlus(s: seq<string>): string {
    if s == [] then "" else if |s| == 1 then s[0] else JoinPlus(s[..|s| - 1]) + ("+" + s[|s| - 1])
  }

  function ReportControl(rtype: string, fields: Fields, helpers: seq<Fields>): Option<Control> {
    match ControlTitle(Trimmed(fields, "description"))
    case None => None
    case Some((id, title)) =>
      if rtype !in {"PASSED", "FAILED", "WARNING"} then None
      else
        var types := JoinPlus(Distinct(Gathered(helpers, "type")));
        Some(Control(id, title, if types == "" then "COMPOSITE" else types, Trimmed(fields, "info"),
                     Trimmed(fields, "solution"), "composite: all condition checks must pass",
                     Gathered(helpers, "cmd"), "", "", Trimmed(fields, "reference"), Trimmed(fields, "see_also")))
  }

  // ---------- the walk over the lines ----------

  function Listed(c: Option<Control>): seq<Control> { if c.Some? then [c.value] else [] }

  lemma BlockEnds(lines: seq<string>, i: nat, close: string, fields: Fields)
    ensures i <= BlockFields(lines, i, close, fields).1
    decreases |lines| - i
  {
    hide Strip, ReadValue, FieldOf;
    if i < |lines| && Strip(lines[i]) != close {
      match FieldOf(lines[i])
      case None => BlockEnds(lines, i + 1, close, fields);
      case Some((key, rest)) =>
        var read := ReadValue(rest, lines, i);
        BlockEnds(lines, read.1 + 1, close, fields[key := read.0]);
    }
  }

  /** Every control the lines from `i` on define, in order; `helpers` are the probes still waiting
      for a report. */
  function Occurrences(lines: seq<string>, i: nat, helpers: seq<Fields>): seq<Control>
    decreases |lines| - i
  {
    if i >= |lines| then []
    else if Strip(lines[i]) == ITEM then
      var (fields, end) := BlockFields(lines, i + 1, ITEM_END, map[]);
      BlockEnds(lines, i + 1, ITEM_END, map[]);
      var c := ItemControl(fields);
      Listed(c) + Occurrences(lines, end + 1, if c.Some? then [] else helpers + [fields])
    else match ReportType(lines[i])
      case Some(rtype) =>
        var (fields, end) := BlockFields(lines, i + 1, REPORT_END, map[]);
        BlockEnds(lines, i + 1, REPORT_END, map[]);
        Listed(ReportControl(rtype, fields, helpers)) + Occurrences(lines, end + 1, [])
      case None => Occurrences(lines, i + 1, if Resets(lines[i]) then [] else helpers)
  }

  // ---------- the parser's state ----------

  /** A control as the parser keeps it: its fields are updated in place. */
  class Record {
    const id: string
    var title: string
    var checkType: string
    var info: string
    var solution: string
    var expected: string
    var cmds: seq<string>
    var file: string
    var regex: string
    var reference: string
    var seeAlso: string

    constructor (c: Control)
      ensures Value() == c && id == c.id
    {
      id, title, checkType, info, solution := c.id, c.title, c.checkType, c.info, c.solution;
      expected, cmds, file, regex, reference := c.expected, c.cmds, c.file, c.regex, c.reference;
      seeAlso := c.seeAlso;
    }

    function Value(): Control
      reads this
    {
      Control(id, title, checkType, info, solution, expected, cmds, file, regex, reference, seeAlso)
    }

    /** The merging half of `upsert`. */
    method Absorb(c: Control)
      modifies this
      ensures Value() == Merge(old(Value()), c)
    {
      AbsorbTexts(c);
      AbsorbLinks(c);
      AbsorbProbe(c);
      AbsorbCommands(c.cmds);
    }

    method AbsorbTexts(c: Control)
      modifies `title, `info, `solution
      ensures title == Longer(old(title), c.title)
      ensures info == Longer(old(info), c.info)
      ensures solution == Longer(old(solution), c.solution)
    {
      if |c.title| > |title| { title := c.title; }
      if c.info != "" && |c.info| > |info| { info := c.info; }
      if c.solution != "" && |c.solution| > |solution| { solution := c.solution; }
    }

    method AbsorbLinks(c: Control)
      modifies `expected, `reference, `seeAlso
      ensures expected == Given(old(expected), c.expected)
      ensures reference == Given(old(reference), c.reference)
      ensures seeAlso == Given(old(seeAlso), c.seeAlso)
    {
      if c.expected != "" && expected == "" { expected := c.expected; }
      if c.reference != "" && reference == "" { reference := c.reference; }
      if c.seeAlso != "" && seeAlso == "" { seeAlso := c.seeAlso; }
    }

    method AbsorbProbe(c: Control)
      modifies `checkType, `file, `regex
      ensures checkType == Given(old(checkType), c.checkType)
      ensures file == Given(old(file), c.file)
      ensures regex == Given(old(regex), c.regex)
    {
      if c.checkType != "" && checkType == "" { checkType := c.checkType; }
      if c.file != "" && file == "" { file := c.file; }
      if c.regex != "" && regex == "" { regex := c.regex; }
    }

    method AbsorbCommands(more: seq<string>)
      modifies `cmds
      ensures cmds == AddCmds(old(cmds), more)
    {
      assert more[..0] == [];
      for n := 0 to |more|
        invariant cmds == AddCmds(old(cmds), more[..n])
      {
        assert more[..n + 1][..n] == more[..n];
        if more[n] != "" && more[n] !in cmds { cmds := cmds + [more[n]]; }
      }
      assert more[..|more|] == more;
    }
  }

  lemma UpsertListed(ks: seq<Control>, c: Option<Control>)
    ensures UpsertAll(ks + Listed(c)) == if c.Some? then Upsert(UpsertAll(ks), c.value) else UpsertAll(ks)
  {
    if c.Some? {
      assert (ks + Listed(c))[..|ks|] == ks;
    } else {
      assert ks + Listed(c) == ks;
    }
  }

  class Parser {
    var controls: map<string, Record>
    var order: seq<string>
    ghost var repr: set<Record>

    ghost predicate Valid()
      reads this, repr
    {
      && (forall k :: k in controls ==> controls[k] in repr)
      && (forall k, l :: k in controls && l in controls && k != l ==> controls[k] != controls[l])
      && (forall k :: k in order <==> k in controls)
      && (forall k :: k in controls ==> controls[k].id == k)
    }

    ghost function View(): Catalog
      requires Valid()
      reads this, repr
    {
      Catalog(map k | k in controls :: controls[k].Value(), order)
    }

    constructor ()
      ensures Valid() && View() == UpsertAll([])
      ensures fresh(repr)
    {
      controls, order, repr := map[], [], {};
    }

    method UpsertControl(c: Control)
      requires Valid()
      modifies this, repr
      ensures Valid() && View() == Upsert(old(View()), c)
      ensures fresh(repr - old(repr))
    {
      if c.id !in controls {
        Insert(c);
      } else {
        hide Merge, Record.Value;
        var existing := controls[c.id];
        existing.Absorb(c);
      }
    }

    /** The controls in first-seen order. */
    method Listing() returns (rs: seq<Record>)
      requires Valid()
      ensures |rs| == |View().order|
      ensures forall n :: 0 <= n < |rs| ==> rs[n].Value() == View().controls[View().order[n]]
    {
      rs := seq(|order|, n requires 0 <= n < |order| && order[n] in controls reads this => controls[order[n]]);
    }

    method Insert(c: Control)
      requires Valid() && c.id !in controls
      modifies this
      ensures Valid() && View() == Upsert(old(View()), c)
      ensures fresh(repr - old(repr))
    {
      var r := new Record(c);
      hide Record.Value, Merge;
      controls, order, repr := controls[c.id := r], order + [c.id], repr + {r};
    }

    method UpsertAny(c: Option<Control>, ghost ks: seq<Control>)
      requires Valid() && View() == UpsertAll(ks)
      modifies this, repr
      ensures Valid() && View() == UpsertAll(ks + Listed(c))
      ensures fresh(repr - old(repr))
    {
      UpsertListed(ks, c);
      hide *;
      if c.Some? { UpsertControl(c.value); }
    }
  }

  // ---------- parsing ----------

  method GatherHelpers(helpers: seq<Fields>) returns (cmds: seq<string>, types: seq<string>)
    ensures cmds == Gathered(helpers, "cmd") && types == Gathered(helpers, "type")
  {
    hide Strip;
    cmds, types := [], [];
    assert helpers[..0] == [];
    for n := 0 to |helpers|
      invariant cmds == Gathered(helpers[..n], "cmd") && types == Gathered(helpers[..n], "type")
    {
      assert helpers[..n + 1][..n] == helpers[..n];
      var helper := helpers[n];
      if Lookup(helper, "cmd") != "" { cmds := cmds + [Strip(Lookup(helper, "cmd"))]; }
      if Lookup(helper, "type") != "" { types := types + [Strip(Lookup(helper, "type"))]; }
    }
    assert helpers[..|helpers|] == helpers;
  }

  /** Fields of `c` from an item block, if its description names a control. */
  method ReadItem(fields: Fields) returns (c: Option<Control>)
    ensures c == ItemControl(fields)
  {
    hide Strip, ControlTitle;
    match ControlTitle(Trimmed(fields, "description")) {
      case None => return None;
      case Some((id, title)) =>
        var cmds := [];
        if Lookup(fields, "cmd") != "" { cmds := [Strip(fields["cmd"])]; }
        return Some(Control(id, title, Trimmed(fields, "type"), Trimmed(fields, "info"), Trimmed(fields, "solution"),
                            Trimmed(fields, "expect"), cmds, Trimmed(fields, "file"), Trimmed(fields, "regex"),
                            Trimmed(fields, "reference"), Trimmed(fields, "see_also")));
    }
  }

  method ReadReport(rtype: string, fields: Fields, helpers: seq<Fields>) returns (c: Option<Control>)
    ensures c == ReportControl(rtype, fields, helpers)
  {
    hide Gathered, Distinct, JoinPlus, Strip, ControlTitle;
    match ControlTitle(Trimmed(fields, "description")) {
      case None => return None;
      case Some((id, title)) =>
        if rtype !in {"PASSED", "FAILED", "WARNING"} { return None; }
        var cmds, types := GatherHelpers(helpers);
        var joined := JoinPlus(Distinct(types));
        return Some(Control(id, title, if joined == "" then "COMPOSITE" else joined, Trimmed(fields, "info"),
                            Trimmed(fields, "solution"), "composite: all condition checks must pass", cmds, "", "",
                            Trimmed(fields, "reference"), Trimmed(fields, "see_also")));
    }
  }

  lemma ItemStep(lines: seq<string>, i: nat, helpers: seq<Fields>, fields: Fields, end: nat, next: seq<Fields>)
    requires i < |lines| && Strip(lines[i]) == ITEM && (fields, end) == BlockFields(lines, i + 1, ITEM_END, map[])
    requires next == if ItemControl(fields).Some? then [] else helpers + [fields]
    ensures i < end && Occurrences(lines, i, helpers) == Listed(ItemControl(fields)) + Occurrences(lines, end + 1, next)
  {
    hide Strip, BlockFields, ItemControl, ReportControl, ReportType, Resets, Listed, ITEM, ITEM_END, REPORT_END;
    BlockEnds(lines, i + 1, ITEM_END, map[]);
  }

  lemma ReportStep(lines: seq<string>, i: nat, helpers: seq<Fields>, rtype: string, fields: Fields, end: nat)
    requires i < |lines| && Strip(lines[i]) != ITEM && ReportType(lines[i]) == Some(rtype)
    requires (fields, end) == BlockFields(lines, i + 1, REPORT_END, map[])
    ensures i < end
    ensures Occurrences(lines, i, helpers)
            == Listed(ReportControl(rtype, fields, helpers)) + Occurrences(lines, end + 1, [])
  {
    hide Strip, BlockFields, ReportType, ReportControl;
    BlockEnds(lines, i + 1, REPORT_END, map[]);
  }

  lemma PlainStep(lines: seq<string>, i: nat, helpers: seq<Fields>)
    requires i < |lines| && Strip(lines[i]) != ITEM && ReportType(lines[i]) == None
    ensures Occurrences(lines, i, helpers) == Occurrences(lines, i + 1, if Resets(lines[i]) then [] else helpers)
  {
    hide Strip, ReportType, Resets;
  }

  /** One turn of the walk: the control that starts on line `i`, if any, the next line, and the
      helpers waiting there. */
  method ReadNext(lines: seq<string>, i: nat, helpers: seq<Fields>)
    returns (c: Option<Control>, i': nat, helpers': seq<Fields>)
    requires i < |lines| && AreLines(lines)
    ensures i < i' && Occurrences(lines, i, helpers) == Listed(c) + Occurrences(lines, i', helpers')
  {
    hide *;
    c := None;
    if Strip(lines[i]) == ITEM {
      var fields, end := ParseBlockFields(lines, i + 1, ITEM_END);
      c := ReadItem(fields);
      helpers' := if c.Some? then [] else helpers + [fields];
      ItemStep(lines, i, helpers, fields, end, helpers');
      return c, end + 1, helpers';
    }
    var rtype := ReportType(lines[i]);
    if rtype.Some? {
      var fields, end := ParseBlockFields(lines, i + 1, REPORT_END);
      ReportStep(lines, i, helpers, rtype.value, fields, end);
      c := ReadReport(rtype.value, fields, helpers);
      return c, end + 1, [];
    }
    PlainStep(lines, i, helpers);
    NothingListed(Occurrences(lines, i, helpers));
    return None, i + 1, if Resets(lines[i]) then [] else helpers;
  }

  lemma NothingListed(s: seq<Control>)
    ensures Listed(None) + s == s
  {
  }

  /** MAIN: the parser's catalogue is the merge of every control the file defines, for every text. */
  method ParseAudit(text: string) returns (p: Parser)
    ensures fresh(p) && p.Valid() && p.View() == UpsertAll(Occurrences(SplitLines(text), 0, []))
  {
    var lines := SplitLines(text);
    LinesAreLines(text);
    p := new Parser();
    var i, helpers := 0, [];
    ghost var ks := [];
    assert [] + Occurrences(lines, 0, []) == Occurrences(lines, 0, []);
    hide *;
    while i < |lines|
      invariant fresh(p) && fresh(p.repr) && p.Valid() && p.View() == UpsertAll(ks)
      invariant ks + Occurrences(lines, i, helpers) == Occurrences(lines, 0, [])
      decreases |lines| - i
    {
      var c, i', helpers' := ReadNext(lines, i, helpers);
      p.UpsertAny(c, ks);
      Associate(ks, Listed(c), Occurrences(lines, i', helpers'));
      ks, i, helpers := ks + Listed(c), i', helpers';
    }
    NothingLeft(lines, i, helpers);
    assert ks + [] == ks;
  }

  lemma LinesAreLines(text: string)
    ensures AreLines(SplitLines(text))
  {
    var ls := SplitLines(text);
    assert forall i :: 0 <= i < |ls| ==> ls[i] in ls;
  }

  lemma NothingLeft(lines: seq<string>, i: nat, helpers: seq<Fields>)
    requires i >= |lines|
    ensures Occurrences(lines, i, helpers) == []
  {
  }
}
