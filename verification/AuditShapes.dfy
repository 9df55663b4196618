/** What the lines and texts of an audit file look like, for every text: titles, fields, report tags, values
    without quotes, and escapes. */
module AuditShapes {
  import opened AuditParser
  import opened AuditStrings
  import opened Options
  import opened PythonText
  import Text

  predicate White(s: string, i: nat, j: nat) { i <= j <= |s| && forall k :: i <= k < j ==> IsSpace(s[k]) }

  predicate WordAt(line: string, word: string, k: nat) { k + |word| <= |line| && line[k..k + |word|] == word }

  lemma SkipTo(s: string, i: nat, j: nat)
    requires White(s, i, j) && (j < |s| ==> !IsSpace(s[j]))
    ensures SkipSpace(s, i) == j
  {
    hide SkipSpace, IsSpace;
    var e := SkipSpace(s, i);
  }

  // ---------- titles ----------

  predicate NumberChar(c: char) { '0' <= c <= '9' || c == '.' }

  /** From `i` to `j` stand digits and dots, no dot at the end and no two side by side. */
  predicate GroupsAt(s: string, i: nat, j: nat) {
    && i <= j <= |s| && (forall k :: i <= k < j ==> NumberChar(s[k])) && (i < j ==> s[j - 1] != '.')
    && forall k :: i < k < j ==> s[k - 1] != '.' || s[k] != '.'
  }

  /** The first `a` characters are a dotted number. */
  predicate NumberAt(s: string, a: nat) { 0 < a && GroupsAt(s, 0, a) && s[0] != '.' && exists k :: 0 <= k < a && s[k] == '.' }

  /** A dotted number up to `a`, white space up to `b`, and a title on one line. */
  predicate TitleAt(s: string, a: nat, b: nat) {
    NumberAt(s, a) && a < b < |s| && White(s, a, b) && !IsSpace(s[b]) && '\n' !in s[b..]
  }

  predicate TitleReads(s: string, id: string, title: string, a: nat, b: nat) {
    TitleAt(s, a, b) && id == s[..a] && title == s[b..]
  }

  /** The text, stripped, is such a number with a title. */
  ghost predicate IsTitle(text: string, id: string, title: string) {
    var s := Strip(text);
    exists a: nat, b: nat :: TitleReads(s, id, title, a, b)
  }

  lemma {:induction false} DigitsStop(s: string, i: nat)
    requires i <= |s|
    ensures var e := DigitsEnd(s, i); (forall k :: i <= k < e ==> '0' <= s[k] <= '9') && (e < |s| ==> !('0' <= s[e] <= '9'))
    decreases |s| - i
  {
    if i < |s| && '0' <= s[i] <= '9' { DigitsStop(s, i + 1); }
  }

  /** The groups that are skipped are groups. */
  lemma {:induction false} GroupsStop(s: string, i: nat)
    requires i <= |s|
    ensures var e := GroupsEnd(s, i); GroupsAt(s, i, e) && (i < e ==> s[i] == '.')
    decreases |s| - i
  {
    if i < |s| && s[i] == '.' && DigitsEnd(s, i + 1) > i + 1 {
      DigitsStop(s, i + 1);
      hide DigitsEnd;
      GroupsStop(s, DigitsEnd(s, i + 1));
    }
  }

  /** And they are skipped to their end. */
  lemma {:induction false} GroupsReach(s: string, i: nat, a: nat)
    requires GroupsAt(s, i, a) && (i < a ==> s[i] == '.') && (a < |s| ==> !NumberChar(s[a]))
    ensures GroupsEnd(s, i) == a
    decreases a - i
  {
    if i < a {
      DigitsStop(s, i + 1);
      hide DigitsEnd;
      GroupsReach(s, DigitsEnd(s, i + 1), a);
    }
  }

  lemma {:induction false} StripEndsBare(s: string)
    ensures StripEnd(s) != "" ==> !IsSpace(StripEnd(s)[|StripEnd(s)| - 1])
  {
    if s != "" && IsSpace(s[|s| - 1]) { StripEndsBare(s[..|s| - 1]); }
  }

  lemma StrippedEnd(text: string)
    ensures var s := Strip(text); s != "" ==> !IsSpace(s[|s| - 1])
  {
    StripEndsBare(text[SkipSpace(text, 0)..]);
    hide StripEnd, SkipSpace, IsSpace;
  }

  lemma TitleFound(s: string, a: nat, b: nat)
    requires TitleAt(s, a, b)
    ensures var major := DigitsEnd(s, 0); 0 < major < a && GroupsEnd(s, major) == a && SkipSpace(s, a) == b
  {
    DigitsStop(s, 0);
    var k :| 0 <= k < a && s[k] == '.';
    SpacesAreNoNumbers(s[a]);
    hide DigitsEnd, GroupsEnd, SkipSpace, IsSpace;
    SkipTo(s, a, b);
    GroupsReach(s, DigitsEnd(s, 0), a);
  }

  lemma SpacesAreNoNumbers(c: char)
    ensures IsSpace(c) ==> !NumberChar(c)
  {
  }

  lemma TitleShows(s: string)
    requires var major := DigitsEnd(s, 0); var end := GroupsEnd(s, major); var b := SkipSpace(s, end);
             0 < major < end < b < |s| && '\n' !in s[b..]
    ensures TitleAt(s, GroupsEnd(s, DigitsEnd(s, 0)), SkipSpace(s, GroupsEnd(s, DigitsEnd(s, 0))))
  {
    hide DigitsEnd, GroupsEnd, SkipSpace, IsSpace;
    var major := DigitsEnd(s, 0);
    DigitsStop(s, 0);
    GroupsStop(s, major);
    NumberShows(s, major, GroupsEnd(s, major));
  }

  lemma NumberShows(s: string, major: nat, a: nat)
    requires 0 < major < a && GroupsAt(s, major, a) && s[major] == '.' && forall k :: 0 <= k < major ==> '0' <= s[k] <= '9'
    ensures NumberAt(s, a)
  {
  }

  lemma NumbersAreNoWords(s: string, first: string, second: string)
    requires s != "" && '0' <= s[0] <= '9' && first != "" && second != "" && first[0] == 'c' && second[0] == 'c'
    ensures Text.Lower(s) != first && !(second <= Text.Lower(s))
  {
    assert Text.Lower(s)[0] == s[0];
  }

  /** MAIN: a description is a control's exactly if it is a dotted number with a title behind it. */
  lemma TitleIs(text: string, id: string, title: string)
    ensures ControlTitle(text) == Some((id, title)) <==> IsTitle(text, id, title)
  {
    hide ControlTitle, TitleReads, Strip;
    if IsTitle(text, id, title) {
      var a: nat, b: nat :| TitleReads(Strip(text), id, title, a, b);
      TitleIsFound(text, id, title, a, b);
    }
    if ControlTitle(text).Some? { TitleIsThere(text); }
  }

  lemma TitleIsFound(text: string, id: string, title: string, a: nat, b: nat)
    requires TitleReads(Strip(text), id, title, a, b)
    ensures ControlTitle(text) == Some((id, title))
  {
    var s := Strip(text);
    StrippedEnd(text);
    hide Strip, DigitsEnd, GroupsEnd, SkipSpace, IsSpace, Text.Lower, TitleAt;
    TitleFound(s, a, b);
    StartsWithDigit(s, a, b);
    NumbersAreNoWords(s, "check distribution release", "cis_ubuntu");
    TitleStands(s, a, b);
  }

  lemma TitleIsThere(text: string)
    requires ControlTitle(text).Some?
    ensures IsTitle(text, ControlTitle(text).value.0, ControlTitle(text).value.1)
  {
    var s := Strip(text);
    StrippedEnd(text);
    hide Strip, DigitsEnd, GroupsEnd, SkipSpace, IsSpace, Text.Lower, TitleAt;
    TitleShows(s);
    var a, b := GroupsEnd(s, DigitsEnd(s, 0)), SkipSpace(s, GroupsEnd(s, DigitsEnd(s, 0)));
    TitleStands(s, a, b);
    assert TitleReads(s, s[..a], s[b..], a, b);
  }

  lemma StartsWithDigit(s: string, a: nat, b: nat)
    requires TitleAt(s, a, b)
    ensures a < b < |s| && '0' <= s[0] <= '9' && '\n' !in s[b..]
  {
    hide IsSpace;
  }

  lemma TitleStands(s: string, a: nat, b: nat)
    requires TitleAt(s, a, b) && !IsSpace(s[|s| - 1])
    ensures b < |s| && Strip(s[b..]) == s[b..]
  {
    hide IsSpace, Strip;
    Bare(s[b..]);
  }

  // ---------- fields ----------

  const KEY_CHARS := "abcdefghijklmnopqrstuvwxyz_"

  lemma KeyCharIs(c: char)
    ensures KeyChar(c) <==> c in KEY_CHARS
  {
    if 'a' <= c <= 'z' { assert KEY_CHARS[c as int - 'a' as int] == c; }
    assert KEY_CHARS[26] == '_';
  }

  /** A key up to `b`, a colon at `c`, and the value from `d` on, with white space or none between. */
  predicate FieldAt(line: string, a: nat, b: nat, c: nat, d: nat) {
    && White(line, 0, a) && a < b <= |line| && (forall k :: a <= k < b ==> line[k] in KEY_CHARS)
    && White(line, b, c) && c < |line| && line[c] == ':' && White(line, c + 1, d) && (d < |line| ==> !IsSpace(line[d]))
  }

  predicate FieldReads(line: string, key: string, value: string, a: nat, b: nat, c: nat, d: nat) {
    FieldAt(line, a, b, c, d) && key == line[a..b] && value == line[d..]
  }

  lemma KeyTo(s: string, i: nat, j: nat)
    requires i <= j < |s| && (forall k :: i <= k < j ==> s[k] in KEY_CHARS) && s[j] !in KEY_CHARS
    ensures KeyEnd(s, i) == j
  {
    hide KEY_CHARS, KeyChar;
    forall c ensures KeyChar(c) <==> c in KEY_CHARS { KeyCharIs(c); }
    KeyIs(s, i, j);
  }

  lemma NotBoth(c: char)
    ensures c in KEY_CHARS ==> !IsSpace(c)
    ensures IsSpace(c) || c == ':' ==> c !in KEY_CHARS
    ensures c == ':' ==> !IsSpace(c)
  {
    KeyCharIs(c);
    hide KEY_CHARS;
  }

  lemma FieldParts(line: string, a: nat, b: nat, c: nat, d: nat)
    requires FieldAt(line, a, b, c, d)
    ensures SkipSpace(line, 0) == a && KeyEnd(line, a) == b && SkipSpace(line, b) == c && SkipSpace(line, c + 1) == d
  {
    NotBoth(line[a]);
    NotBoth(line[b]);
    NotBoth(line[c]);
    hide KEY_CHARS, IsSpace, SkipSpace, KeyEnd;
    SkipTo(line, 0, a);
    KeyTo(line, a, b);
    SkipTo(line, b, c);
    SkipTo(line, c + 1, d);
  }

  /** MAIN: exactly which lines hold a field, and what its key and its raw value are. */
  lemma FieldIs(line: string, key: string, value: string)
    ensures FieldOf(line) == Some((key, value)) <==>
            exists a: nat, b: nat, c: nat, d: nat :: FieldReads(line, key, value, a, b, c, d)
  {
    hide KEY_CHARS, IsSpace, KeyChar, FieldAt;
    if a: nat, b: nat, c: nat, d: nat :| FieldReads(line, key, value, a, b, c, d) {
      FieldParts(line, a, b, c, d);
      FieldFits(line, a, b, c, d);
      hide SkipSpace, KeyEnd;
    }
    if FieldOf(line).Some? { FieldShows(line); }
  }

  lemma FieldFits(line: string, a: nat, b: nat, c: nat, d: nat)
    requires FieldAt(line, a, b, c, d)
    ensures a < b <= c < d <= |line| && line[c] == ':'
  {
    hide KEY_CHARS, IsSpace;
  }

  lemma FieldShows(line: string)
    requires FieldOf(line).Some?
    ensures exists a: nat, b: nat, c: nat, d: nat :: FieldReads(line, FieldOf(line).value.0, FieldOf(line).value.1, a, b, c, d)
  {
    hide KEY_CHARS, IsSpace, KeyChar, SkipSpace, KeyEnd;
    forall c ensures KeyChar(c) <==> c in KEY_CHARS { KeyCharIs(c); }
    var a := SkipSpace(line, 0);
    var b := KeyEnd(line, a);
    var c := SkipSpace(line, b);
    assert FieldReads(line, line[a..b], line[SkipSpace(line, c + 1)..], a, b, c, SkipSpace(line, c + 1));
  }

  // ---------- report tags ----------

  /** `<report` at `a`, `type:` and a quote at `b`, the closing quote at `c` and `>` at `d`, with nothing
      but white space before, between and behind, and some before `type:`. */
  predicate ReportTagAt(line: string, a: nat, b: nat, c: nat, d: nat) {
    && White(line, 0, a) && WordAt(line, "<report", a) && a + 7 < b && White(line, a + 7, b) && WordAt(line, "type:\"", b)
    && b + 6 < c < |line| && '"' !in line[b + 6..c] && line[c] == '"'
    && White(line, c + 1, d) && d < |line| && line[d] == '>' && White(line, d + 1, |line|)
  }

  predicate ReportTagReads(line: string, rtype: string, a: nat, b: nat, c: nat, d: nat) {
    ReportTagAt(line, a, b, c, d) && rtype == line[b + 6..c]
  }

  lemma TagParts(line: string, a: nat, b: nat, c: nat, d: nat)
    requires ReportTagAt(line, a, b, c, d)
    ensures SkipSpace(line, 0) == a && SkipSpace(line, a + 7) == b && QuoteEnd(line, b + 6) == c
    ensures SkipSpace(line, c + 1) == d && SkipSpace(line, d + 1) == |line|
    ensures Text.HasAt(line, "<report", a) && Text.HasAt(line, "type:\"", b)
  {
    hide SkipSpace, QuoteEnd;
    TagStarts(line, a, b, c, d, "<report", "type:\"");
    TagEnds(line, a, b, c, d);
  }

  lemma TagStarts(line: string, a: nat, b: nat, c: nat, d: nat, open: string, field: string)
    requires ReportTagAt(line, a, b, c, d) && open == "<report" && field == "type:\""
    ensures SkipSpace(line, 0) == a && SkipSpace(line, a + 7) == b
    ensures Text.HasAt(line, open, a) && Text.HasAt(line, field, b)
  {
    hide SkipSpace, QuoteEnd;
    assert line[a] == line[a..a + 7][0] == '<';
    assert line[b] == line[b..b + 6][0] == 't';
    SkipTo(line, 0, a);
    SkipTo(line, a + 7, b);
  }

  lemma TagEnds(line: string, a: nat, b: nat, c: nat, d: nat)
    requires ReportTagAt(line, a, b, c, d)
    ensures QuoteEnd(line, b + 6) == c && SkipSpace(line, c + 1) == d && SkipSpace(line, d + 1) == |line|
  {
    hide SkipSpace, QuoteEnd, WordAt;
    assert forall k :: b + 6 <= k < c ==> line[k] == line[b + 6..c][k - (b + 6)];
    QuoteStops(line, b + 6);
    SkipTo(line, c + 1, d);
    SkipTo(line, d + 1, |line|);
  }

  lemma {:induction false} QuoteStops(s: string, i: nat)
    requires i <= |s|
    ensures var e := QuoteEnd(s, i); (forall k :: i <= k < e ==> s[k] != '"') && (e < |s| ==> s[e] == '"')
    decreases |s| - i
  {
    if i < |s| && s[i] != '"' { QuoteStops(s, i + 1); }
  }

  /** MAIN: exactly which lines open a report, and of which type. */
  lemma ReportTagIs(line: string, rtype: string)
    ensures ReportType(line) == Some(rtype) <==> exists a: nat, b: nat, c: nat, d: nat :: ReportTagReads(line, rtype, a, b, c, d)
  {
    hide ReportTagAt, SkipSpace, QuoteEnd;
    if a: nat, b: nat, c: nat, d: nat :| ReportTagReads(line, rtype, a, b, c, d) {
      TagParts(line, a, b, c, d);
      TagFits(line, a, b, c, d);
      TagIs(line, a, b, c, d);
    }
    if ReportType(line).Some? { TagShows(line); }
  }

  lemma TagFits(line: string, a: nat, b: nat, c: nat, d: nat)
    requires ReportTagAt(line, a, b, c, d)
    ensures a + 7 < b && b + 6 < c < d < |line| && line[d] == '>'
  {
    hide IsSpace, WordAt;
  }

  lemma TagIs(line: string, a: nat, b: nat, c: nat, d: nat)
    requires a + 7 < b && b + 6 < c < d < |line| && line[d] == '>'
    requires SkipSpace(line, 0) == a && SkipSpace(line, a + 7) == b && QuoteEnd(line, b + 6) == c
    requires SkipSpace(line, c + 1) == d && SkipSpace(line, d + 1) == |line|
    requires Text.HasAt(line, "<report", a) && Text.HasAt(line, "type:\"", b)
    ensures ReportType(line) == Some(line[b + 6..c])
  {
    hide SkipSpace, QuoteEnd, Text.HasAt;
  }

  lemma TagShows(line: string)
    requires ReportType(line).Some?
    ensures exists a: nat, b: nat, c: nat, d: nat :: ReportTagReads(line, ReportType(line).value, a, b, c, d)
  {
    hide SkipSpace, QuoteEnd, IsSpace;
    var a := SkipSpace(line, 0);
    var b := SkipSpace(line, a + 7);
    var c := QuoteEnd(line, b + 6);
    QuoteStops(line, b + 6);
    assert ReportTagReads(line, line[b + 6..c], a, b, c, SkipSpace(line, c + 1));
  }

  // ---------- values ----------

  function Quotes(n: nat): string { if n == 0 then "" else Quotes(n - 1) + "\"" }

  lemma {:induction false} QuotesStripped(s: string, n: nat)
    requires s != "" && s[0] != '"' && s[|s| - 1] != '"'
    ensures StripQuotes(s + Quotes(n)) == s
  {
    if n == 0 {
      assert s + Quotes(n) == s;
    } else {
      var t := s + Quotes(n);
      assert t[|t| - 1] == '"' && t[0] == s[0] && t[..|t| - 1] == s + Quotes(n - 1);
      QuotesStripped(s, n - 1);
    }
  }

  /** A value without an opening quote is read as it stands, without white space at its ends and quotes
      behind it. */
  lemma BareValue(s: string, n: nat, lines: seq<string>, i: nat)
    requires i < |lines| && s != "" && s[0] != '"' && s[|s| - 1] != '"' && !IsSpace(s[0]) && !IsSpace(s[|s| - 1])
    ensures ReadValue(s + Quotes(n), lines, i) == (s, i)
  {
    var t := s + Quotes(n);
    QuotesStripped(s, n);
    QuotesEnd(s, n);
    Bare(t);
    hide Strip, StripQuotes, Joined, Quotes;
  }

  lemma QuotesEnd(s: string, n: nat)
    requires s != "" && !IsSpace(s[|s| - 1])
    ensures var t := s + Quotes(n); t != "" && t[0] == s[0] && !IsSpace(t[|t| - 1])
  {
  }

  /** A backslash stands for a newline before `n`, for a tab before `t`, and otherwise for nothing but the
      character behind it; a last one stands for itself. */
  lemma EscapesAre(c: char, s: string)
    ensures Unescape(['\\', c] + s) == [if c == 'n' then '\n' else if c == 't' then '\t' else c] + Unescape(s)
    ensures c != '\\' ==> Unescape([c] + s) == [c] + Unescape(s)
    ensures Unescape("\\") == "\\"
  {
    assert (['\\', c] + s)[2..] == s && ([c] + s)[1..] == s && "\\"[1..] == "";
  }

  // ---------- blocks ----------

  /** A line of a block: a printed entry, or one without a field. */
  datatype BodyLine = Field(entry: Entry) | Stray(line: string)

  ghost predicate BodyLineIs(line: string, b: BodyLine, close: string) {
    match b
    case Field(e) => line == EntryLine(e) && e.key != "" && forall k :: 0 <= k < |e.key| ==> e.key[k] in KEY_CHARS
    case Stray(l) => line == l && Strip(l) != close && forall a: nat, b: nat, c: nat, d: nat :: !FieldAt(l, a, b, c, d)
  }

  /** The lines from `i` on are these, up to the closing line or the end of the file. */
  ghost predicate BodyAt(lines: seq<string>, i: nat, body: seq<BodyLine>, close: string) {
    && i + |body| <= |lines| && (forall k :: 0 <= k < |body| ==> BodyLineIs(lines[i + k], body[k], close))
    && (i + |body| < |lines| ==> Strip(lines[i + |body|]) == close)
  }

  function EntriesOf(body: seq<BodyLine>): seq<Entry> {
    if body == [] then [] else (match body[0] case Field(e) => [e] case Stray(_) => []) + EntriesOf(body[1..])
  }

  lemma NoField(line: string)
    requires forall a: nat, b: nat, c: nat, d: nat :: !FieldAt(line, a, b, c, d)
    ensures FieldOf(line) == None
  {
    hide FieldAt, FieldOf;
    match FieldOf(line)
    case None =>
    case Some((key, value)) => FieldIs(line, key, value);
  }

  lemma StrayStep(lines: seq<string>, i: nat, close: string, fields: Fields)
    requires i < |lines| && Strip(lines[i]) != close && FieldOf(lines[i]) == None
    ensures BlockFields(lines, i, close, fields) == BlockFields(lines, i + 1, close, fields)
  {
    hide Strip, FieldOf, ReadValue;
  }

  lemma BodyEnds(lines: seq<string>, i: nat, close: string, fields: Fields)
    requires i == |lines| || (i < |lines| && Strip(lines[i]) == close)
    ensures BlockFields(lines, i, close, fields) == (fields, i)
  {
    hide Strip, FieldOf, ReadValue;
  }

  lemma LettersAreGood(key: string)
    requires key != "" && forall k :: 0 <= k < |key| ==> key[k] in KEY_CHARS
    ensures GoodKey(key)
  {
    hide KeyChar, KEY_CHARS;
    forall c ensures KeyChar(c) <==> c in KEY_CHARS { KeyCharIs(c); }
  }

  /** MAIN: of a block the entries are read, the last one of every key counts, lines without a field are
      passed over, and a block that is never closed holds all lines to the end of the file. */
  lemma {:induction false} BodyIsRead(lines: seq<string>, i: nat, body: seq<BodyLine>, close: string, fields: Fields)
    requires BodyAt(lines, i, body, close) && close != "" && close[0] == '<'
    ensures BlockFields(lines, i, close, fields) == (Dictionary(fields, EntriesOf(body)), i + |body|)
    decreases |body|
  {
    hide BlockFields, Strip, FieldOf, ReadValue, EntryLine, GoodKey, FieldAt, KEY_CHARS;
    if body == [] {
      BodyEnds(lines, i, close, fields);
    } else {
      var more := EntriesOf(body[1..]);
      assert BodyLineIs(lines[i], body[0], close) && BodyAt(lines, i + 1, body[1..], close);
      hide BodyAt;
      match body[0]
      case Field(e) =>
        LettersAreGood(e.key);
        EntryStep(lines, i, e, close, fields);
        BodyIsRead(lines, i + 1, body[1..], close, fields[e.key := e.value]);
        assert EntriesOf(body) == [e] + more && ([e] + more)[1..] == more;
      case Stray(l) =>
        NoField(l);
        StrayStep(lines, i, close, fields);
        BodyIsRead(lines, i + 1, body[1..], close, fields);
        assert EntriesOf(body) == more;
    }
  }
}
