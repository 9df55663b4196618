/** Field values of Nessus/CIS `.audit` files: the escape decoder, the quoted multi-line reader that
    rescans its buffer from the start for every line it adds, and the fields of one block. */
module AuditStrings {
  import opened Options
  import opened PythonText

  /** `str.strip('"')`. */
  function StripQuotes(s: string): string {
    if s != "" && s[0] == '"' then StripQuotes(s[1..])
    else if s != "" && s[|s| - 1] == '"' then StripQuotes(s[..|s| - 1])
    else s
  }

  // ---------- escapes ----------

  /** The character that a backslash and `c` stand for. */
  function Decode(c: char): char { if c == 'n' then '\n' else if c == 't' then '\t' else c }

  function Unescape(s: string): string {
    if s == "" then ""
    else if s[0] == '\\' && |s| > 1 then [Decode(s[1])] + Unescape(s[2..])
    else [s[0]] + Unescape(s[1..])
  }

  method UnescapeAuditString(value: string) returns (out: string)
    ensures out == Unescape(value)
  {
    out := "";
    var i := 0;
    assert value[0..] == value;
    while i < |value|
      invariant i <= |value| && out + Unescape(value[i..]) == Unescape(value)
    {
      var ch := value[i];
      var rest := value[i..];
      if ch == '\\' && i + 1 < |value| {
        assert rest[2..] == value[i + 2..];
        Shift(out, Decode(value[i + 1]), Unescape(value[i + 2..]));
        out := out + [Decode(value[i + 1])];
        i := i + 2;
        continue;
      }
      assert rest[1..] == value[i + 1..];
      Shift(out, ch, Unescape(value[i + 1..]));
      out := out + [ch];
      i := i + 1;
    }
    assert value[i..] == "";
  }

  lemma Shift(a: string, c: char, b: string)
    ensures a + ([c] + b) == (a + [c]) + b
  {
  }

  /** An encoder for the decoder: newline, tab, quote and backslash are escaped. */
  function Escape(s: string): string {
    if s == "" then "" else EscapeChar(s[0]) + Escape(s[1..])
  }

  function EscapeChar(c: char): string {
    if c == '\n' then "\\n" else if c == '\t' then "\\t" else if c == '"' || c == '\\' then ['\\', c] else [c]
  }

  /** MAIN: decoding undoes encoding, for every string. */
  lemma {:induction false} UnescapeEscape(s: string)
    ensures Unescape(Escape(s)) == s
  {
    if s != "" {
      var e, rest := EscapeChar(s[0]), Escape(s[1..]);
      assert (e + rest)[|e|..] == rest;
      assert s == [s[0]] + s[1..];
      UnescapeEscape(s[1..]);
    }
  }

  // ---------- the closing quote ----------

  /** The first quote at or after `j` that no backslash escapes, or -1. */
  function QuoteAt(s: string, j: nat): (q: int)
    ensures q == -1 || (j <= q < |s| && s[q] == '"')
    decreases |s| - j
  {
    if j >= |s| then -1
    else if s[j] == '\\' && j + 1 < |s| then QuoteAt(s, j + 2)
    else if s[j] == '"' then j
    else QuoteAt(s, j + 1)
  }

  /** A quote found stays found when text is added behind. */
  lemma {:induction false} QuoteStays(a: string, b: string, j: nat)
    requires QuoteAt(a, j) != -1
    ensures QuoteAt(a + b, j) == QuoteAt(a, j)
    decreases |a| - j
  {
    assert (a + b)[j] == a[j];
    if a[j] == '\\' && j + 1 < |a| {
      QuoteStays(a, b, j + 2);
    } else if a[j] != '"' {
      QuoteStays(a, b, j + 1);
    }
  }

  /** Without a quote in `a`, the first quote of `a + b` lies in `b`; a backslash at the very end of
      `a` may escape the first character of `b`. */
  lemma {:induction false} QuoteIsLater(a: string, b: string, j: nat)
    requires j <= |a| && QuoteAt(a, j) == -1
    ensures QuoteAt(a + b, j) == -1 || QuoteAt(a + b, j) >= |a|
    decreases |a| - j
  {
    if j < |a| {
      assert (a + b)[j] == a[j];
      if a[j] == '\\' && j + 1 < |a| {
        QuoteIsLater(a, b, j + 2);
      } else if a[j] != '\\' {
        QuoteIsLater(a, b, j + 1);
      }
    }
  }

  /** An encoded string holds no quote of its own: the first quote is the one that follows it. */
  lemma {:induction false} QuoteAfterEscape(w: string, j: nat, s: string)
    requires j + |Escape(s)| < |w| && w[j..j + |Escape(s)|] == Escape(s) && w[j + |Escape(s)|] == '"'
    ensures QuoteAt(w, j) == j + |Escape(s)|
    decreases |s|
  {
    hide *;
    if s == "" {
      QuoteHere(w, j);
    } else {
      var n := |EscapeChar(s[0])|;
      EscapeFirst(s);
      SplitAt(w, j, EscapeChar(s[0]), Escape(s[1..]));
      QuoteSkips(w, j, s[0]);
      QuoteAfterEscape(w, j + n, s[1..]);
    }
  }

  lemma EscapeFirst(s: string)
    requires s != ""
    ensures Escape(s) == EscapeChar(s[0]) + Escape(s[1..])
  {
  }

  lemma QuoteHere(w: string, j: nat)
    requires j + |Escape("")| < |w| && w[j + |Escape("")|] == '"'
    ensures |Escape("")| == 0 && QuoteAt(w, j) == j
  {
  }

  lemma SplitAt(w: string, j: nat, a: string, b: string)
    requires j + |a + b| <= |w| && w[j..j + |a + b|] == a + b
    ensures w[j..j + |a|] == a && w[j + |a|..j + |a| + |b|] == b
  {
    var here := w[j..j + |a + b|];
    assert here[..|a|] == w[j..j + |a|] && here[|a|..] == w[j + |a|..j + |a| + |b|];
  }

  lemma QuoteSkips(w: string, j: nat, c: char)
    requires j + |EscapeChar(c)| < |w| && w[j..j + |EscapeChar(c)|] == EscapeChar(c)
    ensures QuoteAt(w, j) == QuoteAt(w, j + |EscapeChar(c)|)
  {
    assert w[j] == EscapeChar(c)[0];
  }

  // ---------- the quoted reader ----------

  predicate NoNewline(s: string) { '\n' !in s }

  predicate AreLines(lines: seq<string>) { forall i :: 0 <= i < |lines| ==> NoNewline(lines[i]) }

  /** `first`, then the lines `from..till`, joined by newlines. */
  function Joined(first: string, lines: seq<string>, from: nat, till: nat): string
    requires from <= till <= |lines|
    decreases till
  {
    if from == till then first else Joined(first, lines, from, till - 1) + ("\n" + lines[till - 1])
  }

  function Newlines(s: string): nat {
    if s == "" then 0 else (if s[0] == '\n' then 1 else 0) + Newlines(s[1..])
  }

  /** What a field value means: everything before the first unescaped quote in all that follows,
      decoded, and one line further for every newline before that quote. */
  function ReadValue(field: string, lines: seq<string>, idx: nat): (r: (string, nat))
    requires idx < |lines|
    ensures idx <= r.1
  {
    var rest := Strip(field);
    if rest == "" || rest[0] != '"' then (StripQuotes(Strip(rest)), idx)
    else
      var whole := Joined(rest[1..], lines, idx + 1, |lines|);
      var q := QuoteAt(whole, 0);
      if q == -1 then (Unescape(whole), |lines|)
      else (Unescape(whole[..q]), idx + Newlines(whole[..q]))
  }

  lemma {:induction false} JoinedSplit(first: string, lines: seq<string>, from: nat, mid: nat, till: nat) returns (more: string)
    requires from <= mid <= till <= |lines|
    ensures Joined(first, lines, from, till) == Joined(first, lines, from, mid) + more
    ensures mid < till ==> more != "" && more[0] == '\n'
    decreases till
  {
    if mid == till {
      more := "";
    } else {
      more := JoinedSplit(first, lines, from, mid, till - 1);
      var last := "\n" + lines[till - 1];
      assert (Joined(first, lines, from, mid) + more) + last == Joined(first, lines, from, mid) + (more + last);
      more := more + last;
    }
  }

  lemma {:induction false} NewlinesJoin(a: string, b: string)
    ensures Newlines(a + b) == Newlines(a) + Newlines(b)
  {
    if a == "" {
      assert a + b == b;
    } else {
      assert (a + b)[1..] == a[1..] + b;
      NewlinesJoin(a[1..], b);
    }
  }

  lemma {:induction false} NoNewlines(s: string)
    requires NoNewline(s)
    ensures Newlines(s) == 0
  {
    if s != "" { NoNewlines(s[1..]); }
  }

  lemma {:induction false} JoinedNewlines(first: string, lines: seq<string>, from: nat, till: nat)
    requires from <= till <= |lines| && NoNewline(first) && AreLines(lines)
    ensures Newlines(Joined(first, lines, from, till)) == till - from
    decreases till
  {
    if from == till {
      NoNewlines(first);
    } else {
      JoinedNewlines(first, lines, from, till - 1);
      NewlinesJoin(Joined(first, lines, from, till - 1), "\n" + lines[till - 1]);
      NewlinesJoin("\n", lines[till - 1]);
      NoNewlines(lines[till - 1]);
      assert Newlines("\n") == 1 by { assert "\n"[1..] == ""; }
    }
  }

  /** A quote found after adding a line lies behind the newline that joined it: the lines consumed
      are the newlines before it. */
  lemma QuoteInLastLine(first: string, lines: seq<string>, from: nat, till: nat, q: nat)
    requires from <= till <= |lines| && NoNewline(first) && AreLines(lines)
    requires QuoteAt(Joined(first, lines, from, till), 0) == q
    requires till > from ==> QuoteAt(Joined(first, lines, from, till - 1), 0) == -1
    ensures Newlines(Joined(first, lines, from, till)[..q]) == till - from
  {
    var buf := Joined(first, lines, from, till);
    if from == till {
      NoNewlines(buf[..q]);
    } else {
      var before := Joined(first, lines, from, till - 1);
      QuoteIsLater(before, "\n" + lines[till - 1], 0);
      assert buf[|before|] == '\n' && q > |before|;
      var part := lines[till - 1][..q - |before| - 1];
      assert buf[..q] == before + ("\n" + part);
      JoinedNewlines(first, lines, from, till - 1);
      NewlinesJoin(before, "\n" + part);
      NewlinesJoin("\n", part);
      NoNewlines(part);
      assert Newlines("\n") == 1 by { assert "\n"[1..] == ""; }
    }
  }

  method FindQuote(buf: string) returns (j: int)
    ensures j == QuoteAt(buf, 0)
  {
    j := 0;
    while j < |buf|
      invariant 0 <= j <= |buf| && QuoteAt(buf, j) == QuoteAt(buf, 0)
    {
      if buf[j] == '\\' && j + 1 < |buf| {
        j := j + 2;
        continue;
      }
      if buf[j] == '"' { return; }
      j := j + 1;
    }
    return -1;
  }

  /** MAIN: the reader that rescans its growing buffer meets `ReadValue`. */
  method ParseQuotedOrBare(field: string, lines: seq<string>, idx: nat) returns (value: string, idx': nat)
    requires idx < |lines| && AreLines(lines) && NoNewline(field)
    ensures (value, idx') == ReadValue(field, lines, idx)
  {
    var rest := Strip(field);
    StripKeepsLine(field);
    if rest == "" || rest[0] != '"' { return StripQuotes(Strip(rest)), idx; }
    var buf := rest[1..];
    hide Strip, QuoteAt, Unescape, Newlines;
    idx' := idx;
    ghost var first := buf;
    ghost var whole := Joined(first, lines, idx + 1, |lines|);
    while true
      invariant idx <= idx' < |lines| && buf == Joined(first, lines, idx + 1, idx' + 1)
      invariant idx' > idx ==> QuoteAt(Joined(first, lines, idx + 1, idx'), 0) == -1
      decreases |lines| - idx'
    {
      var j := FindQuote(buf);
      ghost var more := JoinedSplit(first, lines, idx + 1, idx' + 1, |lines|);
      if j != -1 {
        QuoteStays(buf, more, 0);
        assert whole[..j] == buf[..j];
        QuoteInLastLine(first, lines, idx + 1, idx' + 1, j);
        value := UnescapeAuditString(buf[..j]);
        return;
      }
      idx' := idx' + 1;
      if idx' >= |lines| {
        value := UnescapeAuditString(buf);
        return;
      }
      buf := buf + ("\n" + lines[idx']);
    }
  }

  lemma StripKeepsLine(s: string)
    requires NoNewline(s)
    ensures NoNewline(Strip(s))
  {
    StripEndIsPrefix(s[SkipSpace(s, 0)..]);
  }

  // ---------- printed values ----------

  function Quoted(s: string): string { "\"" + Escape(s) + "\"" }

  lemma {:induction false} EscapeIsOneLine(s: string)
    ensures NoNewline(Escape(s))
  {
    if s != "" { EscapeIsOneLine(s[1..]); }
  }

  /** MAIN: reading an encoded value back returns it, for every string, without leaving the line. */
  lemma ReadPrinted(s: string, lines: seq<string>, idx: nat)
    requires idx < |lines|
    ensures ReadValue(Quoted(s), lines, idx) == (s, idx)
  {
    var rest := Quoted(s);
    assert SkipSpace(rest, 0) == 0 && rest[0..] == rest && Strip(rest) == rest;
    var first := rest[1..];
    assert first == Escape(s) + "\"";
    QuoteAfterEscape(first, 0, s);
    var whole := Joined(first, lines, idx + 1, |lines|);
    var more := JoinedSplit(first, lines, idx + 1, idx + 1, |lines|);
    QuoteStays(first, more, 0);
    assert whole[..|Escape(s)|] == Escape(s);
    UnescapeEscape(s);
    EscapeIsOneLine(s);
    NoNewlines(Escape(s));
  }

  // ---------- one block of fields ----------

  predicate KeyChar(c: char) { 'a' <= c <= 'z' || c == '_' }

  function KeyEnd(s: string, i: nat): (j: nat)
    requires i <= |s|
    ensures i <= j <= |s| && (forall k :: i <= k < j ==> KeyChar(s[k])) && (j < |s| ==> !KeyChar(s[j]))
    decreases |s| - i
  {
    if i < |s| && KeyChar(s[i]) then KeyEnd(s, i + 1) else i
  }

  /** Key and raw value of a line `key : value`. */
  function FieldOf(line: string): Option<(string, string)> {
    var from := SkipSpace(line, 0);
    var end := KeyEnd(line, from);
    var colon := SkipSpace(line, end);
    if from < end && colon < |line| && line[colon] == ':' then
      Some((line[from..end], line[SkipSpace(line, colon + 1)..]))
    else None
  }

  lemma FieldKeepsLine(line: string)
    requires NoNewline(line) && FieldOf(line).Some?
    ensures NoNewline(FieldOf(line).value.1)
  {
  }

  type Fields = map<string, string>

  /** The fields from line `i` on, up to the line `close`; the index of that line, or an index past
      the end of the file. A key read again takes its later value. */
  function BlockFields(lines: seq<string>, i: nat, close: string, fields: Fields): (Fields, nat)
    decreases |lines| - i
  {
    if i >= |lines| || Strip(lines[i]) == close then (fields, i)
    else match FieldOf(lines[i])
      case None => BlockFields(lines, i + 1, close, fields)
      case Some((key, rest)) =>
        var (value, last) := ReadValue(rest, lines, i);
        BlockFields(lines, last + 1, close, fields[key := value])
  }

  method ParseBlockFields(lines: seq<string>, start: nat, close: string) returns (fields: Fields, i: nat)
    requires AreLines(lines)
    ensures (fields, i) == BlockFields(lines, start, close, map[])
    ensures start <= i
  {
    hide Strip, ReadValue, FieldOf;
    fields, i := map[], start;
    while i < |lines|
      invariant start <= i && BlockFields(lines, i, close, fields) == BlockFields(lines, start, close, map[])
    {
      var line := lines[i];
      if Strip(line) == close { return; }
      match FieldOf(line) {
        case None =>
        case Some((key, rest)) =>
          FieldKeepsLine(line);
          var value, last := ParseQuotedOrBare(rest, lines, i);
          FieldStep(lines, i, close, fields, key, rest, (value, last));
          fields, i := fields[key := value], last;
      }
      i := i + 1;
    }
  }

  lemma FieldStep(lines: seq<string>, i: nat, close: string, fields: Fields, key: string, rest: string, read: (string, nat))
    requires i < |lines| && Strip(lines[i]) != close && FieldOf(lines[i]) == Some((key, rest))
    requires read == ReadValue(rest, lines, i)
    ensures BlockFields(lines, i, close, fields) == BlockFields(lines, read.1 + 1, close, fields[key := read.0])
  {
    hide Strip, FieldOf, ReadValue;
  }

  datatype Entry = Entry(key: string, value: string)

  predicate GoodKey(key: string) { key != "" && forall k :: 0 <= k < |key| ==> KeyChar(key[k]) }

  function EntryLine(e: Entry): string { "      " + (e.key + (" : " + Quoted(e.value))) }

  /** The dictionary a list of entries stands for: later entries win. */
  function Dictionary(fields: Fields, es: seq<Entry>): Fields
    decreases |es|
  {
    if es == [] then fields else Dictionary(fields[es[0].key := es[0].value], es[1..])
  }

  lemma EntryShape(e: Entry)
    requires GoodKey(e.key)
    ensures var line, n, q := EntryLine(e), |e.key|, Quoted(e.value);
            && |q| >= 2 && |line| == 9 + n + |q| && line[6..6 + n] == e.key && line[9 + n..] == q
            && line[6 + n] == ' ' && line[7 + n] == ':' && line[8 + n] == ' ' && line[9 + n] == '"'
            && (forall k :: 0 <= k < 6 ==> line[k] == ' ') && (forall k :: 6 <= k < 6 + n ==> KeyChar(line[k]))
  {
    var line, n := EntryLine(e), |e.key|;
    assert forall k :: 6 <= k < 6 + n ==> line[k] == e.key[k - 6];
  }

  lemma KeyIsNoSpace(c: char)
    requires KeyChar(c)
    ensures !IsSpace(c)
  {
  }

  lemma FieldOfPrinted(e: Entry)
    requires GoodKey(e.key)
    ensures FieldOf(EntryLine(e)) == Some((e.key, Quoted(e.value)))
  {
    hide SkipSpace, KeyEnd, EntryLine, Quoted;
    var line, n := EntryLine(e), |e.key|;
    EntryShape(e);
    KeyIsNoSpace(line[6]);
    SkipIs(line, 0, 6);
    SkipIs(line, 6 + n, 7 + n);
    SkipIs(line, 8 + n, 9 + n);
    KeyIs(line, 6, 6 + n);
  }

  lemma KeyIs(s: string, i: nat, j: nat)
    requires i <= j < |s| && !KeyChar(s[j]) && forall k :: i <= k < j ==> KeyChar(s[k])
    ensures KeyEnd(s, i) == j
  {
  }

  lemma EntryIsNotTag(e: Entry, close: string)
    requires GoodKey(e.key) && close != "" && close[0] == '<'
    ensures Strip(EntryLine(e)) != close
  {
    var line := EntryLine(e);
    assert line[6] == e.key[0];
    SkipIs(line, 0, 6);
    StripEndIsPrefix(line[6..]);
  }

  lemma EntryStep(lines: seq<string>, i: nat, e: Entry, close: string, fields: Fields)
    requires i < |lines| && lines[i] == EntryLine(e) && GoodKey(e.key) && close != "" && close[0] == '<'
    ensures BlockFields(lines, i, close, fields) == BlockFields(lines, i + 1, close, fields[e.key := e.value])
  {
    hide *;
    FieldOfPrinted(e);
    EntryIsNotTag(e, close);
    ReadPrinted(e.value, lines, i);
    FieldStep(lines, i, close, fields, e.key, Quoted(e.value), (e.value, i));
  }

  /** The lines from `i` on are the printed entries and the closing line. */
  ghost predicate PrintedAt(lines: seq<string>, i: nat, es: seq<Entry>, close: string)
    decreases |es|
  {
    i < |lines|
    && if es == [] then Strip(lines[i]) == close
       else GoodKey(es[0].key) && lines[i] == EntryLine(es[0]) && PrintedAt(lines, i + 1, es[1..], close)
  }

  /** MAIN: a printed block reads back as the dictionary it was printed from, and the reader stops on
      the closing line, wherever the block stands in the file. */
  lemma {:induction false} BlockRoundTrip(lines: seq<string>, i: nat, es: seq<Entry>, close: string, fields: Fields)
    requires PrintedAt(lines, i, es, close) && close != "" && close[0] == '<'
    ensures BlockFields(lines, i, close, fields) == (Dictionary(fields, es), i + |es|)
    decreases |es|
  {
    hide Strip, FieldOf, ReadValue, EntryLine, GoodKey;
    if es != [] {
      EntryStep(lines, i, es[0], close, fields);
      hide BlockFields;
      BlockRoundTrip(lines, i + 1, es[1..], close, fields[es[0].key := es[0].value]);
    }
  }
}
