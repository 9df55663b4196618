/** A grammar of complete HTML tokens, independent of the state machine in `SafeCut`, and the proof
    that the cut is exactly the longest prefix of the text that the grammar generates.

    A derivation says how many characters each part of a token takes; `TokenAt` says what those
    characters must be. */
module HtmlTokens {
  import opened Text
  import opened SafeCut

  // ---------- derivations ----------

  /** A character of an attribute name, or `=` gap and a value in quotes, or `=` gap, a bare value
      and the white space after it. */
  datatype Attr = NameChar | Quoted(gap: nat, body: nat) | Unquoted(gap: nat, value: nat)

  /** The attributes of a tag, up to its '>'; the last one may lack its value or what follows it. */
  datatype Attrs = Done | EmptyValue(gap: nat) | LastValue(gap: nat, value: nat) | More(attr: Attr, rest: Attrs)

  datatype TagShape = Bare(name: nat) | WithAttrs(name: nat, attrs: Attrs)

  datatype Token =
    | Plain
    | Comment(body: nat)
    | CData(body: nat)
    | Tag(tag: TagShape)
    | RawElement(open: TagShape, body: nat, junk: nat)

  function AttrLen(a: Attr): nat {
    match a
    case NameChar => 1
    case Quoted(gap, body) => gap + body + 3
    case Unquoted(gap, value) => gap + value + 2
  }

  /** The length of the attributes and the closing '>'. */
  function AttrsLen(attrs: Attrs): nat {
    match attrs
    case Done => 1
    case EmptyValue(gap) => gap + 2
    case LastValue(gap, value) => gap + value + 2
    case More(a, rest) => AttrLen(a) + AttrsLen(rest)
  }

  function TagLen(tag: TagShape): nat {
    match tag
    case Bare(name) => name + 2
    case WithAttrs(name, attrs) => name + 2 + AttrsLen(attrs)
  }

  // ---------- what the characters must be ----------

  predicate WsRun(t: string, i: nat, j: nat) { i <= j <= |t| && forall k :: i <= k < j ==> IsWs(t[k]) }

  predicate NameRun(t: string, i: nat, j: nat) {
    i <= j <= |t| && forall k :: i <= k < j ==> IsNameChar(t[k])
  }

  predicate Without(t: string, i: nat, j: nat, c: char) { i <= j <= |t| && forall k :: i <= k < j ==> t[k] != c }

  /** `=`, white space, and a position where a value may start. */
  predicate GapAt(t: string, i: nat, gap: nat) { i < |t| && t[i] == '=' && WsRun(t, i + 1, i + 1 + gap) }

  predicate ValueAt(t: string, i: nat, value: nat) {
    value > 0 && NameRun(t, i, i + value) && !IsQuote(t[i])
  }

  predicate AttrAt(t: string, i: nat, a: Attr) {
    i + AttrLen(a) <= |t|
    && match a
       case NameChar => t[i] != '>' && t[i] != '='
       case Quoted(gap, body) =>
         GapAt(t, i, gap)
         && (var q := i + 1 + gap;
             IsQuote(t[q]) && Without(t, q + 1, q + 1 + body, t[q]) && t[q + 1 + body] == t[q])
       case Unquoted(gap, value) =>
         GapAt(t, i, gap) && ValueAt(t, i + 1 + gap, value) && IsWs(t[i + 1 + gap + value])
  }

  predicate AttrsAt(t: string, i: nat, attrs: Attrs)
    decreases attrs
  {
    i + AttrsLen(attrs) <= |t|
    && match attrs
       case Done => t[i] == '>'
       case EmptyValue(gap) => GapAt(t, i, gap) && t[i + 1 + gap] == '>'
       case LastValue(gap, value) => GapAt(t, i, gap) && ValueAt(t, i + 1 + gap, value) && t[i + 1 + gap + value] == '>'
       case More(a, rest) => AttrAt(t, i, a) && AttrsAt(t, i + AttrLen(a), rest)
  }

  predicate TagAt(t: string, i: nat, tag: TagShape) {
    i + TagLen(tag) <= |t| && t[i] == '<' && NameRun(t, i + 1, i + 1 + tag.name)
    && (var j := i + 1 + tag.name;
        match tag
        case Bare(_) => t[j] == '>'
        case WithAttrs(_, attrs) => IsWs(t[j]) && AttrsAt(t, j + 1, attrs))
    && !(TagLen(tag) >= 4 && HasAt(t, COMMENT_OPEN, i))
    && !(TagLen(tag) >= 9 && HasAt(t, CDATA_OPEN, i))
  }

  /** A '/' among the characters of the attribute names. */
  predicate SlashAmong(t: string, i: nat, attrs: Attrs)
    requires AttrsAt(t, i, attrs)
    decreases attrs
  {
    attrs.More? && ((attrs.attr.NameChar? && t[i] == '/') || SlashAmong(t, i + AttrLen(attrs.attr), attrs.rest))
  }

  predicate HasSlash(t: string, i: nat, tag: TagShape)
    requires TagAt(t, i, tag)
  {
    '/' in t[i + 1..i + 1 + tag.name] || (tag.WithAttrs? && SlashAmong(t, i + 2 + tag.name, tag.attrs))
  }

  function NameOf(t: string, i: nat, tag: TagShape): string
    requires TagAt(t, i, tag)
  {
    Lower(t[i + 1..i + 1 + tag.name])
  }

  /** The tag opens a raw-text element. */
  predicate OpensRaw(t: string, i: nat, tag: TagShape)
    requires TagAt(t, i, tag)
  {
    !HasSlash(t, i, tag) && IsRaw(NameOf(t, i, tag))
  }

  function Len(tok: Token): nat {
    match tok
    case Plain => 1
    case Comment(body) => body + 7
    case CData(body) => body + 12
    case Tag(tag) => TagLen(tag)
    case RawElement(open, body, junk) => TagLen(open) + body + (2 + open.name) + junk + 1
  }

  predicate TokenAt(t: string, i: nat, tok: Token) {
    i + Len(tok) <= |t|
    && match tok
       case Plain => t[i] != '<'
       case Comment(body) => Delimited(t, i, COMMENT_OPEN, body, COMMENT_CLOSE)
       case CData(body) => Delimited(t, i, CDATA_OPEN, body, CDATA_CLOSE)
       case Tag(tag) => TagAt(t, i, tag) && !OpensRaw(t, i, tag)
       case RawElement(open, body, junk) =>
         TagAt(t, i, open) && OpensRaw(t, i, open)
         && RawAt(t, i + TagLen(open), NameOf(t, i, open), body, junk)
  }

  /** Content without the closing mark, the mark, characters other than '>', and '>'. */
  predicate RawAt(t: string, b: nat, raw: string, body: nat, junk: nat) {
    var c := b + body + 2 + |raw|;
    (forall k :: b <= k < b + body ==> !CloseAt(t, k, raw)) && CloseAt(t, b + body, raw)
    && c + junk < |t| && Without(t, c, c + junk, '>') && t[c + junk] == '>'
  }

  /** `open`, `body` characters, and the first `close` after `open`. */
  predicate Delimited(t: string, i: nat, open: string, body: nat, close: string) {
    var b := i + |open|;
    HasAt(t, open, i) && HasAt(t, close, b + body) && forall k :: b <= k < b + body ==> !HasAt(t, close, k)
  }

  predicate TokensAt(t: string, i: nat, toks: seq<Token>)
    decreases |toks|
  {
    i <= |t| && (toks == [] || (TokenAt(t, i, toks[0]) && TokensAt(t, i + Len(toks[0]), toks[1..])))
  }

  function TotalLen(toks: seq<Token>): nat {
    if toks == [] then 0 else Len(toks[0]) + TotalLen(toks[1..])
  }

  /** `s` is a sequence of complete tokens. */
  ghost predicate Complete(s: string) {
    exists toks: seq<Token> :: TokensAt(s, 0, toks) && TotalLen(toks) == |s|
  }

  // ---------- the scanner over runs of characters ----------

  /** Reading `t[i..j]` takes the scanner from `s` to `s'` without closing the tag. */
  predicate Reads(t: string, i: nat, s: Scan, j: nat, s': Scan)
    decreases j - i
  {
    i <= j <= |t|
    && (if i == j then s == s'
        else (t[i] != '>' || s.phase.InQuoted?) && Reads(t, i + 1, Read(t[i], s), j, s'))
  }

  lemma {:induction false} ReadsThen(t: string, i: nat, s: Scan, j: nat, s1: Scan, k: nat, s2: Scan)
    requires Reads(t, i, s, j, s1) && Reads(t, j, s1, k, s2)
    ensures Reads(t, i, s, k, s2)
    decreases j - i
  {
    if i < j { ReadsThen(t, i + 1, Read(t[i], s), j, s1, k, s2); }
  }

  lemma {:induction false} ReadsEnd(t: string, i: nat, s: Scan, j: nat, s': Scan)
    requires Reads(t, i, s, j, s')
    ensures ScanTag(t, i, s) == ScanTag(t, j, s')
    decreases j - i
  {
    if i < j { ReadsEnd(t, i + 1, Read(t[i], s), j, s'); }
  }

  function WithoutSlash(s: string): string {
    if s == "" then "" else if s[0] == '/' then WithoutSlash(s[1..]) else [s[0]] + WithoutSlash(s[1..])
  }

  lemma {:induction false} NoSlashSame(s: string)
    requires '/' !in s
    ensures WithoutSlash(s) == s
  {
    if s != "" { NoSlashSame(s[1..]); }
  }

  lemma {:induction false} ReadsName(t: string, i: nat, j: nat, s: Scan)
    requires s.phase.InName? && NameRun(t, i, j)
    ensures Reads(t, i, s, j, Scan(InName, s.name + WithoutSlash(t[i..j]), s.slash || '/' in t[i..j]))
    decreases j - i
  {
    if i == j {
      assert t[i..j] == "" && s.name + "" == s.name;
    } else {
      assert t[i..j][1..] == t[i + 1..j] && t[i..j] == [t[i]] + t[i + 1..j];
      ReadsName(t, i + 1, j, Read(t[i], s));
      assert (s.name + [t[i]]) + WithoutSlash(t[i + 1..j]) == s.name + ([t[i]] + WithoutSlash(t[i + 1..j]));
    }
  }

  /** Characters that leave the scanner as it is are skipped. */
  lemma {:induction false} ReadsIdle(t: string, i: nat, j: nat, s: Scan)
    requires i <= j <= |t|
    requires forall k :: i <= k < j ==> Read(t[k], s) == s && (t[k] != '>' || s.phase.InQuoted?)
    ensures Reads(t, i, s, j, s)
    decreases j - i
  {
    if i < j { ReadsIdle(t, i + 1, j, s); }
  }

  lemma ReadsOne(t: string, i: nat, s: Scan)
    requires i < |t| && (t[i] != '>' || s.phase.InQuoted?)
    ensures Reads(t, i, s, i + 1, Read(t[i], s))
  {
  }

  // ---------- every derivation is scanned as one token ----------

  lemma ReadsGap(t: string, i: nat, gap: nat, s: Scan)
    requires s.phase.InAttr? && GapAt(t, i, gap)
    ensures Reads(t, i, s, i + 1 + gap, s.(phase := InValueStart))
  {
    var v := s.(phase := InValueStart);
    ReadsIdle(t, i + 1, i + 1 + gap, v);
    ReadsOne(t, i, s);
    ReadsThen(t, i, s, i + 1, v, i + 1 + gap, v);
  }

  lemma ReadsValue(t: string, i: nat, gap: nat, value: nat, s: Scan)
    requires s.phase.InAttr? && GapAt(t, i, gap) && ValueAt(t, i + 1 + gap, value)
    ensures Reads(t, i, s, i + 1 + gap + value, s.(phase := InUnquoted))
  {
    var j := i + 1 + gap;
    var v, u := s.(phase := InValueStart), s.(phase := InUnquoted);
    ReadsGap(t, i, gap, s);
    ReadsOne(t, j, v);
    ReadsThen(t, i, s, j, v, j + 1, u);
    ReadsIdle(t, j + 1, j + value, u);
    ReadsThen(t, i, s, j + 1, u, j + value, u);
  }

  lemma ReadsQuoted(t: string, i: nat, gap: nat, body: nat, s: Scan)
    requires s.phase.InAttr? && AttrAt(t, i, Quoted(gap, body))
    ensures Reads(t, i, s, i + gap + body + 3, s)
  {
    var q := i + 1 + gap;
    var e := q + 1 + body;
    var v, u := s.(phase := InValueStart), s.(phase := InQuoted(t[q]));
    ReadsGap(t, i, gap, s);
    ReadsOne(t, q, v);
    ReadsThen(t, i, s, q, v, q + 1, u);
    ReadsIdle(t, q + 1, e, u);
    ReadsThen(t, i, s, q + 1, u, e, u);
    ReadsOne(t, e, u);
    ReadsThen(t, i, s, e, u, e + 1, s);
  }

  lemma ReadsAttr(t: string, i: nat, a: Attr, s: Scan)
    requires s.phase.InAttr? && AttrAt(t, i, a)
    ensures Reads(t, i, s, i + AttrLen(a), s.(slash := s.slash || (a.NameChar? && t[i] == '/')))
  {
    match a
    case NameChar =>
    case Quoted(gap, body) =>
      ReadsQuoted(t, i, gap, body, s);
    case Unquoted(gap, value) =>
      var j, u := i + 1 + gap + value, s.(phase := InUnquoted);
      ReadsValue(t, i, gap, value, s);
      ReadsOne(t, j, u);
      ReadsThen(t, i, s, j, u, j + 1, s);
  }

  lemma {:induction false} ScanAttrs(t: string, i: nat, attrs: Attrs, s: Scan)
    requires s.phase.InAttr? && AttrsAt(t, i, attrs)
    ensures ScanTag(t, i, s) == Closed(i + AttrsLen(attrs), s.name, s.slash || SlashAmong(t, i, attrs))
    decreases attrs
  {
    SlashStep(t, i, attrs);
    hide AttrAt, AttrsAt, SlashAmong, ScanTag;
    match attrs
    case More(a, rest) =>
      MoreAt(t, i, a, rest);
      var s1 := s.(slash := s.slash || (a.NameChar? && t[i] == '/'));
      ReadsAttr(t, i, a, s);
      ReadsEnd(t, i, s, i + AttrLen(a), s1);
      ScanAttrs(t, i + AttrLen(a), rest, s1);
    case _ =>
      ScanLastAttr(t, i, attrs, s);
  }

  lemma ScanLastAttr(t: string, i: nat, attrs: Attrs, s: Scan)
    requires s.phase.InAttr? && AttrsAt(t, i, attrs) && !attrs.More?
    ensures ScanTag(t, i, s) == Closed(i + AttrsLen(attrs), s.name, s.slash)
  {
    match attrs
    case Done =>
    case EmptyValue(gap) =>
      ReadsGap(t, i, gap, s);
      ReadsEnd(t, i, s, i + 1 + gap, s.(phase := InValueStart));
    case LastValue(gap, value) =>
      ReadsValue(t, i, gap, value, s);
      ReadsEnd(t, i, s, i + 1 + gap + value, s.(phase := InUnquoted));
  }

  lemma ScanWholeTag(t: string, i: nat, tag: TagShape)
    requires TagAt(t, i, tag)
    ensures ScanTag(t, i + 1, TAG_START)
         == Closed(i + TagLen(tag), WithoutSlash(t[i + 1..i + 1 + tag.name]), HasSlash(t, i, tag))
  {
    hide IsRaw, HasAt;
    var j := i + 1 + tag.name;
    var name := t[i + 1..j];
    var s := Scan(InName, WithoutSlash(name), '/' in name);
    assert "" + WithoutSlash(name) == WithoutSlash(name);
    ReadsName(t, i + 1, j, TAG_START);
    ReadsEnd(t, i + 1, TAG_START, j, s);
    if tag.WithAttrs? { ScanAttrs(t, j + 1, tag.attrs, s.(phase := InAttr)); }
  }

  /** A token of the grammar is what `UnitEnd` finds at its first character. */
  lemma TokenIsUnit(t: string, i: nat, tok: Token)
    requires TokenAt(t, i, tok)
    ensures UnitEnd(t, i) == i + Len(tok)
  {
    hide HasAt, TagAt, OpensRaw, RawAt, NameOf;
    match tok
    case Plain =>
    case Comment(body) =>
      CharOf(t, COMMENT_OPEN, i, 0);
      DelimitedEnd(t, i, COMMENT_OPEN, body, COMMENT_CLOSE);
    case CData(body) =>
      CharOf(t, CDATA_OPEN, i, 0);
      NotComment(t, i);
      DelimitedEnd(t, i, CDATA_OPEN, body, CDATA_CLOSE);
    case Tag(tag) =>
      TagIsUnit(t, i, tag);
    case RawElement(open, body, junk) =>
      RawIsUnit(t, i, open, body, junk);
  }

  lemma RawIsUnit(t: string, i: nat, open: TagShape, body: nat, junk: nat)
    requires TagAt(t, i, open) && OpensRaw(t, i, open)
    requires RawAt(t, i + TagLen(open), NameOf(t, i, open), body, junk)
    ensures UnitEnd(t, i) == i + TagLen(open) + body + (2 + open.name) + junk + 1
  {
    hide TagAt, OpensRaw, RawAt, Lower, RawEnd;
    TagIsUnit(t, i, open);
    RawIsEnd(t, i + TagLen(open), NameOf(t, i, open), body, junk);
  }

  lemma DelimitedEnd(t: string, i: nat, open: string, body: nat, close: string)
    requires Delimited(t, i, open, body, close)
    ensures EndAfter(t, close, i + |open|) == i + |open| + body + |close|
  {
    FirstIs(t, close, i + |open|, i + |open| + body);
  }

  lemma EndDelimits(t: string, i: nat, open: string, close: string) returns (body: nat)
    requires HasAt(t, open, i) && EndAfter(t, close, i + |open|) != -1
    ensures Delimited(t, i, open, body, close)
  {
    var k := IndexOf(t, close, i + |open|);
    NoneBetween(t, close, i + |open|, k);
    body := k - (i + |open|);
  }

  lemma TagIsUnit(t: string, i: nat, tag: TagShape)
    requires TagAt(t, i, tag)
    ensures TagStartsAt(t, i) && UnitEnd(t, i) == TagUnitEnd(t, i)
    ensures UnitEnd(t, i)
         == if OpensRaw(t, i, tag) then RawEnd(t, i + TagLen(tag), NameOf(t, i, tag)) else i + TagLen(tag)
  {
    hide HasAt, TagAt, HasSlash, NameOf, WithoutSlash, IsRaw, Lower, RawEnd;
    TagIsNotOpener(t, i, tag);
    ScanWholeTag(t, i, tag);
    if !HasSlash(t, i, tag) { NameKept(t, i, tag); }
    assert TagStartsAt(t, i);
  }

  lemma NameKept(t: string, i: nat, tag: TagShape)
    requires TagAt(t, i, tag) && !HasSlash(t, i, tag)
    ensures Lower(WithoutSlash(t[i + 1..i + 1 + tag.name])) == NameOf(t, i, tag)
  {
    NoSlashSame(t[i + 1..i + 1 + tag.name]);
  }

  lemma RawIsEnd(t: string, b: nat, raw: string, body: nat, junk: nat)
    requires RawAt(t, b, raw, body, junk)
    ensures RawEnd(t, b, raw) == b + body + 2 + |raw| + junk + 1
  {
    var c := b + body + 2 + |raw|;
    FirstClose(t, b, b + body, raw);
    GtAt(t, c + junk);
    forall k | c <= k < c + junk ensures !HasAt(t, ">", k) { if HasAt(t, ">", k) { CharOf(t, ">", k, 0); } }
    FirstIs(t, ">", c, c + junk);
  }

  lemma CharOf(t: string, p: string, i: nat, k: nat)
    requires HasAt(t, p, i) && k < |p|
    ensures t[i + k] == p[k]
  {
    assert t[i..i + |p|][k] == t[i + k];
  }

  lemma GtAt(t: string, i: nat)
    requires i < |t| && t[i] == '>'
    ensures HasAt(t, ">", i)
  {
    assert t[i..i + 1] == ">";
  }

  lemma NotComment(t: string, i: nat)
    requires HasAt(t, CDATA_OPEN, i)
    ensures !HasAt(t, COMMENT_OPEN, i)
  {
    CharOf(t, CDATA_OPEN, i, 2);
    if HasAt(t, COMMENT_OPEN, i) { CharOf(t, COMMENT_OPEN, i, 2); }
  }

  /** A complete tag does not begin like a comment or a CDATA section: both openers lack '>'. */
  lemma TagIsNotOpener(t: string, i: nat, tag: TagShape)
    requires TagAt(t, i, tag)
    ensures t[i] == '<' && !HasAt(t, COMMENT_OPEN, i) && !HasAt(t, CDATA_OPEN, i)
  {
    ScanWholeTag(t, i, tag);
    var n := TagLen(tag) - 1;
    assert t[i + n] == '>';
    if HasAt(t, COMMENT_OPEN, i) && TagLen(tag) < 4 { CharOf(t, COMMENT_OPEN, i, n); }
    if HasAt(t, CDATA_OPEN, i) && TagLen(tag) < 9 { CharOf(t, CDATA_OPEN, i, n); }
  }

  lemma {:induction false} FirstClose(t: string, i: nat, at: nat, raw: string)
    requires i <= at && CloseAt(t, at, raw) && forall k :: i <= k < at ==> !CloseAt(t, k, raw)
    ensures FindClose(t, i, raw) == at
    decreases at - i
  {
    if i < at { FirstClose(t, i + 1, at, raw); }
  }

  // ---------- everything scanned as one token has a derivation ----------

  /** The first position at or after `i` whose character fails `p`, or the end. */
  function Span(t: string, i: nat, p: char -> bool): (j: nat)
    requires i <= |t|
    ensures i <= j <= |t| && (forall k :: i <= k < j ==> p(t[k])) && (j < |t| ==> !p(t[j]))
    decreases |t| - i
  {
    if i < |t| && p(t[i]) then Span(t, i + 1, p) else i
  }

  lemma {:induction false} BuildAttrs(t: string, i: nat, s: Scan) returns (attrs: Attrs)
    requires s.phase.InAttr? && ScanTag(t, i, s).Closed?
    ensures AttrsAt(t, i, attrs) && i + AttrsLen(attrs) <= |t|
    decreases |t| - i
  {
    hide ValueAt, NameRun, WsRun, Without;
    if t[i] == '>' {
      attrs := Done;
    } else if t[i] != '=' {
      attrs := BuildAttrs(t, i + 1, Read(t[i], s));
      attrs := More(NameChar, attrs);
    } else {
      var gap := FindGap(t, i, s);
      var j := i + 1 + gap;
      if t[j] == '>' {
        attrs := EmptyValue(gap);
      } else if IsQuote(t[j]) {
        var body := FindQuoted(t, i, gap, s);
        attrs := BuildAttrs(t, j + body + 2, s);
        attrs := More(Quoted(gap, body), attrs);
      } else {
        var value := FindValue(t, i, gap, s);
        if t[j + value] == '>' {
          attrs := LastValue(gap, value);
        } else {
          attrs := BuildAttrs(t, j + value + 1, s);
          attrs := More(Unquoted(gap, value), attrs);
        }
      }
    }
  }

  lemma FindGap(t: string, i: nat, s: Scan) returns (gap: nat)
    requires s.phase.InAttr? && i < |t| && t[i] == '=' && ScanTag(t, i, s).Closed?
    ensures GapAt(t, i, gap) && i + 1 + gap < |t| && !IsWs(t[i + 1 + gap])
    ensures ScanTag(t, i + 1 + gap, s.(phase := InValueStart)) == ScanTag(t, i, s)
  {
    gap := Span(t, i + 1, IsWs) - (i + 1);
    ReadsGap(t, i, gap, s);
    ReadsEnd(t, i, s, i + 1 + gap, s.(phase := InValueStart));
  }

  lemma FindQuoted(t: string, i: nat, gap: nat, s: Scan) returns (body: nat)
    requires s.phase.InAttr? && GapAt(t, i, gap) && i + 1 + gap < |t| && IsQuote(t[i + 1 + gap])
    requires ScanTag(t, i + 1 + gap, s.(phase := InValueStart)).Closed?
    ensures AttrAt(t, i, Quoted(gap, body)) && ScanTag(t, i + 1 + gap + body + 2, s).Closed?
  {
    var q := i + 1 + gap;
    var u := s.(phase := InQuoted(t[q]));
    var e := Span(t, q + 1, c => c != t[q]);
    ReadsIdle(t, q + 1, e, u);
    ReadsEnd(t, q + 1, u, e, u);
    body := e - (q + 1);
  }

  lemma FindValue(t: string, i: nat, gap: nat, s: Scan) returns (value: nat)
    requires s.phase.InAttr? && GapAt(t, i, gap) && i + 1 + gap < |t|
    requires IsNameChar(t[i + 1 + gap]) && !IsQuote(t[i + 1 + gap])
    requires ScanTag(t, i + 1 + gap, s.(phase := InValueStart)).Closed?
    ensures ValueAt(t, i + 1 + gap, value) && i + 1 + gap + value < |t| && !IsNameChar(t[i + 1 + gap + value])
    ensures IsWs(t[i + 1 + gap + value]) ==> ScanTag(t, i + 1 + gap + value + 1, s).Closed?
  {
    var j := i + 1 + gap;
    var u := s.(phase := InUnquoted);
    var e := Span(t, j, IsNameChar);
    ReadsIdle(t, j + 1, e, u);
    ReadsEnd(t, j + 1, u, e, u);
    value := e - j;
  }

  lemma BuildTag(t: string, i: nat) returns (tag: TagShape)
    requires TagStartsAt(t, i) && ScanTag(t, i + 1, TAG_START).Closed?
    ensures TagAt(t, i, tag)
  {
    hide IsRaw, HasAt, AttrsAt, Reads;
    var j := Span(t, i + 1, IsNameChar);
    var name := t[i + 1..j];
    var s := Scan(InName, WithoutSlash(name), '/' in name);
    assert "" + WithoutSlash(name) == WithoutSlash(name);
    ReadsName(t, i + 1, j, TAG_START);
    ReadsEnd(t, i + 1, TAG_START, j, s);
    assert j < |t|;
    if t[j] == '>' {
      tag := Bare(j - (i + 1));
    } else {
      var attrs := BuildAttrs(t, j + 1, s.(phase := InAttr));
      tag := WithAttrs(j - (i + 1), attrs);
    }
  }

  lemma UnitIsToken(t: string, i: nat) returns (tok: Token)
    requires i < |t| && UnitEnd(t, i) != -1
    ensures TokenAt(t, i, tok)
  {
    if t[i] != '<' {
      tok := Plain;
    } else if HasAt(t, COMMENT_OPEN, i) {
      var body := EndDelimits(t, i, COMMENT_OPEN, COMMENT_CLOSE);
      tok := Comment(body);
    } else if HasAt(t, CDATA_OPEN, i) {
      var body := EndDelimits(t, i, CDATA_OPEN, CDATA_CLOSE);
      tok := CData(body);
    } else {
      tok := UnitIsTag(t, i);
    }
  }

  lemma UnitIsTag(t: string, i: nat) returns (tok: Token)
    requires TagStartsAt(t, i) && TagUnitEnd(t, i) != -1
    ensures TokenAt(t, i, tok)
  {
    var tag := BuildTag(t, i);
    TagIsUnit(t, i, tag);
    if OpensRaw(t, i, tag) {
      tok := UnitIsRaw(t, i, tag);
    } else {
      tok := Tag(tag);
    }
  }

  lemma UnitIsRaw(t: string, i: nat, open: TagShape) returns (tok: Token)
    requires TagAt(t, i, open) && OpensRaw(t, i, open)
    requires RawEnd(t, i + TagLen(open), NameOf(t, i, open)) != -1
    ensures TokenAt(t, i, tok)
  {
    hide TagAt, RawAt, OpensRaw, Lower;
    var body, junk := BuildRaw(t, i + TagLen(open), NameOf(t, i, open));
    tok := RawElement(open, body, junk);
  }

  lemma BuildRaw(t: string, b: nat, raw: string) returns (body: nat, junk: nat)
    requires RawEnd(t, b, raw) != -1
    ensures RawAt(t, b, raw, body, junk)
  {
    var k := FindClose(t, b, raw);
    var c := k + 2 + |raw|;
    var g := IndexOf(t, ">", c);
    NoCloseBetween(t, b, k, raw);
    NoGtBetween(t, c, g);
    body, junk := k - b, g - c;
  }

  lemma NoneBetween(t: string, p: string, from: nat, at: nat)
    requires IndexOf(t, p, from) == at
    ensures forall k :: from <= k < at ==> !HasAt(t, p, k)
  {
    forall k | from <= k < at ensures !HasAt(t, p, k) { NoneBefore(t, p, from, k); }
  }

  lemma NoGtBetween(t: string, from: nat, at: nat)
    requires IndexOf(t, ">", from) == at
    ensures Without(t, from, at, '>') && t[at] == '>'
  {
    CharOf(t, ">", at, 0);
    NoneBetween(t, ">", from, at);
    forall k | from <= k < at ensures t[k] != '>' { if t[k] == '>' { GtAt(t, k); } }
  }

  lemma {:induction false} NoCloseBetween(t: string, from: nat, at: nat, raw: string)
    requires FindClose(t, from, raw) == at
    ensures forall k :: from <= k < at ==> !CloseAt(t, k, raw)
    decreases |t| - from
  {
    if from < at { NoCloseBetween(t, from + 1, at, raw); }
  }

  // ---------- the cut is the longest complete prefix ----------

  /** Tokens are found one after the other by `Cut`. */
  lemma {:induction false} CutPasses(t: string, i: nat, toks: seq<Token>)
    requires TokensAt(t, i, toks)
    ensures i + TotalLen(toks) <= |t| && Cut(t, i) == Cut(t, i + TotalLen(toks))
    decreases |toks|
  {
    hide TokenAt, UnitEnd;
    if toks != [] {
      TokenIsUnit(t, i, toks[0]);
      CutPasses(t, i + Len(toks[0]), toks[1..]);
    }
  }

  lemma {:induction false} CutTokens(t: string, i: nat) returns (toks: seq<Token>)
    requires i <= |t|
    ensures TokensAt(t, i, toks) && i + TotalLen(toks) == Cut(t, i)
    decreases |t| - i
  {
    hide TokenAt, UnitEnd;
    if i == |t| || UnitEnd(t, i) == -1 {
      toks := [];
    } else {
      var tok := UnitIsToken(t, i);
      TokenIsUnit(t, i, tok);
      var rest := CutTokens(t, UnitEnd(t, i));
      toks := [tok] + rest;
    }
  }

  lemma HasAtPrefix(s: string, t: string, p: string, i: nat)
    requires s <= t && i + |p| <= |s|
    ensures HasAt(s, p, i) <==> HasAt(t, p, i)
  {
    assert t[..|s|] == s && s[i..i + |p|] == t[i..i + |p|];
  }

  lemma RunsPrefix(s: string, t: string, i: nat, j: nat, c: char)
    requires s <= t && j <= |s|
    ensures WsRun(s, i, j) <==> WsRun(t, i, j)
    ensures NameRun(s, i, j) <==> NameRun(t, i, j)
    ensures Without(s, i, j, c) <==> Without(t, i, j, c)
  {
    assert forall k :: 0 <= k < |s| ==> s[k] == t[k];
  }

  lemma GapPrefix(s: string, t: string, i: nat, gap: nat, value: nat)
    requires s <= t && i + 1 + gap + value < |s|
    ensures GapAt(s, i, gap) <==> GapAt(t, i, gap)
    ensures ValueAt(s, i + 1 + gap, value) <==> ValueAt(t, i + 1 + gap, value)
  {
    hide WsRun, NameRun;
    RunsPrefix(s, t, i + 1, i + 1 + gap, ' ');
    RunsPrefix(s, t, i + 1 + gap, i + 1 + gap + value, ' ');
  }

  lemma AttrPrefix(s: string, t: string, i: nat, a: Attr)
    requires s <= t && i + AttrLen(a) <= |s|
    ensures AttrAt(s, i, a) <==> AttrAt(t, i, a)
  {
    hide GapAt, ValueAt, Without;
    match a
    case NameChar =>
    case Quoted(gap, body) =>
      GapPrefix(s, t, i, gap, 0);
      RunsPrefix(s, t, i + 2 + gap, i + 2 + gap + body, s[i + 1 + gap]);
    case Unquoted(gap, value) =>
      GapPrefix(s, t, i, gap, value);
  }

  lemma LastPrefix(s: string, t: string, i: nat, attrs: Attrs)
    requires s <= t && i + AttrsLen(attrs) <= |s| && !attrs.More?
    ensures AttrsAt(s, i, attrs) <==> AttrsAt(t, i, attrs)
  {
    hide GapAt, ValueAt;
    match attrs
    case Done =>
    case EmptyValue(gap) => GapPrefix(s, t, i, gap, 0);
    case LastValue(gap, value) => GapPrefix(s, t, i, gap, value);
  }

  lemma MoreAt(t: string, i: nat, a: Attr, rest: Attrs)
    ensures AttrsLen(More(a, rest)) == AttrLen(a) + AttrsLen(rest)
    ensures AttrsAt(t, i, More(a, rest)) <==> AttrAt(t, i, a) && AttrsAt(t, i + AttrLen(a), rest)
  {
    hide AttrAt;
    if AttrsAt(t, i + AttrLen(a), rest) { assert i + AttrLen(a) + AttrsLen(rest) <= |t|; }
  }

  lemma {:induction false} AttrsPrefix(s: string, t: string, i: nat, attrs: Attrs)
    requires s <= t && i + AttrsLen(attrs) <= |s|
    ensures AttrsAt(s, i, attrs) <==> AttrsAt(t, i, attrs)
    decreases attrs
  {
    hide *;
    if !attrs.More? {
      LastPrefix(s, t, i, attrs);
    } else {
      var a, rest := attrs.attr, attrs.rest;
      MoreAt(s, i, a, rest);
      MoreAt(t, i, a, rest);
      AttrPrefix(s, t, i, a);
      AttrsPrefix(s, t, i + AttrLen(a), rest);
    }
  }

  lemma SlashStep(t: string, i: nat, attrs: Attrs)
    requires AttrsAt(t, i, attrs)
    ensures !attrs.More? ==> !SlashAmong(t, i, attrs)
    ensures attrs.More? ==>
        && i < |t| && AttrsAt(t, i + AttrLen(attrs.attr), attrs.rest)
        && (SlashAmong(t, i, attrs)
            <==> (attrs.attr.NameChar? && t[i] == '/') || SlashAmong(t, i + AttrLen(attrs.attr), attrs.rest))
  {
    hide GapAt, ValueAt;
  }

  lemma {:induction false} SlashPrefix(s: string, t: string, i: nat, attrs: Attrs)
    requires s <= t && AttrsAt(s, i, attrs) && AttrsAt(t, i, attrs)
    ensures SlashAmong(s, i, attrs) <==> SlashAmong(t, i, attrs)
    decreases attrs
  {
    hide *;
    SlashStep(s, i, attrs);
    SlashStep(t, i, attrs);
    if attrs.More? {
      assert s[i] == t[i];
      SlashPrefix(s, t, i + AttrLen(attrs.attr), attrs.rest);
    }
  }

  lemma TagPrefix(s: string, t: string, i: nat, tag: TagShape)
    requires s <= t && i + TagLen(tag) <= |s|
    ensures TagAt(s, i, tag) <==> TagAt(t, i, tag)
    ensures TagAt(s, i, tag) ==> (HasSlash(s, i, tag) <==> HasSlash(t, i, tag)) && NameOf(s, i, tag) == NameOf(t, i, tag)
  {
    hide HasAt, NameRun, AttrsAt, SlashAmong, Lower;
    RunsPrefix(s, t, i + 1, i + 1 + tag.name, ' ');
    assert t[..|s|] == s && s[i + 1..i + 1 + tag.name] == t[i + 1..i + 1 + tag.name];
    if TagLen(tag) >= 4 { HasAtPrefix(s, t, COMMENT_OPEN, i); }
    if TagLen(tag) >= 9 { HasAtPrefix(s, t, CDATA_OPEN, i); }
    if tag.WithAttrs? {
      AttrsPrefix(s, t, i + 2 + tag.name, tag.attrs);
      if AttrsAt(s, i + 2 + tag.name, tag.attrs) { SlashPrefix(s, t, i + 2 + tag.name, tag.attrs); }
    }
  }

  lemma DelimitedPrefix(s: string, t: string, i: nat, open: string, body: nat, close: string)
    requires s <= t && i + |open| + body + |close| <= |s|
    ensures Delimited(s, i, open, body, close) <==> Delimited(t, i, open, body, close)
  {
    var b := i + |open|;
    HasAtPrefix(s, t, open, i);
    HasAtPrefix(s, t, close, b + body);
    forall k | b <= k < b + body ensures HasAt(s, close, k) <==> HasAt(t, close, k) { HasAtPrefix(s, t, close, k); }
  }

  lemma RawPrefix(s: string, t: string, b: nat, raw: string, body: nat, junk: nat)
    requires s <= t && b + body + 2 + |raw| + junk < |s|
    ensures RawAt(s, b, raw, body, junk) <==> RawAt(t, b, raw, body, junk)
  {
    assert forall k :: 0 <= k < |s| ==> s[k] == t[k];
    forall k | b <= k <= b + body ensures CloseAt(s, k, raw) <==> CloseAt(t, k, raw) {
      assert s[k..k + 2 + |raw|] == t[k..k + 2 + |raw|];
    }
  }

  /** Whether a token stands at `i` depends on its own characters only. */
  lemma TokenPrefix(s: string, t: string, i: nat, tok: Token)
    requires s <= t && i + Len(tok) <= |s|
    ensures TokenAt(s, i, tok) <==> TokenAt(t, i, tok)
  {
    hide HasAt, TagAt, HasSlash, NameOf, IsRaw, RawAt, Delimited;
    match tok
    case Plain =>
    case Comment(body) => DelimitedPrefix(s, t, i, COMMENT_OPEN, body, COMMENT_CLOSE);
    case CData(body) => DelimitedPrefix(s, t, i, CDATA_OPEN, body, CDATA_CLOSE);
    case Tag(tag) => TagPrefix(s, t, i, tag);
    case RawElement(open, body, junk) =>
      TagPrefix(s, t, i, open);
      if TagAt(s, i, open) { RawPrefixOf(s, t, i, open, body, junk); }
  }

  lemma RawPrefixOf(s: string, t: string, i: nat, open: TagShape, body: nat, junk: nat)
    requires s <= t && i + Len(RawElement(open, body, junk)) <= |s| && TagAt(s, i, open) && TagAt(t, i, open)
    requires NameOf(s, i, open) == NameOf(t, i, open)
    ensures RawAt(s, i + TagLen(open), NameOf(s, i, open), body, junk)
       <==> RawAt(t, i + TagLen(open), NameOf(t, i, open), body, junk)
  {
    RawPrefix(s, t, i + TagLen(open), NameOf(s, i, open), body, junk);
  }

  lemma {:induction false} TokensPrefix(s: string, t: string, i: nat, toks: seq<Token>)
    requires s <= t && i + TotalLen(toks) <= |s|
    ensures TokensAt(s, i, toks) <==> TokensAt(t, i, toks)
    decreases |toks|
  {
    hide TokenAt;
    if toks != [] {
      TokenPrefix(s, t, i, toks[0]);
      TokensPrefix(s, t, i + Len(toks[0]), toks[1..]);
    }
  }

  /** MAIN: `t[..Cut]` is a sequence of complete tokens, and no longer prefix of `t` is one. */
  lemma CutIsLongestComplete(t: string)
    ensures Complete(t[..Cut(t, 0)])
    ensures forall n :: Cut(t, 0) < n <= |t| ==> !Complete(t[..n])
  {
    hide TokensAt, Cut;
    var c := Cut(t, 0);
    var toks := CutTokens(t, 0);
    TokensPrefix(t[..c], t, 0, toks);
    assert Complete(t[..c]);
    forall n | c < n <= |t| ensures !Complete(t[..n]) {
      if Complete(t[..n]) { CompleteIsWithinCut(t, n); }
    }
  }

  lemma CompleteIsWithinCut(t: string, n: nat)
    requires n <= |t| && Complete(t[..n])
    ensures n <= Cut(t, 0)
  {
    hide TokensAt, Cut;
    var toks: seq<Token> :| TokensAt(t[..n], 0, toks) && TotalLen(toks) == |t[..n]|;
    TokensPrefix(t[..n], t, 0, toks);
    CutPasses(t, 0, toks);
  }

  /** MAIN: as the stream grows the cut never moves back, and it is its own cut. */
  lemma CutIsPrefixStable(p: string, t: string)
    requires p <= t
    ensures Cut(p, 0) <= Cut(t, 0)
    ensures t[..Cut(p, 0)] <= t[..Cut(t, 0)]
    ensures Cut(t[..Cut(t, 0)], 0) == Cut(t, 0)
  {
    hide Complete, Cut;
    CutIsLongestComplete(p);
    CutIsLongestComplete(t);
    var c := Cut(p, 0);
    assert p[..c] == t[..c];
    var s := t[..Cut(t, 0)];
    CutIsLongestComplete(s);
    assert s[..|s|] == s;
  }
}
