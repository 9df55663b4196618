/** How much of a growing HTML stream may be rendered: `findSafeCut`, against a token grammar.

    `FindSafeCut` is the character-by-character state machine. `Cut` is the same decision taken
    one complete token at a time. `Token` and `Print` are an independent grammar of complete
    tokens; the main theorem says that the cut is the length of the longest prefix of the text
    that the grammar generates. */
module SafeCut {
  import opened Text

  // ---------- characters and names ----------

  predicate IsWs(c: char) { c == ' ' || c == '\t' || c == '\n' || c == '\r' }

  predicate IsNameChar(c: char) { !IsWs(c) && c != '>' }

  predicate IsQuote(c: char) { c == '"' || c == '\'' }

  /** Names that a lookup in the raw-tag object finds. The object is a plain literal, so the two
      inherited all-lower-case properties are found as well. */
  predicate IsRaw(name: string) {
    name == "script" || name == "style" || name == "constructor" || name == "__proto__"
  }

  const COMMENT_OPEN := "<!--"
  const COMMENT_CLOSE := "-->"
  const CDATA_OPEN := "<![CDATA["
  const CDATA_CLOSE := "]]>"

  // ---------- the decision, one token at a time ----------

  datatype Phase = InName | InAttr | InValueStart | InQuoted(quote: char) | InUnquoted

  /** `slash`: a '/' was met outside attribute values, as a closing or a self-closing mark. */
  datatype Scan = Scan(phase: Phase, name: string, slash: bool)

  datatype TagScan = Unfinished | Closed(end: nat, name: string, slash: bool)

  /** Reading one more character of a tag, when that character does not close it. */
  function Read(c: char, s: Scan): Scan {
    match s.phase
    case InName =>
      if c == '/' then s.(slash := true)
      else if IsWs(c) then s.(phase := InAttr)
      else s.(name := s.name + [c])
    case InAttr =>
      if c == '/' then s.(slash := true) else if c == '=' then s.(phase := InValueStart) else s
    case InValueStart =>
      if IsWs(c) then s else s.(phase := if IsQuote(c) then InQuoted(c) else InUnquoted)
    case InQuoted(q) => if c == q then s.(phase := InAttr) else s
    case InUnquoted => if IsWs(c) then s.(phase := InAttr) else s
  }

  /** How the tag that is being read at `i` ends: at the first '>' outside a quoted value. */
  function ScanTag(t: string, i: nat, s: Scan): (r: TagScan)
    ensures r.Closed? ==> i < r.end <= |t| && t[r.end - 1] == '>'
    decreases |t| - i
  {
    if i >= |t| then Unfinished
    else if t[i] == '>' && !s.phase.InQuoted? then Closed(i + 1, s.name, s.slash)
    else ScanTag(t, i + 1, Read(t[i], s))
  }

  const TAG_START := Scan(InName, "", false)

  /** A closing mark `</raw` starts at `i`, in any letter case. */
  predicate CloseAt(t: string, i: nat, raw: string) {
    i + 2 + |raw| <= |t| && Lower(t[i..i + 2 + |raw|]) == "</" + raw
  }

  function FindClose(t: string, i: nat, raw: string): (r: int)
    ensures -1 <= r
    ensures r != -1 ==> i <= r && CloseAt(t, r, raw)
    decreases |t| - i
  {
    if i >= |t| then -1 else if CloseAt(t, i, raw) then i else FindClose(t, i + 1, raw)
  }

  /** End of the raw-text element whose content starts at `i`, or -1. */
  function RawEnd(t: string, i: nat, raw: string): (r: int)
    ensures r == -1 || i < r <= |t|
  {
    var k := FindClose(t, i, raw);
    if k == -1 then -1
    else
      var g := IndexOf(t, ">", k + 2 + |raw|);
      if g == -1 then -1 else g + 1
  }

  /** The position after the first `close` at or after `from`, or -1. */
  function EndAfter(t: string, close: string, from: nat): (r: int)
    ensures r == -1 || from + |close| <= r <= |t|
  {
    var k := IndexOf(t, close, from);
    if k == -1 then -1 else k + |close|
  }

  /** End of the token that starts at `i`, or -1 while it is unfinished. */
  function UnitEnd(t: string, i: nat): (r: int)
    requires i < |t|
    ensures r == -1 || i < r <= |t|
  {
    if t[i] != '<' then i + 1
    else if HasAt(t, COMMENT_OPEN, i) then EndAfter(t, COMMENT_CLOSE, i + 4)
    else if HasAt(t, CDATA_OPEN, i) then EndAfter(t, CDATA_CLOSE, i + 9)
    else TagUnitEnd(t, i)
  }

  function TagUnitEnd(t: string, i: nat): (r: int)
    requires i < |t|
    ensures r == -1 || i < r <= |t|
  {
    match ScanTag(t, i + 1, TAG_START)
    case Unfinished => -1
    case Closed(end, name, slash) =>
      if !slash && IsRaw(Lower(name)) then RawEnd(t, end, Lower(name)) else end
  }

  function Cut(t: string, i: nat): (c: nat)
    requires i <= |t|
    ensures i <= c <= |t|
    decreases |t| - i
  {
    if i == |t| then i
    else if UnitEnd(t, i) == -1 then i
    else Cut(t, UnitEnd(t, i))
  }

  // ---------- the state machine ----------

  datatype State = TEXT | TAG | ATTR_NAME | ATTR_VAL_START | ATTR_VAL_Q | ATTR_VAL_U | RAW

  function PhaseOf(state: State, quote: char): Phase
  {
    match state
    case TAG => InName
    case ATTR_VAL_START => InValueStart
    case ATTR_VAL_Q => InQuoted(quote)
    case ATTR_VAL_U => InUnquoted
    case _ => InAttr
  }

  /** What the machine remembers of the tag it is reading. */
  datatype TagVars = TagVars(quote: char, nameBuf: string, nameEnd: bool, closing: bool, selfClosing: bool)

  function Resume(t: string, i: nat, state: State, v: TagVars): TagScan {
    ScanTag(t, i, Scan(PhaseOf(state, v.quote), v.nameBuf, v.closing || v.selfClosing))
  }

  /** One turn of the loop in one of the five tag states; `TEXT` and `RAW` as the new state mean
      that the tag has just been closed. */
  method TagStep(text: string, i: nat, state: State, v: TagVars)
    returns (i': nat, state': State, v': TagVars)
    requires i < |text| && !state.TEXT? && !state.RAW?
    requires state.TAG? ==> !v.nameEnd
    ensures i <= i' <= i + 1
    ensures i' == i ==> (state.ATTR_VAL_START? || state.ATTR_VAL_U?) && state'.ATTR_NAME?
    ensures state'.TAG? ==> !v'.nameEnd
    ensures state'.TEXT? || state'.RAW? ==>
        i' == i + 1 && v' == v
        && Resume(text, i, state, v) == Closed(i', v.nameBuf, v.closing || v.selfClosing)
        && (state'.RAW? <==> !v.closing && !v.selfClosing && IsRaw(Lower(v.nameBuf)))
    ensures !state'.TEXT? && !state'.RAW? ==>
        Resume(text, i, state, v) == Resume(text, i', state', v')
  {
    i', state', v' := i + 1, state, v;
    var ch := text[i];
    if (state == TAG || state == ATTR_NAME) && ch == '>' {
      var raw := !v.closing && !v.selfClosing && IsRaw(Lower(v.nameBuf));
      state' := if raw then RAW else TEXT;
    } else {
      match state
      case TAG =>
        if ch == '/' {
          if v.nameBuf == "" && !v.nameEnd {
            v' := v.(closing := true);
          } else {
            v' := v.(selfClosing := true);
          }
        } else if IsWs(ch) {
          v', state' := v.(nameEnd := true), ATTR_NAME;
        } else if !v.nameEnd {
          v' := v.(nameBuf := v.nameBuf + [ch]);
        }
      case ATTR_NAME =>
        if ch == '/' {
          v' := v.(selfClosing := true);
        } else if ch == '=' {
          state' := ATTR_VAL_START;
        }
      case ATTR_VAL_START =>
        if IsWs(ch) {
        } else if ch == '"' || ch == '\'' {
          v', state' := v.(quote := ch), ATTR_VAL_Q;
        } else if ch == '>' {
          i', state' := i, ATTR_NAME;
        } else {
          state' := ATTR_VAL_U;
        }
      case ATTR_VAL_Q =>
        if ch == v.quote { state' := ATTR_NAME; }
      case ATTR_VAL_U =>
        if IsWs(ch) {
          state' := ATTR_NAME;
        } else if ch == '>' {
          i', state' := i, ATTR_NAME;
        }
    }
  }

  /** The loop variables beside the two positions. */
  datatype Machine = Machine(state: State, v: TagVars, rawTag: string)

  /** A tag, not a comment or CDATA section, starts at `at`. */
  ghost predicate TagStartsAt(t: string, at: nat) {
    at < |t| && t[at] == '<' && !HasAt(t, COMMENT_OPEN, at) && !HasAt(t, CDATA_OPEN, at)
  }

  /** At position `i` the machine is reading the token that starts at `start`. */
  ghost predicate Reading(t: string, start: nat, i: nat, m: Machine) {
    start <= i <= |t|
    && (if m.state.TEXT? then i == start
        else
          start < i && TagStartsAt(t, start) && (m.state.TAG? ==> !m.v.nameEnd)
          && var scan := ScanTag(t, start + 1, TAG_START);
          if m.state.RAW? then
            scan.Closed? && !scan.slash && Lower(scan.name) == m.rawTag && IsRaw(m.rawTag)
            && FindClose(t, scan.end, m.rawTag) == FindClose(t, i, m.rawTag)
          else scan == Resume(t, i, m.state, m.v))
  }

  /** One turn of the loop; `stop` is the early exit from it. */
  method Turn(text: string, i: nat, safeCut: nat, m: Machine)
    returns (i': nat, safeCut': nat, m': Machine, stop: bool)
    requires i < |text| && Reading(text, safeCut, i, m)
    ensures stop ==> safeCut' == safeCut && UnitEnd(text, safeCut) == -1
    ensures !stop ==> Reading(text, safeCut', i', m')
    ensures !stop ==> i < i' || (i == i' && m'.state.ATTR_NAME?
                                 && (m.state.ATTR_VAL_START? || m.state.ATTR_VAL_U?))
    ensures safeCut' == safeCut || UnitEnd(text, safeCut) == safeCut'
  {
    hide IsRaw, Read, Lower, ScanTag, IndexOf, HasAt;
    i', safeCut', m', stop := i + 1, safeCut, m, false;
    if m.state == RAW {
      var marker := "</" + m.rawTag;
      if CloseAt(text, i, m.rawTag) {
        var end := IndexOf(text, ">", i + |marker|);
        if end == -1 {
          stop := true;
        } else {
          i', safeCut', m' := end + 1, end + 1, m.(state := TEXT, rawTag := "");
        }
      }
    } else if m.state == TEXT {
      if text[i] != '<' {
        safeCut' := i + 1;
      } else if HasAt(text, COMMENT_OPEN, i) {
        var ce := IndexOf(text, COMMENT_CLOSE, i + 4);
        if ce == -1 { stop := true; } else { i', safeCut' := ce + 3, ce + 3; }
      } else if HasAt(text, CDATA_OPEN, i) {
        var ke := IndexOf(text, CDATA_CLOSE, i + 9);
        if ke == -1 { stop := true; } else { i', safeCut' := ke + 3, ke + 3; }
      } else {
        m' := Machine(TAG, TagVars(m.v.quote, "", false, false, false), m.rawTag);
      }
    } else {
      var state', v';
      i', state', v' := TagStep(text, i, m.state, m.v);
      m' := Machine(state', v', if state' == RAW then Lower(v'.nameBuf) else m.rawTag);
      if state' == TEXT { safeCut' := i'; }
    }
  }

  lemma UnfinishedAtEnd(t: string, start: nat, m: Machine)
    requires Reading(t, start, |t|, m) && start < |t|
    ensures UnitEnd(t, start) == -1
  {
  }

  method FindSafeCut(text: string) returns (safeCut: nat)
    ensures safeCut == Cut(text, 0)
  {
    var i := 0;
    var m := Machine(TEXT, TagVars('"', "", false, false, false), "");
    safeCut := 0;
    while i < |text|
      invariant Reading(text, safeCut, i, m)
      invariant Cut(text, 0) == Cut(text, safeCut)
      decreases |text| - i, if m.state.ATTR_VAL_START? || m.state.ATTR_VAL_U? then 1 else 0
    {
      var stop;
      i, safeCut, m, stop := Turn(text, i, safeCut, m);
      if stop { return; }
    }
    if safeCut < |text| { UnfinishedAtEnd(text, safeCut, m); }
  }
}
