/** The character tables behind stripping, splitting into lines and lower case, one by one. */
module Characters {
  import opened Lines
  import PlanText
  import PythonText
  import Text

  /** White space of Python's `strip` and `\s`. */
  const WHITE := "\t\n\U{B}\U{C}\r\U{1C}\U{1D}\U{1E}\U{1F} \U{85}\U{A0}\U{1680}\U{2000}\U{2001}\U{2002}\U{2003}\U{2004}\U{2005}\U{2006}\U{2007}\U{2008}\U{2009}\U{200A}\U{2028}\U{2029}\U{202F}\U{205F}\U{3000}"

  lemma SpaceIsWhite(c: char)
    ensures PythonText.IsSpace(c) <==> c in WHITE
  {
    if '\t' <= c <= '\r' { assert WHITE[c as int - 9] == c; }
    if '\U{1C}' <= c <= ' ' { assert WHITE[5 + (c as int - 0x1C)] == c; }
    if '\U{2000}' <= c <= '\U{200A}' { assert WHITE[13 + (c as int - 0x2000)] == c; }
    assert WHITE[10] == '\U{85}' && WHITE[11] == '\U{A0}' && WHITE[12] == '\U{1680}' && WHITE[24] == '\U{2028}';
    assert WHITE[25] == '\U{2029}' && WHITE[26] == '\U{202F}' && WHITE[27] == '\U{205F}' && WHITE[28] == '\U{3000}';
  }

  /** Where `splitlines` ends a line. */
  const LINE_ENDS := "\n\U{B}\U{C}\r\U{1C}\U{1D}\U{1E}\U{85}\U{2028}\U{2029}"

  lemma BreakIsLineEnd(c: char)
    ensures IsBreak(c) <==> c in LINE_ENDS
  {
    if '\n' <= c <= '\r' { assert LINE_ENDS[c as int - 10] == c; }
    if '\U{1C}' <= c <= '\U{1E}' { assert LINE_ENDS[4 + (c as int - 0x1C)] == c; }
    assert LINE_ENDS[7] == '\U{85}' && LINE_ENDS[8] == '\U{2028}' && LINE_ENDS[9] == '\U{2029}';
  }

  predicate NoLineEnd(s: string) { forall c <- s :: c !in LINE_ENDS }

  lemma OneLineIs(s: string)
    ensures OneLine(s) <==> NoLineEnd(s)
  {
    hide IsBreak, LINE_ENDS;
    forall c ensures IsBreak(c) <==> c in LINE_ENDS { BreakIsLineEnd(c); }
    if NoLineEnd(s) { forall k | 0 <= k < |s| ensures !IsBreak(s[k]) { assert s[k] in s; } }
  }

  /** MAIN: every line end splits the text, and a carriage return with a newline behind it does so once;
      text without any is one line. */
  lemma LineEndsSplit(line: string, c: char, rest: string)
    requires NoLineEnd(line)
    ensures c in LINE_ENDS && (c == '\r' && rest != "" ==> rest[0] != '\n') ==>
              SplitLines(line + ([c] + rest)) == [line] + SplitLines(rest)
    ensures SplitLines(line + ("\r\n" + rest)) == [line] + SplitLines(rest)
    ensures line != "" ==> SplitLines(line) == [line]
  {
    OneLineIs(line);
    BreakIsLineEnd(c);
    SplitFirst(line, rest);
    hide OneLine, LINE_ENDS;
    if IsBreak(c) && (c == '\r' && rest != "" ==> rest[0] != '\n') { OneEnd(line, c, rest); }
    TwoEnds(line, rest);
  }

  lemma OneEnd(line: string, c: char, rest: string)
    requires OneLine(line) && IsBreak(c) && (c == '\r' && rest != "" ==> rest[0] != '\n')
    ensures SplitLines(line + ([c] + rest)) == [line] + SplitLines(rest)
  {
    var s := line + ([c] + rest);
    assert s[..|line|] == line && s[|line|] == c && s[|line| + 1..] == rest;
    assert forall k :: 0 <= k < |line| ==> s[k] == line[k];
    assert rest != "" ==> s[|line| + 1] == rest[0];
    BreakIs(s, |line|);
    hide BreakAt, IsBreak, OneLine;
    BehindIs(s, |line|);
    SplitStep(s);
  }

  lemma TwoEnds(line: string, rest: string)
    requires OneLine(line)
    ensures SplitLines(line + ("\r\n" + rest)) == [line] + SplitLines(rest)
  {
    var s := line + ("\r\n" + rest);
    assert s[..|line|] == line && s[|line|] == '\r' && s[|line| + 1] == '\n' && s[|line| + 2..] == rest;
    assert forall k :: 0 <= k < |line| ==> s[k] == line[k];
    BreakIs(s, |line|);
    hide BreakAt, IsBreak, OneLine;
    BehindIs(s, |line|);
    SplitStep(s);
  }

  // ---------- lower case ----------

  const CAPITALS := "ABCDEFGHIJKLMNOPQRSTUVWXYZ"
  const SMALL := "abcdefghijklmnopqrstuvwxyz"

  /** The Russian capitals and small letters, in alphabetical order but for the last. */
  const RUSSIAN := "\U{410}\U{411}\U{412}\U{413}\U{414}\U{415}\U{416}\U{417}\U{418}\U{419}\U{41A}\U{41B}\U{41C}\U{41D}\U{41E}\U{41F}\U{420}\U{421}\U{422}\U{423}\U{424}\U{425}\U{426}\U{427}\U{428}\U{429}\U{42A}\U{42B}\U{42C}\U{42D}\U{42E}\U{42F}\U{401}"
  const RUSSIAN_SMALL := "\U{430}\U{431}\U{432}\U{433}\U{434}\U{435}\U{436}\U{437}\U{438}\U{439}\U{43A}\U{43B}\U{43C}\U{43D}\U{43E}\U{43F}\U{440}\U{441}\U{442}\U{443}\U{444}\U{445}\U{446}\U{447}\U{448}\U{449}\U{44A}\U{44B}\U{44C}\U{44D}\U{44E}\U{44F}\U{451}"

  lemma LatinIs(k: nat)
    requires k < 26
    ensures CAPITALS[k] as int == 'A' as int + k && SMALL[k] as int == 'a' as int + k
  {
  }

  lemma RussianIs(k: nat)
    requires k < 32
    ensures RUSSIAN[k] as int == 0x410 + k && RUSSIAN_SMALL[k] as int == 0x430 + k
  {
  }

  /** Lower case takes these capitals to their small letters. */
  lemma LowerIs(k: nat)
    ensures k < 26 ==> Text.LowerChar(CAPITALS[k]) == PlanText.LowerChar(CAPITALS[k]) == SMALL[k]
    ensures k < 33 ==> PlanText.LowerChar(RUSSIAN[k]) == RUSSIAN_SMALL[k]
  {
    if k < 26 { LatinIs(k); }
    if k < 32 { RussianIs(k); }
    assert RUSSIAN[32] == '\U{401}' && RUSSIAN_SMALL[32] == '\U{451}';
    hide CAPITALS, SMALL, RUSSIAN, RUSSIAN_SMALL;
  }

  /** And leaves everything else as it is. */
  lemma OthersStay(c: char)
    ensures c !in CAPITALS ==> Text.LowerChar(c) == c
    ensures c !in CAPITALS && c !in RUSSIAN ==> PlanText.LowerChar(c) == c
  {
    if 'A' <= c <= 'Z' { LatinIs(c as int - 'A' as int); assert CAPITALS[c as int - 'A' as int] == c; }
    if '\U{410}' <= c <= '\U{42F}' { RussianIs(c as int - 0x410); assert RUSSIAN[c as int - 0x410] == c; }
    assert RUSSIAN[32] == '\U{401}';
    hide CAPITALS, RUSSIAN;
  }
}
