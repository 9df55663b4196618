/** Reversible anonymization: minting tokens, replacing values by tokens in several passes, and
    restoring the text longest token first. */
module Anonymizer {
  import opened Decimal
  import opened Sequences

  // ---------- tokens ----------

  predicate IsKindChar(c: char) { 'A' <= c <= 'Z' || IsDigit(c) || c == '_' }

  function Token(kind: string, n: nat): string { kind + ("_" + Pad3(n)) }

  /** Runs of other characters become one underscore; `inRun` says that one was just written. */
  function Squeeze(upper: string, inRun: bool): string {
    if upper == "" then ""
    else if IsKindChar(upper[0]) then [upper[0]] + Squeeze(upper[1..], false)
    else (if inRun then "" else "_") + Squeeze(upper[1..], true)
  }

  function StripLeft(s: string): string { if s != "" && s[0] == '_' then StripLeft(s[1..]) else s }

  function StripRight(s: string): string {
    if s != "" && s[|s| - 1] == '_' then StripRight(s[..|s| - 1]) else s
  }

  /** The kind as it appears in tokens; `upper` is the upper-cased kind. */
  function SafeKind(upper: string): (k: string)
    ensures k != ""
  {
    var k := StripRight(StripLeft(Squeeze(upper, false)));
    if k == "" then "VALUE" else k
  }

  // ---------- the maps ----------

  datatype Masker = Masker(forward: map<string, string>, reverse: map<string, string>, counters: map<string, nat>)

  const EMPTY := Masker(map[], map[], map[])

  function Count(m: Masker, kind: string): nat { if kind in m.counters then m.counters[kind] else 0 }

  /** `_token_for`. */
  function Mint(m: Masker, value: string, upper: string): Masker {
    if value in m.forward then m
    else
      var kind := SafeKind(upper);
      var n := Count(m, kind) + 1;
      var token := Token(kind, n);
      Masker(m.forward[value := token], m.reverse[token := value], m.counters[kind := n])
  }

  /** `token` was numbered by a counter that has reached or passed its number. */
  ghost predicate Numbered(m: Masker, token: string) {
    exists kind, n: nat :: token == Token(kind, n) && 1 <= n <= Count(m, kind)
  }

  ghost predicate Ok(m: Masker) {
    && (forall v :: v in m.forward ==> m.forward[v] in m.reverse && m.reverse[m.forward[v]] == v)
    && (forall t :: t in m.reverse ==> m.reverse[t] in m.forward && m.forward[m.reverse[t]] == t)
    && (forall t :: t in m.reverse ==> Numbered(m, t))
    && "" !in m.counters
  }

  lemma TokenChars(kind: string, n: nat)
    ensures var t := Token(kind, n);
      |t| >= |kind| + 4 && t[|kind|] == '_' && forall i :: |kind| < i < |t| ==> IsDigit(t[i])
  {
    var t := Token(kind, n);
    forall i | |kind| < i < |t| ensures IsDigit(t[i]) { assert t[i] == Pad3(n)[i - |kind| - 1]; }
  }

  /** MAIN: a token tells its kind and its number. */
  lemma TokenInjective(k1: string, n1: nat, k2: string, n2: nat)
    requires n1 > 0 && n2 > 0 && Token(k1, n1) == Token(k2, n2)
    ensures k1 == k2 && n1 == n2
  {
    var t := Token(k1, n1);
    TokenChars(k1, n1);
    TokenChars(k2, n2);
    assert |k1| == |k2|;
    assert t[..|k1|] == k1 && t[..|k2|] == k2;
    assert t[|k1| + 1..] == Pad3(n1) && t[|k2| + 1..] == Pad3(n2);
    PadInjective(n1, n2);
  }

  /** MAIN: minting keeps the two maps mutual inverses, never changes a token already given, and
      gives every value its own token. */
  lemma MintKeepsOk(m: Masker, value: string, upper: string)
    requires Ok(m)
    ensures var r := Mint(m, value, upper);
      && Ok(r) && value in r.forward
      && (forall v :: v in m.forward ==> v in r.forward && r.forward[v] == m.forward[v])
      && (forall v :: v in r.forward ==> v in m.forward || v == value)
      && (forall u, v :: u in r.forward && v in r.forward && r.forward[u] == r.forward[v] ==> u == v)
  {
    if value !in m.forward {
      var kind := SafeKind(upper);
      var n := Count(m, kind) + 1;
      var r := Mint(m, value, upper);
      var token := Token(kind, n);
      if token in m.reverse {
        var k, j: nat :| token == Token(k, j) && 1 <= j <= Count(m, k);
        TokenInjective(kind, n, k, j);
      }
      assert Numbered(r, token) by { assert token == Token(kind, n) && 1 <= n <= Count(r, kind); }
      forall t | t in m.reverse ensures Numbered(r, t) {
        var k, j: nat :| t == Token(k, j) && 1 <= j <= Count(m, k);
        assert 1 <= j <= Count(r, k);
      }
    }
  }

  // ---------- replacing, in pieces ----------

  /** `len` characters after `skip` more characters are replaced by the token of `value`. */
  datatype Span = Span(skip: nat, len: nat, value: string)

  /** The text with every span replaced. */
  function Weave(forward: map<string, string>, text: string, spans: seq<Span>): string
    decreases |spans|
  {
    if spans == [] || spans[0].skip + spans[0].len > |text| || spans[0].value !in forward then text
    else
      text[..spans[0].skip] + (forward[spans[0].value] + Weave(forward, text[spans[0].skip + spans[0].len..], spans[1..]))
  }

  /** The text as placed tokens between untouched source text. */
  datatype Piece = Lit(text: string) | Tok(value: string)

  function Show(forward: map<string, string>, p: Piece): string {
    match p
    case Lit(text) => text
    case Tok(value) => if value in forward then forward[value] else value
  }

  function Render(forward: map<string, string>, ps: seq<Piece>): string {
    if ps == [] then "" else Show(forward, ps[0]) + Render(forward, ps[1..])
  }

  /** The source text that the pieces stand for. */
  function Source(ps: seq<Piece>): string {
    if ps == [] then "" else (match ps[0] case Lit(text) => text case Tok(value) => value) + Source(ps[1..])
  }

  /** Every span lies inside untouched text and covers exactly its value. */
  predicate Fits(forward: map<string, string>, ps: seq<Piece>, spans: seq<Span>)
    decreases |spans|, |ps|
  {
    spans == []
    || (ps != []
        && var span := spans[0];
           var n := |Show(forward, ps[0])|;
           if span.skip >= n then
             Fits(forward, ps[1..], [span.(skip := span.skip - n)] + spans[1..])
           else
             ps[0].Lit? && 0 < span.len && span.skip + span.len <= n
             && ps[0].text[span.skip..span.skip + span.len] == span.value
             && Fits(forward, [Lit(ps[0].text[span.skip + span.len..])] + ps[1..], spans[1..]))
  }

  /** The pieces after the replacement. */
  function Refine(forward: map<string, string>, ps: seq<Piece>, spans: seq<Span>): seq<Piece>
    requires Fits(forward, ps, spans)
    decreases |spans|, |ps|
  {
    if spans == [] then ps
    else
      var span := spans[0];
      var n := |Show(forward, ps[0])|;
      if span.skip >= n then
        [ps[0]] + Refine(forward, ps[1..], [span.(skip := span.skip - n)] + spans[1..])
      else
        [Lit(ps[0].text[..span.skip]), Tok(span.value)]
        + Refine(forward, [Lit(ps[0].text[span.skip + span.len..])] + ps[1..], spans[1..])
  }

  lemma {:induction false} RefineSource(forward: map<string, string>, ps: seq<Piece>, spans: seq<Span>)
    requires Fits(forward, ps, spans)
    ensures Source(Refine(forward, ps, spans)) == Source(ps)
    decreases |spans|, |ps|
  {
    if spans != [] {
      var span := spans[0];
      var n := |Show(forward, ps[0])|;
      hide Fits, Refine, Source, Show;
      if span.skip >= n {
        RefinePast(forward, ps, spans);
        RefineSource(forward, ps[1..], [span.(skip := span.skip - n)] + spans[1..]);
        SourcePast(forward, ps, spans);
      } else {
        RefineInside(forward, ps, spans);
        RefineSource(forward, [Lit(ps[0].text[span.skip + span.len..])] + ps[1..], spans[1..]);
        SourceInside(forward, ps, spans);
      }
    }
  }

  lemma SourcePast(forward: map<string, string>, ps: seq<Piece>, spans: seq<Span>)
    requires ps != [] && spans != [] && Fits(forward, ps, spans) && spans[0].skip >= |Show(forward, ps[0])|
    requires var more := [spans[0].(skip := spans[0].skip - |Show(forward, ps[0])|)] + spans[1..];
             Fits(forward, ps[1..], more) && Source(Refine(forward, ps[1..], more)) == Source(ps[1..])
    ensures Source(Refine(forward, ps, spans)) == Source(ps)
  {
    hide *;
    var more := [spans[0].(skip := spans[0].skip - |Show(forward, ps[0])|)] + spans[1..];
    RefinePast(forward, ps, spans);
    FirstAndRest(ps);
    SourceCons(ps[0], Refine(forward, ps[1..], more));
    SourceCons(ps[0], ps[1..]);
  }

  lemma SourceInside(forward: map<string, string>, ps: seq<Piece>, spans: seq<Span>)
    requires ps != [] && spans != [] && Fits(forward, ps, spans) && spans[0].skip < |Show(forward, ps[0])|
    requires ps[0].Lit? && spans[0].skip + spans[0].len <= |ps[0].text|
    requires var tail := [Lit(ps[0].text[spans[0].skip + spans[0].len..])] + ps[1..];
             Fits(forward, tail, spans[1..]) && Source(Refine(forward, tail, spans[1..])) == Source(tail)
    ensures Source(Refine(forward, ps, spans)) == Source(ps)
  {
    hide *;
    var s := ps[0].text;
    var tail := [Lit(s[spans[0].skip + spans[0].len..])] + ps[1..];
    RefineInside(forward, ps, spans);
    FirstAndRest(ps);
    SourceSplit(s, spans[0], ps[1..], Refine(forward, tail, spans[1..]));
    SourceCons(ps[0], ps[1..]);
  }

  lemma SourceCons(p: Piece, ps: seq<Piece>)
    ensures Source([p] + ps) == (match p case Lit(text) => text case Tok(value) => value) + Source(ps)
  {
    assert ([p] + ps)[1..] == ps;
  }

  lemma ThreeParts(s: string, span: Span, rest: string)
    requires span.skip + span.len <= |s| && s[span.skip..span.skip + span.len] == span.value
    ensures s[..span.skip] + (span.value + (s[span.skip + span.len..] + rest)) == s + rest
  {
  }

  lemma SourceSplit(s: string, span: Span, ps: seq<Piece>, r: seq<Piece>)
    requires span.skip + span.len <= |s| && s[span.skip..span.skip + span.len] == span.value
    requires Source(r) == Source([Lit(s[span.skip + span.len..])] + ps)
    ensures Source([Lit(s[..span.skip]), Tok(span.value)] + r) == s + Source(ps)
  {
    hide Source;
    var a, b := s[..span.skip], s[span.skip + span.len..];
    assert [Lit(a), Tok(span.value)] + r == [Lit(a)] + ([Tok(span.value)] + r);
    SourceCons(Lit(a), [Tok(span.value)] + r);
    SourceCons(Tok(span.value), r);
    SourceCons(Lit(b), ps);
    ThreeParts(s, span, Source(ps));
  }

  lemma WeavePast(forward: map<string, string>, p: Piece, rest: seq<Piece>, less: Span, more: seq<Span>, r: seq<Piece>)
    requires Weave(forward, Render(forward, rest), [less] + more) == Render(forward, r)
    ensures var span := less.(skip := less.skip + |Show(forward, p)|);
            Weave(forward, Show(forward, p) + Render(forward, rest), [span] + more) == Render(forward, [p] + r)
  {
    hide Weave, Render, Show;
    RenderCons(forward, p, r);
    WeaveSkips(forward, Show(forward, p), Render(forward, rest), less, more);
  }

  predicate Mapped(forward: map<string, string>, spans: seq<Span>) {
    forall k :: 0 <= k < |spans| ==> spans[k].value in forward
  }

  lemma RefinePast(forward: map<string, string>, ps: seq<Piece>, spans: seq<Span>)
    requires spans != [] && Fits(forward, ps, spans) && spans[0].skip >= |Show(forward, ps[0])|
    ensures var more := [spans[0].(skip := spans[0].skip - |Show(forward, ps[0])|)] + spans[1..];
            (Mapped(forward, spans) ==> Mapped(forward, more))
            && Fits(forward, ps[1..], more) && Refine(forward, ps, spans) == [ps[0]] + Refine(forward, ps[1..], more)
  {
  }

  lemma RefineInside(forward: map<string, string>, ps: seq<Piece>, spans: seq<Span>)
    requires spans != [] && Fits(forward, ps, spans) && spans[0].skip < |Show(forward, ps[0])|
    ensures ps[0].Lit? && spans[0].skip + spans[0].len <= |ps[0].text|
    ensures ps[0].text[spans[0].skip..spans[0].skip + spans[0].len] == spans[0].value
    ensures var tail := [Lit(ps[0].text[spans[0].skip + spans[0].len..])] + ps[1..];
            && (Mapped(forward, spans) ==> Mapped(forward, spans[1..]) && spans[0].value in forward)
            && Fits(forward, tail, spans[1..])
            && Refine(forward, ps, spans)
               == [Lit(ps[0].text[..spans[0].skip]), Tok(spans[0].value)] + Refine(forward, tail, spans[1..])
  {
  }

  lemma PastCase(forward: map<string, string>, ps: seq<Piece>, spans: seq<Span>)
    requires ps != [] && spans != [] && Fits(forward, ps, spans) && spans[0].skip >= |Show(forward, ps[0])|
    requires var more := [spans[0].(skip := spans[0].skip - |Show(forward, ps[0])|)] + spans[1..];
             Fits(forward, ps[1..], more)
             && Weave(forward, Render(forward, ps[1..]), more) == Render(forward, Refine(forward, ps[1..], more))
    ensures Weave(forward, Render(forward, ps), spans) == Render(forward, Refine(forward, ps, spans))
  {
    hide *;
    var span, n := spans[0], |Show(forward, ps[0])|;
    var less := span.(skip := span.skip - n);
    RenderFirst(forward, ps);
    RefinePast(forward, ps, spans);
    FirstAndRest(spans);
    MovedBack(span, n);
    WeavePast(forward, ps[0], ps[1..], less, spans[1..], Refine(forward, ps[1..], [less] + spans[1..]));
  }

  lemma FirstAndRest<T>(s: seq<T>)
    requires s != []
    ensures s == [s[0]] + s[1..]
  {
  }

  lemma MovedBack(span: Span, n: nat)
    requires span.skip >= n
    ensures var less := span.(skip := span.skip - n); less.(skip := less.skip + n) == span
  {
  }

  /** Replacing in the rendered text is replacing in the pieces. */
  lemma {:induction false} WeaveRefined(forward: map<string, string>, ps: seq<Piece>, spans: seq<Span>)
    requires Fits(forward, ps, spans) && Mapped(forward, spans)
    ensures Weave(forward, Render(forward, ps), spans) == Render(forward, Refine(forward, ps, spans))
    decreases |spans|, |ps|
  {
    if spans != [] {
      var span, n := spans[0], |Show(forward, ps[0])|;
      hide Weave, Render, Show, Refine, Fits, Mapped;
      if span.skip >= n {
        RefinePast(forward, ps, spans);
        WeaveRefined(forward, ps[1..], [span.(skip := span.skip - n)] + spans[1..]);
        PastCase(forward, ps, spans);
      } else {
        RefineInside(forward, ps, spans);
        var tail := [Lit(ps[0].text[span.skip + span.len..])] + ps[1..];
        WeaveRefined(forward, tail, spans[1..]);
        WeaveSplit(forward, ps, spans, Refine(forward, tail, spans[1..]));
      }
    }
  }

  lemma RenderFirst(forward: map<string, string>, ps: seq<Piece>)
    requires ps != []
    ensures Render(forward, ps) == Show(forward, ps[0]) + Render(forward, ps[1..])
    ensures ps[0].Lit? ==> Show(forward, ps[0]) == ps[0].text
  {
  }

  lemma RenderCons(forward: map<string, string>, p: Piece, ps: seq<Piece>)
    ensures Render(forward, [p] + ps) == Show(forward, p) + Render(forward, ps)
  {
    assert ([p] + ps)[1..] == ps;
  }

  lemma WeaveSkips(forward: map<string, string>, head: string, rest: string, less: Span, more: seq<Span>)
    ensures Weave(forward, head + rest, [less.(skip := less.skip + |head|)] + more)
         == head + Weave(forward, rest, [less] + more)
  {
    hide Weave;
    var span := less.(skip := less.skip + |head|);
    WeaveStep(forward, head + rest, span, more);
    WeaveStep(forward, rest, less, more);
    SpanMoves(|head|, |rest|, less);
    if less.skip + less.len <= |rest| && less.value in forward {
      SkipSlices(head, rest, less.skip, less.len);
      Associate(head, rest[..less.skip], forward[less.value] + Weave(forward, rest[less.skip + less.len..], more));
    }
  }

  lemma SpanMoves(head: nat, rest: nat, less: Span)
    ensures var span := less.(skip := less.skip + head);
            && span.len == less.len && span.value == less.value && span.skip == head + less.skip
            && (span.skip + span.len > head + rest <==> less.skip + less.len > rest)
  {
  }

  lemma WeaveStep(forward: map<string, string>, text: string, span: Span, more: seq<Span>)
    ensures Weave(forward, text, [span] + more)
         == if span.skip + span.len > |text| || span.value !in forward then text
            else text[..span.skip] + (forward[span.value] + Weave(forward, text[span.skip + span.len..], more))
  {
    assert ([span] + more)[1..] == more;
  }

  lemma SkipSlices(head: string, rest: string, skip: nat, len: nat)
    requires skip + len <= |rest|
    ensures (head + rest)[..|head| + skip] == head + rest[..skip]
    ensures (head + rest)[|head| + skip + len..] == rest[skip + len..]
  {
  }

  lemma WeaveFirst(forward: map<string, string>, s: string, rest: string, spans: seq<Span>)
    requires spans != [] && spans[0].skip + spans[0].len <= |s| && spans[0].value in forward
    ensures Weave(forward, s + rest, spans)
         == s[..spans[0].skip]
            + (forward[spans[0].value] + Weave(forward, s[spans[0].skip + spans[0].len..] + rest, spans[1..]))
  {
    assert (s + rest)[..spans[0].skip] == s[..spans[0].skip];
    assert (s + rest)[spans[0].skip + spans[0].len..] == s[spans[0].skip + spans[0].len..] + rest;
  }

  lemma WeaveSplit(forward: map<string, string>, ps: seq<Piece>, spans: seq<Span>, r: seq<Piece>)
    requires ps != [] && spans != [] && ps[0].Lit? && spans[0].skip + spans[0].len <= |ps[0].text|
    requires spans[0].value in forward
    requires Weave(forward, Render(forward, [Lit(ps[0].text[spans[0].skip + spans[0].len..])] + ps[1..]), spans[1..])
          == Render(forward, r)
    ensures Weave(forward, Render(forward, ps), spans)
         == Render(forward, [Lit(ps[0].text[..spans[0].skip]), Tok(spans[0].value)] + r)
  {
    hide Weave;
    var span, s, rest := spans[0], ps[0].text, Render(forward, ps[1..]);
    var a, b := s[..span.skip], s[span.skip + span.len..];
    RenderCons(forward, Lit(b), ps[1..]);
    WeaveFirst(forward, s, rest, spans);
    assert [Lit(a), Tok(span.value)] + r == [Lit(a)] + ([Tok(span.value)] + r);
    RenderCons(forward, Lit(a), [Tok(span.value)] + r);
    RenderCons(forward, Tok(span.value), r);
  }
}
