/** Restoring an anonymized text: `deanonymize_text` undoes `anonymize_text`. */
module Restoring {
  import opened Anonymizer
  import opened Decimal
  import opened Sequences
  import opened Text

  // ---------- the passes ----------

  /** A pattern pass with its matches, the pass for a bare domain, and a literal pass. Pattern
      matching itself is outside the model: a pass carries what it matched. */
  datatype Pass =
    | Matches(spans: seq<Span>, upper: string)
    | Domain(cleaned: string, matches: seq<Span>)
    | Literal(value: string, upper: string)

  /** The occurrences of a literal, left to right, not overlapping. */
  function Occurrences(text: string, p: string): seq<Span>
    requires p != ""
    decreases |text|
  {
    var i := IndexOf(text, p, 0);
    if i == -1 then [] else [Span(i, |p|, p)] + Occurrences(text[i + |p|..], p)
  }

  function WithValue(spans: seq<Span>, value: string): (r: seq<Span>)
    ensures |r| == |spans| && forall k :: 0 <= k < |r| ==> r[k] == spans[k].(value := value)
  {
    seq(|spans|, k requires 0 <= k < |spans| => spans[k].(value := value))
  }

  function SpansOf(pass: Pass, text: string): seq<Span> {
    match pass
    case Matches(spans, _) => spans
    case Domain(cleaned, matches) => WithValue(matches, cleaned)
    case Literal(value, _) => if value == "" then [] else Occurrences(text, value)
  }

  function MintSpans(m: Masker, spans: seq<Span>, upper: string): Masker
    decreases |spans|
  {
    if spans == [] then m else MintSpans(Mint(m, spans[0].value, upper), spans[1..], upper)
  }

  function MintPass(m: Masker, pass: Pass): Masker {
    match pass
    case Matches(spans, upper) => MintSpans(m, spans, upper)
    case Domain(cleaned, _) => Mint(m, cleaned, "DOMAIN")
    case Literal(value, upper) => if value == "" then m else Mint(m, value, upper)
  }

  /** The maps and the text after all passes. */
  function RunPasses(m: Masker, text: string, passes: seq<Pass>): (Masker, string)
    decreases |passes|
  {
    if passes == [] then (m, text)
    else
      var m' := MintPass(m, passes[0]);
      RunPasses(m', Weave(m'.forward, text, SpansOf(passes[0], text)), passes[1..])
  }

  /** No match of any pass touches a token placed before, and each covers exactly its value. */
  predicate Clean(m: Masker, ps: seq<Piece>, passes: seq<Pass>)
    decreases |passes|
  {
    passes == []
    || (var m' := MintPass(m, passes[0]);
        var spans := SpansOf(passes[0], Render(m.forward, ps));
        Fits(m'.forward, ps, spans) && Clean(m', Refine(m'.forward, ps, spans), passes[1..]))
  }

  function FinalPieces(m: Masker, ps: seq<Piece>, passes: seq<Pass>): seq<Piece>
    requires Clean(m, ps, passes)
    decreases |passes|
  {
    if passes == [] then ps
    else
      var m' := MintPass(m, passes[0]);
      var spans := SpansOf(passes[0], Render(m.forward, ps));
      FinalPieces(m', Refine(m'.forward, ps, spans), passes[1..])
  }

  predicate Known(forward: map<string, string>, ps: seq<Piece>) {
    forall k :: 0 <= k < |ps| && ps[k].Tok? ==> ps[k].value in forward
  }

  ghost predicate Grows(m: Masker, r: Masker) {
    Ok(r) && forall v :: v in m.forward ==> v in r.forward && r.forward[v] == m.forward[v]
  }

  lemma {:induction false} MintSpansGrows(m: Masker, spans: seq<Span>, upper: string)
    requires Ok(m)
    ensures var r := MintSpans(m, spans, upper);
      Grows(m, r) && forall k :: 0 <= k < |spans| ==> spans[k].value in r.forward
    decreases |spans|
  {
    hide Ok, Mint;
    if spans != [] {
      var m1 := Mint(m, spans[0].value, upper);
      MintKeepsOk(m, spans[0].value, upper);
      MintSpansGrows(m1, spans[1..], upper);
      var r := MintSpans(m, spans, upper);
      forall k | 0 <= k < |spans| ensures spans[k].value in r.forward {
        if k > 0 { assert spans[1..][k - 1] == spans[k]; }
      }
    }
  }

  lemma {:induction false} OccurrencesAre(text: string, p: string)
    requires p != ""
    ensures forall k :: 0 <= k < |Occurrences(text, p)| ==> Occurrences(text, p)[k].value == p
    decreases |text|
  {
    var i := IndexOf(text, p, 0);
    if i != -1 { OccurrencesAre(text[i + |p|..], p); }
  }

  lemma MintPassGrows(m: Masker, pass: Pass, text: string)
    requires Ok(m)
    ensures var r := MintPass(m, pass);
      Grows(m, r) && forall k :: 0 <= k < |SpansOf(pass, text)| ==> SpansOf(pass, text)[k].value in r.forward
  {
    hide Ok, Mint, Occurrences;
    match pass
    case Matches(spans, upper) => MintSpansGrows(m, spans, upper);
    case Domain(cleaned, matches) => MintKeepsOk(m, cleaned, "DOMAIN");
    case Literal(value, upper) =>
      if value != "" {
        MintKeepsOk(m, value, upper);
        OccurrencesAre(text, value);
      }
  }

  lemma {:induction false} RenderGrows(m: Masker, r: Masker, ps: seq<Piece>)
    requires Grows(m, r) && Known(m.forward, ps)
    ensures Render(r.forward, ps) == Render(m.forward, ps) && Known(r.forward, ps)
    decreases |ps|
  {
    if ps != [] {
      assert forall k :: 0 <= k < |ps| - 1 ==> ps[1..][k] == ps[k + 1];
      RenderGrows(m, r, ps[1..]);
    }
  }

  lemma {:induction false} RefineKnown(forward: map<string, string>, ps: seq<Piece>, spans: seq<Span>)
    requires Fits(forward, ps, spans) && Known(forward, ps)
    requires forall k :: 0 <= k < |spans| ==> spans[k].value in forward
    ensures Known(forward, Refine(forward, ps, spans))
    decreases |spans|, |ps|
  {
    if spans != [] {
      var span := spans[0];
      var n := |Show(forward, ps[0])|;
      if span.skip >= n {
        RefineKnown(forward, ps[1..], [span.(skip := span.skip - n)] + spans[1..]);
      } else {
        RefineKnown(forward, [Lit(ps[0].text[span.skip + span.len..])] + ps[1..], spans[1..]);
      }
    }
  }

  /** Running clean passes is refining the pieces; the source they stand for does not change. */
  lemma {:induction false} RunIsRender(m: Masker, ps: seq<Piece>, passes: seq<Pass>)
    requires Ok(m) && Known(m.forward, ps) && Clean(m, ps, passes)
    ensures var (r, masked) := RunPasses(m, Render(m.forward, ps), passes);
      var final := FinalPieces(m, ps, passes);
      Ok(r) && masked == Render(r.forward, final) && Source(final) == Source(ps) && Known(r.forward, final)
    decreases |passes|
  {
    hide Ok, MintPass, SpansOf, Fits, Refine, Weave, Render, Source, Known;
    if passes != [] {
      var text := Render(m.forward, ps);
      var m' := MintPass(m, passes[0]);
      var spans := SpansOf(passes[0], text);
      MintPassGrows(m, passes[0], text);
      RenderGrows(m, m', ps);
      WeaveRefined(m'.forward, ps, spans);
      RefineSource(m'.forward, ps, spans);
      RefineKnown(m'.forward, ps, spans);
      RunIsRender(m', Refine(m'.forward, ps, spans), passes[1..]);
    }
  }

  // ---------- restoring ----------

  /** `str.replace` and `re.sub` of a literal. */
  function ReplaceAll(s: string, p: string, r: string): string
    requires p != ""
    decreases |s|
  {
    var i := IndexOf(s, p, 0);
    if i == -1 then s else s[..i] + (r + ReplaceAll(s[i + |p|..], p, r))
  }

  ghost predicate LongestFirst(order: seq<string>) {
    forall i, j :: 0 <= i < j < |order| ==> |order[j]| <= |order[i]|
  }

  /** All tokens, none before a longer one. */
  ghost predicate IsOrder(order: seq<string>, tokens: set<string>) {
    (forall t :: t in order <==> t in tokens) && LongestFirst(order)
  }

  function RestoreOne(reverse: map<string, string>, token: string, text: string): string {
    if token != "" && token in reverse then ReplaceAll(text, token, reverse[token]) else text
  }

  function RestoreIn(reverse: map<string, string>, order: seq<string>, text: string): string
    decreases |order|
  {
    if order == [] then text else RestoreIn(reverse, order[1..], RestoreOne(reverse, order[0], text))
  }

  // ---------- tokens that cannot run into each other ----------

  /** `u` can begin `d` characters into `t`: the two agree wherever both have a character. */
  predicate Meets(t: string, u: string, d: nat) {
    d < |t| && forall i :: 0 <= i < |u| && d + i < |t| ==> t[d + i] == u[i]
  }

  /** Neither can begin inside the other, unless they are the same token at the same place. */
  ghost predicate Apart(t: string, u: string) {
    forall d: nat :: Meets(t, u, d) || Meets(u, t, d) ==> d == 0 && t == u
  }

  /** No two tokens, nor one with itself, can share characters at different places. */
  ghost predicate Separated(tokens: set<string>) { forall t, u :: t in tokens && u in tokens ==> Apart(t, u) }

  /** Two such tokens that share a character in some text are the same token at the same place. */
  lemma OverlapIsEqual(w: string, t: string, k: nat, u: string, m: nat)
    requires Apart(t, u) && HasAt(w, t, k) && HasAt(w, u, m) && k < m + |u| && m < k + |t|
    ensures k == m && t == u
  {
    hide Meets, HasAt;
    if k <= m { SharedMeets(w, t, k, u, m); } else { SharedMeets(w, u, m, t, k); }
  }

  lemma SharedMeets(w: string, t: string, k: nat, u: string, m: nat)
    requires HasAt(w, t, k) && HasAt(w, u, m) && k <= m < k + |t|
    ensures Meets(t, u, m - k)
  {
    HasAtChars(w, t, k);
    HasAtChars(w, u, m);
    var d := m - k;
    assert forall i :: 0 <= i < |u| && d + i < |t| ==> w[k + (d + i)] == t[d + i] && w[m + i] == u[i];
  }

  // ---------- good kinds have separated tokens ----------

  predicate NoDigit(s: string) { forall k :: 0 <= k < |s| ==> !IsDigit(s[k]) }

  /** A digit-free kind, an underscore and three digits. */
  predicate Shaped(t: string) {
    |t| >= 5 && t[|t| - 4] == '_' && IsDigit(t[|t| - 3]) && IsDigit(t[|t| - 2]) && IsDigit(t[|t| - 1])
    && NoDigit(t[..|t| - 4])
  }

  predicate ProperSuffix(s: string, t: string) { |s| < |t| && t[|t| - |s|..] == s }

  /** The kind of `u` is not a proper suffix of the kind of `t`. */
  predicate NotSuffix(t: string, u: string) {
    |t| >= 4 && |u| >= 4 ==> !ProperSuffix(u[..|u| - 4], t[..|t| - 4])
  }

  /** No kind contains a digit or is a proper suffix of another, and no counter has left three
      digits. */
  predicate GoodKinds(m: Masker) {
    && (forall k :: k in m.counters ==> NoDigit(k) && m.counters[k] < 1000)
    && (forall j, k :: j in m.counters && k in m.counters ==> !ProperSuffix(j, k))
  }

  lemma GoodTokens(m: Masker, t: string) returns (kind: string)
    requires Ok(m) && GoodKinds(m) && t in m.reverse
    ensures Shaped(t) && kind in m.counters && t[..|t| - 4] == kind
  {
    var k, n: nat :| t == Token(k, n) && 1 <= n <= Count(m, k);
    kind := k;
    PadDigits(n);
    TokenChars(k, n);
    assert t[..|t| - 4] == k;
  }

  /** Two shaped tokens that share a character in some text are the same token at the same place,
      when the one is not shorter and its kind does not end with the other's kind. */
  lemma ShapedOverlap(w: string, t: string, k: nat, u: string, m: nat)
    requires Shaped(t) && Shaped(u) && |u| <= |t|
    requires NotSuffix(t, u)
    requires HasAt(w, t, k) && HasAt(w, u, m) && k < m + |u| && m < k + |t|
    ensures k == m && t == u
  {
    SameEnd(w, t, k, u, m);
    SameEnd(w, u, m, t, k);
    assert w[k..k + |t|] == t && w[m..m + |u|] == u;
    var d := |t| - |u|;
    assert t[d..] == u;
    assert t[..|t| - 4][d..] == u[..|u| - 4];
  }

  /** Neither ends inside the other: its last digits would meet an underscore there. */
  lemma SameEnd(w: string, t: string, k: nat, u: string, m: nat)
    requires Shaped(t) && Shaped(u)
    requires HasAt(w, t, k) && HasAt(w, u, m) && k < m + |u| && m < k + |t|
    ensures k + |t| >= m + |u|
  {
    HasAtChars(w, t, k);
    HasAtChars(w, u, m);
    var e := k + |t| - 1;
    assert IsDigit(w[k + (|t| - 1)]) && IsDigit(w[k + (|t| - 2)]) && IsDigit(w[k + (|t| - 3)]);
    assert forall i :: 0 <= i < |u| - 4 ==> !IsDigit(u[..|u| - 4][i]) && u[..|u| - 4][i] == u[i];
    assert e < m + |u| ==> w[m + (e - m)] == u[e - m];
    assert e < m + |u| && e - 1 >= m ==> w[m + (e - 1 - m)] == u[e - 1 - m];
    assert e < m + |u| && e - 2 >= m ==> w[m + (e - 2 - m)] == u[e - 2 - m];
  }

  lemma ShapedApart(t: string, u: string, d: nat)
    requires Shaped(t) && Shaped(u) && NotSuffix(t, u) && NotSuffix(u, t) && Meets(t, u, d)
    ensures d == 0 && t == u
  {
    var w := if d + |u| <= |t| then t else t + u[|t| - d..];
    HasAtChars(w, t, 0);
    HasAtChars(w, u, d);
    assert forall i :: 0 <= i < |t| ==> w[0 + i] == t[i];
    assert forall i :: 0 <= i < |u| ==> w[d + i] == u[i];
    hide HasAt, Shaped, Meets;
    if |u| <= |t| { ShapedOverlap(w, t, 0, u, d); } else { ShapedOverlap(w, u, d, t, 0); }
  }

  /** MAIN: the tokens of digit-free kinds, none a proper suffix of another, with counters below 1000,
      are separated. */
  lemma GoodKindsSeparate(m: Masker)
    requires Ok(m) && GoodKinds(m)
    ensures Separated(m.reverse.Keys)
  {
    forall t, u, d: nat | t in m.reverse && u in m.reverse && Meets(t, u, d) ensures d == 0 && t == u {
      var j := GoodTokens(m, t);
      var k := GoodTokens(m, u);
      ShapedApart(t, u, d);
    }
    hide Meets;
  }

  // ---------- tokens stand only where they were placed ----------

  /** A placed token `t` starts at position `k` of the rendered pieces. */
  predicate Starts(forward: map<string, string>, ps: seq<Piece>, t: string, k: int)
    decreases |ps|
  {
    ps != []
    && ((k == 0 && ps[0].Tok? && Show(forward, ps[0]) == t)
        || Starts(forward, ps[1..], t, k - |Show(forward, ps[0])|))
  }

  /** The length of the untouched text before the first placed token. */
  function Lead(ps: seq<Piece>): nat
    decreases |ps|
  {
    if ps == [] || ps[0].Tok? then 0 else |ps[0].text| + Lead(ps[1..])
  }

  lemma {:induction false} LeadIsSource(forward: map<string, string>, ps: seq<Piece>)
    ensures var n := Lead(ps);
      n <= |Render(forward, ps)| && n <= |Source(ps)| && Render(forward, ps)[..n] == Source(ps)[..n]
    decreases |ps|
  {
    if ps != [] && ps[0].Lit? {
      LeadIsSource(forward, ps[1..]);
      var n := Lead(ps[1..]);
      assert Render(forward, ps)[..|ps[0].text| + n] == ps[0].text + Render(forward, ps[1..])[..n];
      assert Source(ps)[..|ps[0].text| + n] == ps[0].text + Source(ps[1..])[..n];
    }
  }

  lemma {:induction false} LeadIsFollowed(forward: map<string, string>, ps: seq<Piece>) returns (v: string)
    requires Known(forward, ps)
    ensures Lead(ps) < |Render(forward, ps)| ==>
        Tok(v) in ps && v in forward && HasAt(Render(forward, ps), forward[v], Lead(ps))
    decreases |ps|
  {
    v := "";
    if ps != [] {
      var rest := Render(forward, ps[1..]);
      if ps[0].Tok? {
        v := ps[0].value;
        assert (forward[v] + rest)[0..|forward[v]|] == forward[v];
      } else {
        assert forall k :: 0 <= k < |ps| - 1 ==> ps[1..][k] == ps[k + 1];
        v := LeadIsFollowed(forward, ps[1..]);
        ShiftHas(ps[0].text, rest, if v in forward then forward[v] else "", Lead(ps[1..]));
      }
    }
  }

  lemma ShiftHas(a: string, b: string, p: string, i: nat)
    ensures HasAt(a + b, p, |a| + i) <==> HasAt(b, p, i)
  {
    if i + |p| <= |b| { assert (a + b)[|a| + i..|a| + i + |p|] == b[i..i + |p|]; }
  }

  /** The tokens placed are apart from `t`. */
  ghost predicate Below(forward: map<string, string>, ps: seq<Piece>, t: string) {
    Known(forward, ps) && t != "" && forall v :: Tok(v) in ps ==> Apart(t, forward[v])
  }

  /** Every occurrence of `t` in the rendered text is a placed one, unless `t` occurs in the source. */
  lemma {:induction false} OnlyWherePlaced(forward: map<string, string>, ps: seq<Piece>, t: string, k: nat)
    requires Below(forward, ps, t) && !Contains(Source(ps), t) && HasAt(Render(forward, ps), t, k)
    ensures Starts(forward, ps, t, k)
    decreases |ps|
  {
    var w := Render(forward, ps);
    if ps != [] {
      var head, rest := Show(forward, ps[0]), Render(forward, ps[1..]);
      TailBelow(forward, ps, t);
      if k >= |head| {
        ShiftHas(head, rest, t, k - |head|);
        OnlyWherePlaced(forward, ps[1..], t, k - |head|);
      } else if ps[0].Tok? {
        assert Tok(ps[0].value) in ps && w[0..|head|] == head;
        OverlapIsEqual(w, t, k, head, 0);
      } else {
        NotInLead(forward, ps, t, k);
      }
    }
  }

  lemma TailBelow(forward: map<string, string>, ps: seq<Piece>, t: string)
    requires ps != [] && Below(forward, ps, t) && !Contains(Source(ps), t)
    ensures Below(forward, ps[1..], t) && !Contains(Source(ps[1..]), t)
  {
    assert forall k :: 0 <= k < |ps| - 1 ==> ps[1..][k] == ps[k + 1];
    assert forall v :: Tok(v) in ps[1..] ==> Tok(v) in ps;
    var head := match ps[0] case Lit(text) => text case Tok(value) => value;
    forall i: nat ensures !HasAt(Source(ps[1..]), t, i) {
      ShiftHas(head, Source(ps[1..]), t, i);
      assert !HasAt(Source(ps), t, |head| + i);
    }
  }

  lemma SliceOfPrefix(s: string, n: nat, k: nat, m: nat)
    requires k + m <= n <= |s|
    ensures s[..n][k..k + m] == s[k..k + m]
  {
  }

  /** An occurrence cannot begin in the untouched text at the front. */
  lemma NotInLead(forward: map<string, string>, ps: seq<Piece>, t: string, k: nat)
    requires Below(forward, ps, t) && !Contains(Source(ps), t) && k < Lead(ps)
    ensures !HasAt(Render(forward, ps), t, k)
  {
    var w, n := Render(forward, ps), Lead(ps);
    LeadIsSource(forward, ps);
    var v := LeadIsFollowed(forward, ps);
    if k + |t| <= n {
      SliceOfPrefix(Source(ps), n, k, |t|);
      SliceOfPrefix(w, n, k, |t|);
      assert !HasAt(Source(ps), t, k);
    } else if n < |w| && HasAt(w, t, k) {
      OverlapIsEqual(w, t, k, forward[v], n);
    }
  }

  // ---------- one restoring replacement, and all of them ----------

  /** The pieces after the value `v` has been restored. */
  function Resolve(ps: seq<Piece>, v: string): seq<Piece>
    decreases |ps|
  {
    if ps == [] then []
    else [if ps[0] == Tok(v) then Lit(v) else ps[0]] + Resolve(ps[1..], v)
  }

  lemma {:induction false} ResolveKeeps(ps: seq<Piece>, v: string)
    ensures Source(Resolve(ps, v)) == Source(ps)
    ensures forall u :: Tok(u) in Resolve(ps, v) ==> Tok(u) in ps && u != v
    decreases |ps|
  {
    if ps != [] {
      ResolveKeeps(ps[1..], v);
      var p := if ps[0] == Tok(v) then Lit(v) else ps[0];
      SourceCons(p, Resolve(ps[1..], v));
      forall u | Tok(u) in Resolve(ps, v) ensures Tok(u) in ps && u != v {
        if Tok(u) in Resolve(ps[1..], v) { assert Tok(u) in ps[1..]; }
      }
    }
  }

  lemma {:induction false} ReplaceJoin(a: string, b: string, p: string, r: string)
    requires p != "" && forall k: nat :: k < |a| < k + |p| ==> !HasAt(a + b, p, k)
    ensures ReplaceAll(a + b, p, r) == ReplaceAll(a, p, r) + ReplaceAll(b, p, r)
    decreases |a|
  {
    hide HasAt, IndexOf, ReplaceAll;
    var i := IndexOf(a, p, 0);
    JoinIndex(a, b, p);
    ReplaceStep(a, p, r);
    ReplaceStep(a + b, p, r);
    if i == -1 {
      ReplaceLater(a, b, p, r);
    } else {
      var rest := a[i + |p|..];
      forall k: nat | k < |rest| < k + |p| ensures !HasAt(rest + b, p, k) {
        DropJoin(a, b, i + |p|);
        SuffixHasAt(a + b, p, i + |p|, i + |p| + k);
      }
      ReplaceJoin(rest, b, p, r);
      DropJoin(a, b, i + |p|);
      assert (a + b)[..i] == a[..i];
      FourParts(a[..i], r, ReplaceAll(rest, p, r), ReplaceAll(b, p, r));
    }
  }

  lemma DropJoin(a: string, b: string, i: nat)
    requires i <= |a|
    ensures (a + b)[i..] == a[i..] + b
  {
  }

  lemma FourParts(a: string, b: string, c: string, d: string)
    ensures a + (b + (c + d)) == (a + (b + c)) + d
  {
  }

  lemma ReplaceLater(a: string, b: string, p: string, r: string)
    requires p != "" && IndexOf(a + b, p, 0) == if IndexOf(b, p, 0) == -1 then -1 else |a| + IndexOf(b, p, 0)
    requires IndexOf(a, p, 0) == -1
    ensures ReplaceAll(a + b, p, r) == ReplaceAll(a, p, r) + ReplaceAll(b, p, r)
  {
    hide ReplaceAll, IndexOf, HasAt;
    ReplaceStep(a, p, r);
    ReplaceStep(b, p, r);
    ReplaceStep(a + b, p, r);
    var i := IndexOf(b, p, 0);
    if i != -1 {
      SkipSlices(a, b, i, |p|);
      Associate(a, b[..i], r + ReplaceAll(b[i + |p|..], p, r));
    }
  }

  lemma ReplaceStep(s: string, p: string, r: string)
    requires p != ""
    ensures var i := IndexOf(s, p, 0);
      ReplaceAll(s, p, r) == if i == -1 then s else s[..i] + (r + ReplaceAll(s[i + |p|..], p, r))
  {
    hide IndexOf, HasAt;
  }

  lemma {:induction false} ReplacePlaced(m: Masker, ps: seq<Piece>, t: string)
    requires Ok(m) && t in m.reverse && Below(m.forward, ps, t) && !Contains(Source(ps), t)
    ensures ReplaceAll(Render(m.forward, ps), t, m.reverse[t]) == Render(m.forward, Resolve(ps, m.reverse[t]))
    decreases |ps|
  {
    var v := m.reverse[t];
    if ps == [] {
      NotFound("", t, 0);
    } else {
      var head, rest := Show(m.forward, ps[0]), Render(m.forward, ps[1..]);
      var p := if ps[0] == Tok(v) then Lit(v) else ps[0];
      TailBelow(m.forward, ps, t);
      ReplacePlaced(m, ps[1..], t);
      forall k: nat | k < |head| < k + |t| ensures !HasAt(head + rest, t, k) {
        if HasAt(head + rest, t, k) { NoStraddle(m.forward, ps, t, k); }
      }
      ReplaceJoin(head, rest, t, v);
      RenderCons(m.forward, p, Resolve(ps[1..], v));
      ReplaceHead(m, ps, t);
    }
  }

  lemma NoStraddle(forward: map<string, string>, ps: seq<Piece>, t: string, k: nat)
    requires ps != [] && Below(forward, ps, t) && !Contains(Source(ps), t)
    requires k < |Show(forward, ps[0])|
    ensures HasAt(Render(forward, ps), t, k) ==> k == 0 && Show(forward, ps[0]) == t
  {
    if HasAt(Render(forward, ps), t, k) {
      OnlyWherePlaced(forward, ps, t, k);
      StartsLater(forward, ps[1..], t, k - |Show(forward, ps[0])|);
    }
  }

  lemma {:induction false} StartsLater(forward: map<string, string>, ps: seq<Piece>, t: string, k: int)
    requires k < 0
    ensures !Starts(forward, ps, t, k)
    decreases |ps|
  {
    if ps != [] { StartsLater(forward, ps[1..], t, k - |Show(forward, ps[0])|); }
  }

  lemma ReplaceHead(m: Masker, ps: seq<Piece>, t: string)
    requires Ok(m) && t in m.reverse && ps != [] && Below(m.forward, ps, t) && !Contains(Source(ps), t)
    ensures var v := m.reverse[t];
      ReplaceAll(Show(m.forward, ps[0]), t, v) == Show(m.forward, if ps[0] == Tok(v) then Lit(v) else ps[0])
  {
    var head, v := Show(m.forward, ps[0]), m.reverse[t];
    if ps[0] == Tok(v) {
      assert head == t && t[0..|t|] == t;
      FirstIs(head, t, 0, 0);
      assert t[|t|..] == "" && v + "" == v && t[..0] == "";
      NotFound("", t, 0);
    } else {
      NoneInHead(m, ps, t);
      NotFound(head, t, 0);
    }
  }

  lemma NoneInHead(m: Masker, ps: seq<Piece>, t: string)
    requires Ok(m) && t in m.reverse && ps != [] && Below(m.forward, ps, t) && !Contains(Source(ps), t)
    requires ps[0] != Tok(m.reverse[t])
    ensures forall k: nat :: !HasAt(Show(m.forward, ps[0]), t, k)
  {
    var head, rest := Show(m.forward, ps[0]), Render(m.forward, ps[1..]);
    assert ps[0].Tok? ==> ps[0].value in m.forward && m.reverse[head] == ps[0].value;
    forall k: nat ensures !HasAt(head, t, k) {
      if k + |t| <= |head| {
        assert (head + rest)[k..k + |t|] == head[k..k + |t|];
        NoStraddle(m.forward, ps, t, k);
        NotInHead(m.forward, ps, t, k);
      }
    }
  }

  lemma NotInHead(forward: map<string, string>, ps: seq<Piece>, t: string, k: nat)
    requires ps != [] && Below(forward, ps, t) && !Contains(Source(ps), t) && k < |Show(forward, ps[0])|
    ensures HasAt(Render(forward, ps), t, k) ==> ps[0].Tok?
  {
    if HasAt(Render(forward, ps), t, k) && ps[0].Lit? { NotInLead(forward, ps, t, k); }
  }

  /** The tokens of `order` are apart from each other, none occurs in the source of `ps`, and they
      include all tokens placed in `ps`. */
  ghost predicate Restorable(m: Masker, order: seq<string>, ps: seq<Piece>) {
    && Known(m.forward, ps)
    && (forall t :: t in order ==> t in m.reverse && t != "" && !Contains(Source(ps), t))
    && (forall t, u :: t in order && u in order ==> Apart(t, u))
    && (forall v :: Tok(v) in ps ==> m.forward[v] in order)
  }

  lemma {:induction false} RestoreAll(m: Masker, order: seq<string>, ps: seq<Piece>)
    requires Ok(m) && Restorable(m, order, ps)
    ensures RestoreIn(m.reverse, order, Render(m.forward, ps)) == Source(ps)
    decreases |order|
  {
    if order == [] {
      forall p | p in ps ensures p.Lit? { match p case Lit(_) => case Tok(v) => }
      AllLit(m.forward, ps);
    } else {
      RestoreStep(m, order, ps);
      hide Restorable, Ok, Render, Source, Resolve;
      RestoreAll(m, order[1..], Resolve(ps, m.reverse[order[0]]));
    }
  }

  lemma RestoreStep(m: Masker, order: seq<string>, ps: seq<Piece>)
    requires Ok(m) && order != [] && Restorable(m, order, ps)
    ensures order[0] in m.reverse
    ensures var t := order[0];
      var ps' := Resolve(ps, m.reverse[t]);
      && RestoreOne(m.reverse, t, Render(m.forward, ps)) == Render(m.forward, ps')
      && Source(ps') == Source(ps) && Restorable(m, order[1..], ps')
  {
    var t := order[0];
    assert t in order && t != "";
    assert Below(m.forward, ps, t);
    ReplacePlaced(m, ps, t);
    ResolveKeeps(ps, m.reverse[t]);
    StillRestorable(m, order, ps, Resolve(ps, m.reverse[t]));
  }

  lemma OthersKeepTheirTokens(m: Masker, t: string)
    requires Ok(m) && t in m.reverse
    ensures forall u :: u in m.forward && u != m.reverse[t] ==> m.forward[u] != t
  {
  }

  lemma StillRestorable(m: Masker, order: seq<string>, ps: seq<Piece>, ps': seq<Piece>)
    requires Ok(m) && order != [] && Restorable(m, order, ps) && order[0] in m.reverse
    requires Source(ps') == Source(ps)
    requires forall u :: Tok(u) in ps' ==> Tok(u) in ps && u != m.reverse[order[0]]
    ensures Restorable(m, order[1..], ps')
  {
    hide Apart, Contains, Source, Ok;
    assert forall t :: t in order[1..] ==> t in order;
    OthersKeepTheirTokens(m, order[0]);
    PlacedAmongRest(m.forward, order, ps, ps', m.reverse[order[0]]);
  }

  lemma PlacedAmongRest(forward: map<string, string>, order: seq<string>, ps: seq<Piece>, ps': seq<Piece>, v: string)
    requires order != [] && Known(forward, ps) && forall u :: Tok(u) in ps ==> forward[u] in order
    requires forall u :: Tok(u) in ps' ==> Tok(u) in ps && u != v
    requires forall u :: u in forward && u != v ==> forward[u] != order[0]
    ensures Known(forward, ps') && forall u :: Tok(u) in ps' ==> forward[u] in order[1..]
  {
    forall u | Tok(u) in ps' ensures u in forward && forward[u] in order[1..] {
      assert Tok(u) in ps;
      assert forward[u] in order && forward[u] != order[0];
    }
    forall k | 0 <= k < |ps'| && ps'[k].Tok? ensures ps'[k].value in forward { assert Tok(ps'[k].value) in ps'; }
  }

  lemma {:induction false} AllLit(forward: map<string, string>, ps: seq<Piece>)
    requires forall p :: p in ps ==> p.Lit?
    ensures Render(forward, ps) == Source(ps)
    decreases |ps|
  {
    if ps != [] {
      AllLit(forward, ps[1..]);
    }
  }

  ghost predicate TokenFree(m: Masker, s: string) { forall t :: t in m.reverse ==> !Contains(s, t) }

  /** MAIN: with separated tokens every text of source and placed tokens is restored, in whatever order
      the tokens are taken. */
  lemma RestorePieces(m: Masker, order: seq<string>, ps: seq<Piece>)
    requires Ok(m) && Separated(m.reverse.Keys) && Known(m.forward, ps) && TokenFree(m, Source(ps))
    requires forall t :: t in order <==> t in m.reverse
    ensures RestoreIn(m.reverse, order, Render(m.forward, ps)) == Source(ps)
  {
    forall t | t in m.reverse ensures t != "" { var k, n: nat :| t == Token(k, n) && 1 <= n <= Count(m, k); }
    forall v | Tok(v) in ps ensures m.forward[v] in order {
      var k :| 0 <= k < |ps| && ps[k] == Tok(v);
    }
    RestoreAll(m, order, ps);
  }

  /** MAIN: restoring undoes anonymizing, for every text, every anonymizer state and every list of
      passes, when no match touches a placed token, and the tokens are separated and do not occur in
      the source. The maps may have grown since, by anonymizing other texts. */
  lemma RoundTrip(m: Masker, text: string, passes: seq<Pass>, later: Masker, order: seq<string>)
    requires Ok(m) && Clean(m, [Lit(text)], passes) && Grows(RunPasses(m, text, passes).0, later)
    requires Separated(later.reverse.Keys) && TokenFree(later, text)
    requires forall t :: t in order <==> t in later.reverse
    ensures RestoreIn(later.reverse, order, RunPasses(m, text, passes).1) == text
  {
    var ps := [Lit(text)];
    assert Render(m.forward, ps) == text && Source(ps) == text by {
      assert ps[1..] == [] && text + "" == text;
    }
    RunIsRender(m, ps, passes);
    var final := FinalPieces(m, ps, passes);
    hide *;
    RenderGrows(RunPasses(m, text, passes).0, later, final);
    RestorePieces(later, order, final);
  }

  // ---------- kinds that end with other kinds ----------

  lemma FirstOfOne(a: string, c: char, b: string)
    requires c !in a
    ensures IndexOf(a + ([c] + b), [c], 0) == |a|
  {
    var w := a + ([c] + b);
    assert w[|a|..|a| + 1] == [c];
    hide IndexOf;
    forall k: nat | k < |a| ensures !HasAt(w, [c], k) { HasAtChars(w, [c], k); assert w[k + 0] == a[k]; }
    FirstIs(w, [c], 0, |a|);
  }

  lemma NoneOfOne(c: char, b: string)
    requires c !in b
    ensures IndexOf(b, [c], 0) == -1
  {
    hide IndexOf;
    forall k: nat ensures !HasAt(b, [c], k) { if k < |b| { HasAtChars(b, [c], k); assert b[k + 0] != c; } }
    NotFound(b, [c], 0);
  }

  lemma OneOccurrence(a: string, c: char, b: string)
    requires c !in a && c !in b
    ensures Occurrences(a + ([c] + b), [c]) == [Span(|a|, 1, [c])]
  {
    var w := a + ([c] + b);
    assert w[|a| + 1..] == b;
    FirstOfOne(a, c, b);
    NoneOfOne(c, b);
    hide IndexOf, HasAt;
    assert Occurrences(b, [c]) == [];
  }

  lemma WeaveOne(forward: map<string, string>, a: string, c: char, b: string)
    requires [c] in forward
    ensures Weave(forward, a + ([c] + b), [Span(|a|, 1, [c])]) == a + (forward[[c]] + b)
  {
    var w, span := a + ([c] + b), Span(|a|, 1, [c]);
    assert Weave(forward, b, []) == b;
    hide Weave;
    assert w[..|a|] == a && w[|a| + 1..] == b && |w| == |a| + 1 + |b|;
    WeaveStep(forward, w, span, []);
    assert [span] + [] == [span];
  }

  lemma FitsOne(forward: map<string, string>, a: string, c: char, b: string, rest: seq<Piece>)
    ensures Fits(forward, [Lit(a + ([c] + b))] + rest, [Span(|a|, 1, [c])])
  {
    var w := a + ([c] + b);
    assert w[|a|..|a| + 1] == [c];
    assert Fits(forward, [Lit(w[|a| + 1..])] + rest, []);
  }

  /** A kind that `SafeKind` leaves alone and that has no digit. */
  predicate PlainKind(k: string) { k != "" && SafeKind(k) == k && NoDigit(k) && forall i :: 0 <= i < |k| ==> IsKindChar(k[i]) }

  lemma FirstToken(m: Masker, value: string, kind: string)
    requires PlainKind(kind) && value !in m.forward && kind !in m.counters
    ensures var t := kind + "_001";
      Mint(m, value, kind) == Masker(m.forward[value := t], m.reverse[t := value], m.counters[kind := 1])
  {
    assert Pad3(1) == "001" by { assert Digits(1) == "1"; }
    assert Token(kind, 1) == kind + "_001";
  }

  lemma ReplaceAt(s: string, p: string, r: string, i: nat)
    requires p != "" && IndexOf(s, p, 0) == i
    ensures i + |p| <= |s| && ReplaceAll(s, p, r) == s[..i] + (r + ReplaceAll(s[i + |p|..], p, r))
  {
    hide HasAt;
  }

  lemma ReplaceNone(s: string, p: string, r: string)
    requires p != "" && |s| < |p|
    ensures ReplaceAll(s, p, r) == s
  {
    NotFound(s, p, 0);
  }

  lemma ReplaceFirst(t: string, rest: string, r: string)
    requires t != ""
    ensures ReplaceAll(t + rest, t, r) == r + ReplaceAll(rest, t, r)
  {
    var w := t + rest;
    assert w[0..|t|] == t;
    FirstIs(w, t, 0, 0);
    hide IndexOf, HasAt, ReplaceAll;
    ReplaceAt(w, t, r, 0);
    assert w[|t|..] == rest && w[..0] == "";
    assert "" + (r + ReplaceAll(rest, t, r)) == r + ReplaceAll(rest, t, r);
  }

  lemma ReplaceAfterSpace(t: string, r: string)
    requires t != "" && t[0] != ' '
    ensures ReplaceAll(" " + t, t, r) == " " + r
  {
    var v := " " + t;
    HasAtChars(v, t, 0);
    assert v[0 + 0] != t[0] && v[1..1 + |t|] == t;
    FirstIs(v, t, 0, 1);
    ReplaceNone("", t, r);
    hide IndexOf, HasAt, ReplaceAll;
    ReplaceAt(v, t, r, 1);
    assert v[1 + |t|..] == "" && v[..1] == " " && r + "" == r;
  }

  /** Restoring the colliding text: the longer token matches where only the shorter was placed. */
  lemma CollisionRestores(t: string, u: string)
    requires |t| >= 4 && |u| >= 4 && t[0] != ' '
    ensures ReplaceAll(ReplaceAll(t + (" " + t), t, "a"), u, "b") == "a a"
  {
    hide ReplaceAll;
    ReplaceFirst(t, " " + t, "a");
    ReplaceAfterSpace(t, "a");
    assert "a" + (" " + "a") == "a a";
    ReplaceNone("a a", u, "b");
  }

  /** MAIN: the condition on suffixes is needed. For any two kinds of which one is a proper suffix of
      the other, some clean run without tokens in the source and with small counters does not
      restore its text. */
  lemma SuffixKindsBreak(x: string, kind: string)
    requires x != "" && PlainKind(kind) && PlainKind(x + kind)
    ensures var text := "a " + (x + "b");
      var passes := [Literal("a", x + kind), Literal("b", kind)];
      var (r, masked) := RunPasses(EMPTY, text, passes);
      var order := [x + kind + "_001", kind + "_001"];
      && Clean(EMPTY, [Lit(text)], passes) && IsOrder(order, r.reverse.Keys)
      && (forall t :: t in r.reverse ==> !Contains(text, t))
      && (forall k :: k in r.counters ==> NoDigit(k) && r.counters[k] < 1000)
      && RestoreIn(r.reverse, order, masked) != text
  {
    var long := x + kind;
    var t, u := long + "_001", kind + "_001";
    var text, masked := "a " + (x + "b"), t + (" " + t);
    var p1, p2 := Literal("a", long), Literal("b", kind);
    var m1 := Masker(map["a" := t], map[t := "a"], map[long := 1]);
    var m2 := Masker(map["a" := t, "b" := u], map[t := "a", u := "b"], map[long := 1, kind := 1]);
    CollisionMints(x, kind, m1, m2);
    CollisionTexts(x, kind);
    CollisionTable(t, u, long, kind, text, m2);
    hide *;
    CollisionRuns(m1, m2, p1, p2, t, u, x);
    CleanCollision(m1, m2, p1, p2, t, x);
    TwoRestore(m2.reverse, t, u, masked);
  }

  /** The tokens of the two kinds, and what is known about them. */
  lemma CollisionTable(t: string, u: string, long: string, kind: string, text: string, m: Masker)
    requires |kind| < |long| && t == long + "_001" && u == kind + "_001" && NoDigit(text)
    requires NoDigit(long) && NoDigit(kind)
    requires m == Masker(map["a" := t, "b" := u], map[t := "a", u := "b"], map[long := 1, kind := 1])
    ensures IsOrder([t, u], m.reverse.Keys) && m.reverse[t] == "a" && m.reverse[u] == "b"
    ensures forall v :: v in m.reverse ==> !Contains(text, v)
    ensures forall k :: k in m.counters ==> NoDigit(k) && m.counters[k] < 1000
  {
    assert t[|t| - 1] == '1' && u[|u| - 1] == '1' && t != u && long != kind;
    NoDigitsNoToken(text, t);
    NoDigitsNoToken(text, u);
    hide Contains, NoDigit;
  }

  lemma CollisionMints(x: string, kind: string, m1: Masker, m2: Masker)
    requires x != "" && PlainKind(kind) && PlainKind(x + kind)
    requires var t := x + kind + "_001"; var u := kind + "_001";
      && m1 == Masker(map["a" := t], map[t := "a"], map[x + kind := 1])
      && m2 == Masker(map["a" := t, "b" := u], map[t := "a", u := "b"], map[x + kind := 1, kind := 1])
    ensures MintPass(EMPTY, Literal("a", x + kind)) == m1 && MintPass(m1, Literal("b", kind)) == m2
  {
    hide PlainKind, Mint;
    FirstToken(EMPTY, "a", x + kind);
    FirstToken(m1, "b", kind);
  }

  lemma CollisionTexts(x: string, kind: string)
    requires PlainKind(kind) && PlainKind(x + kind)
    ensures var t := x + kind + "_001"; var text := "a " + (x + "b");
      && 'a' !in x && 'b' !in x && 'b' !in t && t[0] != ' '
      && NoDigit(text) && NoDigit(x + kind) && |text| >= 3
      && t + (" " + t) == t + (" " + (x + (kind + "_001")))
      && (x != "" ==> text != "a a")
  {
    hide SafeKind;
    var long, t := x + kind, x + kind + "_001";
    assert forall i :: 0 <= i < |x| ==> x[i] == long[i];
    assert forall i :: 0 <= i < |t| ==> t[i] == if i < |long| then long[i] else "_001"[i - |long|];
    var text := "a " + (x + "b");
    assert forall i :: 0 <= i < |text| ==> text[i] == if i < 2 then "a "[i] else if i < 2 + |x| then x[i - 2] else 'b';
  }

  lemma CollisionRuns(m1: Masker, m2: Masker, p1: Pass, p2: Pass, t: string, u: string, x: string)
    requires p1.Literal? && p1.value == "a" && p2.Literal? && p2.value == "b" && 'b' !in t && 'b' !in x && 'a' !in x
    requires MintPass(EMPTY, p1) == m1 && MintPass(m1, p2) == m2
    requires m1.forward == map["a" := t] && m2.forward == map["a" := t, "b" := u]
    ensures RunPasses(EMPTY, "a " + (x + "b"), [p1, p2]) == (m2, t + (" " + (x + u)))
  {
    var after, before := " " + (x + "b"), t + (" " + x);
    CollisionSplits(t, u, x);
    hide Weave, MintPass, Occurrences, RunPasses;
    LiteralWeave(m1.forward, p1, "", 'a', after);
    LiteralWeave(m2.forward, p2, before, 'b', "");
    TwoPasses(m1, m2, p1, p2, "a " + (x + "b"), t + after, t + (" " + (x + u)));
  }

  lemma CollisionSplits(t: string, u: string, x: string)
    ensures var after, before := " " + (x + "b"), t + (" " + x);
      && "a " + (x + "b") == "" + (['a'] + after) && "" + (t + after) == t + after == before + (['b'] + "")
      && before + (u + "") == t + (" " + (x + u))
  {
  }

  lemma LiteralWeave(forward: map<string, string>, p: Pass, a: string, c: char, b: string)
    requires p.Literal? && p.value == [c] && [c] in forward && c !in a && c !in b
    ensures Weave(forward, a + ([c] + b), SpansOf(p, a + ([c] + b))) == a + (forward[[c]] + b)
  {
    OneOccurrence(a, c, b);
    hide Occurrences, Weave;
    WeaveOne(forward, a, c, b);
  }

  lemma TwoPasses(m1: Masker, m2: Masker, p1: Pass, p2: Pass, text: string, text1: string, text2: string)
    requires MintPass(EMPTY, p1) == m1 && MintPass(m1, p2) == m2
    requires Weave(m1.forward, text, SpansOf(p1, text)) == text1
    requires Weave(m2.forward, text1, SpansOf(p2, text1)) == text2
    ensures RunPasses(EMPTY, text, [p1, p2]) == (m2, text2)
  {
    hide Weave, MintPass, SpansOf;
    assert [p1, p2][1..] == [p2] && [p2][1..] == [];
    assert RunPasses(m2, text2, []) == (m2, text2);
    assert RunPasses(m1, text1, [p2]) == (m2, text2);
  }

  lemma TwoRestore(reverse: map<string, string>, t: string, u: string, masked: string)
    requires |t| >= 4 && |u| >= 4 && t[0] != ' ' && masked == t + (" " + t)
    requires t in reverse && u in reverse && reverse[t] == "a" && reverse[u] == "b"
    ensures RestoreIn(reverse, [t, u], masked) == "a a"
  {
    CollisionRestores(t, u);
    hide ReplaceAll;
    assert [t, u][1..] == [u] && [u][1..] == [];
    assert RestoreIn(reverse, [], "a a") == "a a";
    assert RestoreIn(reverse, [u], RestoreOne(reverse, t, masked)) == "a a";
  }

  lemma NoDigitsNoToken(text: string, t: string)
    requires NoDigit(text) && |t| > 0 && IsDigit(t[|t| - 1])
    ensures !Contains(text, t)
  {
    forall k: nat ensures !HasAt(text, t, k) {
      if k + |t| <= |text| { HasAtChars(text, t, k); assert !IsDigit(text[k + (|t| - 1)]); }
    }
  }

  lemma CleanCollision(m1: Masker, m2: Masker, p1: Pass, p2: Pass, t: string, x: string)
    requires p1.Literal? && p1.value == "a" && p2.Literal? && p2.value == "b" && 'b' !in t && 'b' !in x && 'a' !in x
    requires MintPass(EMPTY, p1) == m1 && MintPass(m1, p2) == m2
    requires m1.forward == map["a" := t] && "a" in m2.forward && m2.forward["a"] == t
    ensures Clean(EMPTY, [Lit("a " + (x + "b"))], [p1, p2])
  {
    var after := " " + (x + "b");
    var text := "a " + (x + "b");
    assert text == "" + (['a'] + after) && text[..0] == "" && text[1..] == after && text[0..1] == "a";
    assert [Lit(text)][1..] == [] && Render(EMPTY.forward, [Lit(text)]) == text + "" == text;
    OneOccurrence("", 'a', after);
    FirstFits(m1.forward, text, after);
    CleanSecond(m1, m2, p2, t, x);
    assert [p1, p2][1..] == [p2];
    hide Render, Fits, Refine, Occurrences, MintPass;
  }

  lemma FirstFits(forward: map<string, string>, text: string, after: string)
    requires text[..0] == "" && text != "" && text[1..] == after && text[0..1] == "a"
    ensures Fits(forward, [Lit(text)], [Span(0, 1, "a")])
    ensures Refine(forward, [Lit(text)], [Span(0, 1, "a")]) == [Lit(""), Tok("a"), Lit(after)]
  {
    var ps, spans := [Lit(text)], [Span(0, 1, "a")];
    assert [Lit(after)] + ps[1..] == [Lit(after)] && spans[1..] == [];
    assert Fits(forward, [Lit(after)], []) && Refine(forward, [Lit(after)], []) == [Lit(after)];
  }

  lemma CleanSecond(m1: Masker, m2: Masker, p2: Pass, t: string, x: string)
    requires p2.Literal? && p2.value == "b" && 'b' !in t && 'b' !in x && MintPass(m1, p2) == m2
    requires m1.forward == map["a" := t] && "a" in m2.forward && m2.forward["a"] == t
    ensures Clean(m1, [Lit(""), Tok("a"), Lit(" " + (x + "b"))], [p2])
  {
    var after := " " + (x + "b");
    var ps1 := [Lit(""), Tok("a"), Lit(after)];
    var before := t + (" " + x);
    assert ps1[1..] == [Tok("a"), Lit(after)] && ps1[1..][1..] == [Lit(after)] && [Lit(after)][1..] == [];
    SecondText(m1, t, x);
    SecondFits(m2, t, x);
    OneOccurrence(before, 'b', "");
    hide Render, Fits, Occurrences;
    assert [p2][1..] == [];
  }

  /** What the second pass finds: the token, then the rest of the text with its one `b`. */
  lemma SecondText(m1: Masker, t: string, x: string)
    requires m1.forward == map["a" := t]
    ensures Render(m1.forward, [Lit(""), Tok("a"), Lit(" " + (x + "b"))]) == (t + (" " + x)) + (['b'] + "")
  {
    var after := " " + (x + "b");
    var ps1 := [Lit(""), Tok("a"), Lit(after)];
    assert ps1[1..] == [Tok("a"), Lit(after)] && ps1[1..][1..] == [Lit(after)] && [Lit(after)][1..] == [];
    assert Render(m1.forward, [Lit(after)]) == after + "" == after;
    assert Render(m1.forward, ps1[1..]) == t + after;
    assert Render(m1.forward, ps1) == "" + (t + after);
  }

  lemma SecondFits(m2: Masker, t: string, x: string)
    requires "a" in m2.forward && m2.forward["a"] == t
    ensures Fits(m2.forward, [Lit(""), Tok("a"), Lit(" " + (x + "b"))], [Span(|t + (" " + x)|, 1, "b")])
  {
    var after, before := " " + (x + "b"), t + (" " + x);
    var ps1 := [Lit(""), Tok("a"), Lit(after)];
    assert ps1[1..] == [Tok("a"), Lit(after)] && ps1[1..][1..] == [Lit(after)];
    var s0, s2 := Span(|before|, 1, "b"), Span(|before| - |t|, 1, "b");
    assert after == (" " + x) + (['b'] + "");
    FitsOne(m2.forward, " " + x, 'b', "", []);
    assert [Lit(after)] + [] == [Lit(after)];
    assert Fits(m2.forward, [Lit(after)], [s2]);
    assert [s0][1..] == [] && [s2] + [] == [s2] && [s0] + [] == [s0];
    assert Fits(m2.forward, ps1[1..], [s0]);
  }
}
