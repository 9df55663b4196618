/** Separated tokens are needed: when two tokens can share characters, one masked text stands for two
    sources, and no way of restoring can be right for both. */
module Ambiguity {
  import opened Anonymizer
  import opened Restoring
  import opened Sequences
  import opened Text

  /** Every value is a single character that no token contains. */
  ghost predicate Foreign(m: Masker) {
    forall v :: v in m.forward ==> |v| == 1 && forall t :: t in m.reverse ==> v[0] !in t
  }

  lemma TokensNotEmpty(m: Masker)
    requires Ok(m)
    ensures forall t :: t in m.reverse ==> t != ""
  {
    forall t | t in m.reverse ensures t != "" { var k, n: nat :| t == Token(k, n) && 1 <= n <= Count(m, k); }
  }

  // ---------- every text is masked from some source ----------

  lemma {:induction false} Join(forward: map<string, string>, ps: seq<Piece>, qs: seq<Piece>)
    ensures Render(forward, ps + qs) == Render(forward, ps) + Render(forward, qs)
    ensures Source(ps + qs) == Source(ps) + Source(qs)
    decreases |ps|
  {
    if ps == [] {
      assert ps + qs == qs;
    } else {
      var head, rest := ps[0], ps[1..];
      assert ps == [head] + rest;
      Associate([head], rest, qs);
      Join(forward, rest, qs);
      hide *;
      RenderCons(forward, head, rest);
      RenderCons(forward, head, rest + qs);
      SourceCons(head, rest);
      SourceCons(head, rest + qs);
      Associate(Show(forward, head), Render(forward, rest), Render(forward, qs));
      Associate(Source([head]), Source(rest), Source(qs));
    }
  }

  /** No token reaches over a foreign character. */
  lemma TokenFreeJoin(m: Masker, a: string, v: string, b: string)
    requires Foreign(m) && v in m.forward && TokenFree(m, a) && TokenFree(m, b)
    ensures TokenFree(m, a + (v + b))
  {
    var w := a + (v + b);
    assert w[|a|] == v[0] && w[|a| + 1..] == b;
    forall t, k: nat | t in m.reverse ensures !HasAt(w, t, k) {
      if k + |t| <= |a| {
        PrefixHasAt(a, v + b, t, k);
      } else if k > |a| {
        if k + |t| <= |w| { SuffixHasAt(w, t, |a| + 1, k); }
      } else if HasAt(w, t, k) {
        CoveredChar(w, t, k, |a|);
      }
    }
  }

  lemma CoveredChar(w: string, t: string, k: nat, n: nat)
    requires HasAt(w, t, k) && k <= n < k + |t|
    ensures w[n] in t
  {
    HasAtChars(w, t, k);
    assert w[k + (n - k)] == t[n - k];
  }

  /** The pieces are made of known values and stand for a source without tokens. */
  ghost predicate Masks(m: Masker, ps: seq<Piece>, masked: string) {
    Known(m.forward, ps) && Render(m.forward, ps) == masked && TokenFree(m, Source(ps))
  }

  lemma Placed(m: Masker, left: seq<Piece>, t: string, right: seq<Piece>, a: string, b: string) returns (ps: seq<Piece>)
    requires Ok(m) && Foreign(m) && t in m.reverse && Masks(m, left, a) && Masks(m, right, b)
    ensures Masks(m, ps, a + (t + b)) && Source(ps) == Source(left) + (m.reverse[t] + Source(right))
  {
    var v := m.reverse[t];
    ps := left + ([Tok(v)] + right);
    Join(m.forward, left, [Tok(v)] + right);
    RenderCons(m.forward, Tok(v), right);
    SourceCons(Tok(v), right);
    TokenFreeJoin(m, Source(left), v, Source(right));
    hide TokenFree, Render, Source;
    forall k | 0 <= k < |ps| && ps[k].Tok? ensures ps[k].value in m.forward {
      if k > |left| { assert ps[k] == right[k - |left| - 1]; }
    }
  }

  lemma {:induction false} Unmask(m: Masker, masked: string) returns (ps: seq<Piece>)
    requires Ok(m) && Foreign(m)
    ensures Masks(m, ps, masked)
    decreases |masked|
  {
    hide *;
    if TokenFree(m, masked) {
      ps := [Lit(masked)];
      Untouched(m, masked);
    } else {
      var a, t, b := FindToken(m, masked);
      var left := Unmask(m, a);
      var right := Unmask(m, b);
      ps := Placed(m, left, t, right, a, b);
    }
  }

  lemma Untouched(m: Masker, masked: string)
    requires TokenFree(m, masked)
    ensures Source([Lit(masked)]) == masked && Masks(m, [Lit(masked)], masked)
  {
    hide TokenFree;
    assert [Lit(masked)][1..] == [] && masked + "" == masked;
    RenderFirst(m.forward, [Lit(masked)]);
    assert Source([Lit(masked)]) == masked && Render(m.forward, []) == "";
    assert Known(m.forward, [Lit(masked)]);
  }

  lemma FindToken(m: Masker, masked: string) returns (a: string, t: string, b: string)
    requires Ok(m) && !TokenFree(m, masked)
    ensures t in m.reverse && a + (t + b) == masked && |a| < |masked| && |b| < |masked|
  {
    TokensNotEmpty(m);
    hide Ok, HasAt;
    t :| t in m.reverse && Contains(masked, t);
    var k: nat :| HasAt(masked, t, k);
    a, b := CutOut(masked, t, k);
  }

  lemma CutOut(w: string, t: string, k: nat) returns (a: string, b: string)
    requires t != "" && HasAt(w, t, k)
    ensures a + (t + b) == w && |a| < |w| && |b| < |w|
  {
    a, b := w[..k], w[k + |t|..];
  }

  // ---------- two sources of one text ----------

  /** A source begins with the masked text's own first character or with a value placed. */
  lemma {:induction false} FirstOfSource(m: Masker, ps: seq<Piece>) returns (t: string)
    requires Ok(m) && Foreign(m) && Known(m.forward, ps) && Render(m.forward, ps) != ""
    ensures Source(ps) != ""
    ensures Source(ps)[0] == Render(m.forward, ps)[0]
         || (t in m.reverse && |t| <= |Render(m.forward, ps)| && m.reverse[t] == [Source(ps)[0]])
    decreases |ps|
  {
    t := "";
    hide Ok, Foreign;
    match ps[0]
    case Lit(text) =>
      if text == "" {
        assert forall k :: 0 <= k < |ps| - 1 ==> ps[1..][k] == ps[k + 1];
        assert Render(m.forward, ps) == Render(m.forward, ps[1..]) && Source(ps) == Source(ps[1..]);
        t := FirstOfSource(m, ps[1..]);
      }
    case Tok(v) =>
      t := TokenOf(m, v);
      assert Source(ps) == v + Source(ps[1..]) && Render(m.forward, ps) == t + Render(m.forward, ps[1..]);
      hide Source, Render;
  }

  lemma TokenOf(m: Masker, v: string) returns (t: string)
    requires Ok(m) && Foreign(m) && v in m.forward
    ensures t == m.forward[v] && t in m.reverse && m.reverse[t] == v && v == [v[0]]
  {
    t := m.forward[v];
  }

  lemma ValueOf(m: Masker, t: string)
    requires Ok(m) && Foreign(m) && t in m.reverse
    ensures |m.reverse[t]| == 1
    ensures forall u :: u in m.reverse ==> m.reverse[t][0] !in u && (m.reverse[u] == m.reverse[t] ==> u == t)
  {
    assert m.reverse[t] in m.forward;
  }

  /** A shorter beginning does not start like the value of a token. */
  lemma OtherStart(m: Masker, ps: seq<Piece>, t: string, d: nat)
    requires Ok(m) && Foreign(m) && t in m.reverse && 0 < d < |t| && Masks(m, ps, t[..d])
    ensures Source(ps) != "" && Source(ps)[0] != m.reverse[t][0]
  {
    ValueOf(m, t);
    hide Ok, Foreign, TokenFree, Known, Source, Render;
    var u := FirstOfSource(m, ps);
    assert t[..d][0] == t[0] && t[0] in t;
    if Source(ps)[0] != t[0] {
      assert u in m.reverse && u != t;
    }
  }

  lemma Overlay(t: string, u: string, d: nat) returns (w: string)
    requires Meets(t, u, d)
    ensures |t| <= |w| && d + |u| <= |w| && w == "" + (t + w[|t|..]) && w == w[..d] + (u + w[d + |u|..]) && w[..d] == t[..d]
  {
    w := if d + |u| <= |t| then t else t + u[|t| - d..];
    assert w[..|t|] == t && w[..d] == t[..d];
    assert w[d..d + |u|] == u;
    ThreeSlices(w, t, u, d);
  }

  lemma ThreeSlices(w: string, t: string, u: string, d: nat)
    requires |t| <= |w| && d + |u| <= |w| && w[..|t|] == t && w[d..d + |u|] == u
    ensures w == "" + (t + w[|t|..]) && w == w[..d] + (u + w[d + |u|..])
  {
  }

  lemma TwoSources(m: Masker, t: string, u: string, d: nat) returns (ps: seq<Piece>, qs: seq<Piece>, w: string)
    requires Ok(m) && Foreign(m) && t in m.reverse && u in m.reverse && Meets(t, u, d) && !(d == 0 && t == u)
    ensures Masks(m, ps, w) && Masks(m, qs, w) && Source(ps) != Source(qs)
  {
    w := Overlay(t, u, d);
    hide *;
    DifferentValues(m, t, u);
    NothingInNothing(m);
    Untouched(m, "");
    var left := [Lit("")];
    if d > 0 {
      left := Unmask(m, w[..d]);
      OtherStart(m, left, t, d);
    }
    var after := Unmask(m, w[|t|..]);
    var behind := Unmask(m, w[d + |u|..]);
    ps := Placed(m, [Lit("")], t, after, "", w[|t|..]);
    qs := Placed(m, left, u, behind, w[..d], w[d + |u|..]);
    StartsDiffer(m.reverse[t], Source(after), Source(left), m.reverse[u], Source(behind));
  }

  lemma NothingInNothing(m: Masker)
    requires Ok(m)
    ensures TokenFree(m, "")
  {
    TokensNotEmpty(m);
  }

  lemma StartsDiffer(v: string, after: string, left: string, u: string, behind: string)
    requires v != "" && u != "" && v[0] != if left == "" then u[0] else left[0]
    ensures "" + (v + after) != left + (u + behind)
  {
    assert ("" + (v + after))[0] == v[0];
    assert (left + (u + behind))[0] == if left == "" then u[0] else left[0];
  }

  lemma DifferentValues(m: Masker, t: string, u: string)
    requires Ok(m) && Foreign(m) && t in m.reverse && u in m.reverse
    ensures |m.reverse[t]| == 1 && |m.reverse[u]| == 1 && (t != u ==> m.reverse[t][0] != m.reverse[u][0])
  {
    ValueOf(m, t);
    ValueOf(m, u);
    hide Ok, Foreign;
    assert m.reverse[t] == [m.reverse[t][0]] && m.reverse[u] == [m.reverse[u][0]];
  }

  // ---------- every such text is what a run leaves ----------

  lemma FitsStep(forward: map<string, string>, w: string, span: Span, more: seq<Span>)
    ensures Fits(forward, [Lit(w)], [span] + more)
         == (0 < span.len && span.skip + span.len <= |w| && w[span.skip..span.skip + span.len] == span.value
             && Fits(forward, [Lit(w[span.skip + span.len..])], more))
  {
    var n := |w|;
    assert [Lit(w)][1..] == [] && ([span] + more)[1..] == more;
    assert Show(forward, Lit(w)) == w;
    if span.skip + span.len <= n { assert [Lit(w[span.skip + span.len..])] + [] == [Lit(w[span.skip + span.len..])]; }
  }

  lemma FitsLater(forward: map<string, string>, head: string, rest: string, span: Span, more: seq<Span>)
    requires Fits(forward, [Lit(rest)], [span] + more)
    ensures Fits(forward, [Lit(head + rest)], [span.(skip := span.skip + |head|)] + more)
  {
    hide *;
    FitsStep(forward, rest, span, more);
    FitsStep(forward, head + rest, span.(skip := span.skip + |head|), more);
    SlicesLater(head, rest, span.skip, span.len);
  }

  lemma SlicesLater(head: string, rest: string, skip: nat, len: nat)
    requires skip + len <= |rest|
    ensures (head + rest)[skip + |head|..skip + |head| + len] == rest[skip..skip + len]
    ensures (head + rest)[skip + |head| + len..] == rest[skip + len..]
  {
  }

  lemma FitsHere(forward: map<string, string>, v: string, rest: string, spans: seq<Span>)
    requires v != "" && Fits(forward, [Lit(rest)], spans)
    ensures Fits(forward, [Lit(v + rest)], [Span(0, |v|, v)] + spans)
  {
    var w := v + rest;
    assert w[0..|v|] == v && w[|v|..] == rest;
    FitsStep(forward, w, Span(0, |v|, v), spans);
  }

  /** The matches that put these tokens into the source. */
  lemma {:induction false} MatchesOf(forward: map<string, string>, ps: seq<Piece>) returns (spans: seq<Span>)
    requires Known(forward, ps) && "" !in forward
    ensures Mapped(forward, spans) && Fits(forward, [Lit(Source(ps))], spans)
    ensures Weave(forward, Source(ps), spans) == Render(forward, ps)
    decreases |ps|
  {
    spans := [];
    if ps != [] {
      assert forall k :: 0 <= k < |ps| - 1 ==> ps[1..][k] == ps[k + 1];
      spans := MatchesOf(forward, ps[1..]);
      hide Weave, Fits, Known, Mapped;
      match ps[0]
      case Lit(text) =>
        if spans == [] {
          FitsNothing(forward, text + Source(ps[1..]), Source(ps[1..]));
        } else {
          spans := MatchesLater(forward, text, Source(ps[1..]), spans);
        }
      case Tok(v) =>
        KnownHead(forward, ps, v);
        spans := MatchesHere(forward, v, Source(ps[1..]), spans);
    }
  }

  lemma KnownHead(forward: map<string, string>, ps: seq<Piece>, v: string)
    requires ps != [] && ps[0] == Tok(v) && Known(forward, ps)
    ensures v in forward
  {
  }

  lemma FitsNothing(forward: map<string, string>, text: string, rest: string)
    ensures Fits(forward, [Lit(text)], []) && Mapped(forward, [])
    ensures Weave(forward, text, []) == text && Weave(forward, rest, []) == rest
  {
  }

  lemma MatchesLater(forward: map<string, string>, text: string, rest: string, later: seq<Span>) returns (spans: seq<Span>)
    requires later != [] && Mapped(forward, later) && Fits(forward, [Lit(rest)], later)
    ensures Mapped(forward, spans) && Fits(forward, [Lit(text + rest)], spans)
    ensures Weave(forward, text + rest, spans) == text + Weave(forward, rest, later)
  {
    hide Weave, Fits;
    assert later == [later[0]] + later[1..];
    FitsLater(forward, text, rest, later[0], later[1..]);
    WeaveSkips(forward, text, rest, later[0], later[1..]);
    spans := [later[0].(skip := later[0].skip + |text|)] + later[1..];
  }

  lemma MatchesHere(forward: map<string, string>, v: string, rest: string, later: seq<Span>) returns (spans: seq<Span>)
    requires v != "" && v in forward && Mapped(forward, later) && Fits(forward, [Lit(rest)], later)
    ensures Mapped(forward, spans) && Fits(forward, [Lit(v + rest)], spans)
    ensures Weave(forward, v + rest, spans) == forward[v] + Weave(forward, rest, later)
  {
    hide Weave, Fits;
    FitsHere(forward, v, rest, later);
    WeaveStep(forward, v + rest, Span(0, |v|, v), later);
    assert (v + rest)[|v|..] == rest && (v + rest)[..0] == "";
    spans := [Span(0, |v|, v)] + later;
  }

  lemma {:induction false} NothingMinted(m: Masker, spans: seq<Span>, upper: string)
    requires Mapped(m.forward, spans)
    ensures MintSpans(m, spans, upper) == m
    decreases |spans|
  {
    if spans != [] {
      assert forall k :: 0 <= k < |spans| - 1 ==> spans[1..][k] == spans[k + 1];
      NothingMinted(m, spans[1..], upper);
    }
  }

  /** Anonymizing `text` mints nothing, touches no token, and leaves `masked`. */
  ghost predicate Leaves(m: Masker, text: string, passes: seq<Pass>, masked: string) {
    Clean(m, [Lit(text)], passes) && TokenFree(m, text) && RunPasses(m, text, passes) == (m, masked)
  }

  lemma RunOf(m: Masker, ps: seq<Piece>, masked: string) returns (passes: seq<Pass>)
    requires Ok(m) && Foreign(m) && Masks(m, ps, masked)
    ensures Leaves(m, Source(ps), passes, masked)
  {
    assert "" !in m.forward;
    var spans := MatchesOf(m.forward, ps);
    hide Fits, Weave, Mapped, Foreign, Ok, Render;
    NothingMinted(m, spans, "");
    passes := [Matches(spans, "")];
    OnePass(m, Source(ps), spans);
  }

  lemma OnePass(m: Masker, text: string, spans: seq<Span>)
    requires MintSpans(m, spans, "") == m && Fits(m.forward, [Lit(text)], spans)
    ensures Clean(m, [Lit(text)], [Matches(spans, "")])
    ensures RunPasses(m, text, [Matches(spans, "")]) == (m, Weave(m.forward, text, spans))
  {
    hide Fits, Weave, Refine, MintSpans;
    var passes := [Matches(spans, "")];
    assert passes[1..] == [] && text + "" == text && [Lit(text)][1..] == [];
    assert Render(m.forward, [Lit(text)]) == text;
    assert RunPasses(m, Weave(m.forward, text, spans), []) == (m, Weave(m.forward, text, spans));
    assert Clean(m, Refine(m.forward, [Lit(text)], spans), []);
  }

  /** MAIN: with tokens that can share characters, two texts without tokens are anonymized to the same
      text: whatever restores it, one of them is lost. */
  lemma OverlapIsAmbiguous(m: Masker) returns (text: string, passes: seq<Pass>, other: string, others: seq<Pass>, masked: string)
    requires Ok(m) && Foreign(m) && !Separated(m.reverse.Keys)
    ensures text != other && Leaves(m, text, passes, masked) && Leaves(m, other, others, masked)
  {
    var t, u, d := Overlapping(m.reverse.Keys);
    var ps, qs, w := TwoSources(m, t, u, d);
    masked := w;
    hide *;
    text, other := Source(ps), Source(qs);
    passes := RunOf(m, ps, w);
    others := RunOf(m, qs, w);
  }

  lemma Overlapping(tokens: set<string>) returns (t: string, u: string, d: nat)
    requires !Separated(tokens)
    ensures t in tokens && u in tokens && Meets(t, u, d) && !(d == 0 && t == u)
  {
    hide Meets;
    t, u :| t in tokens && u in tokens && !Apart(t, u);
    d :| (Meets(t, u, d) || Meets(u, t, d)) && !(d == 0 && t == u);
    if !Meets(t, u, d) { t, u := u, t; }
  }

  lemma {:induction false} Enumerate(tokens: set<string>) returns (order: seq<string>)
    ensures forall t :: t in order <==> t in tokens
    decreases |tokens|
  {
    if tokens == {} {
      order := [];
    } else {
      var t :| t in tokens;
      var rest := Enumerate(tokens - {t});
      order := [t] + rest;
    }
  }

  /** Every such text is restored. */
  ghost predicate RestoresAll(m: Masker) {
    forall text, passes, masked, order ::
      Leaves(m, text, passes, masked) && (forall t :: t in order <==> t in m.reverse) ==>
        RestoreIn(m.reverse, order, masked) == text
  }

  /** MAIN: restoring is right for every text exactly if the tokens are separated. */
  lemma SeparatedIsExact(m: Masker)
    requires Ok(m) && Foreign(m)
    ensures RestoresAll(m) <==> Separated(m.reverse.Keys)
  {
    if Separated(m.reverse.Keys) {
      hide *;
      SeparatedRestores(m);
    } else {
      hide Ok, Foreign, Separated, Leaves;
      var text, passes, other, others, masked := OverlapIsAmbiguous(m);
      var order := Enumerate(m.reverse.Keys);
      if RestoresAll(m) { assert RestoreIn(m.reverse, order, masked) == text; }
    }
  }

  lemma SeparatedRestores(m: Masker)
    requires Ok(m) && Separated(m.reverse.Keys)
    ensures RestoresAll(m)
  {
    assert Grows(m, m);
    forall text, passes, masked, order | Leaves(m, text, passes, masked) && (forall t :: t in order <==> t in m.reverse)
      ensures RestoreIn(m.reverse, order, masked) == text
    {
      hide Ok, Clean, RunPasses, TokenFree, Separated, Grows, RestoreIn;
      RoundTrip(m, text, passes, m, order);
    }
  }
}
