/** Literal values in anonymized text: no occurrence of a literal is left, and what tokens are called. */
module Literals {
  import opened Anonymizer
  import opened Decimal
  import opened Restoring
  import opened Sequences
  import opened Text

  // ---------- untouched text ----------

  /** No untouched piece holds the value. */
  ghost predicate Rid(ps: seq<Piece>, v: string) { forall p <- ps :: p.Lit? ==> !Contains(p.text, v) }

  /** No two untouched pieces stand side by side. */
  predicate Alternating(ps: seq<Piece>) { forall k :: 0 <= k < |ps| - 1 ==> ps[k].Tok? || ps[k + 1].Tok? }

  lemma NoneAt(s: string, v: string, k: nat)
    requires !Contains(s, v)
    ensures !HasAt(s, v, k)
  {
    hide HasAt;
  }

  lemma PartHolds(s: string, i: nat, j: nat, v: string)
    requires i <= j <= |s| && !Contains(s, v)
    ensures !Contains(s[i..j], v)
  {
    forall k: nat ensures !HasAt(s[i..j], v, k) {
      if k + |v| <= j - i {
        NoneAt(s, v, i + k);
        HasAtChars(s, v, i + k);
        HasAtChars(s[i..j], v, k);
      }
    }
  }

  lemma {:induction false} RefineKeepsRid(forward: map<string, string>, ps: seq<Piece>, spans: seq<Span>, v: string)
    requires Fits(forward, ps, spans) && Rid(ps, v)
    ensures Rid(Refine(forward, ps, spans), v)
    decreases |spans|, |ps|
  {
    hide *;
    if spans == [] {
      NothingRefined(forward, ps);
    } else {
      FitsSome(forward, ps, spans);
      var span, n := spans[0], |Show(forward, ps[0])|;
      if span.skip >= n {
        RefinePast(forward, ps, spans);
        RidTail(ps, v);
        RefineKeepsRid(forward, ps[1..], [span.(skip := span.skip - n)] + spans[1..], v);
        RidPast(forward, ps, spans, v);
      } else {
        RefineInside(forward, ps, spans);
        RidParts(ps, span.skip, span.skip + span.len, v);
        RefineKeepsRid(forward, [Lit(ps[0].text[span.skip + span.len..])] + ps[1..], spans[1..], v);
        RidInside(forward, ps, spans, v);
      }
    }
  }

  lemma FitsSome(forward: map<string, string>, ps: seq<Piece>, spans: seq<Span>)
    requires spans != [] && Fits(forward, ps, spans)
    ensures ps != []
  {
  }

  lemma RidPast(forward: map<string, string>, ps: seq<Piece>, spans: seq<Span>, v: string)
    requires ps != [] && spans != [] && Fits(forward, ps, spans) && spans[0].skip >= |Show(forward, ps[0])| && Rid(ps, v)
    requires var more := [spans[0].(skip := spans[0].skip - |Show(forward, ps[0])|)] + spans[1..];
             Fits(forward, ps[1..], more) && Rid(Refine(forward, ps[1..], more), v)
    ensures Rid(Refine(forward, ps, spans), v)
  {
    hide *;
    RefinePast(forward, ps, spans);
    RidTail(ps, v);
    RidCons(ps[0], Refine(forward, ps[1..], [spans[0].(skip := spans[0].skip - |Show(forward, ps[0])|)] + spans[1..]), v);
  }

  lemma RidInside(forward: map<string, string>, ps: seq<Piece>, spans: seq<Span>, v: string)
    requires ps != [] && spans != [] && Fits(forward, ps, spans) && spans[0].skip < |Show(forward, ps[0])| && Rid(ps, v)
    requires ps[0].Lit? && spans[0].skip + spans[0].len <= |ps[0].text|
    requires var tail := [Lit(ps[0].text[spans[0].skip + spans[0].len..])] + ps[1..];
             Fits(forward, tail, spans[1..]) && Rid(Refine(forward, tail, spans[1..]), v)
    ensures Rid(Refine(forward, ps, spans), v)
  {
    hide *;
    RefineInside(forward, ps, spans);
    RidParts(ps, spans[0].skip, spans[0].skip + spans[0].len, v);
    TwoMoreRid(ps[0].text[..spans[0].skip], spans[0].value,
               Refine(forward, [Lit(ps[0].text[spans[0].skip + spans[0].len..])] + ps[1..], spans[1..]), v);
  }

  lemma RidParts(ps: seq<Piece>, i: nat, j: nat, v: string)
    requires ps != [] && ps[0].Lit? && i <= j <= |ps[0].text| && Rid(ps, v)
    ensures !Contains(ps[0].text[..i], v) && Rid([Lit(ps[0].text[j..])] + ps[1..], v)
  {
    hide *;
    RidTail(ps, v);
    LitParts(ps[0].text, i, j, v);
    RidCons(Lit(ps[0].text[j..]), ps[1..], v);
  }

  lemma RidTail(ps: seq<Piece>, v: string)
    requires ps != [] && Rid(ps, v)
    ensures Rid(ps[1..], v) && (ps[0].Lit? ==> !Contains(ps[0].text, v))
  {
    hide Contains;
    assert ps[0] in ps && forall p <- ps[1..] :: p in ps;
  }

  lemma RidCons(p: Piece, more: seq<Piece>, v: string)
    requires (p.Lit? ==> !Contains(p.text, v)) && Rid(more, v)
    ensures Rid([p] + more, v)
  {
    hide Contains;
  }

  lemma LitParts(s: string, i: nat, j: nat, v: string)
    requires i <= j <= |s| && !Contains(s, v)
    ensures !Contains(s[..i], v) && !Contains(s[j..], v)
  {
    PartHolds(s, 0, i, v);
    PartHolds(s, j, |s|, v);
    hide Contains;
    assert s[0..i] == s[..i] && s[j..|s|] == s[j..];
  }

  lemma {:induction false} RefineAlternates(forward: map<string, string>, ps: seq<Piece>, spans: seq<Span>)
    requires Fits(forward, ps, spans) && Alternating(ps)
    ensures Alternating(Refine(forward, ps, spans))
    ensures ps == [] ==> Refine(forward, ps, spans) == []
    ensures ps != [] ==> Refine(forward, ps, spans) != [] && Refine(forward, ps, spans)[0].Lit? == ps[0].Lit?
    decreases |spans|, |ps|
  {
    if spans != [] {
      var span, n := spans[0], |Show(forward, ps[0])|;
      hide Fits, Refine, Show, Alternating;
      AlternatingTail(ps);
      if span.skip >= n {
        RefinePast(forward, ps, spans);
        RefineAlternates(forward, ps[1..], [span.(skip := span.skip - n)] + spans[1..]);
        AlternatingCons(ps[0], ps[1..], Refine(forward, ps[1..], [span.(skip := span.skip - n)] + spans[1..]));
      } else {
        RefineInside(forward, ps, spans);
        var tail := [Lit(ps[0].text[span.skip + span.len..])] + ps[1..];
        AlternatingCons(Lit(ps[0].text[span.skip + span.len..]), ps[1..], ps[1..]);
        RefineAlternates(forward, tail, spans[1..]);
        AlternatingTwo(Lit(ps[0].text[..span.skip]), Tok(span.value), Refine(forward, tail, spans[1..]));
      }
    }
  }

  lemma AlternatingTail(ps: seq<Piece>)
    requires ps != [] && Alternating(ps)
    ensures Alternating(ps[1..]) && (|ps| > 1 ==> ps[0].Tok? || ps[1..][0].Tok?)
  {
  }

  /** Another tail that begins with the same kind of piece. */
  lemma AlternatingCons(p: Piece, tail: seq<Piece>, more: seq<Piece>)
    requires Alternating(more) && (tail != [] ==> p.Tok? || tail[0].Tok?)
    requires (tail == [] ==> more == []) && (tail != [] ==> more != [] && more[0].Lit? == tail[0].Lit?)
    ensures Alternating([p] + more)
  {
  }

  lemma AlternatingTwo(a: Piece, t: Piece, more: seq<Piece>)
    requires t.Tok? && Alternating(more)
    ensures Alternating([a, t] + more)
  {
    var all := [a, t] + more;
    assert forall k :: 2 <= k < |all| ==> all[k] == more[k - 2];
  }

  // ---------- a literal pass takes every occurrence ----------

  lemma {:induction false} NoneInPieces(forward: map<string, string>, ps: seq<Piece>, v: string)
    requires !Contains(Render(forward, ps), v)
    ensures Rid(ps, v)
    decreases |ps|
  {
    if ps != [] {
      var head, rest := Show(forward, ps[0]), Render(forward, ps[1..]);
      assert head + rest == Render(forward, ps);
      forall k: nat ensures !HasAt(head, v, k) && !HasAt(rest, v, k) {
        ShiftHas(head, rest, v, k);
        if k + |v| <= |head| { PrefixHasAt(head, rest, v, k); }
        assert !HasAt(Render(forward, ps), v, k) && !HasAt(Render(forward, ps), v, |head| + k);
      }
      NoneInPieces(forward, ps[1..], v);
      assert ps == [ps[0]] + ps[1..];
    }
  }

  lemma FirstSpan(text: string, v: string)
    requires v != ""
    ensures var i := IndexOf(text, v, 0);
            Occurrences(text, v) == if i == -1 then [] else [Span(i, |v|, v)] + Occurrences(text[i + |v|..], v)
  {
    FirstOfSpans(text, v);
    hide Occurrences, IndexOf, HasAt;
    if Occurrences(text, v) != [] { FirstAndRest(Occurrences(text, v)); }
  }

  lemma FirstOfSpans(text: string, v: string)
    requires v != ""
    ensures var i, spans := IndexOf(text, v, 0), Occurrences(text, v);
            if i == -1 then spans == [] else spans != [] && spans[0] == Span(i, |v|, v) && spans[1..] == Occurrences(text[i + |v|..], v)
  {
    hide HasAt;
  }

  /** Behind a piece before the first occurrence the same occurrences follow. */
  lemma LaterSpans(head: string, rest: string, v: string, i: nat)
    requires v != "" && IndexOf(head + rest, v, 0) == i && |head| <= i
    ensures Occurrences(rest, v) == [Span(i - |head|, |v|, v)] + Occurrences((head + rest)[i + |v|..], v)
    ensures forall k: nat :: !HasAt(head, v, k)
  {
    hide *;
    LaterIndex(head, rest, v, i);
    FirstSpan(rest, v);
    SlicesLater(head, rest, i - |head| + |v|);
  }

  lemma SlicesLater(head: string, rest: string, n: nat)
    requires n <= |rest|
    ensures (head + rest)[|head| + n..] == rest[n..]
  {
  }

  lemma LaterIndex(head: string, rest: string, v: string, i: nat)
    requires v != "" && IndexOf(head + rest, v, 0) == i && |head| <= i
    ensures IndexOf(rest, v, 0) == i - |head|
    ensures forall k: nat :: !HasAt(head, v, k)
  {
    var w := head + rest;
    forall k: nat | k < i ensures !HasAt(w, v, k) { NoneBefore(w, v, 0, k); }
    forall k: nat ensures !HasAt(head, v, k) { if k + |v| <= |head| { PrefixHasAt(head, rest, v, k); } }
    hide IndexOf, HasAt;
    assert w[|head|..] == rest;
    IndexOfShift(w, v, |head|);
    FirstIs(w, v, |head|, i);
  }

  /** Behind an occurrence inside a piece the other occurrences follow. */
  lemma BehindSpan(head: string, rest: string, v: string, i: nat)
    requires v != "" && IndexOf(head + rest, v, 0) == i && i + |v| <= |head|
    ensures (head + rest)[i + |v|..] == head[i + |v|..] + rest
    ensures !Contains(head[..i], v)
  {
    var w := head + rest;
    assert head[..i] == w[..i];
    forall k: nat ensures !HasAt(head[..i], v, k) {
      if k + |v| <= i {
        NoneBefore(w, v, 0, k);
        assert w[..i][k..k + |v|] == w[k..k + |v|];
      }
    }
  }

  lemma {:induction false} NoLiteralLeft(forward: map<string, string>, ps: seq<Piece>, v: string)
    requires v != "" && Fits(forward, ps, Occurrences(Render(forward, ps), v))
    ensures Rid(Refine(forward, ps, Occurrences(Render(forward, ps), v)), v)
    decreases |Occurrences(Render(forward, ps), v)|, |ps|
  {
    hide *;
    var text := Render(forward, ps);
    var i := IndexOf(text, v, 0);
    FirstSpan(text, v);
    if i == -1 {
      NoneAnywhere(text, v);
      NothingRefined(forward, ps);
      NoneInPieces(forward, ps, v);
    } else {
      FirstFits(forward, ps, Span(i, |v|, v), Occurrences(text[i + |v|..], v));
      if i >= |Show(forward, ps[0])| {
        PastStep(forward, ps, v, i);
        NoLiteralLeft(forward, ps[1..], v);
        PastIsRid(forward, ps, v, i);
      } else {
        var tail := [Lit(ps[0].text[i + |v|..])] + ps[1..];
        InsideStep(forward, ps, v, i);
        NoLiteralLeft(forward, tail, v);
        InsideIsRid(forward, ps, v, i);
      }
    }
  }

  lemma NoneAnywhere(text: string, v: string)
    requires IndexOf(text, v, 0) == -1
    ensures !Contains(text, v)
  {
    forall k: nat ensures !HasAt(text, v, k) { NoneBefore(text, v, 0, k); }
  }

  lemma NothingRefined(forward: map<string, string>, ps: seq<Piece>)
    ensures Fits(forward, ps, []) && Refine(forward, ps, []) == ps
  {
  }

  lemma FirstFits(forward: map<string, string>, ps: seq<Piece>, span: Span, more: seq<Span>)
    requires Fits(forward, ps, [span] + more)
    ensures ps != [] && (span.skip < |Show(forward, ps[0])| ==> ps[0].Lit? && span.skip + span.len <= |ps[0].text|)
  {
  }

  /** The first occurrence lies behind the first piece. */
  lemma PastStep(forward: map<string, string>, ps: seq<Piece>, v: string, i: nat)
    requires v != "" && ps != [] && IndexOf(Render(forward, ps), v, 0) == i && i >= |Show(forward, ps[0])|
    requires Fits(forward, ps, Occurrences(Render(forward, ps), v))
    ensures Fits(forward, ps[1..], Occurrences(Render(forward, ps[1..]), v))
    ensures |Occurrences(Render(forward, ps[1..]), v)| == |Occurrences(Render(forward, ps), v)|
    ensures Refine(forward, ps, Occurrences(Render(forward, ps), v))
            == [ps[0]] + Refine(forward, ps[1..], Occurrences(Render(forward, ps[1..]), v))
  {
    hide *;
    var text, n := Render(forward, ps), |Show(forward, ps[0])|;
    RenderFirst(forward, ps);
    LaterSpans(Show(forward, ps[0]), Render(forward, ps[1..]), v, i);
    FirstSpan(text, v);
    SpanFirst(Span(i, |v|, v), Occurrences(text[i + |v|..], v), n);
    RefinePast(forward, ps, Occurrences(text, v));
  }

  lemma SpanFirst(span: Span, more: seq<Span>, n: nat)
    ensures ([span] + more)[0] == span && ([span] + more)[1..] == more
    ensures n <= span.skip ==> span.(skip := span.skip - n) == Span(span.skip - n, span.len, span.value)
  {
  }

  lemma PastIsRid(forward: map<string, string>, ps: seq<Piece>, v: string, i: nat)
    requires v != "" && ps != [] && IndexOf(Render(forward, ps), v, 0) == i && i >= |Show(forward, ps[0])|
    requires Fits(forward, ps, Occurrences(Render(forward, ps), v))
    requires Fits(forward, ps[1..], Occurrences(Render(forward, ps[1..]), v))
    requires Rid(Refine(forward, ps[1..], Occurrences(Render(forward, ps[1..]), v)), v)
    ensures Rid(Refine(forward, ps, Occurrences(Render(forward, ps), v)), v)
  {
    hide *;
    PastStep(forward, ps, v, i);
    RenderFirst(forward, ps);
    LaterSpans(Show(forward, ps[0]), Render(forward, ps[1..]), v, i);
    OneMoreRid(ps[0], Refine(forward, ps[1..], Occurrences(Render(forward, ps[1..]), v)), Show(forward, ps[0]), v);
  }

  lemma OneMoreRid(p: Piece, more: seq<Piece>, head: string, v: string)
    requires (p.Lit? ==> head == p.text) && (forall k: nat :: !HasAt(head, v, k)) && Rid(more, v)
    ensures Rid([p] + more, v)
  {
    hide HasAt;
  }

  /** The first occurrence lies inside the first piece. */
  lemma InsideStep(forward: map<string, string>, ps: seq<Piece>, v: string, i: nat)
    requires v != "" && ps != [] && IndexOf(Render(forward, ps), v, 0) == i && i < |Show(forward, ps[0])|
    requires Fits(forward, ps, Occurrences(Render(forward, ps), v)) && ps[0].Lit? && i + |v| <= |ps[0].text|
    ensures var tail := [Lit(ps[0].text[i + |v|..])] + ps[1..];
            && Fits(forward, tail, Occurrences(Render(forward, tail), v))
            && |Occurrences(Render(forward, tail), v)| < |Occurrences(Render(forward, ps), v)|
            && Refine(forward, ps, Occurrences(Render(forward, ps), v))
               == [Lit(ps[0].text[..i]), Tok(v)] + Refine(forward, tail, Occurrences(Render(forward, tail), v))
  {
    hide *;
    var text, head := Render(forward, ps), ps[0].text;
    RenderFirst(forward, ps);
    BehindSpan(head, Render(forward, ps[1..]), v, i);
    RenderCons(forward, Lit(head[i + |v|..]), ps[1..]);
    ShowLit(forward, head[i + |v|..]);
    FirstSpan(text, v);
    SpanFirst(Span(i, |v|, v), Occurrences(text[i + |v|..], v), 0);
    RefineInside(forward, ps, Occurrences(text, v));
  }

  lemma InsideIsRid(forward: map<string, string>, ps: seq<Piece>, v: string, i: nat)
    requires v != "" && ps != [] && IndexOf(Render(forward, ps), v, 0) == i && i < |Show(forward, ps[0])|
    requires Fits(forward, ps, Occurrences(Render(forward, ps), v)) && ps[0].Lit? && i + |v| <= |ps[0].text|
    requires var tail := [Lit(ps[0].text[i + |v|..])] + ps[1..];
             Fits(forward, tail, Occurrences(Render(forward, tail), v))
             && Rid(Refine(forward, tail, Occurrences(Render(forward, tail), v)), v)
    ensures Rid(Refine(forward, ps, Occurrences(Render(forward, ps), v)), v)
  {
    hide *;
    InsideStep(forward, ps, v, i);
    RenderFirst(forward, ps);
    BehindSpan(ps[0].text, Render(forward, ps[1..]), v, i);
    TwoMoreRid(ps[0].text[..i], v, Refine(forward, [Lit(ps[0].text[i + |v|..])] + ps[1..],
                                       Occurrences(Render(forward, [Lit(ps[0].text[i + |v|..])] + ps[1..]), v)), v);
  }

  lemma TwoMoreRid(a: string, u: string, more: seq<Piece>, v: string)
    requires !Contains(a, v) && Rid(more, v)
    ensures Rid([Lit(a), Tok(u)] + more, v)
  {
    hide Contains;
  }

  lemma ShowLit(forward: map<string, string>, text: string)
    ensures Show(forward, Lit(text)) == text
  {
  }

  lemma SameText(m: Masker, r: Masker, ps: seq<Piece>, v: string)
    requires Grows(m, r) && Known(m.forward, ps) && v != ""
    ensures Occurrences(Render(m.forward, ps), v) == Occurrences(Render(r.forward, ps), v)
  {
    RenderGrows(m, r, ps);
  }

  // ---------- whole runs ----------

  /** MAIN: a literal pass leaves no occurrence of its value in untouched text. */
  lemma LiteralPassTakesAll(m: Masker, ps: seq<Piece>, v: string, upper: string)
    requires Ok(m) && Known(m.forward, ps) && v != "" && Clean(m, ps, [Literal(v, upper)])
    ensures Rid(FinalPieces(m, ps, [Literal(v, upper)]), v)
  {
    var passes := [Literal(v, upper)];
    assert passes[1..] == [];
    var m' := MintPass(m, passes[0]);
    MintPassGrows(m, passes[0], Render(m.forward, ps));
    hide Fits, Refine, Occurrences, Rid, Mint, Render, Ok;
    SameText(m, m', ps, v);
    NoLiteralLeft(m'.forward, ps, v);
  }

  lemma {:induction false} RunTakesAll(m: Masker, ps: seq<Piece>, passes: seq<Pass>, v: string)
    requires Ok(m) && Known(m.forward, ps) && Clean(m, ps, passes) && Alternating(ps) && v != ""
    requires Rid(ps, v) || exists upper :: Literal(v, upper) in passes
    ensures Rid(FinalPieces(m, ps, passes), v) && Alternating(FinalPieces(m, ps, passes))
    decreases |passes|
  {
    if passes != [] {
      var text := Render(m.forward, ps);
      var m' := MintPass(m, passes[0]);
      var spans := SpansOf(passes[0], text);
      var next := Refine(m'.forward, ps, spans);
      MintPassGrows(m, passes[0], text);
      RenderGrows(m, m', ps);
      RefineKnown(m'.forward, ps, spans);
      RefineAlternates(m'.forward, ps, spans);
      hide Ok, MintPass, Fits, Refine, Render, Known, Rid, Alternating;
      if Rid(ps, v) {
        RefineKeepsRid(m'.forward, ps, spans, v);
      } else if passes[0].Literal? && passes[0].value == v {
        NoLiteralLeft(m'.forward, ps, v);
      } else {
        OtherPass(passes, v);
      }
      RunTakesAll(m', next, passes[1..], v);
    }
  }

  lemma OtherPass(passes: seq<Pass>, v: string)
    requires passes != [] && !(passes[0].Literal? && passes[0].value == v) && exists upper :: Literal(v, upper) in passes
    ensures exists upper :: Literal(v, upper) in passes[1..]
  {
    var upper :| Literal(v, upper) in passes;
    assert passes == [passes[0]] + passes[1..];
  }

  /** The value shares no character with a token placed, and is none. */
  ghost predicate Clear(forward: map<string, string>, ps: seq<Piece>, v: string) {
    v != "" && Known(forward, ps) && forall u :: Tok(u) in ps ==> forward[u] != v && Apart(forward[u], v)
  }

  lemma {:induction false} NoneRendered(forward: map<string, string>, ps: seq<Piece>, v: string, k: nat)
    requires Clear(forward, ps, v) && Rid(ps, v) && Alternating(ps)
    ensures !HasAt(Render(forward, ps), v, k)
    decreases |ps|
  {
    if ps != [] {
      var head, rest := Show(forward, ps[0]), Render(forward, ps[1..]);
      var w := head + rest;
      assert ps == [ps[0]] + ps[1..] && w == Render(forward, ps);
      assert forall j :: 0 <= j < |ps| - 1 ==> ps[1..][j] == ps[j + 1];
      hide Apart, Render, Contains;
      if k >= |head| {
        NoneRendered(forward, ps[1..], v, k - |head|);
        ShiftHas(head, rest, v, k - |head|);
      } else if ps[0].Tok? {
        TokenCovers(forward, ps[0].value, head, rest, v, k);
      } else if k + |v| <= |head| {
        PrefixHasAt(head, rest, v, k);
        NotInPiece(ps[0], v, k);
      } else {
        NotOverEdge(forward, ps, v, k);
      }
    }
  }

  lemma NotInPiece(p: Piece, v: string, k: nat)
    requires p.Lit? && !Contains(p.text, v)
    ensures !HasAt(p.text, v, k)
  {
  }

  lemma TokenCovers(forward: map<string, string>, u: string, head: string, rest: string, v: string, k: nat)
    requires u in forward && forward[u] == head && head != v && Apart(head, v) && v != "" && k < |head|
    ensures !HasAt(head + rest, v, k)
  {
    assert (head + rest)[0..|head|] == head;
    hide Apart;
    if HasAt(head + rest, v, k) { OverlapIsEqual(head + rest, head, 0, v, k); }
  }

  lemma ApartNotEmpty(t: string, v: string)
    requires Apart(t, v) && v != ""
    ensures t != ""
  {
    assert t == "" ==> Meets(v, t, 0);
  }

  /** An occurrence that leaves an untouched piece runs into a token, or past the end. */
  lemma NotOverEdge(forward: map<string, string>, ps: seq<Piece>, v: string, k: nat)
    requires Clear(forward, ps, v) && Alternating(ps) && ps != [] && ps[0].Lit? && k < |ps[0].text| < k + |v|
    ensures !HasAt(Render(forward, ps), v, k)
  {
    hide Apart;
    var head, rest := ps[0].text, Render(forward, ps[1..]);
    var w := head + rest;
    if |ps| == 1 {
      assert ps[1..] == [] && w == head;
    } else {
      var t := forward[ps[1].value];
      assert ps[1] in ps && ps[1..][0] == ps[1];
      RenderFirst(forward, ps[1..]);
      assert w[|head|..|head| + |t|] == t;
      ApartNotEmpty(t, v);
      hide Render;
      if HasAt(w, v, k) { OverlapIsEqual(w, t, |head|, v, k); }
    }
  }

  /** MAIN: after a run no occurrence of a literal is left in the masked text, when no match touched a
      placed token and the literal shares no character with a token. */
  lemma LiteralsAreGone(m: Masker, text: string, passes: seq<Pass>, v: string, upper: string)
    requires Ok(m) && Clean(m, [Lit(text)], passes) && v != "" && Literal(v, upper) in passes
    requires forall t :: t in RunPasses(m, text, passes).0.reverse ==> t != v && Apart(t, v)
    ensures !Contains(RunPasses(m, text, passes).1, v)
  {
    var ps := [Lit(text)];
    assert Render(m.forward, ps) == text by { assert ps[1..] == [] && text + "" == text; }
    assert Known(m.forward, ps) && Alternating(ps);
    RunIsRender(m, ps, passes);
    RunTakesAll(m, ps, passes, v);
    var (r, masked) := RunPasses(m, text, passes);
    var final := FinalPieces(m, ps, passes);
    hide Clean, RunPasses, FinalPieces, Rid, Alternating, Render, Apart;
    AllClear(r, final, v);
    hide Clear, Known, Ok;
    forall k: nat ensures !HasAt(masked, v, k) { NoneRendered(r.forward, final, v, k); }
  }

  lemma AllClear(r: Masker, ps: seq<Piece>, v: string)
    requires Ok(r) && Known(r.forward, ps) && v != "" && forall t :: t in r.reverse ==> t != v && Apart(t, v)
    ensures Clear(r.forward, ps, v)
  {
    hide Apart;
    forall u | Tok(u) in ps ensures r.forward[u] != v && Apart(r.forward[u], v) {
      var k :| 0 <= k < |ps| && ps[k] == Tok(u);
    }
  }

  // ---------- what tokens are called ----------

  /** Letters, digits and underscores, neither first nor last an underscore. */
  predicate PlainName(k: string) {
    k != "" && (forall i :: 0 <= i < |k| ==> 'A' <= k[i] <= 'Z' || '0' <= k[i] <= '9' || k[i] == '_')
    && k[0] != '_' && k[|k| - 1] != '_'
  }

  /** The letters and digits, in order. */
  function Letters(s: string): string {
    if s == "" then "" else (if 'A' <= s[0] <= 'Z' || '0' <= s[0] <= '9' then [s[0]] else "") + Letters(s[1..])
  }

  lemma {:induction false} LettersJoin(a: string, b: string)
    ensures Letters(a + b) == Letters(a) + Letters(b)
  {
    if a == "" {
      assert a + b == b;
    } else {
      LettersJoin(a[1..], b);
      assert a + b == [a[0]] + (a[1..] + b) && a == [a[0]] + a[1..];
      LettersCons(a[0], a[1..] + b);
      LettersCons(a[0], a[1..]);
      hide Letters;
      Associate(Letters([a[0]]), Letters(a[1..]), Letters(b));
    }
  }

  lemma LettersCons(c: char, s: string)
    ensures Letters([c] + s) == Letters([c]) + Letters(s)
  {
    assert ([c] + s)[1..] == s && [c][1..] == "" && Letters("") == "";
  }

  lemma {:induction false} SqueezeLetters(upper: string, inRun: bool)
    ensures Letters(Squeeze(upper, inRun)) == Letters(upper)
    ensures forall i :: 0 <= i < |Squeeze(upper, inRun)| ==> IsKindChar(Squeeze(upper, inRun)[i])
  {
    if upper != "" {
      var now := IsKindChar(upper[0]);
      SqueezeLetters(upper[1..], !now);
      var head := if now then [upper[0]] else if inRun then "" else "_";
      LettersJoin(head, Squeeze(upper[1..], !now));
      OneLetter(upper[0]);
    }
  }

  lemma OneLetter(c: char)
    ensures Letters([c]) == (if 'A' <= c <= 'Z' || '0' <= c <= '9' then [c] else "") && Letters("_") == ""
  {
    assert [c][1..] == "" && "_"[1..] == "";
  }

  lemma {:induction false} StripLeftIs(s: string)
    ensures var r := StripLeft(s); |r| <= |s| && r == s[|s| - |r|..] && (r != "" ==> r[0] != '_') && Letters(r) == Letters(s)
  {
    if s != "" && s[0] == '_' { StripLeftIs(s[1..]); }
  }

  lemma {:induction false} StripRightIs(s: string)
    ensures var r := StripRight(s); r <= s && (r != "" ==> r[|r| - 1] != '_') && Letters(r) == Letters(s)
  {
    if s != "" && s[|s| - 1] == '_' {
      var front := s[..|s| - 1];
      assert s == front + "_";
      LettersJoin(front, "_");
      OneLetter('_');
      StripRightIs(front);
    }
  }

  lemma {:induction false} NoLetters(s: string)
    requires s != "" && s[0] != '_' && IsKindChar(s[0])
    ensures Letters(s) != ""
  {
  }

  /** MAIN: a token's kind is the given kind's letters and digits in order, other characters between them
      only as underscores, none at an end, and `VALUE` without any; a plain kind stays as it is. */
  lemma KindIsPlain(upper: string)
    ensures PlainName(SafeKind(upper))
    ensures Letters(SafeKind(upper)) == if Letters(upper) == "" then "VALUE" else Letters(upper)
    ensures PlainName(upper) ==> SafeKind(upper) == upper
  {
    var q := Squeeze(upper, false);
    var l := StripLeft(q);
    var k := StripRight(l);
    SqueezeLetters(upper, false);
    StripLeftIs(q);
    StripRightIs(l);
    if k == "" {
      assert Letters("") == "";
      ValueIsPlain();
    } else {
      NoLetters(k);
    }
    if PlainName(upper) { PlainStays(upper); }
    hide Letters, Squeeze, StripLeft, StripRight;
  }

  lemma ValueIsPlain()
    ensures Letters("VALUE") == "VALUE" && PlainName("VALUE")
  {
    assert Letters("E") == "E" by { assert "E"[1..] == ""; }
    assert Letters("UE") == "UE" by { assert "UE"[1..] == "E"; }
    assert Letters("LUE") == "LUE" by { assert "LUE"[1..] == "UE"; }
    assert Letters("ALUE") == "ALUE" by { assert "ALUE"[1..] == "LUE"; }
    assert "VALUE"[1..] == "ALUE";
  }

  lemma {:induction false} SqueezeStays(s: string)
    requires forall i :: 0 <= i < |s| ==> IsKindChar(s[i])
    ensures Squeeze(s, false) == s
  {
    if s != "" {
      SqueezeStays(s[1..]);
      assert s == [s[0]] + s[1..];
    }
  }

  lemma PlainStays(s: string)
    requires PlainName(s)
    ensures SafeKind(s) == s
  {
    SqueezeStays(s);
    assert StripLeft(s) == s && StripRight(s) == s;
  }

  /** Bare domains are named as such, and every match stands for the cleaned domain. */
  lemma DomainsAreNamed(cleaned: string, matches: seq<Span>)
    ensures MintPass(EMPTY, Domain(cleaned, matches)).forward == map[cleaned := "DOMAIN_001"]
    ensures forall text, k :: 0 <= k < |matches| ==> SpansOf(Domain(cleaned, matches), text)[k] == matches[k].(value := cleaned)
  {
    hide PlainKind, Mint;
    DomainIsPlain("DOMAIN");
    DomainToken("DOMAIN");
    FirstToken(EMPTY, cleaned, "DOMAIN");
  }

  lemma DomainToken(kind: string)
    requires kind == "DOMAIN"
    ensures kind + "_001" == "DOMAIN_001"
  {
  }

  lemma DomainIsPlain(kind: string)
    requires kind == "DOMAIN"
    ensures PlainKind(kind)
  {
    hide SafeKind;
    KindIsPlain(kind);
  }
}
