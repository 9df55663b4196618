/** The anonymizer object: its maps and counters are updated in place as tokens are minted. */
module AnonymizerObject {
  import opened Anonymizer
  import opened Restoring

  /** Matches lie in the text, one after the other. */
  predicate SpansIn(text: string, spans: seq<Span>)
    decreases |spans|
  {
    spans == []
    || (spans[0].skip + spans[0].len <= |text| && SpansIn(text[spans[0].skip + spans[0].len..], spans[1..]))
  }

  /** Every pass carries matches of the text it is given. */
  predicate PassesIn(m: Masker, text: string, passes: seq<Pass>)
    decreases |passes|
  {
    passes == []
    || (SpansIn(text, SpansOf(passes[0], text))
        && var m' := MintPass(m, passes[0]);
           PassesIn(m', Weave(m'.forward, text, SpansOf(passes[0], text)), passes[1..]))
  }

  class ReversibleAnonymizer {
    var forward: map<string, string>
    var reverse: map<string, string>
    var counters: map<string, nat>

    ghost function State(): Masker
      reads this
    {
      Masker(forward, reverse, counters)
    }

    ghost predicate Valid()
      reads this
    {
      Ok(State())
    }

    constructor ()
      ensures Valid() && State() == EMPTY
    {
      forward, reverse, counters := map[], map[], map[];
    }

    method TokenFor(value: string, upper: string) returns (token: string)
      requires Valid()
      modifies this
      ensures Valid() && State() == Mint(old(State()), value, upper)
      ensures Grows(old(State()), State()) && value in forward && token == forward[value]
    {
      MintKeepsOk(State(), value, upper);
      if value in forward { return forward[value]; }
      var kind := SafeKind(upper);
      var n := (if kind in counters then counters[kind] else 0) + 1;
      counters := counters[kind := n];
      token := Token(kind, n);
      forward := forward[value := token];
      reverse := reverse[token := value];
    }

    /** A pattern pass: each match is replaced as it is met. */
    method ReplaceMatches(text: string, spans: seq<Span>, upper: string) returns (masked: string)
      requires Valid() && SpansIn(text, spans)
      modifies this
      ensures Valid() && State() == MintSpans(old(State()), spans, upper)
      ensures Grows(old(State()), State()) && masked == Weave(forward, text, spans)
      decreases |spans|
    {
      if spans == [] { return text; }
      var span := spans[0];
      var token := TokenFor(span.value, upper);
      ghost var m1 := State();
      var rest := ReplaceMatches(text[span.skip + span.len..], spans[1..], upper);
      assert forward[span.value] == token;
      masked := text[..span.skip] + (token + rest);
    }

    /** One pass of any kind. */
    method ApplyPass(text: string, pass: Pass) returns (masked: string)
      requires Valid() && SpansIn(text, SpansOf(pass, text))
      modifies this
      ensures Valid() && State() == MintPass(old(State()), pass)
      ensures masked == Weave(forward, text, SpansOf(pass, text))
    {
      hide Weave, Ok, Mint;
      match pass
      case Matches(spans, upper) =>
        masked := ReplaceMatches(text, spans, upper);
      case Domain(cleaned, matches) =>
        var token := TokenFor(cleaned, "DOMAIN");
        masked := Weave(forward, text, WithValue(matches, cleaned));
      case Literal(value, upper) =>
        if value == "" {
          NoSpans(forward, text);
          return text;
        }
        var token := TokenFor(value, upper);
        masked := Weave(forward, text, Occurrences(text, value));
    }

    /** `anonymize_text`. */
    method AnonymizeText(text: string, passes: seq<Pass>) returns (masked: string)
      requires Valid() && PassesIn(State(), text, passes)
      modifies this
      ensures Valid() && (State(), masked) == RunPasses(old(State()), text, passes)
    {
      hide Ok, MintPass, Weave, SpansOf, SpansIn;
      masked := text;
      var i := 0;
      assert passes[0..] == passes;
      while i < |passes|
        invariant i <= |passes| && Valid()
        invariant PassesIn(State(), masked, passes[i..])
        invariant RunPasses(State(), masked, passes[i..]) == RunPasses(old(State()), text, passes)
      {
        assert passes[i..][1..] == passes[i + 1..] && passes[i..][0] == passes[i];
        masked := ApplyPass(masked, passes[i]);
        i := i + 1;
      }
      assert passes[i..] == [];
    }

    /** `deanonymize_text`. */
    method DeanonymizeText(text: string) returns (restored: string)
      requires Valid()
      ensures exists order :: IsOrder(order, reverse.Keys) && restored == RestoreIn(reverse, order, text)
    {
      forall t | t in reverse ensures t != "" { NoEmptyToken(State(), t); }
      hide Ok, ReplaceAll;
      restored := text;
      var left := reverse.Keys;
      ghost var order: seq<string> := [];
      while left != {}
        invariant left <= reverse.Keys && (forall t :: t in order <==> t in reverse && t !in left)
        invariant LongestFirst(order) && forall t, u :: t in order && u in left ==> |u| <= |t|
        invariant restored == RestoreIn(reverse, order, text)
        decreases left
      {
        var t := Longest(left);
        RestoreSnoc(reverse, order, t, text);
        LongestSnoc(order, t);
        restored := ReplaceAll(restored, t, reverse[t]);
        order, left := order + [t], left - {t};
      }
      assert IsOrder(order, reverse.Keys);
    }
  }

  lemma LongestSnoc(order: seq<string>, t: string)
    requires LongestFirst(order) && forall u :: u in order ==> |t| <= |u|
    ensures LongestFirst(order + [t])
  {
  }

  lemma NoSpans(forward: map<string, string>, text: string)
    ensures Weave(forward, text, []) == text
  {
  }

  lemma NoEmptyToken(m: Masker, t: string)
    requires Ok(m) && t in m.reverse
    ensures t != ""
  {
    var k, n: nat :| t == Token(k, n) && 1 <= n <= Count(m, k);
  }

  lemma {:induction false} RestoreSnoc(reverse: map<string, string>, order: seq<string>, t: string, text: string)
    ensures RestoreIn(reverse, order + [t], text) == RestoreOne(reverse, t, RestoreIn(reverse, order, text))
    decreases |order|
  {
    hide RestoreOne;
    if order == [] {
      assert [] + [t] == [t] && [t][1..] == [];
    } else {
      assert (order + [t])[1..] == order[1..] + [t];
      RestoreSnoc(reverse, order[1..], t, RestoreOne(reverse, order[0], text));
    }
  }

  /** A longest element, found one element at a time. */
  method Longest(s: set<string>) returns (t: string)
    requires s != {}
    ensures t in s && forall u :: u in s ==> |u| <= |t|
  {
    t :| t in s;
    var left := s - {t};
    while left != {}
      invariant left <= s && t in s && forall u :: u in s && u !in left ==> |u| <= |t|
      decreases left
    {
      var u :| u in left;
      if |t| < |u| { t := u; }
      left := left - {u};
    }
  }
}
