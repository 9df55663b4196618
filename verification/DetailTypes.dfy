/** Which `details` blocks are stripped, by the type their opening tag shows. */
module DetailTypes {
  import opened DetailStrip
  import opened Text

  /** The characters that `\s` stands for in JavaScript, one by one. */
  const WHITE := "\t\n\U{B}\U{C}\r \U{A0}\U{1680}\U{2000}\U{2001}\U{2002}\U{2003}\U{2004}\U{2005}\U{2006}\U{2007}\U{2008}\U{2009}\U{200A}\U{2028}\U{2029}\U{202F}\U{205F}\U{3000}\U{FEFF}"

  predicate White(s: string, i: nat, j: nat) { i <= j <= |s| && forall k :: i <= k < j ==> s[k] in WHITE }

  lemma SpaceIsWhite(c: char)
    ensures IsSpace(c) <==> c in WHITE
  {
    if '\U{2000}' <= c <= '\U{200A}' {
      var n := c as int - 0x2000;
      assert WHITE[8 + n] == c;
    }
    assert WHITE[0] == '\t' && WHITE[1] == '\n' && WHITE[2] == '\U{B}' && WHITE[3] == '\U{C}' && WHITE[4] == '\r';
  }

  // ---------- the type of a tag ----------

  /** `type`, `=` and the quoted name, with white space around the sign. */
  predicate TypeIs(s: string, a: nat, b: nat, c: nat, name: string) {
    a + 4 <= b < c < |s| && HasAt(s, "type", a) && White(s, a + 4, b) && s[b] == '=' && White(s, b + 1, c)
    && s[c] == '"' && HasAt(s, name + "\"", c + 1)
  }

  ghost predicate Shows(s: string, name: string) { exists a: nat, b: nat, c: nat :: TypeIs(s, a, b, c, name) }

  /** The tag shows the type of a tool or code block or, where reasoning is skipped too, of a reasoning
      block. */
  ghost predicate Strippable(tag: string, skipReasoning: bool) {
    Shows(tag, "tool_calls") || Shows(tag, "code_execution") || Shows(tag, "code_interpreter")
    || (skipReasoning && Shows(tag, "reasoning"))
  }

  lemma {:induction false} SkipIs(s: string, i: nat, j: nat)
    requires White(s, i, j) && (j < |s| ==> s[j] !in WHITE)
    ensures SkipSpace(s, i) == j
    decreases j - i
  {
    hide WHITE;
    if j < |s| { SpaceIsWhite(s[j]); }
    if i < j {
      SpaceIsWhite(s[i]);
      SkipIs(s, i + 1, j);
    }
  }

  lemma {:induction false} SkipFinds(s: string, i: nat)
    requires i <= |s|
    ensures var j := SkipSpace(s, i); White(s, i, j) && (j < |s| ==> s[j] !in WHITE)
    decreases |s| - i
  {
    hide WHITE;
    if i < |s| {
      SpaceIsWhite(s[i]);
      if IsSpace(s[i]) { SkipFinds(s, i + 1); }
    }
  }

  lemma SignsAreNotWhite()
    ensures '=' !in WHITE && '"' !in WHITE
  {
  }

  /** The quoted name at `c` is one that is stripped. */
  predicate NameAt(s: string, c: nat, skipReasoning: bool) {
    (exists n :: 0 <= n < |STRIPPED| && HasAt(s, STRIPPED[n] + "\"", c)) || (skipReasoning && HasAt(s, "reasoning\"", c))
  }

  predicate Listed(name: string, skipReasoning: bool) {
    name == "tool_calls" || name == "code_execution" || name == "code_interpreter" || (skipReasoning && name == "reasoning")
  }

  lemma NameIsListed(s: string, c: nat, skipReasoning: bool)
    ensures NameAt(s, c, skipReasoning) <==> exists name :: Listed(name, skipReasoning) && HasAt(s, name + "\"", c)
  {
    hide HasAt;
    if NameAt(s, c, skipReasoning) {
      if skipReasoning && HasAt(s, "reasoning\"", c) {
        assert "reasoning" + "\"" == "reasoning\"" && Listed("reasoning", skipReasoning);
      } else {
        var n :| 0 <= n < |STRIPPED| && HasAt(s, STRIPPED[n] + "\"", c);
        assert Listed(STRIPPED[n], skipReasoning);
      }
    }
    if name :| Listed(name, skipReasoning) && HasAt(s, name + "\"", c) {
      assert STRIPPED[0] == "tool_calls" && STRIPPED[1] == "code_execution" && STRIPPED[2] == "code_interpreter";
      assert name == "reasoning" ==> name + "\"" == "reasoning\"";
    }
  }

  lemma TypeAtIs(s: string, k: nat, skipReasoning: bool)
    ensures TypeAt(s, k, skipReasoning) <==>
      HasAt(s, "type", k)
      && (var b := SkipSpace(s, k + 4);
          b < |s| && s[b] == '=' && var c := SkipSpace(s, b + 1); c < |s| && s[c] == '"' && NameAt(s, c + 1, skipReasoning))
  {
    hide HasAt, SkipSpace;
  }

  lemma TypeAtShows(s: string, k: nat, skipReasoning: bool)
    ensures TypeAt(s, k, skipReasoning) <==> exists b: nat, c: nat, name :: Listed(name, skipReasoning) && TypeIs(s, k, b, c, name)
  {
    TypeAtIs(s, k, skipReasoning);
    SignsAreNotWhite();
    hide TypeAt, NameAt, SkipSpace, Listed, WHITE, STRIPPED;
    if TypeAt(s, k, skipReasoning) {
      var b := SkipSpace(s, k + 4);
      var c := SkipSpace(s, b + 1);
      assert k + 4 <= |s|;
      SkipFinds(s, k + 4);
      SkipFinds(s, b + 1);
      NameIsListed(s, c + 1, skipReasoning);
      var name :| Listed(name, skipReasoning) && HasAt(s, name + "\"", c + 1);
      assert TypeIs(s, k, b, c, name);
    }
    if b: nat, c: nat, name :| Listed(name, skipReasoning) && TypeIs(s, k, b, c, name) {
      SkipIs(s, k + 4, b);
      SkipIs(s, b + 1, c);
      NameIsListed(s, c + 1, skipReasoning);
    }
  }

  lemma StrippedIsStrippable(tag: string, skipReasoning: bool)
    ensures IsStripped(tag, skipReasoning) <==> Strippable(tag, skipReasoning)
  {
    hide TypeAt, TypeIs;
    forall k: nat ensures TypeAt(tag, k, skipReasoning) <==> exists b: nat, c: nat, name :: Listed(name, skipReasoning) && TypeIs(tag, k, b, c, name) {
      TypeAtShows(tag, k, skipReasoning);
    }
    if IsStripped(tag, skipReasoning) {
      var k :| 0 <= k < |tag| && TypeAt(tag, k, skipReasoning);
      var b: nat, c: nat, name :| Listed(name, skipReasoning) && TypeIs(tag, k, b, c, name);
      assert Shows(tag, name);
    }
    if Strippable(tag, skipReasoning) {
      var name := if Shows(tag, "tool_calls") then "tool_calls" else if Shows(tag, "code_execution") then "code_execution"
                  else if Shows(tag, "code_interpreter") then "code_interpreter" else "reasoning";
      var a: nat, b: nat, c: nat :| TypeIs(tag, a, b, c, name);
      TypeFits(tag, a, b, c, name);
      assert TypeAt(tag, a, skipReasoning);
    }
  }

  lemma TypeFits(s: string, a: nat, b: nat, c: nat, name: string)
    requires TypeIs(s, a, b, c, name)
    ensures a < |s|
  {
  }

  // ---------- stripping by type ----------

  /** The forest without its blocks that show such a type, at any depth. */
  ghost function PruneTyped(f: Forest, skipReasoning: bool): Forest {
    match f
    case Leaf(_) => f
    case Node(text, attrs, inner, next) =>
      if Strippable("<details" + (attrs + ">"), skipReasoning) then PrependText(text, PruneTyped(next, skipReasoning))
      else Node(text, attrs, PruneTyped(inner, skipReasoning), PruneTyped(next, skipReasoning))
  }

  lemma {:induction false} PruneIsTyped(f: Forest, skipReasoning: bool)
    ensures Prune(f, skipReasoning) == PruneTyped(f, skipReasoning)
  {
    hide IsStripped, Strippable;
    match f
    case Leaf(_) =>
    case Node(_, attrs, inner, next) =>
      StrippedIsStrippable("<details" + (attrs + ">"), skipReasoning);
      PruneIsTyped(inner, skipReasoning);
      PruneIsTyped(next, skipReasoning);
  }

  /** MAIN: stripping takes away exactly the blocks whose opening tag shows the type of a tool or code
      block, or of a reasoning block where those are skipped, with everything in them. */
  lemma StripByType(f: Forest, skipReasoning: bool)
    requires Ok(f)
    ensures Strip(Print(f), skipReasoning) == Print(PruneTyped(f, skipReasoning))
  {
    hide *;
    StripPrinted(f, skipReasoning);
    PruneIsTyped(f, skipReasoning);
  }

  /** And an opening tag still arriving exactly when it shows one already. */
  lemma ArrivingByType(before: Forest, partial: string, skipReasoning: bool)
    requires Ok(before) && '>' !in partial
    ensures Strip(Print(before) + ("<details" + partial), skipReasoning)
         == Print(PruneTyped(before, skipReasoning))
            + if Strippable("<details" + partial, skipReasoning) then "" else "<details" + partial
  {
    assert OPEN == "<details";
    hide *;
    StripArriving(before, partial, skipReasoning);
    PruneIsTyped(before, skipReasoning);
    StrippedIsStrippable(OPEN + partial, skipReasoning);
  }
}
