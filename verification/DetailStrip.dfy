/** Removing tool and code `details` blocks from message text that is not yet tokenised
    (`_ivStripDetailRanges`), against printed forests of nested blocks. */
module DetailStrip {
  import opened Sequences
  import opened Text

  const OPEN := "<details"
  const CLOSE := "</details>"

  // ---------- which opening tags are stripped ----------

  function SkipSpace(s: string, i: nat): (j: nat)
    ensures i <= j
    decreases |s| - i
  {
    if i < |s| && IsSpace(s[i]) then SkipSpace(s, i + 1) else i
  }

  const STRIPPED := ["tool_calls", "code_execution", "code_interpreter"]

  /** `type`, `=` and one of the stripped type names in double quotes stand at `k`. */
  predicate TypeAt(s: string, k: nat, skipReasoning: bool) {
    HasAt(s, "type", k)
    && (var i := SkipSpace(s, k + 4);
        i < |s| && s[i] == '='
        && var j := SkipSpace(s, i + 1);
           j < |s| && s[j] == '"'
           && ((exists n :: 0 <= n < |STRIPPED| && HasAt(s, STRIPPED[n] + "\"", j + 1))
               || (skipReasoning && HasAt(s, "reasoning\"", j + 1))))
  }

  predicate IsStripped(tag: string, skipReasoning: bool) {
    exists k :: 0 <= k < |tag| && TypeAt(tag, k, skipReasoning)
  }

  // ---------- the stripper ----------

  /** What is left of `s` once `depth` open blocks are closed. */
  function Skip(s: string, depth: nat): (r: string)
    ensures |r| <= |s|
    decreases |s|
  {
    if depth == 0 || s == "" then s
    else
      var nextOpen, nextClose := IndexOf(s, OPEN, 0), IndexOf(s, CLOSE, 0);
      if nextClose == -1 then ""
      else if nextOpen != -1 && nextOpen < nextClose then Skip(s[nextOpen + |OPEN|..], depth + 1)
      else Skip(s[nextClose + |CLOSE|..], depth - 1)
  }

  function Strip(s: string, skipReasoning: bool): string
    decreases |s|
  {
    var open := IndexOf(s, OPEN, 0);
    if open == -1 then s
    else
      var tagEnd := IndexOf(s, ">", open);
      if tagEnd == -1 then
        if IsStripped(s[open..], skipReasoning) then s[..open] else s
      else if !IsStripped(s[open..tagEnd + 1], skipReasoning) then
        s[..tagEnd + 1] + Strip(s[tagEnd + 1..], skipReasoning)
      else
        s[..open] + Strip(Skip(s[tagEnd + 1..], 1), skipReasoning)
  }

  lemma SkipFrom(text: string, j: nat, depth: nat)
    requires j < |text| && depth > 0
    ensures var nextOpen, nextClose := IndexOf(text, OPEN, j), IndexOf(text, CLOSE, j);
      Skip(text[j..], depth)
      == if nextClose == -1 then ""
         else if nextOpen != -1 && nextOpen < nextClose then Skip(text[nextOpen + |OPEN|..], depth + 1)
         else Skip(text[nextClose + |CLOSE|..], depth - 1)
  {
    hide IndexOf, HasAt;
    IndexOfShift(text, OPEN, j);
    IndexOfShift(text, CLOSE, j);
  }

  lemma SkipDone(s: string, depth: nat)
    requires depth == 0 || s == ""
    ensures Skip(s, depth) == s
  {
  }

  method SkipBlock(text: string, from: nat) returns (j: nat)
    requires from <= |text|
    ensures from <= j <= |text| && text[j..] == Skip(text[from..], 1)
  {
    hide IndexOf, HasAt, Skip;
    var depth: nat := 1;
    ghost var left := Skip(text[from..], 1);
    j := from;
    while j < |text| && depth > 0
      invariant from <= j <= |text|
      invariant left == Skip(text[j..], depth)
      decreases |text| - j
    {
      SkipFrom(text, j, depth);
      var nextOpen := IndexOf(text, OPEN, j);
      var nextClose := IndexOf(text, CLOSE, j);
      if nextClose == -1 { return |text|; }
      if nextOpen != -1 && nextOpen < nextClose {
        depth, j := depth + 1, nextOpen + |OPEN|;
      } else {
        depth, j := depth - 1, nextClose + |CLOSE|;
      }
    }
    SkipDone(text[j..], depth);
  }

  lemma SuffixSlices(text: string, i: nat, j: nat)
    requires i <= j <= |text|
    ensures text[i..][j - i..] == text[j..] && text[i..][..j - i] == text[i..j]
  {
  }

  /** `Strip` of a suffix, read off at positions of the whole text. */
  lemma StripFrom(text: string, i: nat, skipReasoning: bool)
    requires i <= |text|
    ensures var open := IndexOf(text, OPEN, i);
      var r := Strip(text[i..], skipReasoning);
      if open == -1 then r == text[i..]
      else
        var tagEnd := IndexOf(text, ">", open);
        if tagEnd == -1 then r == if IsStripped(text[open..], skipReasoning) then text[i..open] else text[i..]
        else if !IsStripped(text[open..tagEnd + 1], skipReasoning) then
          r == text[i..tagEnd + 1] + Strip(text[tagEnd + 1..], skipReasoning)
        else r == text[i..open] + Strip(Skip(text[tagEnd + 1..], 1), skipReasoning)
  {
    hide IndexOf, HasAt, IsStripped, Skip, Strip;
    var rest := text[i..];
    IndexOfShift(text, OPEN, i);
    StripUnfolds(rest, skipReasoning);
    var open := IndexOf(text, OPEN, i);
    if open != -1 {
      IndexOfFrom(text, ">", i, open);
      SuffixSlices(text, i, open);
      var tagEnd := IndexOf(text, ">", open);
      if tagEnd != -1 {
        SuffixSlices(text, i, tagEnd + 1);
        MiddleSlice(text, i, open, tagEnd + 1);
      }
    }
  }

  lemma MiddleSlice(text: string, i: nat, j: nat, k: nat)
    requires i <= j <= k <= |text|
    ensures text[i..][j - i..k - i] == text[j..k]
  {
  }

  lemma StripUnfolds(s: string, skipReasoning: bool)
    ensures var open := IndexOf(s, OPEN, 0);
      var r := Strip(s, skipReasoning);
      if open == -1 then r == s
      else
        var tagEnd := IndexOf(s, ">", open);
        if tagEnd == -1 then r == if IsStripped(s[open..], skipReasoning) then s[..open] else s
        else if !IsStripped(s[open..tagEnd + 1], skipReasoning) then r == s[..tagEnd + 1] + Strip(s[tagEnd + 1..], skipReasoning)
        else r == s[..open] + Strip(Skip(s[tagEnd + 1..], 1), skipReasoning)
  {
    hide IndexOf, HasAt, IsStripped, Skip;
  }

  /** One turn of the loop: the text to append, and where to go on unless `stop`. */
  method StripTurn(text: string, i: nat, skipReasoning: bool) returns (part: string, i': nat, stop: bool)
    requires i < |text|
    ensures i < i' <= |text|
    ensures Strip(text[i..], skipReasoning) == if stop then part else part + Strip(text[i'..], skipReasoning)
  {
    hide IndexOf, HasAt, IsStripped, Skip, Strip;
    StripFrom(text, i, skipReasoning);
    i', stop := |text|, true;
    var open := IndexOf(text, OPEN, i);
    if open == -1 {
      part := text[i..];
    } else {
      var tagEnd := IndexOf(text, ">", open);
      if tagEnd == -1 {
        part := if IsStripped(text[open..], skipReasoning) then text[i..open] else text[i..];
      } else if !IsStripped(text[open..tagEnd + 1], skipReasoning) {
        part, i', stop := text[i..tagEnd + 1], tagEnd + 1, false;
      } else {
        var j := SkipBlock(text, tagEnd + 1);
        part, i', stop := text[i..open], j, false;
      }
    }
  }

  method StripDetailRanges(text: string, skipReasoning: bool) returns (out: string)
    ensures out == Strip(text, skipReasoning)
  {
    if IndexOf(text, OPEN, 0) == -1 { return text; }
    hide Strip;
    out := "";
    var i: nat := 0;
    ghost var left := Strip(text, skipReasoning);  // what the rest of the text contributes
    ghost var done := left;
    assert text[0..] == text && "" + done == done;
    while i < |text|
      invariant i <= |text|
      invariant left == Strip(text[i..], skipReasoning) && out + left == done
      decreases |text| - i
    {
      var part, stop;
      part, i, stop := StripTurn(text, i, skipReasoning);
      if stop { return out + part; }
      left := Strip(text[i..], skipReasoning);
      Associate(out, part, left);
      out := out + part;
    }
    assert text[i..] == "";
    NothingLeft(skipReasoning);
    assert out + "" == out;
  }

  lemma NothingLeft(skipReasoning: bool)
    ensures Strip("", skipReasoning) == ""
  {
  }

  // ---------- printed forests ----------

  /** Text, then possibly a block with its attributes and children, then more. */
  datatype Forest = Leaf(text: string) | Node(text: string, attrs: string, inner: Forest, next: Forest)

  function OpenTag(attrs: string): string { OPEN + (attrs + ">") }

  function Print(f: Forest): string {
    match f
    case Leaf(text) => text
    case Node(text, attrs, inner, next) => text + (OpenTag(attrs) + (Print(inner) + (CLOSE + Print(next))))
  }

  /** Text holds neither tag mark. Attributes hold no '>' and, with their '>', neither mark. */
  ghost predicate Ok(f: Forest) {
    match f
    case Leaf(text) => NoMark(text)
    case Node(text, attrs, inner, next) =>
      NoMark(text) && '>' !in attrs && NoMark(attrs + ">") && Ok(inner) && Ok(next)
  }

  ghost predicate NoMark(s: string) { !Contains(s, OPEN) && !Contains(s, CLOSE) }

  function PrependText(t: string, f: Forest): Forest { f.(text := t + f.text) }

  /** The forest without its blocks of a stripped type, at any depth. */
  function Prune(f: Forest, skipReasoning: bool): Forest {
    match f
    case Leaf(_) => f
    case Node(text, attrs, inner, next) =>
      if IsStripped(OpenTag(attrs), skipReasoning) then PrependText(text, Prune(next, skipReasoning))
      else Node(text, attrs, Prune(inner, skipReasoning), Prune(next, skipReasoning))
  }

  lemma PrintPrepend(t: string, f: Forest)
    ensures Print(PrependText(t, f)) == t + Print(f)
  {
    if f.Node? { Associate(t, f.text, OpenTag(f.attrs) + (Print(f.inner) + (CLOSE + Print(f.next)))); }
  }

  // ---------- first marks in concatenations ----------

  /** No `p` begins in `a` when `a` is followed by `b`. */
  ghost predicate NoneBegins(a: string, b: string, p: string) {
    forall k: nat :: k < |a| ==> !HasAt(a + b, p, k)
  }

  lemma IndexOfAfter(a: string, b: string, p: string)
    requires NoneBegins(a, b, p) && p != ""
    ensures IndexOf(a + b, p, 0) == if IndexOf(b, p, 0) == -1 then -1 else |a| + IndexOf(b, p, 0)
  {
    var w := a + b;
    assert w[|a|..] == b;
    IndexOfShift(w, p, |a|);
    SkipTo(w, p, 0, |a|);
  }

  /** Only the first character of either mark is '<' and only the last can be '>'. */
  predicate IsMark(p: string) { p == OPEN || p == CLOSE }

  lemma BeforeLt(a: string, b: string, p: string)
    requires IsMark(p) && !Contains(a, p) && (b == "" || b[0] == '<')
    ensures NoneBegins(a, b, p)
  {
    var w := a + b;
    forall k: nat | k < |a| ensures !HasAt(w, p, k) {
      if k + |p| <= |a| {
        assert w[k..k + |p|] == a[k..k + |p|];
        assert !HasAt(a, p, k);
      } else if k + |p| <= |w| {
        HasAtChars(w, p, k);
        assert w[k + (|a| - k)] == '<' != p[|a| - k];
      }
    }
  }

  lemma AfterGt(a: string, b: string, p: string)
    requires IsMark(p) && a != "" && a[|a| - 1] == '>' && !Contains(a, p)
    ensures NoneBegins(a, b, p)
  {
    var w := a + b;
    forall k: nat | k < |a| ensures !HasAt(w, p, k) {
      if k + |p| <= |a| {
        assert w[k..k + |p|] == a[k..k + |p|];
        assert !HasAt(a, p, k);
      } else if k + |p| <= |w| {
        HasAtChars(w, p, k);
        assert w[k + (|a| - 1 - k)] == '>' != p[|a| - 1 - k];
      }
    }
  }

  lemma MarkFirst(p: string, b: string)
    ensures HasAt(p + b, p, 0) && IndexOf(p + b, p, 0) == 0 && (p + b)[|p|..] == b
  {
    assert (p + b)[0..|p|] == p;
    FirstIs(p + b, p, 0, 0);
  }

  // ---------- stripping and skipping pass over unmarked text ----------

  lemma StripText(a: string, b: string, skipReasoning: bool)
    requires NoneBegins(a, b, OPEN)
    ensures Strip(a + b, skipReasoning) == a + Strip(b, skipReasoning)
  {
    var w, n := a + b, |a|;
    assert w[0..] == w && w[n..] == b;
    SkipTo(w, OPEN, 0, n);
    hide IndexOf, HasAt, IsStripped, Skip, NoneBegins, Strip;
    StripFrom(w, 0, skipReasoning);
    StripFrom(w, n, skipReasoning);
    var open := IndexOf(w, OPEN, n);
    if open != -1 {
      SplitSlice(a, w, open);
      Associate(a, w[n..open], Strip(Skip(w[IndexOf(w, ">", open) + 1..], 1), skipReasoning));
      var tagEnd := IndexOf(w, ">", open);
      if tagEnd != -1 {
        SplitSlice(a, w, tagEnd + 1);
        Associate(a, w[n..tagEnd + 1], Strip(w[tagEnd + 1..], skipReasoning));
      }
    }
  }

  lemma SplitSlice(a: string, w: string, i: nat)
    requires a <= w && |a| <= i <= |w|
    ensures w[0..i] == a + w[|a|..i]
  {
  }

  lemma SkipText(a: string, b: string, depth: nat)
    requires depth > 0 && NoneBegins(a, b, OPEN) && NoneBegins(a, b, CLOSE)
    ensures Skip(a + b, depth) == Skip(b, depth)
  {
    hide HasAt, IndexOf, NoneBegins;
    IndexOfAfter(a, b, OPEN);
    IndexOfAfter(a, b, CLOSE);
    var w := a + b;
    forall i: nat | i <= |b| ensures w[|a| + i..] == b[i..] {}
    if b == "" { NoMarkInNothing(); }
  }

  lemma NoMarkInNothing()
    ensures IndexOf("", OPEN, 0) == IndexOf("", CLOSE, 0) == -1
  {
  }

  /** A closing tag is text to the stripper. */
  lemma StripClose(b: string, skipReasoning: bool)
    ensures Strip(CLOSE + b, skipReasoning) == CLOSE + Strip(b, skipReasoning)
  {
    NoOpenInClose();
    AfterGt(CLOSE, b, OPEN);
    StripText(CLOSE, b, skipReasoning);
  }

  lemma NoOpenInClose()
    ensures !Contains(CLOSE, OPEN)
  {
    forall k: nat ensures !HasAt(CLOSE, OPEN, k) {
      if k + |OPEN| <= |CLOSE| {
        HasAtChars(CLOSE, OPEN, k);
        assert CLOSE[k + 1] != OPEN[1] || CLOSE[k + 0] != OPEN[0];
      }
    }
  }

  /** An opening tag decides: kept, it is text; stripped, its block is skipped. */
  lemma StripTag(attrs: string, b: string, skipReasoning: bool)
    requires '>' !in attrs
    ensures Strip(OpenTag(attrs) + b, skipReasoning)
         == if IsStripped(OpenTag(attrs), skipReasoning) then Strip(Skip(b, 1), skipReasoning)
            else OpenTag(attrs) + Strip(b, skipReasoning)
  {
    var tag := OpenTag(attrs);
    var w := tag + b;
    assert w == OPEN + (attrs + ">" + b);
    MarkFirst(OPEN, attrs + ">" + b);
    GtEnds(tag, b);
    hide IndexOf, HasAt, IsStripped, Skip, Strip, OpenTag;
    StripFrom(w, 0, skipReasoning);
    assert w[0..] == w && w[0..|tag|] == tag && w[|tag|..] == b && w[0..0] == "";
    assert "" + Strip(Skip(b, 1), skipReasoning) == Strip(Skip(b, 1), skipReasoning);
  }

  lemma GtEnds(tag: string, b: string)
    requires tag != "" && tag[|tag| - 1] == '>' && '>' !in tag[..|tag| - 1]
    ensures IndexOf(tag + b, ">", 0) == |tag| - 1
  {
    var w := tag + b;
    assert w[|tag| - 1..|tag|] == ">";
    forall k: nat | k < |tag| - 1 ensures !HasAt(w, ">", k) {
      HasAtChars(w, ">", k);
      assert w[k + 0] == tag[..|tag| - 1][k];
    }
    FirstIs(w, ">", 0, |tag| - 1);
  }

  lemma SkipAtOpen(rest: string, depth: nat)
    requires depth > 0 && IndexOf(OPEN + rest, CLOSE, 0) != -1
    ensures Skip(OPEN + rest, depth) == Skip(rest, depth + 1)
  {
    MarkFirst(OPEN, rest);
    NoCloseAtOpen(rest);
    hide IndexOf, HasAt;
  }

  /** Skipping passes an opening tag by counting it, as long as a closing tag follows. */
  lemma SkipOpen(attrs: string, b: string, depth: nat)
    requires depth > 0 && '>' !in attrs && NoMark(attrs + ">") && Contains(b, CLOSE)
    ensures Skip(OpenTag(attrs) + b, depth) == Skip(b, depth + 1)
  {
    var a := attrs + ">";
    var rest := a + b;
    assert OpenTag(attrs) + b == OPEN + rest;
    assert (OPEN + a) + b == OPEN + rest;
    hide IndexOf, HasAt, Skip, Contains;
    ClosesLater(OPEN + a, b);
    SkipAtOpen(rest, depth);
    AfterGt(a, b, OPEN);
    AfterGt(a, b, CLOSE);
    SkipText(a, b, depth + 1);
  }

  lemma NoCloseAtOpen(rest: string)
    ensures !HasAt(OPEN + rest, CLOSE, 0)
  {
    var w := OPEN + rest;
    assert w[1] == 'd' != CLOSE[1];
    if |CLOSE| <= |w| { assert w[0..|CLOSE|][1] == w[1]; }
  }

  lemma ClosesLater(a: string, b: string)
    requires Contains(b, CLOSE)
    ensures IndexOf(a + b, CLOSE, 0) != -1
  {
    var k: nat :| HasAt(b, CLOSE, k);
    var w := a + b;
    assert w[|a| + k..|a| + k + |CLOSE|] == b[k..k + |CLOSE|];
    if IndexOf(w, CLOSE, 0) == -1 { NoneBefore(w, CLOSE, 0, |a| + k); }
  }

  lemma SkipClose(b: string, depth: nat)
    requires depth > 0
    ensures Skip(CLOSE + b, depth) == Skip(b, depth - 1)
  {
    MarkFirst(CLOSE, b);
  }

  // ---------- over whole forests ----------

  /** A closing tag stands first. */
  predicate Closes(s: string) { HasAt(s, CLOSE, 0) }

  /** Skipping passes over a printed forest inside a block. */
  lemma {:induction false} SkipForest(f: Forest, rest: string, depth: nat)
    requires Ok(f) && depth > 0 && Closes(rest)
    ensures Skip(Print(f) + rest, depth) == Skip(rest, depth)
    decreases f
  {
    assert rest[0] == '<' && Contains(rest, CLOSE) by { HasAtChars(rest, CLOSE, 0); assert rest[0 + 0] == CLOSE[0]; }
    SkipLead(f.text, rest, depth);
    if f.Node? {
      var after := CLOSE + (Print(f.next) + rest);
      var inner := Print(f.inner) + after;
      NodeText(f, rest);
      SkipLead(f.text, OpenTag(f.attrs) + inner, depth);
      MarkFirst(CLOSE, Print(f.next) + rest);
      LaterClose(Print(f.inner), Print(f.next) + rest);
      SkipOpen(f.attrs, inner, depth);
      SkipForest(f.inner, after, depth + 1);
      SkipClose(Print(f.next) + rest, depth + 1);
      SkipForest(f.next, rest, depth);
    }
  }

  lemma LaterClose(a: string, b: string)
    ensures Contains(a + (CLOSE + b), CLOSE)
  {
    var w := a + (CLOSE + b);
    assert w[|a|..|a| + |CLOSE|] == CLOSE;
    assert HasAt(w, CLOSE, |a|);
  }

  lemma SkipLead(text: string, b: string, depth: nat)
    requires NoMark(text) && depth > 0 && (b == "" || b[0] == '<')
    ensures Skip(text + b, depth) == Skip(b, depth)
  {
    BeforeLt(text, b, OPEN);
    BeforeLt(text, b, CLOSE);
    SkipText(text, b, depth);
  }

  lemma NodeText(f: Forest, rest: string)
    requires f.Node?
    ensures Print(f) + rest
         == f.text + (OpenTag(f.attrs) + (Print(f.inner) + (CLOSE + (Print(f.next) + rest))))
  {
    var a, b, c, d, e := f.text, OpenTag(f.attrs), Print(f.inner), CLOSE, Print(f.next);
    Reassoc5(a, b, c, d, e, rest);
  }

  lemma Reassoc5(a: string, b: string, c: string, d: string, e: string, r: string)
    ensures (a + (b + (c + (d + e)))) + r == a + (b + (c + (d + (e + r))))
  {
  }

  /** MAIN, in context: what follows is empty or begins with a tag mark. */
  lemma {:induction false} StripForest(f: Forest, rest: string, skipReasoning: bool)
    requires Ok(f) && (rest == "" || rest[0] == '<')
    ensures Strip(Print(f) + rest, skipReasoning) == Print(Prune(f, skipReasoning)) + Strip(rest, skipReasoning)
    decreases f
  {
    match f
    case Leaf(text) =>
      BeforeLt(text, rest, OPEN);
      StripText(text, rest, skipReasoning);
    case Node(text, attrs, inner, next) =>
      var after := Print(next) + rest;
      var block := Print(inner) + (CLOSE + after);
      NodeText(f, rest);
      BeforeLt(text, OpenTag(attrs) + block, OPEN);
      StripText(text, OpenTag(attrs) + block, skipReasoning);
      StripTag(attrs, block, skipReasoning);
      StripForest(next, rest, skipReasoning);
      if IsStripped(OpenTag(attrs), skipReasoning) {
        MarkFirst(CLOSE, after);
        SkipForest(inner, CLOSE + after, 1);
        SkipClose(after, 1);
        StrippedNode(text, next, rest, skipReasoning);
      } else {
        StripForest(inner, CLOSE + after, skipReasoning);
        StripClose(after, skipReasoning);
        Reassoc5(text, OpenTag(attrs), Print(Prune(inner, skipReasoning)), CLOSE,
                 Print(Prune(next, skipReasoning)), Strip(rest, skipReasoning));
      }
  }

  lemma StrippedNode(text: string, next: Forest, rest: string, skipReasoning: bool)
    ensures Print(PrependText(text, Prune(next, skipReasoning))) + Strip(rest, skipReasoning)
         == text + (Print(Prune(next, skipReasoning)) + Strip(rest, skipReasoning))
  {
    PrintPrepend(text, Prune(next, skipReasoning));
    Associate(text, Print(Prune(next, skipReasoning)), Strip(rest, skipReasoning));
  }

  /** MAIN: stripping a printed forest prints the pruned forest. */
  lemma StripPrinted(f: Forest, skipReasoning: bool)
    requires Ok(f)
    ensures Strip(Print(f), skipReasoning) == Print(Prune(f, skipReasoning))
  {
    StripForest(f, "", skipReasoning);
    NothingLeft(skipReasoning);
    assert Print(f) + "" == Print(f);
    assert Print(Prune(f, skipReasoning)) + "" == Print(Prune(f, skipReasoning));
  }

  /** Skipping to the end when the block is never closed. */
  lemma SkipUnclosed(f: Forest, depth: nat)
    requires Ok(f) && depth > 0
    ensures Skip(Print(f), depth) == ""
    decreases f
  {
    match f
    case Leaf(text) =>
      SkipLead(text, "", depth);
      assert text + "" == text;
    case Node(text, attrs, inner, next) =>
      var after := Print(next);
      var block := Print(inner) + (CLOSE + after);
      SkipLead(text, OpenTag(attrs) + block, depth);
      MarkFirst(CLOSE, after);
      LaterClose(Print(inner), after);
      SkipOpen(attrs, block, depth);
      SkipForest(inner, CLOSE + after, depth + 1);
      SkipClose(after, depth + 1);
      SkipUnclosed(next, depth);
  }

  /** MAIN: a stripped block that is never closed takes everything after it. */
  lemma StripUnclosed(before: Forest, attrs: string, inner: Forest, skipReasoning: bool)
    requires Ok(before) && Ok(inner) && '>' !in attrs && IsStripped(OpenTag(attrs), skipReasoning)
    ensures Strip(Print(before) + (OpenTag(attrs) + Print(inner)), skipReasoning)
         == Print(Prune(before, skipReasoning))
  {
    StripForest(before, OpenTag(attrs) + Print(inner), skipReasoning);
    StripTag(attrs, Print(inner), skipReasoning);
    SkipUnclosed(inner, 1);
    NothingLeft(skipReasoning);
    assert Print(Prune(before, skipReasoning)) + "" == Print(Prune(before, skipReasoning));
  }

  /** MAIN: an opening tag that is still arriving is dropped exactly when it already shows a
      stripped type. */
  lemma StripArriving(before: Forest, partial: string, skipReasoning: bool)
    requires Ok(before) && '>' !in partial
    ensures Strip(Print(before) + (OPEN + partial), skipReasoning)
         == Print(Prune(before, skipReasoning))
            + if IsStripped(OPEN + partial, skipReasoning) then "" else OPEN + partial
  {
    hide Print, Prune;
    StripForest(before, OPEN + partial, skipReasoning);
    StripPartial(partial, skipReasoning);
    hide *;
  }

  lemma StripPartial(partial: string, skipReasoning: bool)
    requires '>' !in partial
    ensures var w := OPEN + partial; Strip(w, skipReasoning) == if IsStripped(w, skipReasoning) then "" else w
  {
    var w := OPEN + partial;
    MarkFirst(OPEN, partial);
    forall k: nat ensures !HasAt(w, ">", k) {
      if k < |w| { HasAtChars(w, ">", k); assert w[k + 0] != '>'; }
    }
    NotFound(w, ">", 0);
    assert w[0..] == w && w[..0] == "";
  }
}
