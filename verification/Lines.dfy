/** Lines of a text: `"\n".join` and `str.splitlines`. */
module Lines {

  /** Where `splitlines` ends a line; a carriage return and a newline behind it are one end. */
  predicate IsBreak(c: char) {
    '\n' <= c <= '\r' || '\U{1C}' <= c <= '\U{1E}' || c == '\U{85}' || '\U{2028}' <= c <= '\U{2029}'
  }

  predicate OneLine(s: string) { forall k :: 0 <= k < |s| ==> !IsBreak(s[k]) }

  function BreakAt(s: string): (n: nat)
    ensures n <= |s| && (forall k :: 0 <= k < n ==> !IsBreak(s[k])) && (n < |s| ==> IsBreak(s[n]))
  {
    if s == "" || IsBreak(s[0]) then 0 else 1 + BreakAt(s[1..])
  }

  /** Where the line end that starts at `n` is over. */
  function BreakEnd(s: string, n: nat): (i: nat)
    requires n < |s|
    ensures n < i <= |s|
  {
    if s[n] == '\r' && n + 1 < |s| && s[n + 1] == '\n' then n + 2 else n + 1
  }

  /** The text behind its first line end. */
  function Behind(s: string): (rest: string)
    ensures s != "" ==> |rest| < |s|
  {
    var n := BreakAt(s);
    if n == |s| then "" else s[BreakEnd(s, n)..]
  }

  function SplitLines(s: string): (ls: seq<string>)
    ensures forall l <- ls :: OneLine(l)
    decreases |s|
  {
    if s == "" then [] else [s[..BreakAt(s)]] + SplitLines(Behind(s))
  }

  function Join(ls: seq<string>): string {
    if ls == [] then "" else if |ls| == 1 then ls[0] else ls[0] + ("\n" + Join(ls[1..]))
  }

  /** A last line that is empty leaves no trace but the end of the line before it. */
  function Shown(ls: seq<string>): seq<string> {
    if ls != [] && ls[|ls| - 1] == "" then ls[..|ls| - 1] else ls
  }

  lemma BreakIs(s: string, n: nat)
    requires n <= |s| && (forall k :: 0 <= k < n ==> !IsBreak(s[k])) && (n < |s| ==> IsBreak(s[n]))
    ensures BreakAt(s) == n
  {
  }

  /** A line, the newline behind it, and more text. */
  lemma SplitFirst(line: string, rest: string)
    requires OneLine(line)
    ensures SplitLines(line + ("\n" + rest)) == [line] + SplitLines(rest)
    ensures SplitLines(line) == if line == "" then [] else [line]
  {
    hide SplitLines;
    LineBreaks(line, rest);
    NoLines();
    SplitStep(line + ("\n" + rest));
    if line != "" {
      BreakIs(line, |line|);
      SplitStep(line);
      assert Behind(line) == "" && line[..|line|] == line;
    }
  }

  lemma LineBreaks(line: string, rest: string)
    requires OneLine(line)
    ensures var s := line + ("\n" + rest); BreakAt(s) == |line| && s[..|line|] == line && Behind(s) == rest
  {
    var s := line + ("\n" + rest);
    assert s[..|line|] == line && s[|line|] == '\n' && s[|line| + 1..] == rest;
    assert forall k :: 0 <= k < |line| ==> s[k] == line[k];
    BreakIs(s, |line|);
  }

  lemma {:induction false} SplitJoin(ls: seq<string>)
    requires forall l <- ls :: OneLine(l)
    ensures SplitLines(Join(ls)) == Shown(ls)
    decreases |ls|
  {
    hide OneLine, SplitLines;
    if ls == [] {
      NoLines();
    } else {
      var rest := ls[1..];
      SplitFirst(ls[0], Join(rest));
      if |ls| > 1 {
        assert ls == [ls[0]] + rest && forall l <- rest :: l in ls;
        SplitJoin(rest);
        assert rest[|rest| - 1] == ls[|ls| - 1];
        hide Join;
        assert [ls[0]] + Shown(rest) == Shown(ls);
      }
    }
  }

  lemma NoLines()
    ensures SplitLines("") == []
  {
  }

  lemma ShownHolds(ls: seq<string>)
    ensures forall l <- ls :: l in Shown(ls) || l == ""
  {
    if ls != [] { assert ls == ls[..|ls| - 1] + [ls[|ls| - 1]]; }
  }

  /** MAIN: lines that are joined are found again, except for a last empty one, exactly if none holds
      a line end of any kind. */
  lemma SplitJoinIsExact(ls: seq<string>)
    ensures SplitLines(Join(ls)) == Shown(ls) <==> forall l <- ls :: OneLine(l)
  {
    ShownHolds(ls);
    if forall l <- ls :: OneLine(l) { SplitJoin(ls); }
  }

  ghost predicate AllSingle(lines: seq<string>) { forall l <- lines :: OneLine(l) }

  lemma OneLineParts(a: string, b: string)
    ensures OneLine(a + b) <==> OneLine(a) && OneLine(b)
  {
    var s := a + b;
    assert forall k :: 0 <= k < |a| ==> s[k] == a[k];
    assert forall k :: 0 <= k < |b| ==> s[|a| + k] == b[k];
    if OneLine(s) {
      forall k | 0 <= k < |b| ensures !IsBreak(b[k]) { assert s[|a| + k] == b[k]; }
    }
  }

  lemma {:induction false} SplitApart(a: string, b: string)
    requires a != "" && !IsBreak(a[|a| - 1])
    ensures SplitLines(a + ("\n" + b)) == SplitLines(a) + SplitLines(b)
    decreases |a|
  {
    var n, s := BreakAt(a), a + ("\n" + b);
    hide *;
    if n == |a| {
      NoBreakIn(a);
      SplitFirst(a, b);
    } else {
      BehindJoin(a, "\n" + b);
      LastStays(a);
      SplitApart(Behind(a), b);
      SplitStep(a);
      SplitStep(s);
      PutFirst(a[..n], SplitLines(Behind(a)), SplitLines(b));
    }
  }

  lemma SplitStep(s: string)
    requires s != ""
    ensures SplitLines(s) == [s[..BreakAt(s)]] + SplitLines(Behind(s))
  {
  }

  lemma PutFirst(line: string, a: seq<string>, b: seq<string>)
    ensures [line] + (a + b) == ([line] + a) + b
  {
  }

  lemma NoBreakIn(s: string)
    requires BreakAt(s) == |s|
    ensures OneLine(s)
  {
  }

  lemma LastStays(s: string)
    requires BreakAt(s) < |s| && !IsBreak(s[|s| - 1])
    ensures Behind(s) != "" && Behind(s)[|Behind(s)| - 1] == s[|s| - 1]
  {
  }

  /** Adding text behind a text with a line end in it, unless that completes the line end. */
  lemma BehindJoin(a: string, c: string)
    requires BreakAt(a) < |a| && (c == "" || c[0] != '\n' || !IsBreak(a[|a| - 1]))
    ensures var n := BreakAt(a); BreakAt(a + c) == n && (a + c)[..n] == a[..n] && Behind(a + c) == Behind(a) + c
  {
    var n := BreakAt(a);
    BreakJoin(a, c, n);
    var i := BreakEnd(a, n);
    SliceJoin(a, c, n);
    SliceJoin(a, c, i);
    hide BreakAt, IsBreak;
  }

  lemma BreakJoin(a: string, c: string, n: nat)
    requires n == BreakAt(a) && n < |a| && (c == "" || c[0] != '\n' || !IsBreak(a[|a| - 1]))
    ensures BreakAt(a + c) == n && BreakEnd(a + c, n) == BreakEnd(a, n) <= |a|
  {
    assert forall k :: 0 <= k < |a| ==> (a + c)[k] == a[k];
    assert c != "" ==> (a + c)[|a|] == c[0];
    BreakIs(a + c, n);
  }

  lemma SliceJoin(a: string, c: string, i: nat)
    requires i <= |a|
    ensures (a + c)[..i] == a[..i] && (a + c)[i..] == a[i..] + c
  {
  }

  /** The first line of a text that begins with one. */
  lemma BreakBehind(pre: string, s: string)
    requires OneLine(pre) && BreakAt(s) < |s|
    ensures BreakAt(pre + s) == |pre| + BreakAt(s) && (pre + s)[..|pre| + BreakAt(s)] == pre + s[..BreakAt(s)]
    ensures Behind(pre + s) == Behind(s)
  {
    hide *;
    var n := BreakAt(s);
    BreakLater(pre, s, n);
    BehindIs(s, n);
    BehindIs(pre + s, |pre| + n);
    SlicesLater(pre, s, n);
    SlicesLater(pre, s, BreakEnd(s, n));
  }

  lemma BehindIs(s: string, n: nat)
    requires n == BreakAt(s) < |s|
    ensures Behind(s) == s[BreakEnd(s, n)..]
  {
  }

  lemma BreakLater(pre: string, s: string, n: nat)
    requires OneLine(pre) && n == BreakAt(s) < |s|
    ensures BreakAt(pre + s) == |pre| + n && BreakEnd(pre + s, |pre| + n) == |pre| + BreakEnd(s, n)
  {
    var w := pre + s;
    assert forall k :: 0 <= k < |pre| ==> w[k] == pre[k];
    assert forall k :: |pre| <= k < |w| ==> w[k] == s[k - |pre|];
    BreakIs(w, |pre| + n);
  }

  lemma SlicesLater(pre: string, s: string, i: nat)
    requires i <= |s|
    ensures (pre + s)[|pre| + i..] == s[i..] && (pre + s)[..|pre| + i] == pre + s[..i]
  {
  }
}
