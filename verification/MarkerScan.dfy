/** Visualization markers in chat text: which characters of a text node lie outside all marker
    ranges (`scanNodeText`), and how much of a marker is still arriving
    (`partialStartSuffixLength`). */
module MarkerScan {
  import opened Text

  const START_MARK := "@@@VIZ-START"
  const END_MARK := "@@@VIZ-END"

  // ---------- the scan ----------

  /** The state after a text, and the text outside all marker ranges. */
  datatype Scanned = Scanned(inside: bool, kept: string)

  function Prepend(head: string, s: Scanned): Scanned { s.(kept := head + s.kept) }

  function Scan(t: string, inside: bool): Scanned
    decreases |t|
  {
    var end := IndexOf(t, END_MARK, 0);
    var start := IndexOf(t, START_MARK, 0);
    if inside then
      if end == -1 then Scanned(true, "") else Scan(t[end + |END_MARK|..], false)
    else if end != -1 && (start == -1 || end < start) then
      Prepend(t[..end], Scan(t[end + |END_MARK|..], false))
    else if start == -1 then Scanned(false, t)
    else Prepend(t[..start], Scan(t[start + |START_MARK|..], true))
  }

  method ScanNodeText(text: string, insideAtEntry: bool) returns (inside: bool, kept: string)
    ensures Scanned(inside, kept) == Scan(text, insideAtEntry)
  {
    hide IndexOf, HasAt;
    kept := "";
    inside := insideAtEntry;
    var pos := 0;
    while pos < |text|
      invariant pos <= |text|
      invariant Scan(text, insideAtEntry) == Prepend(kept, Scan(text[pos..], inside))
      decreases |text| - pos
    {
      ghost var rest := text[pos..];
      IndexOfShift(text, END_MARK, pos);
      IndexOfShift(text, START_MARK, pos);
      if inside {
        var endIdx := IndexOf(text, END_MARK, pos);
        if endIdx == -1 { pos := |text|; break; }
        pos := endIdx + |END_MARK|;
        inside := false;
      } else {
        var startIdx := IndexOf(text, START_MARK, pos);
        var strayEnd := IndexOf(text, END_MARK, pos);
        if strayEnd != -1 && (startIdx == -1 || strayEnd < startIdx) {
          KeepsMore(kept, text[pos..strayEnd], Scan(text[strayEnd + |END_MARK|..], false));
          kept := kept + text[pos..strayEnd];
          pos := strayEnd + |END_MARK|;
          continue;
        }
        if startIdx == -1 { kept := kept + text[pos..]; break; }
        KeepsMore(kept, text[pos..startIdx], Scan(text[startIdx + |START_MARK|..], true));
        kept := kept + text[pos..startIdx];
        pos := startIdx + |START_MARK|;
        inside := true;
      }
    }
  }

  lemma KeepsMore(a: string, b: string, s: Scanned)
    ensures Prepend(a, Prepend(b, s)) == Prepend(a + b, s)
  {
    assert a + (b + s.kept) == (a + b) + s.kept;
  }

  // ---------- a grammar of marked text ----------

  datatype Message =
    | Last(prose: string)
    | Unclosed(prose: string, body: string)
    | Stray(prose: string, rest: Message)
    | Block(prose: string, body: string, rest: Message)

  function Print(m: Message): string {
    match m
    case Last(prose) => prose
    case Unclosed(prose, body) => prose + (START_MARK + body)
    case Stray(prose, rest) => prose + (END_MARK + Print(rest))
    case Block(prose, body, rest) => prose + (START_MARK + (body + (END_MARK + Print(rest))))
  }

  function Prose(m: Message): string {
    match m
    case Last(prose) => prose
    case Unclosed(prose, _) => prose
    case Stray(prose, rest) => prose + Prose(rest)
    case Block(prose, _, rest) => prose + Prose(rest)
  }

  predicate EndsInside(m: Message) {
    match m
    case Last(_) => false
    case Unclosed(_, _) => true
    case Stray(_, rest) => EndsInside(rest)
    case Block(_, _, rest) => EndsInside(rest)
  }

  ghost predicate NoMark(s: string) { !Contains(s, START_MARK) && !Contains(s, END_MARK) }

  /** Prose holds neither marker and bodies hold no END. */
  ghost predicate Ok(m: Message) {
    match m
    case Last(prose) => NoMark(prose)
    case Unclosed(prose, body) => NoMark(prose) && !Contains(body, END_MARK)
    case Stray(prose, rest) => NoMark(prose) && Ok(rest)
    case Block(prose, body, rest) => NoMark(prose) && !Contains(body, END_MARK) && Ok(rest)
  }

  predicate IsMark(p: string) { p == START_MARK || p == END_MARK }

  /** Markers do not overlap: none begins in the text before a marker and runs into it. */
  lemma NoOverlap(a: string, mark: string, rest: string, p: string, k: nat)
    requires IsMark(mark) && IsMark(p) && k < |a| && HasAt(a + (mark + rest), p, k)
    ensures HasAt(a, p, k)
  {
    var w := a + (mark + rest);
    HasAtChars(w, p, k);
    var d := |a| - k;
    assert forall x :: 0 <= x < 3 ==> w[|a| + x] == mark[x] == '@';
    assert p[3] == 'V' && w[k + 3] == p[3];
    assert d < |p| ==> w[k + d] == p[d];
    assert forall x :: 3 <= x < |p| ==> p[x] != '@';
    assert k + |p| <= |a|;
    assert w[k..k + |p|] == a[k..k + |p|];
  }

  /** In `a mark rest`, with no `p` in `a`, the first `p` is at the marker or after it. */
  lemma FirstMark(a: string, mark: string, rest: string, p: string)
    requires IsMark(mark) && IsMark(p) && !Contains(a, p)
    ensures var r := IndexOf(a + (mark + rest), p, 0);
      if p == mark then r == |a| else r == -1 || r > |a|
  {
    hide HasAt;
    var w := a + (mark + rest);
    forall k: nat | k < |a| ensures !HasAt(w, p, k) {
      if HasAt(w, p, k) { NoOverlap(a, mark, rest, p, k); }
    }
    MarkAt(a, mark, rest);
    if p == mark {
      FirstIs(w, p, 0, |a|);
    } else if p == END_MARK {
      OneMark(w, |a|);
    } else if HasAt(w, START_MARK, |a|) {
      OneMark(w, |a|);
    }
  }

  lemma MarkAt(a: string, mark: string, rest: string)
    ensures HasAt(a + (mark + rest), mark, |a|)
    ensures (a + (mark + rest))[..|a|] == a && (a + (mark + rest))[|a| + |mark|..] == rest
  {
    var w := a + (mark + rest);
    assert w[|a|..|a| + |mark|] == mark;
  }

  lemma OneMark(w: string, i: nat)
    requires HasAt(w, START_MARK, i)
    ensures !HasAt(w, END_MARK, i)
  {
    HasAtChars(w, START_MARK, i);
    assert w[i + 7] == START_MARK[7] != END_MARK[7];
    if i + |END_MARK| <= |w| { HasAtChars(w, END_MARK, i); }
  }

  lemma NotIn(s: string, p: string)
    requires !Contains(s, p)
    ensures IndexOf(s, p, 0) == -1
  {
  }

  /** MAIN: scanning a printed message from outside keeps exactly its prose. */
  lemma {:induction false} ScanPrinted(m: Message)
    requires Ok(m)
    ensures Scan(Print(m), false) == Scanned(EndsInside(m), Prose(m))
  {
    hide IndexOf, HasAt, IsMark, Contains;
    match m
    case Last(prose) =>
      NotIn(prose, START_MARK);
      NotIn(prose, END_MARK);
    case Unclosed(prose, body) =>
      ScanOpened(prose, body);
      NotIn(body, END_MARK);
      assert prose + "" == prose;
    case Stray(prose, rest) =>
      ScanStray(prose, Print(rest));
      ScanPrinted(rest);
    case Block(prose, body, rest) =>
      ScanOpened(prose, body + (END_MARK + Print(rest)));
      ScanBody(body, Print(rest));
      ScanPrinted(rest);
  }

  lemma ScanOpened(prose: string, after: string)
    requires NoMark(prose)
    ensures Scan(prose + (START_MARK + after), false) == Prepend(prose, Scan(after, true))
  {
    hide IndexOf, HasAt, Contains;
    FirstMark(prose, START_MARK, after, START_MARK);
    FirstMark(prose, START_MARK, after, END_MARK);
    MarkAt(prose, START_MARK, after);
  }

  lemma ScanStray(prose: string, after: string)
    requires NoMark(prose)
    ensures Scan(prose + (END_MARK + after), false) == Prepend(prose, Scan(after, false))
  {
    hide IndexOf, HasAt, Contains;
    FirstMark(prose, END_MARK, after, START_MARK);
    FirstMark(prose, END_MARK, after, END_MARK);
    MarkAt(prose, END_MARK, after);
  }

  lemma ScanBody(body: string, after: string)
    requires !Contains(body, END_MARK)
    ensures Scan(body + (END_MARK + after), true) == Scan(after, false)
  {
    hide IndexOf, HasAt, Contains;
    FirstMark(body, END_MARK, after, END_MARK);
    MarkAt(body, END_MARK, after);
  }

  // ---------- every text is a printed message ----------

  lemma SplitAt(t: string, p: string, i: nat)
    requires HasAt(t, p, i)
    ensures t == t[..i] + (p + t[i + |p|..])
  {
    assert t[i..] == t[i..i + |p|] + t[i + |p|..];
  }

  lemma NoneInPrefix(t: string, p: string, i: nat)
    requires i <= |t| && p != "" && (IndexOf(t, p, 0) == -1 || i <= IndexOf(t, p, 0))
    ensures !Contains(t[..i], p)
  {
    if Contains(t[..i], p) {
      var k: nat :| HasAt(t[..i], p, k);
      assert t[..i][k..k + |p|] == t[k..k + |p|];
      NoneBefore(t, p, 0, k);
    }
  }

  /** MAIN: every text has a reading as a message, so `ScanPrinted` speaks about all texts. */
  lemma {:induction false} EveryTextIsAMessage(t: string) returns (m: Message)
    ensures Ok(m) && Print(m) == t
    decreases |t|
  {
    hide HasAt, IndexOf, Contains;
    var end, start := IndexOf(t, END_MARK, 0), IndexOf(t, START_MARK, 0);
    if end != -1 && (start == -1 || end < start) {
      SplitAt(t, END_MARK, end);
      NoneInPrefix(t, START_MARK, end);
      NoneInPrefix(t, END_MARK, end);
      var rest := EveryTextIsAMessage(t[end + |END_MARK|..]);
      m := Stray(t[..end], rest);
    } else if start == -1 {
      NoneInPrefix(t, START_MARK, |t|);
      NoneInPrefix(t, END_MARK, |t|);
      assert t[..|t|] == t;
      m := Last(t);
    } else {
      m := OpenedMessage(t, start);
    }
  }

  lemma {:induction false} OpenedMessage(t: string, start: nat) returns (m: Message)
    requires IndexOf(t, START_MARK, 0) == start
    requires IndexOf(t, END_MARK, 0) == -1 || start <= IndexOf(t, END_MARK, 0)
    ensures Ok(m) && Print(m) == t
    decreases |t|, 0
  {
    hide HasAt, IndexOf, Contains;
    SplitAt(t, START_MARK, start);
    NoneInPrefix(t, START_MARK, start);
    NoneInPrefix(t, END_MARK, start);
    var after := t[start + |START_MARK|..];
    var end := IndexOf(after, END_MARK, 0);
    if end == -1 {
      NoneInPrefix(after, END_MARK, |after|);
      assert after[..|after|] == after;
      m := Unclosed(t[..start], after);
    } else {
      SplitAt(after, END_MARK, end);
      NoneInPrefix(after, END_MARK, end);
      var rest := EveryTextIsAMessage(after[end + |END_MARK|..]);
      m := Block(t[..start], after[..end], rest);
    }
  }

  // ---------- node by node ----------

  /** No marker begins in `a` and ends in `b`. */
  ghost predicate NoStraddle(a: string, b: string) {
    forall p, k: nat :: IsMark(p) && k < |a| < k + |p| ==> !HasAt(a + b, p, k)
  }

  function Then(first: Scanned, next: string): Scanned {
    Prepend(first.kept, Scan(next, first.inside))
  }

  lemma IndexOfJoin(a: string, b: string, p: string)
    requires IsMark(p) && NoStraddle(a, b)
    ensures IndexOf(a + b, p, 0)
         == if IndexOf(a, p, 0) != -1 then IndexOf(a, p, 0)
            else if IndexOf(b, p, 0) == -1 then -1 else |a| + IndexOf(b, p, 0)
  {
    JoinIndex(a, b, p);
  }

  lemma NoStraddleTail(a: string, b: string, i: nat)
    requires i <= |a| && NoStraddle(a, b)
    ensures NoStraddle(a[i..], b)
  {
    forall p, k: nat | IsMark(p) && k < |a[i..]| < k + |p| ensures !HasAt(a[i..] + b, p, k) {
      assert (a + b)[i..] == a[i..] + b;
      SuffixHasAt(a + b, p, i, i + k);
      assert !HasAt(a + b, p, i + k);
    }
  }

  /** MAIN: scanning two texts one after the other, threading the state, is scanning their
      concatenation, when no marker straddles the boundary. */
  lemma {:induction false} ScanJoin(a: string, b: string, inside: bool)
    requires NoStraddle(a, b)
    ensures Scan(a + b, inside) == Then(Scan(a, inside), b)
    decreases |a|
  {
    assert IsMark(START_MARK) && IsMark(END_MARK);
    hide HasAt, IndexOf, IsMark, NoStraddle;
    var end, start := IndexOf(a, END_MARK, 0), IndexOf(a, START_MARK, 0);
    IndexOfJoin(a, b, START_MARK);
    IndexOfJoin(a, b, END_MARK);
    if end != -1 && (inside || start == -1 || end < start) {
      CutJoin(a, b, end, end + |END_MARK|);
      ScanJoin(a[end + |END_MARK|..], b, false);
      ThenPrepend(a[..end], Scan(a[end + |END_MARK|..], false), b);
    } else if !inside && start != -1 {
      CutJoin(a, b, start, start + |START_MARK|);
      ScanJoin(a[start + |START_MARK|..], b, true);
      ThenPrepend(a[..start], Scan(a[start + |START_MARK|..], true), b);
    } else if inside {
      JoinBody(a, b);
    } else {
      JoinProse(a, b);
    }
  }

  lemma ThenPrepend(head: string, first: Scanned, next: string)
    ensures Then(Prepend(head, first), next) == Prepend(head, Then(first, next))
  {
    KeepsMore(head, first.kept, Scan(next, first.inside));
  }

  lemma CutJoin(a: string, b: string, i: nat, j: nat)
    requires i <= j <= |a| && NoStraddle(a, b)
    ensures (a + b)[..i] == a[..i] && (a + b)[j..] == a[j..] + b && NoStraddle(a[j..], b)
  {
    NoStraddleTail(a, b, j);
  }

  /** Inside a range, with no END in `a`. */
  lemma JoinBody(a: string, b: string)
    requires NoStraddle(a, b) && IndexOf(a, END_MARK, 0) == -1
    ensures Scan(a + b, true) == Then(Scan(a, true), b)
  {
    assert IsMark(END_MARK);
    IndexOfJoin(a, b, END_MARK);
    BodyScansAlike(a, b);
    PrependNothing(Scan(b, true));
    ScanBodyFrom(a);
  }

  lemma BodyScansAlike(a: string, b: string)
    requires var end := IndexOf(b, END_MARK, 0);
      IndexOf(a + b, END_MARK, 0) == if end == -1 then -1 else |a| + end
    ensures Scan(a + b, true) == Scan(b, true)
  {
    hide IndexOf, Scan, HasAt;
    var end := IndexOf(b, END_MARK, 0);
    ScanBodyFrom(b);
    ScanBodyFrom(a + b);
    if end != -1 { DropOfJoin(a, b, end + |END_MARK|); }
  }

  lemma DropOfJoin(a: string, b: string, j: nat)
    requires j <= |b|
    ensures (a + b)[|a| + j..] == b[j..]
  {
  }

  lemma PrependNothing(s: Scanned)
    ensures Prepend("", s) == s
  {
    assert "" + s.kept == s.kept;
  }

  lemma ScanBodyFrom(t: string)
    ensures var end := IndexOf(t, END_MARK, 0);
      Scan(t, true) == if end == -1 then Scanned(true, "") else Scan(t[end + |END_MARK|..], false)
  {
    hide HasAt;
  }

  /** From outside, the first marker of `t` is `p` at `i`. */
  ghost predicate NextMark(t: string, i: int, p: string) {
    var end, start := IndexOf(t, END_MARK, 0), IndexOf(t, START_MARK, 0);
    if p == END_MARK then i == end && end != -1 && (start == -1 || end < start)
    else p == START_MARK && i == start && start != -1 && (end == -1 || start <= end)
  }

  lemma ScanFromMark(t: string, i: nat, p: string)
    requires NextMark(t, i, p)
    ensures i + |p| <= |t|
    ensures Scan(t, false) == Prepend(t[..i], Scan(t[i + |p|..], p == START_MARK))
  {
    hide HasAt;
  }

  /** Outside, with neither marker in `a`. */
  lemma JoinProse(a: string, b: string)
    requires NoStraddle(a, b) && IndexOf(a, END_MARK, 0) == -1 && IndexOf(a, START_MARK, 0) == -1
    ensures Scan(a + b, false) == Then(Scan(a, false), b)
  {
    assert IsMark(START_MARK) && IsMark(END_MARK);
    assert Scan(a, false) == Scanned(false, a);
    IndexOfJoin(a, b, START_MARK);
    IndexOfJoin(a, b, END_MARK);
    var end, start := IndexOf(b, END_MARK, 0), IndexOf(b, START_MARK, 0);
    if end == -1 && start == -1 {
      assert Scan(b, false) == Scanned(false, b) && Scan(a + b, false) == Scanned(false, a + b);
    } else {
      var p := if end != -1 && (start == -1 || end < start) then END_MARK else START_MARK;
      var i := if p == END_MARK then end else start;
      assert NextMark(b, i, p) && NextMark(a + b, |a| + i, p);
      JoinAtMark(a, b, i, p);
    }
  }

  lemma JoinAtMark(a: string, b: string, i: nat, p: string)
    requires NextMark(b, i, p) && NextMark(a + b, |a| + i, p)
    ensures Scan(a + b, false) == Prepend(a, Scan(b, false))
  {
    hide IndexOf, NextMark, Scan;
    ScanFromMark(b, i, p);
    ScanFromMark(a + b, |a| + i, p);
    TailOfJoin(a, b, i, i + |p|);
    KeepsMore(a, b[..i], Scan(b[i + |p|..], p == START_MARK));
  }

  lemma TailOfJoin(a: string, b: string, i: nat, j: nat)
    requires i <= j <= |b|
    ensures (a + b)[..|a| + i] == a + b[..i] && (a + b)[|a| + j..] == b[j..]
  {
  }

  /** The text nodes of a message, in document order. */
  function Join(nodes: seq<string>): string {
    if nodes == [] then "" else nodes[0] + Join(nodes[1..])
  }

  function ScanNodes(nodes: seq<string>, inside: bool): Scanned {
    if nodes == [] then Scanned(inside, "")
    else
      var first := Scan(nodes[0], inside);
      Prepend(first.kept, ScanNodes(nodes[1..], first.inside))
  }

  ghost predicate NoneStraddles(nodes: seq<string>) {
    nodes == [] || (NoStraddle(nodes[0], Join(nodes[1..])) && NoneStraddles(nodes[1..]))
  }

  lemma {:induction false} ScanNodesIsScanJoin(nodes: seq<string>, inside: bool)
    requires NoneStraddles(nodes)
    ensures ScanNodes(nodes, inside) == Scan(Join(nodes), inside)
  {
    hide NoStraddle;
    if nodes == [] {
      NotIn("", START_MARK);
      NotIn("", END_MARK);
    } else {
      ScanJoin(nodes[0], Join(nodes[1..]), inside);
      ScanNodesIsScanJoin(nodes[1..], Scan(nodes[0], inside).inside);
    }
  }

  // ---------- a marker still arriving ----------

  function Min(a: nat, b: nat): nat { if a < b then a else b }

  /** The last `k` characters of `text` are the first `k` of START. */
  predicate EndsWithStart(text: string, k: nat) {
    k <= |text| && k <= |START_MARK| && START_MARK[..k] == text[|text| - k..]
  }

  method PartialStartSuffixLength(text: string) returns (n: nat)
    ensures n == PartialLength(text)
    ensures n != 0 ==> 3 <= n && EndsWithStart(text, n)
    ensures forall k: nat :: n < k && 3 <= k ==> !EndsWithStart(text, k)
  {
    var k: nat := Min(|text|, |START_MARK|);
    while k >= 3
      invariant forall j: nat :: k < j && 3 <= j ==> !EndsWithStart(text, j)
      invariant k <= Min(|text|, |START_MARK|)
      invariant PartialLength(text) == LongestFrom(text, k)
    {
      if EndsWithStart(text, k) { return k; }
      k := k - 1;
    }
    return 0;
  }

  function LongestFrom(text: string, k: nat): nat {
    if k < 3 then 0 else if EndsWithStart(text, k) then k else LongestFrom(text, k - 1)
  }

  function PartialLength(text: string): nat { LongestFrom(text, Min(|text|, |START_MARK|)) }

  lemma {:induction false} LongestIs(text: string, k: nat)
    ensures var n := LongestFrom(text, k);
      && n <= k && (n != 0 ==> 3 <= n && EndsWithStart(text, n))
      && (forall j: nat :: n < j <= k && 3 <= j ==> !EndsWithStart(text, j))
  {
    if k >= 3 && !EndsWithStart(text, k) { LongestIs(text, k - 1); }
  }

  /** MAIN: whatever arrives next, a START that it completes was covered already, provided three of
      its characters had arrived. */
  lemma PartialCoversArrivingStart(text: string, next: string, k: nat)
    requires HasAt(text + next, START_MARK, k) && k + 3 <= |text| < k + |START_MARK|
    ensures |text| - k <= PartialLength(text)
  {
    var n := |text| - k;
    var w := text + next;
    assert w[k..k + |START_MARK|][..n] == text[k..];
    assert EndsWithStart(text, n);
    LongestIs(text, Min(|text|, |START_MARK|));
  }
}
