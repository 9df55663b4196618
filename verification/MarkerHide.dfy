/** Hiding visualization markers in a chat message that the page keeps rewriting
    (`hideMarkerRange` and the stash behind it).

    The message is its text nodes in document order and its elements as intervals of text nodes.
    A page write replaces the text of one node; a tick runs the three hiding passes. */
module MarkerHide {
  import opened MarkerScan
  import opened Options
  import opened Text

  // ---------- what a node holds, and what it means ----------

  /** The text as the page wrote it, and the text the hider wrote over it. */
  datatype Entry = Entry(orig: string, written: string)

  /** A text node: its current value and its stash entry. */
  datatype Cell = Cell(value: string, entry: Option<Entry>)

  /** `getEffectiveText`: the page's text, whether or not the hider has written over it. */
  function Effective(c: Cell): string {
    if c.entry.Some? && (c.value == c.entry.value.written || c.value == "") then c.entry.value.orig
    else c.value
  }

  function Texts(cells: seq<Cell>): (t: seq<string>)
    ensures |t| == |cells| && forall i :: 0 <= i < |t| ==> t[i] == Effective(cells[i])
  {
    seq(|cells|, i requires 0 <= i < |cells| => Effective(cells[i]))
  }

  /** `_ivStash` followed by the write of `written`. */
  function Overwrite(c: Cell, written: string): Cell {
    var orig :=
      if c.entry.None? then c.value
      else if c.value != c.entry.value.written && c.value != "" then c.value
      else c.entry.value.orig;
    Cell(written, Some(Entry(orig, written)))
  }

  /** `blankPreserving` and `trimPreserving`. */
  function Blanked(c: Cell): Cell { if c.value == "" then c else Overwrite(c, "") }

  function TrimmedTo(c: Cell, kept: string): Cell { if c.value == kept then c else Overwrite(c, kept) }

  /** The restore pass on a node that is no longer suppressed. */
  function Restored(c: Cell): Cell { Cell(Effective(c), None) }

  // ---------- the layout of the message ----------

  /** An element covers the text nodes `lo..hi`. `content`: it is or holds an image, a rule, a
      control or the like. `safe`: it is not the message root and owns no frame or embed. */
  datatype Element = Element(lo: nat, hi: nat, content: bool, safe: bool)

  /** `walked`: the walker visits the node. `block`: its nearest block-like ancestor. */
  datatype Node = Node(walked: bool, block: Option<nat>)

  datatype Layout = Layout(nodes: seq<Node>, elements: seq<Element>) {
    predicate Ok() {
      && (forall e :: 0 <= e < |elements| ==> elements[e].lo <= elements[e].hi <= |nodes|)
      && (forall i :: 0 <= i < |nodes| && nodes[i].block.Some? ==>
            nodes[i].block.value < |elements| && Covers(nodes[i].block.value, i))
    }

    predicate Covers(e: nat, i: nat)
      requires e < |elements|
    {
      elements[e].lo <= i < elements[e].hi
    }

    predicate LastWalked(i: nat)
      requires i < |nodes|
    {
      forall k :: i < k < |nodes| ==> !nodes[k].walked
    }
  }

  // ---------- pass 1: what becomes of each node ----------

  datatype Fate = Plain | Marked | Trimmed(kept: string)

  predicate TailIsPartial(text: string, scan: Scanned, last: bool, finalized: bool) {
    scan.kept == text && !finalized && !scan.inside && last && PartialLength(text) > 0
  }

  /** The part of the node that is prose: outside all marker ranges and, in the last node of a
      message that is still streaming, without a marker's beginning at its end. */
  function ProsePart(text: string, inside: bool, last: bool, finalized: bool): string {
    var scan := Scan(text, inside);
    LongestIs(text, Min(|text|, |START_MARK|));
    if TailIsPartial(text, scan, last, finalized) then text[..|text| - PartialLength(text)] else scan.kept
  }

  function FateOf(text: string, inside: bool, last: bool, finalized: bool): Fate {
    var prose := ProsePart(text, inside, last, finalized);
    if prose == text then Plain else if Blank(prose) then Marked else Trimmed(prose)
  }

  function Fates(lay: Layout, texts: seq<string>, finalized: bool, i: nat, inside: bool): (f: seq<Fate>)
    requires i <= |texts| == |lay.nodes|
    ensures |f| == |texts| - i
    decreases |texts| - i
  {
    if i == |texts| then []
    else if !lay.nodes[i].walked then [Plain] + Fates(lay, texts, finalized, i + 1, inside)
    else [FateOf(texts[i], inside, lay.LastWalked(i), finalized)]
         + Fates(lay, texts, finalized, i + 1, Scan(texts[i], inside).inside)
  }

  /** The state of the marker scan before node `i`. */
  function InsideAt(lay: Layout, texts: seq<string>, i: nat): bool
    requires i <= |texts| == |lay.nodes|
  {
    if i == 0 then false
    else if !lay.nodes[i - 1].walked then InsideAt(lay, texts, i - 1)
    else Scan(texts[i - 1], InsideAt(lay, texts, i - 1)).inside
  }

  /** The prose of node `i` of the message; nodes that are not walked are all prose. */
  function Prose(lay: Layout, texts: seq<string>, finalized: bool, i: nat): string
    requires i < |texts| == |lay.nodes|
  {
    if lay.nodes[i].walked then ProsePart(texts[i], InsideAt(lay, texts, i), lay.LastWalked(i), finalized)
    else texts[i]
  }

  lemma {:induction false} FatesAt(lay: Layout, texts: seq<string>, finalized: bool, i: nat, k: nat)
    requires i <= k < |texts| == |lay.nodes|
    ensures Fates(lay, texts, finalized, i, InsideAt(lay, texts, i))[k - i]
         == if lay.nodes[k].walked then FateOf(texts[k], InsideAt(lay, texts, k), lay.LastWalked(k), finalized)
            else Plain
    decreases k - i
  {
    hide Fates, FateOf, Scan;
    FatesStep(lay, texts, finalized, i, InsideAt(lay, texts, i));
    if i < k { FatesAt(lay, texts, finalized, i + 1, k); }
  }

  /** A run of marked nodes with no visible prose between them. */
  datatype Segment = Segment(first: nat, last: nat)

  /** Visible prose ends the current segment. */
  predicate Breaks(node: Node, text: string, fate: Fate) {
    node.walked && (fate.Trimmed? || (fate.Plain? && !Blank(text)))
  }

  function Segments(lay: Layout, texts: seq<string>, fates: seq<Fate>, i: nat, current: Option<Segment>): seq<Segment>
    requires i <= |fates| == |texts| == |lay.nodes|
    decreases |fates| - i
  {
    var done := if current.Some? then [current.value] else [];
    if i == |fates| then done
    else if lay.nodes[i].walked && fates[i].Marked? then
      Segments(lay, texts, fates, i + 1,
               Some(Segment(if current.Some? then current.value.first else i, i)))
    else if Breaks(lay.nodes[i], texts[i], fates[i]) then done + Segments(lay, texts, fates, i + 1, None)
    else Segments(lay, texts, fates, i + 1, current)
  }

  lemma FatesStep(lay: Layout, texts: seq<string>, finalized: bool, i: nat, inside: bool)
    requires i < |texts| == |lay.nodes|
    ensures var all := Fates(lay, texts, finalized, i, inside);
      if lay.nodes[i].walked then
        all[0] == FateOf(texts[i], inside, lay.LastWalked(i), finalized)
        && all[1..] == Fates(lay, texts, finalized, i + 1, Scan(texts[i], inside).inside)
      else all[0] == Plain && all[1..] == Fates(lay, texts, finalized, i + 1, inside)
  {
  }

  /** The segment after node `i`, and the segment that the node closes. */
  function SegmentTurn(node: Node, text: string, fate: Fate, i: nat, current: Option<Segment>)
    : (Option<Segment>, seq<Segment>)
  {
    if node.walked && fate.Marked? then (Some(Segment(if current.Some? then current.value.first else i, i)), [])
    else if Breaks(node, text, fate) then (None, if current.Some? then [current.value] else [])
    else (current, [])
  }

  lemma SegmentsStep(lay: Layout, texts: seq<string>, fates: seq<Fate>, i: nat, current: Option<Segment>)
    requires i < |fates| == |texts| == |lay.nodes|
    ensures var (next, done) := SegmentTurn(lay.nodes[i], texts[i], fates[i], i, current);
      Segments(lay, texts, fates, i, current) == done + Segments(lay, texts, fates, i + 1, next)
  {
  }

  lemma SegmentsEnd(lay: Layout, texts: seq<string>, fates: seq<Fate>, current: Option<Segment>)
    requires |fates| == |texts| == |lay.nodes|
    ensures Segments(lay, texts, fates, |fates|, current) == if current.Some? then [current.value] else []
  {
  }

  // ---------- pass 2: which elements to hide, which nodes to blank ----------

  /** Every text node under the element is white space or marked. */
  predicate FullyMarked(texts: seq<string>, fates: seq<Fate>, e: Element) {
    e.hi <= |fates| == |texts| && forall k :: e.lo <= k < e.hi ==> Blank(texts[k]) || fates[k].Marked?
  }

  /** The node is marked and its block can be hidden whole. */
  predicate BlockHides(lay: Layout, texts: seq<string>, fates: seq<Fate>, i: nat)
    requires lay.Ok() && i < |fates| == |texts| == |lay.nodes|
  {
    fates[i].Marked? && lay.nodes[i].block.Some?
    && (var e := lay.elements[lay.nodes[i].block.value]; e.safe && FullyMarked(texts, fates, e))
  }

  function HiddenBlocks(lay: Layout, texts: seq<string>, fates: seq<Fate>): set<nat>
    requires lay.Ok() && |fates| == |texts| == |lay.nodes|
  {
    set i | 0 <= i < |fates| && BlockHides(lay, texts, fates, i) :: lay.nodes[i].block.value
  }

  predicate BlankValues(cells: seq<Cell>, e: Element) {
    e.hi <= |cells| && forall k :: e.lo <= k < e.hi ==> Blank(cells[k].value)
  }

  predicate Between(segments: seq<Segment>, e: Element) {
    exists g :: 0 <= g < |segments| && segments[g].first < e.lo && e.hi <= segments[g].last
  }

  /** Elements without text, strictly inside a segment, that carry no other content. */
  function Swept(lay: Layout, cells: seq<Cell>, segments: seq<Segment>): set<nat> {
    set e | 0 <= e < |lay.elements| && BlankValues(cells, lay.elements[e]) && !lay.elements[e].content
            && lay.elements[e].safe && Between(segments, lay.elements[e])
  }

  // ---------- a whole tick ----------

  function NewCell(c: Cell, fate: Fate, inHiddenBlock: bool): Cell {
    match fate
    case Marked => if inHiddenBlock then c else Blanked(c)
    case Trimmed(kept) => TrimmedTo(c, kept)
    case Plain => Restored(c)
  }

  function TickFates(lay: Layout, cells: seq<Cell>, finalized: bool): (f: seq<Fate>)
    requires |cells| == |lay.nodes|
    ensures |f| == |cells|
  {
    Fates(lay, Texts(cells), finalized, 0, false)
  }

  function TickCells(lay: Layout, cells: seq<Cell>, finalized: bool): (r: seq<Cell>)
    requires lay.Ok() && |cells| == |lay.nodes|
    ensures |r| == |cells|
  {
    var fates := TickFates(lay, cells, finalized);
    seq(|cells|, i requires 0 <= i < |cells| =>
      NewCell(cells[i], fates[i], BlockHides(lay, Texts(cells), fates, i)))
  }

  function TickHidden(lay: Layout, cells: seq<Cell>, finalized: bool): set<nat>
    requires lay.Ok() && |cells| == |lay.nodes|
  {
    var fates := TickFates(lay, cells, finalized);
    HiddenBlocks(lay, Texts(cells), fates)
    + Swept(lay, cells, Segments(lay, Texts(cells), fates, 0, None))
  }

  // ---------- what a tick promises ----------

  /** MAIN: a tick never changes the text that any node stands for. */
  lemma TickKeepsTexts(lay: Layout, cells: seq<Cell>, finalized: bool)
    requires lay.Ok() && |cells| == |lay.nodes|
    ensures Texts(TickCells(lay, cells, finalized)) == Texts(cells)
  {
    hide TickFates, BlockHides;
    var r := TickCells(lay, cells, finalized);
    forall i | 0 <= i < |cells| ensures Effective(r[i]) == Effective(cells[i]) {}
  }

  /** What the reader sees of node `i`: nothing under a hidden element. */
  function Visible(lay: Layout, cells: seq<Cell>, hidden: set<nat>, i: nat): string
    requires i < |cells|
  {
    if exists e: nat :: e in hidden && e < |lay.elements| && lay.Covers(e, i) then "" else cells[i].value
  }

  /** Entries of the stash belong to walked nodes. */
  predicate StashedAreWalked(lay: Layout, cells: seq<Cell>) {
    |cells| == |lay.nodes| && forall i :: 0 <= i < |cells| && cells[i].entry.Some? ==> lay.nodes[i].walked
  }

  lemma NoMarkInBlank(text: string, p: string)
    requires Blank(text) && IsMark(p)
    ensures IndexOf(text, p, 0) == -1
  {
    forall k: nat ensures !HasAt(text, p, k) {
      if k + |p| <= |text| { HasAtChars(text, p, k); assert IsSpace(text[k + 0]) && !IsSpace(p[0]); }
    }
    NotFound(text, p, 0);
  }

  lemma BlankHasBlankProse(text: string, inside: bool, last: bool, finalized: bool)
    requires Blank(text)
    ensures Blank(ProsePart(text, inside, last, finalized))
  {
    NoMarkInBlank(text, START_MARK);
    NoMarkInBlank(text, END_MARK);
    assert Scan(text, inside).kept == "" || Scan(text, inside).kept == text;
    var n := PartialLength(text);
    LongestIs(text, Min(|text|, |START_MARK|));
    assert forall k :: 0 <= k < |text| - n ==> text[..|text| - n][k] == text[k];
  }

  lemma FateSays(lay: Layout, cells: seq<Cell>, finalized: bool, i: nat)
    requires lay.Ok() && i < |cells| == |lay.nodes|
    ensures var fate := TickFates(lay, cells, finalized)[i];
      var text := Effective(cells[i]);
      var prose := Prose(lay, Texts(cells), finalized, i);
      match fate
      case Plain => prose == text
      case Marked => lay.nodes[i].walked && Blank(prose)
      case Trimmed(kept) => lay.nodes[i].walked && prose == kept && !Blank(kept)
  {
    hide ProsePart, Fates;
    FatesAt(lay, Texts(cells), finalized, 0, i);
  }

  lemma BlankTextBlankProse(lay: Layout, cells: seq<Cell>, finalized: bool, i: nat)
    requires lay.Ok() && i < |cells| == |lay.nodes| && Blank(Effective(cells[i]))
    ensures Blank(Prose(lay, Texts(cells), finalized, i))
  {
    var t := Texts(cells);
    if lay.nodes[i].walked { BlankHasBlankProse(t[i], InsideAt(lay, t, i), lay.LastWalked(i), finalized); }
  }

  ghost predicate RunOf(lay: Layout, texts: seq<string>, fates: seq<Fate>, seg: Segment) {
    seg.first <= seg.last < |fates| == |texts| == |lay.nodes|
    && forall k :: seg.first <= k <= seg.last ==> !Breaks(lay.nodes[k], texts[k], fates[k])
  }

  lemma {:induction false} SegmentsAreRuns(lay: Layout, texts: seq<string>, fates: seq<Fate>, i: nat, current: Option<Segment>)
    requires i <= |fates| == |texts| == |lay.nodes|
    requires current.Some? ==>
      current.value.last < i && RunOf(lay, texts, fates, current.value)
      && forall k :: current.value.first <= k < i ==> !Breaks(lay.nodes[k], texts[k], fates[k])
    ensures forall seg :: seg in Segments(lay, texts, fates, i, current) ==> RunOf(lay, texts, fates, seg)
    decreases |fates| - i
  {
    if i < |fates| {
      if lay.nodes[i].walked && fates[i].Marked? {
        SegmentsAreRuns(lay, texts, fates, i + 1, Some(Segment(if current.Some? then current.value.first else i, i)));
      } else if Breaks(lay.nodes[i], texts[i], fates[i]) {
        SegmentsAreRuns(lay, texts, fates, i + 1, None);
      } else {
        SegmentsAreRuns(lay, texts, fates, i + 1, current);
      }
    }
  }

  /** MAIN: no hidden element covers a node that holds prose. */
  lemma NoProseIsHidden(lay: Layout, cells: seq<Cell>, finalized: bool, e: nat, i: nat)
    requires lay.Ok() && StashedAreWalked(lay, cells) && i < |cells|
    requires e in TickHidden(lay, cells, finalized) && e < |lay.elements| && lay.Covers(e, i)
    ensures Blank(Prose(lay, Texts(cells), finalized, i))
  {
    var fates := TickFates(lay, cells, finalized);
    hide TickFates, Prose;
    FateSays(lay, cells, finalized, i);
    var t := Texts(cells);
    if e in HiddenBlocks(lay, t, fates) {
      if Blank(t[i]) { BlankTextBlankProse(lay, cells, finalized, i); }
    } else {
      SweptIsBlank(lay, cells, finalized, e, i);
    }
  }

  lemma SweptIsBlank(lay: Layout, cells: seq<Cell>, finalized: bool, e: nat, i: nat)
    requires lay.Ok() && StashedAreWalked(lay, cells) && i < |cells|
    requires e < |lay.elements| && lay.Covers(e, i)
    requires e in Swept(lay, cells, Segments(lay, Texts(cells), TickFates(lay, cells, finalized), 0, None))
    ensures TickFates(lay, cells, finalized)[i].Marked? || Blank(Effective(cells[i]))
    ensures Blank(Prose(lay, Texts(cells), finalized, i))
  {
    var fates := TickFates(lay, cells, finalized);
    var t := Texts(cells);
    hide TickFates, Prose, Segments;
    FateSays(lay, cells, finalized, i);
    SegmentsAreRuns(lay, t, fates, 0, None);
    var segments := Segments(lay, t, fates, 0, None);
    var g :| 0 <= g < |segments| && segments[g].first < lay.elements[e].lo && lay.elements[e].hi <= segments[g].last;
    assert segments[g] in segments;
    assert !Breaks(lay.nodes[i], t[i], fates[i]);
    if !fates[i].Marked? { BlankTextBlankProse(lay, cells, finalized, i); }
  }

  /** What is seen is the prose. Prose of white space shows as nothing, or as it is when the node holds
      nothing else. */
  predicate Shows(seen: string, text: string, prose: string) {
    if Blank(prose) then seen == "" || seen == prose == text else seen == prose
  }

  /** MAIN: after a tick the reader sees exactly the prose of every node. */
  lemma TickShowsProse(lay: Layout, cells: seq<Cell>, finalized: bool, i: nat)
    requires lay.Ok() && StashedAreWalked(lay, cells) && i < |cells|
    ensures Shows(Visible(lay, TickCells(lay, cells, finalized), TickHidden(lay, cells, finalized), i),
                  Effective(cells[i]), Prose(lay, Texts(cells), finalized, i))
  {
    var hidden, fates := TickHidden(lay, cells, finalized), TickFates(lay, cells, finalized);
    FateSays(lay, cells, finalized, i);
    if BlockHides(lay, Texts(cells), fates, i) {
      assert lay.nodes[i].block.value in HiddenBlocks(lay, Texts(cells), fates);
    }
    if e: nat :| e in hidden && e < |lay.elements| && lay.Covers(e, i) {
      NoProseIsHidden(lay, cells, finalized, e, i);
    }
  }

  /** MAIN: nodes that are all prose get their own text back and leave the stash. */
  lemma TickRestores(lay: Layout, cells: seq<Cell>, finalized: bool, i: nat)
    requires lay.Ok() && i < |cells| == |lay.nodes| && Prose(lay, Texts(cells), finalized, i) == Effective(cells[i])
    ensures TickCells(lay, cells, finalized)[i] == Cell(Effective(cells[i]), None)
  {
    hide ProsePart, Fates;
    FatesAt(lay, Texts(cells), finalized, 0, i);
  }

  // ---------- ticking again ----------

  /** MAIN: a second tick writes no node and leaves the stash as it is. */
  lemma SecondTickKeepsCells(lay: Layout, cells: seq<Cell>, finalized: bool)
    requires lay.Ok() && |cells| == |lay.nodes|
    ensures var once := TickCells(lay, cells, finalized);
      TickCells(lay, once, finalized) == once
  {
    var once := TickCells(lay, cells, finalized);
    TickKeepsTexts(lay, cells, finalized);
    hide Fates, BlockHides;
    assert TickCells(lay, once, finalized) == once;
  }

  /** MAIN: the set of hidden elements only grows with the second tick, and the third tick changes
      nothing at all. */
  lemma ThirdTickChangesNothing(lay: Layout, cells: seq<Cell>, finalized: bool)
    requires lay.Ok() && StashedAreWalked(lay, cells)
    ensures var once := TickCells(lay, cells, finalized);
      && TickHidden(lay, cells, finalized) <= TickHidden(lay, once, finalized)
      && TickCells(lay, TickCells(lay, once, finalized), finalized) == once
      && TickHidden(lay, TickCells(lay, once, finalized), finalized) == TickHidden(lay, once, finalized)
  {
    var once := TickCells(lay, cells, finalized);
    TickKeepsTexts(lay, cells, finalized);
    SecondTickKeepsCells(lay, cells, finalized);
    forall e | e in TickHidden(lay, cells, finalized) ensures e in TickHidden(lay, once, finalized) {
      if e !in HiddenBlocks(lay, Texts(cells), TickFates(lay, cells, finalized)) {
        SweptStaysBlank(lay, cells, finalized, e);
      }
    }
  }

  lemma SweptStaysBlank(lay: Layout, cells: seq<Cell>, finalized: bool, e: nat)
    requires lay.Ok() && StashedAreWalked(lay, cells)
    requires e in Swept(lay, cells, Segments(lay, Texts(cells), TickFates(lay, cells, finalized), 0, None))
    ensures BlankValues(TickCells(lay, cells, finalized), lay.elements[e])
  {
    hide TickFates, Segments;
    forall k | lay.elements[e].lo <= k < lay.elements[e].hi
      ensures Blank(TickCells(lay, cells, finalized)[k].value)
    {
      SweptIsBlank(lay, cells, finalized, e, k);
      FateSays(lay, cells, finalized, k);
      if !TickFates(lay, cells, finalized)[k].Marked? { BlankTextBlankProse(lay, cells, finalized, k); }
    }
  }

  /** Whether this tick leaves a node blank, told before it: a marked node that shows something is
      blanked unless its whole block is hidden, and other nodes show their text again. */
  predicate WillBeBlank(lay: Layout, cells: seq<Cell>, fates: seq<Fate>, k: nat)
    requires lay.Ok() && k < |fates| == |cells| == |lay.nodes|
  {
    if fates[k].Marked? then Blank(cells[k].value) || !BlockHides(lay, Texts(cells), fates, k)
    else Blank(Effective(cells[k]))
  }

  lemma BlankAfterTick(lay: Layout, cells: seq<Cell>, finalized: bool, k: nat)
    requires lay.Ok() && k < |cells| == |lay.nodes|
    ensures Blank(TickCells(lay, cells, finalized)[k].value)
       <==> WillBeBlank(lay, cells, TickFates(lay, cells, finalized), k)
  {
    FateSays(lay, cells, finalized, k);
    if Blank(Effective(cells[k])) { BlankTextBlankProse(lay, cells, finalized, k); }
    hide TickFates, BlockHides, Prose;
  }

  /** MAIN: exactly when one tick is not enough. The second tick hides an element that the first did
      not exactly when that element is safe, carries no other content, lies strictly inside a marked
      segment, outlived pass 2, and holds text now, all of which this tick is going to blank. */
  lemma SecondTickHidesMore(lay: Layout, cells: seq<Cell>, finalized: bool, e: nat)
    requires lay.Ok() && StashedAreWalked(lay, cells) && e < |lay.elements|
    ensures var once := TickCells(lay, cells, finalized);
      var t, fates := Texts(cells), TickFates(lay, cells, finalized);
      (e in TickHidden(lay, once, finalized) && e !in TickHidden(lay, cells, finalized))
      <==> (e !in HiddenBlocks(lay, t, fates) && lay.elements[e].safe && !lay.elements[e].content
            && Between(Segments(lay, t, fates, 0, None), lay.elements[e])
            && !BlankValues(cells, lay.elements[e])
            && forall k :: lay.elements[e].lo <= k < lay.elements[e].hi ==> WillBeBlank(lay, cells, fates, k))
  {
    TickKeepsTexts(lay, cells, finalized);
    forall k | 0 <= k < |cells|
      ensures Blank(TickCells(lay, cells, finalized)[k].value)
         <==> WillBeBlank(lay, cells, TickFates(lay, cells, finalized), k)
    {
      BlankAfterTick(lay, cells, finalized, k);
    }
    hide Fates, Segments, HiddenBlocks, Between, WillBeBlank, TickCells, Blank;
    var once := TickCells(lay, cells, finalized);
    assert TickFates(lay, once, finalized) == TickFates(lay, cells, finalized);
  }

  // ---------- whole runs ----------

  /** The page rewrites a node, a node arrives or leaves, or the hider ticks. With a node that comes or
      goes the intervals of the elements are new; elements that arrive come behind those there are. */
  datatype Step =
    | Write(at: nat, text: string)
    | Arrive(at: nat, node: Node, text: string, elements: seq<Element>)
    | Leave(at: nat, elements: seq<Element>)
    | Tick(finalized: bool)

  datatype Chat = Chat(lay: Layout, cells: seq<Cell>, hidden: set<nat>) {
    predicate Ok() { lay.Ok() && |cells| == |lay.nodes| }
  }

  function WriteCell(c: Cell, text: string): Cell { c.(value := text) }

  /** A write is seen unless it is empty or equal to what the hider wrote last. */
  predicate Seen(c: Cell, text: string) {
    c.entry.Some? ==> text != "" && text != c.entry.value.written
  }

  function Inserted<T>(s: seq<T>, at: nat, x: T): (r: seq<T>)
    requires at <= |s|
    ensures |r| == |s| + 1 && r[at] == x
    ensures (forall k :: 0 <= k < at ==> r[k] == s[k]) && forall k :: at < k < |r| ==> r[k] == s[k - 1]
  {
    s[..at] + ([x] + s[at..])
  }

  function Removed<T>(s: seq<T>, at: nat): (r: seq<T>)
    requires at < |s|
    ensures |r| == |s| - 1
    ensures (forall k :: 0 <= k < at ==> r[k] == s[k]) && forall k :: at <= k < |r| ==> r[k] == s[k + 1]
  {
    s[..at] + s[at + 1..]
  }

  predicate Allowed(chat: Chat, step: Step)
    requires chat.Ok()
  {
    match step
    case Write(i, text) => i < |chat.cells| && Seen(chat.cells[i], text)
    case Arrive(at, node, _, es) =>
      at <= |chat.cells| && |chat.lay.elements| <= |es| && Layout(Inserted(chat.lay.nodes, at, node), es).Ok()
    case Leave(at, es) =>
      at < |chat.cells| && |chat.lay.elements| == |es| && Layout(Removed(chat.lay.nodes, at), es).Ok()
    case Tick(_) => true
  }

  function Next(chat: Chat, step: Step): (next: Chat)
    requires chat.Ok() && Allowed(chat, step)
    ensures next.Ok()
  {
    match step
    case Write(i, text) => chat.(cells := chat.cells[i := WriteCell(chat.cells[i], text)])
    case Arrive(at, node, text, es) =>
      chat.(lay := Layout(Inserted(chat.lay.nodes, at, node), es), cells := Inserted(chat.cells, at, Cell(text, None)))
    case Leave(at, es) => chat.(lay := Layout(Removed(chat.lay.nodes, at), es), cells := Removed(chat.cells, at))
    case Tick(finalized) =>
      chat.(cells := TickCells(chat.lay, chat.cells, finalized), hidden := TickHidden(chat.lay, chat.cells, finalized))
  }

  /** The texts of the page after one more step, as if the hider did not exist. */
  function PageStep(texts: seq<string>, step: Step): seq<string> {
    match step
    case Write(i, text) => if i < |texts| then texts[i := text] else texts
    case Arrive(at, _, text, _) => if at <= |texts| then Inserted(texts, at, text) else texts
    case Leave(at, _) => if at < |texts| then Removed(texts, at) else texts
    case Tick(_) => texts
  }

  function PageTexts(texts: seq<string>, steps: seq<Step>): seq<string> {
    if steps == [] then texts else PageStep(PageTexts(texts, steps[..|steps| - 1]), steps[|steps| - 1])
  }

  ghost predicate Reaches(chat: Chat, steps: seq<Step>, after: Chat)
    requires chat.Ok()
  {
    if steps == [] then after == chat
    else
      exists mid: Chat :: mid.Ok() && Reaches(chat, steps[..|steps| - 1], mid)
        && Allowed(mid, steps[|steps| - 1]) && after == Next(mid, steps[|steps| - 1])
  }

  /** A message the hider has not touched yet. */
  predicate Fresh(chat: Chat) {
    chat.Ok() && chat.hidden == {} && forall i :: 0 <= i < |chat.cells| ==> chat.cells[i].entry.None?
  }

  lemma StepKeepsTexts(chat: Chat, step: Step)
    requires chat.Ok() && Allowed(chat, step) && StashedAreWalked(chat.lay, chat.cells)
    ensures var next := Next(chat, step);
      StashedAreWalked(next.lay, next.cells) && Texts(next.cells) == PageStep(Texts(chat.cells), step)
  {
    hide TickCells, TickHidden, Layout.Ok;
    match step
    case Write(i, text) => assert Texts(Next(chat, step).cells) == Texts(chat.cells)[i := text];
    case Arrive(at, node, text, _) => ArriveKeepsTexts(chat.lay, chat.cells, at, node, text);
    case Leave(at, _) => LeaveKeepsTexts(chat.lay, chat.cells, at);
    case Tick(finalized) =>
      TickKeepsTexts(chat.lay, chat.cells, finalized);
      TickStashesWalked(chat.lay, chat.cells, finalized);
  }

  lemma ArriveKeepsTexts(lay: Layout, cells: seq<Cell>, at: nat, node: Node, text: string)
    requires StashedAreWalked(lay, cells) && at <= |cells|
    ensures Texts(Inserted(cells, at, Cell(text, None))) == Inserted(Texts(cells), at, text)
    ensures forall es :: StashedAreWalked(Layout(Inserted(lay.nodes, at, node), es), Inserted(cells, at, Cell(text, None)))
  {
    hide Inserted, Effective;
    var more, texts := Inserted(cells, at, Cell(text, None)), Inserted(Texts(cells), at, text);
    forall k | 0 <= k < |more| ensures Effective(more[k]) == texts[k] { CellArrives(cells, at, text, k); }
  }

  lemma CellArrives(cells: seq<Cell>, at: nat, text: string, k: nat)
    requires at <= |cells| && k <= |cells|
    ensures Effective(Inserted(cells, at, Cell(text, None))[k]) == Inserted(Texts(cells), at, text)[k]
  {
    hide Inserted;
  }

  lemma LeaveKeepsTexts(lay: Layout, cells: seq<Cell>, at: nat)
    requires StashedAreWalked(lay, cells) && at < |cells|
    ensures Texts(Removed(cells, at)) == Removed(Texts(cells), at)
    ensures forall es :: StashedAreWalked(Layout(Removed(lay.nodes, at), es), Removed(cells, at))
  {
    hide Removed, Effective;
  }

  /** MAIN: through any interleaving of writes, arrivals, departures and ticks, every node stands for
      what the page last wrote there, and only walked nodes are in the stash. */
  lemma {:induction false} RunsKeepTexts(chat: Chat, steps: seq<Step>, after: Chat)
    requires Fresh(chat) && Reaches(chat, steps, after)
    ensures after.Ok() && StashedAreWalked(after.lay, after.cells)
    ensures Texts(after.cells) == PageTexts(Texts(chat.cells), steps)
    decreases |steps|
  {
    if steps != [] {
      var step := steps[|steps| - 1];
      var mid: Chat :| mid.Ok() && Reaches(chat, steps[..|steps| - 1], mid) && Allowed(mid, step) && after == Next(mid, step);
      hide Allowed, Next, StashedAreWalked, PageStep, Chat.Ok;
      RunsKeepTexts(chat, steps[..|steps| - 1], mid);
      StepKeepsTexts(mid, step);
    }
  }

  lemma TickStashesWalked(lay: Layout, cells: seq<Cell>, finalized: bool)
    requires lay.Ok() && StashedAreWalked(lay, cells)
    ensures StashedAreWalked(lay, TickCells(lay, cells, finalized))
  {
    var r := TickCells(lay, cells, finalized);
    forall i | 0 <= i < |r| && r[i].entry.Some? ensures lay.nodes[i].walked {
      FateSays(lay, cells, finalized, i);
    }
  }

  /** MAIN: after any run that ends with a tick, what the reader sees is the prose of the page's own
      texts, whatever the hider did before. */
  lemma RunsShowProse(chat: Chat, steps: seq<Step>, finalized: bool, after: Chat, i: nat)
    requires Fresh(chat) && Reaches(chat, steps + [Tick(finalized)], after)
    requires i < |after.cells|
    ensures var texts := PageTexts(Texts(chat.cells), steps);
      && |texts| == |after.cells| == |after.lay.nodes|
      && Shows(Visible(after.lay, after.cells, after.hidden, i), texts[i], Prose(after.lay, texts, finalized, i))
  {
    var mid := BeforeTick(chat, steps, finalized, after);
    hide Reaches, Fresh, Shows, Visible, Prose, TickCells, TickHidden;
    RunsKeepTexts(chat, steps, mid);
    TickShowsProse(mid.lay, mid.cells, finalized, i);
  }

  lemma BeforeTick(chat: Chat, steps: seq<Step>, finalized: bool, after: Chat) returns (mid: Chat)
    requires chat.Ok() && Reaches(chat, steps + [Tick(finalized)], after)
    ensures mid.Ok() && Reaches(chat, steps, mid) && after.lay == mid.lay
    ensures after.cells == TickCells(mid.lay, mid.cells, finalized) && after.hidden == TickHidden(mid.lay, mid.cells, finalized)
  {
    var all := steps + [Tick(finalized)];
    assert all[..|all| - 1] == steps && all[|all| - 1] == Tick(finalized);
    mid :| mid.Ok() && Reaches(chat, steps, mid) && Allowed(mid, Tick(finalized)) && after == Next(mid, Tick(finalized));
  }

  /** A write that is not seen is lost, exactly unless it happens to repeat the old text. */
  lemma UnseenWriteIsLost(c: Cell, text: string)
    ensures Effective(WriteCell(c, text)) == text
       <==> (Seen(c, text) || text == c.entry.value.orig)
  {
  }

  /** Three bare text nodes, the middle one inside an inline element. */
  const THREE_NODES := Layout([Node(true, None), Node(true, None), Node(true, None)], [Element(1, 2, false, true)])
  const THREE_CELLS := [Cell(START_MARK, None), Cell("x", None), Cell(END_MARK, None)]

  lemma ThreeAreMarked()
    ensures TickFates(THREE_NODES, THREE_CELLS, false) == [Marked, Marked, Marked]
  {
    var t := Texts(THREE_CELLS);
    ThreeScans();
    hide Scan, PartialLength;
    assert Fates(THREE_NODES, t, false, 3, false) == [];
    assert Fates(THREE_NODES, t, false, 2, true) == [Marked];
    assert Fates(THREE_NODES, t, false, 1, true) == [Marked, Marked];
  }

  lemma ThreeAreOneSegment(t: seq<string>)
    requires |t| == 3
    ensures Segments(THREE_NODES, t, [Marked, Marked, Marked], 0, None) == [Segment(0, 2)]
  {
    var fates := [Marked, Marked, Marked];
    assert Segments(THREE_NODES, t, fates, 3, Some(Segment(0, 2))) == [Segment(0, 2)];
    assert Segments(THREE_NODES, t, fates, 2, Some(Segment(0, 1))) == [Segment(0, 2)];
  }

  /** One tick is not always enough: the first blanks all three nodes; only the second hides the
      element that has become empty. */
  lemma OneTickIsNotEnough()
    ensures THREE_NODES.Ok() && StashedAreWalked(THREE_NODES, THREE_CELLS)
    ensures 0 !in TickHidden(THREE_NODES, THREE_CELLS, false)
    ensures 0 in TickHidden(THREE_NODES, TickCells(THREE_NODES, THREE_CELLS, false), false)
  {
    ThreeAreOk();
    ThreeAreMarked();
    ThreeAreOneSegment(Texts(THREE_CELLS));
    MiddleIsSwept([Segment(0, 2)]);
    NothingHiddenFirst();
    assert THREE_NODES.elements[0] == Element(1, 2, false, true);
    hide *;
    SecondHides(THREE_NODES, THREE_CELLS, [Marked, Marked, Marked], 0);
  }

  lemma SecondHides(lay: Layout, cells: seq<Cell>, fates: seq<Fate>, e: nat)
    requires lay.Ok() && StashedAreWalked(lay, cells) && e < |lay.elements|
    requires lay.elements[e].safe && !lay.elements[e].content
    requires fates == TickFates(lay, cells, false) && e !in HiddenBlocks(lay, Texts(cells), fates)
    requires Between(Segments(lay, Texts(cells), fates, 0, None), lay.elements[e]) && !BlankValues(cells, lay.elements[e])
    requires forall k :: lay.elements[e].lo <= k < lay.elements[e].hi ==> WillBeBlank(lay, cells, fates, k)
    ensures e !in TickHidden(lay, cells, false) && e in TickHidden(lay, TickCells(lay, cells, false), false)
  {
    SecondTickHidesMore(lay, cells, false, e);
    hide *;
  }

  lemma NothingHiddenFirst()
    requires THREE_NODES.Ok()
    ensures HiddenBlocks(THREE_NODES, Texts(THREE_CELLS), [Marked, Marked, Marked]) == {}
    ensures WillBeBlank(THREE_NODES, THREE_CELLS, [Marked, Marked, Marked], 1)
  {
    assert THREE_NODES.nodes[1].block == None;
  }

  lemma ThreeAreOk()
    ensures THREE_NODES.Ok() && StashedAreWalked(THREE_NODES, THREE_CELLS)
  {
  }

  lemma MiddleIsSwept(segments: seq<Segment>)
    requires segments == [Segment(0, 2)]
    ensures Between(segments, THREE_NODES.elements[0])
    ensures !BlankValues(THREE_CELLS, THREE_NODES.elements[0]) && Blank("")
  {
    assert segments[0].first < 1;
    assert !IsSpace("x"[0]);
    assert !Blank(THREE_CELLS[1].value);
  }

  lemma ThreeScans()
    ensures Scan(START_MARK, false) == Scanned(true, "")
    ensures Scan("x", true) == Scanned(true, "")
    ensures Scan(END_MARK, true) == Scanned(false, "")
  {
    NoMarkIn("");
    NoMarkIn("x");
    ScanOpened("", "");
    assert "" + (START_MARK + "") == START_MARK;
    ScanBody("", "");
    assert "" + (END_MARK + "") == END_MARK;
    NotIn("", START_MARK);
    NotIn("", END_MARK);
    NotIn("x", END_MARK);
  }

  lemma NoMarkIn(s: string)
    requires |s| < 9
    ensures NoMark(s)
  {
  }
}
