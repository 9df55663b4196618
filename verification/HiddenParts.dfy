/** What a tick hides and what counts as prose, said of the message itself: the texts of its nodes, the
    values they show, and where its elements lie. */
module HiddenParts {
  import opened MarkerHide
  import opened MarkerScan
  import opened Options
  import opened Text

  // ---------- nodes that are all marker range ----------

  /** The node has text, and apart from white space all of it lies in marker ranges. */
  predicate AllMarker(lay: Layout, texts: seq<string>, finalized: bool, i: nat)
    requires i < |texts| == |lay.nodes|
  {
    var prose := MarkerHide.Prose(lay, texts, finalized, i);
    lay.nodes[i].walked && prose != texts[i] && Blank(prose)
  }

  /** The node shows nothing that a reader would miss. */
  predicate Quiet(lay: Layout, texts: seq<string>, finalized: bool, i: nat)
    requires i < |texts| == |lay.nodes|
  {
    lay.nodes[i].walked ==> Blank(MarkerHide.Prose(lay, texts, finalized, i))
  }

  lemma MarkedIsAllMarker(lay: Layout, cells: seq<Cell>, finalized: bool, i: nat)
    requires lay.Ok() && i < |cells| == |lay.nodes|
    ensures var t, fates := Texts(cells), TickFates(lay, cells, finalized);
            && (fates[i].Marked? <==> AllMarker(lay, t, finalized, i))
            && (Breaks(lay.nodes[i], t[i], fates[i]) <==> !Quiet(lay, t, finalized, i))
  {
    hide ProsePart, Fates;
    FatesAt(lay, Texts(cells), finalized, 0, i);
  }

  // ---------- segments ----------

  lemma {:induction false} SegmentsEndMarked(lay: Layout, texts: seq<string>, fates: seq<Fate>, i: nat, current: Option<Segment>)
    requires i <= |fates| == |texts| == |lay.nodes|
    requires current.Some? ==> EndsMarked(fates, current.value) && current.value.last < i
    ensures forall seg <- Segments(lay, texts, fates, i, current) :: EndsMarked(fates, seg)
    decreases |fates| - i
  {
    if i < |fates| {
      SegmentsStep(lay, texts, fates, i, current);
      var (next, done) := SegmentTurn(lay.nodes[i], texts[i], fates[i], i, current);
      hide Segments;
      SegmentsEndMarked(lay, texts, fates, i + 1, next);
    }
  }

  predicate EndsMarked(fates: seq<Fate>, seg: Segment) {
    seg.first <= seg.last < |fates| && fates[seg.first].Marked? && fates[seg.last].Marked?
  }

  /** A segment reaches from `a` or before to `b` or behind. */
  ghost predicate Reaches(segments: seq<Segment>, a: nat, b: nat) {
    exists seg :: seg in segments && seg.first <= a && b <= seg.last
  }

  lemma {:induction false} SegmentsReach(lay: Layout, texts: seq<string>, fates: seq<Fate>, i: nat, current: Option<Segment>, a: nat, b: nat)
    requires i <= |fates| == |texts| == |lay.nodes|
    requires a <= b < |fates| && lay.nodes[a].walked && fates[a].Marked? && lay.nodes[b].walked && fates[b].Marked?
    requires forall k :: a <= k <= b ==> !Breaks(lay.nodes[k], texts[k], fates[k])
    requires current.Some? ==> current.value.first <= current.value.last < i
    requires a < i ==> current.Some? && current.value.first <= a && (b < i ==> b <= current.value.last)
    ensures Reaches(Segments(lay, texts, fates, i, current), a, b)
    decreases |fates| - i
  {
    if i == |fates| {
      SegmentsEnd(lay, texts, fates, current);
    } else {
      SegmentsStep(lay, texts, fates, i, current);
      var (next, done) := SegmentTurn(lay.nodes[i], texts[i], fates[i], i, current);
      if b < i && Breaks(lay.nodes[i], texts[i], fates[i]) {
        hide Segments;
        assert current.value in done;
      } else {
        hide Segments;
        SegmentsReach(lay, texts, fates, i + 1, next, a, b);
        var seg :| seg in Segments(lay, texts, fates, i + 1, next) && seg.first <= a && b <= seg.last;
      }
    }
  }

  /** Nodes that are all marker range before and behind the element, and no prose between them. */
  ghost predicate Enclosed(lay: Layout, texts: seq<string>, finalized: bool, e: Element)
    requires |texts| == |lay.nodes|
  {
    exists a: nat, b: nat :: a < e.lo && e.hi <= b < |texts| && a <= b
      && AllMarker(lay, texts, finalized, a) && AllMarker(lay, texts, finalized, b)
      && forall k :: a <= k <= b ==> Quiet(lay, texts, finalized, k)
  }

  lemma BetweenIsEnclosed(lay: Layout, cells: seq<Cell>, finalized: bool, e: nat)
    requires lay.Ok() && |cells| == |lay.nodes| && e < |lay.elements|
    ensures Between(Segments(lay, Texts(cells), TickFates(lay, cells, finalized), 0, None), lay.elements[e])
       <==> Enclosed(lay, Texts(cells), finalized, lay.elements[e])
  {
    var t, fates := Texts(cells), TickFates(lay, cells, finalized);
    var segments := Segments(lay, t, fates, 0, None);
    var el := lay.elements[e];
    SegmentsAreRuns(lay, t, fates, 0, None);
    SegmentsEndMarked(lay, t, fates, 0, None);
    hide TickFates, Segments, AllMarker, Quiet, Breaks;
    forall k | 0 <= k < |cells|
      ensures (fates[k].Marked? <==> AllMarker(lay, t, finalized, k))
           && (Breaks(lay.nodes[k], t[k], fates[k]) <==> !Quiet(lay, t, finalized, k))
    {
      MarkedIsAllMarker(lay, cells, finalized, k);
    }
    if Between(segments, el) {
      var g :| 0 <= g < |segments| && segments[g].first < el.lo && el.hi <= segments[g].last;
      assert segments[g] in segments;
      var a, b := segments[g].first, segments[g].last;
      assert AllMarker(lay, t, finalized, a) && AllMarker(lay, t, finalized, b);
    }
    if Enclosed(lay, t, finalized, el) {
      EnclosedIsReached(lay, t, fates, finalized, el);
    }
  }

  lemma EnclosedIsReached(lay: Layout, texts: seq<string>, fates: seq<Fate>, finalized: bool, e: Element)
    requires |fates| == |texts| == |lay.nodes| && Enclosed(lay, texts, finalized, e)
    requires forall k :: 0 <= k < |texts| ==>
        (fates[k].Marked? <==> AllMarker(lay, texts, finalized, k))
        && (Breaks(lay.nodes[k], texts[k], fates[k]) <==> !Quiet(lay, texts, finalized, k))
    ensures Between(Segments(lay, texts, fates, 0, None), e)
  {
    hide Segments, Quiet, Breaks;
    var segments := Segments(lay, texts, fates, 0, None);
    var a: nat, b: nat :| a < e.lo && e.hi <= b < |texts| && a <= b
      && AllMarker(lay, texts, finalized, a) && AllMarker(lay, texts, finalized, b)
      && forall k :: a <= k <= b ==> Quiet(lay, texts, finalized, k);
    SegmentsReach(lay, texts, fates, 0, None, a, b);
    var seg :| seg in segments && seg.first <= a && b <= seg.last;
    var g :| 0 <= g < |segments| && segments[g] == seg;
  }

  // ---------- what is hidden ----------

  /** The block of a node that is all marker range, with nothing but such nodes and white space. */
  predicate MarkedBlock(lay: Layout, texts: seq<string>, finalized: bool, e: nat)
    requires |texts| == |lay.nodes| && e < |lay.elements| && lay.elements[e].hi <= |texts|
  {
    && (exists i :: 0 <= i < |texts| && lay.nodes[i].block == Some(e) && AllMarker(lay, texts, finalized, i))
    && forall k :: lay.elements[e].lo <= k < lay.elements[e].hi ==> Blank(texts[k]) || AllMarker(lay, texts, finalized, k)
  }

  lemma BlockIsMarked(lay: Layout, cells: seq<Cell>, finalized: bool, e: nat)
    requires lay.Ok() && |cells| == |lay.nodes| && e < |lay.elements|
    ensures e in HiddenBlocks(lay, Texts(cells), TickFates(lay, cells, finalized))
       <==> lay.elements[e].safe && MarkedBlock(lay, Texts(cells), finalized, e)
  {
    var t, fates := Texts(cells), TickFates(lay, cells, finalized);
    hide TickFates, AllMarker, HiddenBlocks;
    forall k | 0 <= k < |cells| ensures fates[k].Marked? <==> AllMarker(lay, t, finalized, k) {
      MarkedIsAllMarker(lay, cells, finalized, k);
    }
    BlockOfFates(lay, t, fates, finalized, e);
  }

  lemma BlockOfFates(lay: Layout, texts: seq<string>, fates: seq<Fate>, finalized: bool, e: nat)
    requires lay.Ok() && |fates| == |texts| == |lay.nodes| && e < |lay.elements|
    requires forall k :: 0 <= k < |texts| ==> (fates[k].Marked? <==> AllMarker(lay, texts, finalized, k))
    ensures e in HiddenBlocks(lay, texts, fates) <==> lay.elements[e].safe && MarkedBlock(lay, texts, finalized, e)
  {
    hide AllMarker, Blank;
    var el := lay.elements[e];
    assert FullyMarked(texts, fates, el) <==>
      forall k :: el.lo <= k < el.hi ==> Blank(texts[k]) || AllMarker(lay, texts, finalized, k);
    hide FullyMarked;
    if e in HiddenBlocks(lay, texts, fates) {
      var i :| 0 <= i < |fates| && BlockHides(lay, texts, fates, i) && lay.nodes[i].block.value == e;
      assert lay.nodes[i].block == Some(e);
    }
    if el.safe && MarkedBlock(lay, texts, finalized, e) {
      var i :| 0 <= i < |texts| && lay.nodes[i].block == Some(e) && AllMarker(lay, texts, finalized, i);
      assert BlockHides(lay, texts, fates, i);
    }
  }

  /** MAIN: exactly which elements a tick hides. None but safe ones: of those, blocks whose text is all
      in marker ranges, and elements without content and without any text on show between nodes that
      are, with no prose between these. */
  lemma HiddenExactly(lay: Layout, cells: seq<Cell>, finalized: bool, e: nat)
    requires lay.Ok() && |cells| == |lay.nodes|
    ensures e in TickHidden(lay, cells, finalized) <==>
      && e < |lay.elements| && lay.elements[e].safe
      && (|| MarkedBlock(lay, Texts(cells), finalized, e)
          || (&& !lay.elements[e].content
              && (forall k :: lay.elements[e].lo <= k < lay.elements[e].hi ==> Blank(cells[k].value))
              && Enclosed(lay, Texts(cells), finalized, lay.elements[e])))
  {
    if e in TickHidden(lay, cells, finalized) { HiddenInLayout(lay, cells, finalized, e); }
    if e < |lay.elements| {
      BlockIsMarked(lay, cells, finalized, e);
      BetweenIsEnclosed(lay, cells, finalized, e);
    }
    hide HiddenBlocks, Between, Enclosed, MarkedBlock, TickFates, Segments;
  }

  lemma HiddenInLayout(lay: Layout, cells: seq<Cell>, finalized: bool, e: nat)
    requires lay.Ok() && |cells| == |lay.nodes| && e in TickHidden(lay, cells, finalized)
    ensures e < |lay.elements|
  {
    hide TickFates, Segments, FullyMarked, Between, BlankValues;
  }

  // ---------- what counts as prose ----------

  lemma {:induction false} ProseIsShorter(m: Message)
    ensures |MarkerScan.Prose(m)| <= |Print(m)|
    ensures !m.Last? ==> |MarkerScan.Prose(m)| < |Print(m)|
  {
    match m
    case Last(_) =>
    case Unclosed(_, _) =>
    case Stray(_, rest) => ProseIsShorter(rest);
    case Block(_, _, rest) => ProseIsShorter(rest);
  }

  /** What may be the beginning of a start marker: three of its characters or more. */
  predicate Arriving(r: string) { 3 <= |r| && r <= "@@@VIZ-START" }

  /** MAIN: the prose of a node that begins outside marker ranges, of every text. Markers and what they
      enclose are left out; in the last node of a message still streaming, when it holds no marker, the
      longest end that may be a start marker arriving is left out too. */
  lemma ProseOutside(m: Message, last: bool, finalized: bool)
    requires MarkerScan.Ok(m)
    ensures var text := Print(m);
      var prose := ProsePart(text, false, last, finalized);
      if finalized || !last || !m.Last? then prose == MarkerScan.Prose(m)
      else prose <= text && (prose == text || Arriving(text[|prose|..]))
           && forall k :: 0 <= k < |prose| ==> !Arriving(text[k..])
  {
    ScanPrinted(m);
    ProseIsShorter(m);
    hide Scan, MarkerScan.Ok;
    if m.Last? { PartialIsLongest(m.prose); }
  }

  lemma PartialIsLongest(text: string)
    ensures var n := PartialLength(text);
      && n <= |text| && (n == 0 || Arriving(text[|text| - n..]))
      && forall k :: 0 <= k < |text| - n ==> !Arriving(text[k..])
  {
    LongestIs(text, MarkerScan.Min(|text|, |START_MARK|));
    var n := PartialLength(text);
    forall k | 0 <= k < |text| - n ensures !Arriving(text[k..]) { ArrivingEnds(text, k); }
  }

  lemma ArrivingEnds(text: string, k: nat)
    requires k <= |text|
    ensures Arriving(text[k..]) ==> EndsWithStart(text, |text| - k) && 3 <= |text| - k
  {
    if Arriving(text[k..]) { assert START_MARK[..|text| - k] == text[k..]; }
  }

  /** And of one that begins inside: what follows its end marker. */
  lemma ProseInside(body: string, m: Message, last: bool, finalized: bool)
    requires MarkerScan.Ok(m) && !Contains(body, "@@@VIZ-END")
    ensures ProsePart(body, true, last, finalized) == ""
    ensures ProsePart(body + ("@@@VIZ-END" + Print(m)), true, last, finalized) == MarkerScan.Prose(m)
  {
    var text := body + (END_MARK + Print(m));
    NotFound(body, END_MARK, 0);
    ScanPrinted(m);
    ProseIsShorter(m);
    FirstMark(body, END_MARK, Print(m), END_MARK);
    assert text[|body| + |END_MARK|..] == Print(m);
    hide IndexOf, HasAt, Contains, MarkerScan.Ok;
    ScanBodyFrom(body);
    ScanBodyFrom(text);
    hide Scan;
    assert |MarkerScan.Prose(m)| < |text|;
  }

  /** The texts of the walked nodes from `i` on, and the prose of these nodes in one string. */
  function WalkedTexts(lay: Layout, texts: seq<string>, i: nat): seq<string>
    requires i <= |texts| == |lay.nodes|
    decreases |texts| - i
  {
    if i == |texts| then []
    else (if lay.nodes[i].walked then [texts[i]] else []) + WalkedTexts(lay, texts, i + 1)
  }

  function WalkedProse(lay: Layout, texts: seq<string>, i: nat): string
    requires i <= |texts| == |lay.nodes|
    decreases |texts| - i
  {
    if i == |texts| then ""
    else (if lay.nodes[i].walked then MarkerHide.Prose(lay, texts, true, i) else "") + WalkedProse(lay, texts, i + 1)
  }

  lemma {:induction false} WalkedIsScan(lay: Layout, texts: seq<string>, i: nat)
    requires i <= |texts| == |lay.nodes|
    ensures WalkedProse(lay, texts, i) == ScanNodes(WalkedTexts(lay, texts, i), InsideAt(lay, texts, i)).kept
    decreases |texts| - i
  {
    hide Scan, PartialLength;
    if i < |texts| {
      WalkedIsScan(lay, texts, i + 1);
      var rest := WalkedTexts(lay, texts, i + 1);
      if lay.nodes[i].walked {
        assert ([texts[i]] + rest)[1..] == rest;
      } else {
        assert [] + rest == rest && "" + WalkedProse(lay, texts, i + 1) == WalkedProse(lay, texts, i + 1);
      }
    }
  }

  /** MAIN: the prose of the nodes, read one after the other, is the prose of the whole message, when no
      marker is spread over two nodes. */
  lemma ProseOfMessage(lay: Layout, texts: seq<string>, m: Message)
    requires |texts| == |lay.nodes| && MarkerScan.Ok(m)
    requires Print(m) == MarkerScan.Join(WalkedTexts(lay, texts, 0)) && NoneStraddles(WalkedTexts(lay, texts, 0))
    ensures WalkedProse(lay, texts, 0) == MarkerScan.Prose(m)
  {
    hide *;
    WalkedIsScan(lay, texts, 0);
    ScanNodesIsScanJoin(WalkedTexts(lay, texts, 0), false);
    ScanPrinted(m);
    StartsOutside(lay, texts);
  }

  lemma StartsOutside(lay: Layout, texts: seq<string>)
    requires |texts| == |lay.nodes|
    ensures !InsideAt(lay, texts, 0)
  {
  }

  /** Only in the last walked node can a start marker be arriving; nodes that are not walked are all prose. */
  lemma ProseOfNode(lay: Layout, texts: seq<string>, finalized: bool, i: nat)
    requires i < |texts| == |lay.nodes|
    ensures MarkerHide.Prose(lay, texts, finalized, i)
            == if !lay.nodes[i].walked then texts[i]
               else ProsePart(texts[i], InsideAt(lay, texts, i), !exists k :: i < k < |lay.nodes| && lay.nodes[k].walked, finalized)
  {
    hide ProsePart, InsideAt;
    assert lay.LastWalked(i) <==> !exists k :: i < k < |lay.nodes| && lay.nodes[k].walked;
  }
}
