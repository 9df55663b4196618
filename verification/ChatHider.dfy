/** The hider as the source has it: node values, the stash, the list of suppressed nodes and the
    hidden elements are changed in place, pass by pass. `MarkerHide` says what a tick must do. */
module ChatHider {
  import opened MarkerHide
  import opened MarkerScan
  import opened Options
  import opened Sequences
  import opened Text

  class Hider {
    const lay: Layout
    var values: seq<string>
    var stash: map<nat, Entry>
    var blanked: seq<nat>
    var hidden: set<nat>

    constructor (lay: Layout, values: seq<string>)
      requires lay.Ok() && |values| == |lay.nodes|
      ensures Valid() && this.lay == lay && this.values == values && hidden == {} && stash == map[]
    {
      this.lay, this.values := lay, values;
      stash, blanked, hidden := map[], [], {};
    }

    ghost predicate Valid()
      reads this
    {
      && lay.Ok() && |values| == |lay.nodes|
      && (forall i :: i in stash ==> i < |values| && i in blanked)
      && (forall j :: 0 <= j < |blanked| ==> blanked[j] in stash)
      && Distinct(blanked)
    }

    function CellAt(i: nat): Cell
      requires i < |values|
      reads this
    {
      Cell(values[i], if i in stash then Some(stash[i]) else None)
    }

    ghost function Cells(): (c: seq<Cell>)
      reads this
      ensures |c| == |values| && forall i :: 0 <= i < |c| ==> c[i] == CellAt(i)
    {
      seq(|values|, i requires 0 <= i < |values| reads this => CellAt(i))
    }

    /** The page rewrites a node. */
    method PageWrite(i: nat, text: string)
      requires Valid() && i < |values|
      modifies this
      ensures Valid() && hidden == old(hidden)
      ensures Cells() == old(Cells())[i := WriteCell(old(CellAt(i)), text)]
    {
      values := values[i := text];
    }

    method GetEffectiveText(i: nat) returns (text: string)
      requires Valid() && i < |values|
      ensures text == Effective(CellAt(i))
    {
      var value := values[i];
      if i !in stash { return value; }
      var entry := stash[i];
      if value == entry.written || value == "" { return entry.orig; }
      return value;
    }

    /** `_ivStash`, the write and `_ivRegisterBlanked`. */
    method Suppress(i: nat, current: string, written: string)
      requires Valid() && i < |values| && current == values[i]
      modifies this`values, this`stash, this`blanked
      ensures Valid() && Cells() == old(Cells())[i := Overwrite(old(CellAt(i)), written)]
    {
      if i in stash {
        var entry := stash[i];
        var orig := if current != entry.written && current != "" then current else entry.orig;
        stash := stash[i := Entry(orig, written)];
      } else {
        stash := stash[i := Entry(current, written)];
        blanked := blanked + [i];
      }
      values := values[i := written];
    }

    method BlankPreserving(i: nat)
      requires Valid() && i < |values|
      modifies this`values, this`stash, this`blanked
      ensures Valid() && Cells() == old(Cells())[i := Blanked(old(CellAt(i)))]
    {
      var current := values[i];
      if current == "" { return; }
      Suppress(i, current, "");
    }

    method TrimPreserving(i: nat, kept: string)
      requires Valid() && i < |values|
      modifies this`values, this`stash, this`blanked
      ensures Valid() && Cells() == old(Cells())[i := TrimmedTo(old(CellAt(i)), kept)]
    {
      var current := values[i];
      if current == kept { return; }
      Suppress(i, current, kept);
    }

    /** One node of pass 1. */
    method MarkNode(i: nat, inside: bool, last: bool, finalized: bool, current: Option<Segment>)
      returns (fate: Fate, inside': bool, current': Option<Segment>, done: seq<Segment>)
      requires Valid() && i < |values|
      ensures fate == if lay.nodes[i].walked then FateOf(Effective(CellAt(i)), inside, last, finalized) else Plain
      ensures inside' == if lay.nodes[i].walked then Scan(Effective(CellAt(i)), inside).inside else inside
      ensures (current', done) == SegmentTurn(lay.nodes[i], Effective(CellAt(i)), fate, i, current)
    {
      hide FateOf, Scan, Blank, Effective;
      fate, inside', current', done := Plain, inside, current, [];
      if lay.nodes[i].walked {
        var text := GetEffectiveText(i);
        fate, inside' := JudgeNode(text, inside, last, finalized);
        if fate.Marked? {
          current' := Some(Segment(if current.Some? then current.value.first else i, i));
        } else if fate.Trimmed? || !Blank(text) {
          current', done := None, if current.Some? then [current.value] else [];
        }
      }
    }

    /** Pass 1. */
    method MarkNodes(finalized: bool) returns (fates: seq<Fate>, segments: seq<Segment>)
      requires Valid()
      ensures fates == TickFates(lay, Cells(), finalized)
      ensures segments == Segments(lay, Texts(Cells()), fates, 0, None)
    {
      ghost var texts, all := Texts(Cells()), TickFates(lay, Cells(), finalized);
      var last := LastWalkedIndex();
      fates, segments := [], [];
      var inside := false;
      var current: Option<Segment> := None;
      var i: nat := 0;
      PassOneStarts(lay, texts, finalized, all);
      hide PassOne, Fates, FateOf, Segments, SegmentTurn, Scan, TickFates, Effective;
      while i < |values|
        invariant i <= |values| && PassOne(lay, texts, finalized, all, i, inside, current, fates, segments)
      {
        var fate, inside', current', done := MarkNode(i, inside, i == last, finalized, current);
        PassOneStep(lay, texts, finalized, all, i, inside, current, fates, segments);
        fates, segments, i := fates + [fate], segments + done, i + 1;
        inside, current := inside', current';
      }
      PassOneEnds(lay, texts, finalized, all, inside, current, fates, segments);
      segments := segments + if current.Some? then [current.value] else [];
    }

    method LastWalkedIndex() returns (last: int)
      requires Valid()
      ensures forall i :: 0 <= i < |lay.nodes| && lay.nodes[i].walked ==> (i == last <==> lay.LastWalked(i))
    {
      last := -1;
      var i: nat := 0;
      while i < |lay.nodes|
        invariant i <= |lay.nodes| && last < i
        invariant last >= 0 ==> lay.nodes[last].walked
        invariant last >= -1 && forall k :: last < k < i ==> !lay.nodes[k].walked
      {
        if lay.nodes[i].walked { last := i; }
        i := i + 1;
      }
    }

    /** Is every text node under the element white space or marked? */
    method IsFullyMarked(fates: seq<Fate>, e: nat) returns (full: bool)
      requires Valid() && e < |lay.elements| && |fates| == |values|
      ensures full == FullyMarked(Texts(Cells()), fates, lay.elements[e])
    {
      hide Blank, Effective;
      var el := lay.elements[e];
      var k := el.lo;
      while k < el.hi
        invariant el.lo <= k <= el.hi
        invariant forall j :: el.lo <= j < k ==> Blank(Effective(CellAt(j))) || fates[j].Marked?
      {
        var value := GetEffectiveText(k);
        if !Blank(value) && !fates[k].Marked? { return false; }
        k := k + 1;
      }
      return true;
    }

    /** Pass 2, first half: hide a marked node's block when that is safe, blank the node otherwise. */
    method PickBlocks(fates: seq<Fate>) returns (toHide: set<nat>, toBlank: seq<nat>)
      requires Valid() && |fates| == |values|
      ensures toHide == HiddenBlocks(lay, Texts(Cells()), fates)
      ensures forall i :: i in toBlank <==>
          0 <= i < |fates| && fates[i].Marked? && !BlockHides(lay, Texts(Cells()), fates, i)
    {
      hide FullyMarked;
      ghost var texts := Texts(Cells());
      toHide, toBlank := {}, [];
      var failed: set<nat> := {};
      var i: nat := 0;
      while i < |fates|
        invariant i <= |fates|
        invariant toHide == set j | 0 <= j < i && BlockHides(lay, texts, fates, j) :: lay.nodes[j].block.value
        invariant forall j :: j in toBlank <==> 0 <= j < i && fates[j].Marked? && !BlockHides(lay, texts, fates, j)
        invariant forall e :: e in failed ==>
            e < |lay.elements| && !(lay.elements[e].safe && FullyMarked(texts, fates, lay.elements[e]))
      {
        if fates[i].Marked? {
          var block := lay.nodes[i].block;
          if block.None? {
            toBlank := toBlank + [i];
          } else if block.value !in toHide {
            var e := block.value;
            var full := false;
            if e !in failed && lay.elements[e].safe { full := IsFullyMarked(fates, e); }
            if full {
              toHide := toHide + {e};
            } else {
              failed := failed + {e};
              toBlank := toBlank + [i];
            }
          }
        }
        i := i + 1;
      }
    }

    method HasBlankValues(e: nat) returns (b: bool)
      requires Valid() && e < |lay.elements|
      ensures b == BlankValues(Cells(), lay.elements[e])
    {
      hide Blank;
      var el := lay.elements[e];
      var k := el.lo;
      while k < el.hi
        invariant el.lo <= k <= el.hi
        invariant forall j :: el.lo <= j < k ==> Blank(values[j])
      {
        assert values[k] == Cells()[k].value;
        if !Blank(values[k]) { return false; }
        k := k + 1;
      }
      return true;
    }

    /** Pass 2, second half: sweep the elements without text inside the segments. */
    method Sweep(segments: seq<Segment>, noted: set<nat>) returns (toHide: set<nat>)
      requires Valid()
      ensures toHide == noted + Swept(lay, Cells(), segments)
    {
      hide BlankValues;
      toHide := noted;
      var s: nat := 0;
      while s < |lay.elements|
        invariant s <= |lay.elements|
        invariant toHide == noted + set e | e in Swept(lay, Cells(), segments) && e < s
      {
        if s !in noted {
          var blank := HasBlankValues(s);
          if blank && !lay.elements[s].content && lay.elements[s].safe {
            var within := IsBetween(segments, lay.elements[s]);
            if within { toHide := toHide + {s}; }
          }
        }
        s := s + 1;
      }
    }

    /** Pass 3 on the text nodes: blank, trim, restore. */
    method Apply(fates: seq<Fate>, toBlank: seq<nat>)
      requires Valid() && |fates| == |values|
      requires forall i :: i in toBlank ==> i < |fates| && fates[i].Marked?
      modifies this`values, this`stash, this`blanked
      ensures Valid()
      ensures forall i :: 0 <= i < |values| ==>
          CellAt(i) == NewCell(old(Cells())[i], fates[i], i !in toBlank)
    {
      BlankAll(fates, toBlank);
      TrimAll(fates, toBlank, old(Cells()));
      RestoreAll(fates);
    }

    method BlankAll(fates: seq<Fate>, toBlank: seq<nat>)
      requires Valid() && |fates| == |values|
      requires forall i :: i in toBlank ==> i < |fates| && fates[i].Marked?
      modifies this`values, this`stash, this`blanked
      ensures Valid() && |values| == old(|values|)
      ensures forall i :: 0 <= i < |values| ==>
          CellAt(i) == if i in toBlank then Blanked(old(Cells())[i]) else old(Cells())[i]
    {
      ghost var was := Cells();
      var k := 0;
      hide Overwrite;
      while k < |toBlank|
        invariant k <= |toBlank| && Valid() && |values| == |was|
        invariant forall i :: 0 <= i < |values| ==> CellAt(i) == if i in toBlank[..k] then Blanked(was[i]) else was[i]
      {
        assert toBlank[k] in toBlank;
        BlankTwice(was[toBlank[k]]);
        assert toBlank[..k + 1] == toBlank[..k] + [toBlank[k]];
        ghost var before := Cells();
        BlankPreserving(toBlank[k]);
        assert forall i :: 0 <= i < |values| ==> CellAt(i) == Cells()[i];
        k := k + 1;
      }
      assert toBlank[..k] == toBlank;
    }

    method TrimAll(fates: seq<Fate>, toBlank: seq<nat>, ghost was: seq<Cell>)
      requires Valid() && |fates| == |values| == |was|
      requires forall i :: i in toBlank ==> i < |fates| && fates[i].Marked?
      requires forall i :: 0 <= i < |values| ==> CellAt(i) == if i in toBlank then Blanked(was[i]) else was[i]
      modifies this`values, this`stash, this`blanked
      ensures Valid() && |values| == |was|
      ensures forall i :: 0 <= i < |values| ==>
          CellAt(i) == if fates[i].Plain? then was[i] else NewCell(was[i], fates[i], i !in toBlank)
    {
      var t: nat := 0;
      hide Overwrite;
      while t < |fates|
        invariant t <= |fates| && Valid() && |values| == |was|
        invariant forall i :: 0 <= i < |values| ==>
            CellAt(i) == if fates[i].Plain? || (fates[i].Trimmed? && i >= t) then was[i]
                         else NewCell(was[i], fates[i], i !in toBlank)
      {
        if fates[t].Trimmed? {
          TrimPreserving(t, fates[t].kept);
          assert forall i :: 0 <= i < |values| ==> CellAt(i) == Cells()[i];
        }
        t := t + 1;
      }
    }

    method RestoreAll(fates: seq<Fate>)
      requires Valid() && |fates| == |values|
      modifies this`values, this`stash, this`blanked
      ensures Valid() && |values| == old(|values|)
      ensures forall i :: 0 <= i < |values| ==>
          CellAt(i) == if fates[i].Plain? then Restored(old(Cells())[i]) else old(Cells())[i]
    {
      ghost var was := Cells();
      var r := |blanked|;
      while r > 0
        invariant 0 <= r <= |blanked| && Valid() && |values| == |was|
        invariant forall j :: r <= j < |blanked| ==> !fates[blanked[j]].Plain?
        invariant forall i :: 0 <= i < |values| ==>
            CellAt(i) == was[i] || (fates[i].Plain? && i !in stash && CellAt(i) == Restored(was[i]))
      {
        r := r - 1;
        var node := blanked[r];
        if fates[node].Plain? { Restore(node, r); }
      }
      forall i | 0 <= i < |values| && fates[i].Plain? ensures i !in stash {}
    }

    method Restore(node: nat, ghost at: nat)
      requires Valid() && node in stash && at < |blanked| && blanked[at] == node
      modifies this`values, this`stash, this`blanked
      ensures Valid() && |values| == old(|values|)
      ensures blanked == old(blanked)[..at] + old(blanked)[at + 1..]
      ensures stash.Keys == old(stash.Keys) - {node}
      ensures CellAt(node) == Restored(old(CellAt(node)))
      ensures forall i :: 0 <= i < |values| && i != node ==> CellAt(i) == old(CellAt(i))
    {
      var entry, value := stash[node], values[node];
      if value == entry.written || value == "" { values := values[node := entry.orig]; }
      stash := stash - {node};
      var r := IndexIn(blanked, node);
      assert r == at;
      RemoveAt(blanked, r);
      blanked := blanked[..r] + blanked[r + 1..];
    }

    /** `hideMarkerRange`: the three passes. */
    method HideMarkerRange(finalized: bool)
      requires Valid()
      modifies this
      ensures Valid()
      ensures Cells() == TickCells(lay, old(Cells()), finalized)
      ensures hidden == TickHidden(lay, old(Cells()), finalized)
    {
      var fates, segments := MarkNodes(finalized);
      var toHide, toBlank := PickBlocks(fates);
      toHide := Sweep(segments, toHide);
      hidden := hidden - (set e | e in hidden && e !in toHide);
      hidden := hidden + toHide;
      Apply(fates, toBlank);
    }
  }

  lemma SliceStep<T>(s: seq<T>, i: nat)
    requires i < |s|
    ensures s[i..][0] == s[i] && s[i..][1..] == s[i + 1..] && s[..i] + [s[i]] == s[..i + 1]
  {
  }

  /** Pass 1 before node `i`: fates and segments found so far, and what is left to find. */
  ghost predicate PassOne(lay: Layout, texts: seq<string>, finalized: bool, all: seq<Fate>, i: nat, inside: bool,
                          current: Option<Segment>, fates: seq<Fate>, segments: seq<Segment>)
  {
    && i <= |all| == |texts| == |lay.nodes|
    && fates == all[..i] && Fates(lay, texts, finalized, i, inside) == all[i..]
    && Segments(lay, texts, all, 0, None) == segments + Segments(lay, texts, all, i, current)
  }

  lemma PassOneStarts(lay: Layout, texts: seq<string>, finalized: bool, all: seq<Fate>)
    requires |texts| == |lay.nodes| && all == Fates(lay, texts, finalized, 0, false)
    ensures PassOne(lay, texts, finalized, all, 0, false, None, [], [])
  {
    hide Fates, Segments;
  }

  lemma PassOneStep(lay: Layout, texts: seq<string>, finalized: bool, all: seq<Fate>, i: nat, inside: bool,
                    current: Option<Segment>, fates: seq<Fate>, segments: seq<Segment>)
    requires PassOne(lay, texts, finalized, all, i, inside, current, fates, segments) && i < |texts|
    ensures var walked := lay.nodes[i].walked;
            var fate := if walked then FateOf(texts[i], inside, lay.LastWalked(i), finalized) else Plain;
            var (next, done) := SegmentTurn(lay.nodes[i], texts[i], fate, i, current);
            PassOne(lay, texts, finalized, all, i + 1, if walked then Scan(texts[i], inside).inside else inside, next,
                    fates + [fate], segments + done)
  {
    hide Fates, FateOf, Segments, SegmentTurn, Scan;
    FatesStep(lay, texts, finalized, i, inside);
    SliceStep(all, i);
    SegmentsStep(lay, texts, all, i, current);
    var (next, done) := SegmentTurn(lay.nodes[i], texts[i], all[i], i, current);
    Associate(segments, done, Segments(lay, texts, all, i + 1, next));
  }

  lemma PassOneEnds(lay: Layout, texts: seq<string>, finalized: bool, all: seq<Fate>, inside: bool,
                    current: Option<Segment>, fates: seq<Fate>, segments: seq<Segment>)
    requires PassOne(lay, texts, finalized, all, |texts|, inside, current, fates, segments)
    ensures fates == all
    ensures Segments(lay, texts, all, 0, None) == segments + if current.Some? then [current.value] else []
  {
    hide Fates, Segments;
    SegmentsEnd(lay, texts, all, current);
  }

  /** What pass 1 decides about one node, and the scan state after it. */
  method JudgeNode(text: string, inside: bool, last: bool, finalized: bool) returns (fate: Fate, inside': bool)
    ensures fate == FateOf(text, inside, last, finalized)
    ensures inside' == Scan(text, inside).inside
  {
    hide Scan, Blank, EndsWithStart, LongestFrom, PartialLength;
    var kept;
    inside', kept := ScanNodeText(text, inside);
    if kept != text {
      return if Blank(kept) then Marked else Trimmed(kept), inside';
    }
    if !finalized && !inside' && last {
      var partialLen := PartialStartSuffixLength(text);
      LongestIs(text, Min(|text|, |START_MARK|));
      if partialLen > 0 {
        var keptHead := text[..|text| - partialLen];
        return if Blank(keptHead) then Marked else Trimmed(keptHead), inside';
      }
    }
    return Plain, inside';
  }

  method IndexIn(s: seq<nat>, x: nat) returns (r: nat)
    requires x in s
    ensures r < |s| && s[r] == x
  {
    r := 0;
    while s[r] != x
      invariant r < |s| && x in s[r..]
      decreases |s| - r
    {
      r := r + 1;
    }
  }

  method IsBetween(segments: seq<Segment>, e: Element) returns (within: bool)
    ensures within == Between(segments, e)
  {
    var g := 0;
    while g < |segments|
      invariant g <= |segments|
      invariant forall h :: 0 <= h < g ==> !(segments[h].first < e.lo && e.hi <= segments[h].last)
    {
      if segments[g].first < e.lo && e.hi <= segments[g].last { return true; }
      g := g + 1;
    }
    return false;
  }

  lemma BlankTwice(c: Cell)
    ensures Blanked(Blanked(c)) == Blanked(c)
  {
  }

  ghost predicate Distinct(s: seq<nat>) { forall j, k :: 0 <= j < k < |s| ==> s[j] != s[k] }

  lemma RemoveAt(s: seq<nat>, r: nat)
    requires r < |s| && Distinct(s)
    ensures var s' := s[..r] + s[r + 1..];
      Distinct(s') && (forall x :: x in s' <==> x in s && x != s[r]) && forall j :: 0 <= j < |s'| ==> s'[j] in s
  {
    var s' := s[..r] + s[r + 1..];
    forall x | x in s && x != s[r] ensures x in s' {
      var j :| 0 <= j < |s| && s[j] == x;
      assert s'[if j < r then j else j - 1] == x;
    }
  }
}
