/** The operator's decision about a proposed scope: keeping or dropping selected frameworks, and the
    normalization every decision ends with. */
module ScopeDecision {
  import opened Options
  import opened PlanText
  import opened PythonText

  /** A proposed job; other fields are carried along unchanged and are not modelled. */
  datatype Row = Row(hostId: string, sshHost: string, frameworks: seq<string>)

  // ---------- normalization ----------

  /** `filter_scope_framework_ids`: stripped, without discovery-only ids and without repetition. */
  function FilterIds(ids: seq<string>): seq<string> {
    if ids == [] then []
    else
      var front, id := FilterIds(ids[..|ids| - 1]), Strip(ids[|ids| - 1]);
      if id == "" || IsDiscovery(id) || Has(front, id) then front else front + [id]
  }

  function Normalize(rows: seq<Row>): seq<Row> {
    if rows == [] then []
    else
      var row := rows[|rows| - 1];
      WithRow(Normalize(rows[..|rows| - 1]), row, FilterIds(row.frameworks))
  }

  /** Stripped, not empty, auditable, and each once in whatever case. */
  predicate NormalIds(ids: seq<string>) {
    Distinct(ids) && forall id <- ids :: id != "" && Strip(id) == id && !IsDiscovery(id)
  }

  predicate Normal(rows: seq<Row>) { forall r <- rows :: r.frameworks != [] && NormalIds(r.frameworks) }

  lemma {:induction false} FilterNormal(ids: seq<string>)
    ensures NormalIds(FilterIds(ids))
  {
    hide Lower, IsDiscovery;
    if ids != [] {
      FilterNormal(ids[..|ids| - 1]);
      StripTwice(ids[|ids| - 1]);
    }
  }

  lemma {:induction false} StripEndTwice(s: string)
    ensures StripEnd(StripEnd(s)) == StripEnd(s)
  {
    if s != "" && IsSpace(s[|s| - 1]) { StripEndTwice(s[..|s| - 1]); }
  }

  lemma StripTwice(s: string)
    ensures Strip(Strip(s)) == Strip(s)
  {
    var t := s[SkipSpace(s, 0)..];
    StripEndTwice(t);
    StripEndIsPrefix(t);
    var u := StripEnd(t);
    assert u != "" ==> u[0] == t[0];
    assert SkipSpace(u, 0) == 0 && u[0..] == u;
  }

  lemma {:induction false} NormalIsFixed(ids: seq<string>)
    requires NormalIds(ids)
    ensures FilterIds(ids) == ids
  {
    hide NormalIds, FilterIds, Strip, IsDiscovery, Has;
    if ids == [] {
      NothingFiltered();
    } else {
      var front, id := ids[..|ids| - 1], ids[|ids| - 1];
      assert ids == front + [id];
      NormalSnoc(front, id);
      NormalIsFixed(front);
      FilterSnoc(front, id);
    }
  }

  lemma NothingFiltered()
    ensures FilterIds([]) == []
  {
  }

  lemma NormalSnoc(front: seq<string>, id: string)
    requires NormalIds(front + [id])
    ensures NormalIds(front) && id != "" && Strip(id) == id && !IsDiscovery(id) && !Has(front, id)
  {
    hide Lower, IsDiscovery, Strip;
    var all := front + [id];
    assert all[|front|] == id && id in all && forall k :: 0 <= k < |front| ==> all[k] == front[k] && front[k] in all;
  }

  /** MAIN: what normalization leaves is normal: no empty row, no discovery-only framework, none twice. */
  lemma {:induction false} NormalizeIsNormal(rows: seq<Row>)
    ensures Normal(Normalize(rows))
  {
    hide NormalIds;
    if rows != [] {
      NormalizeIsNormal(rows[..|rows| - 1]);
      FilterNormal(rows[|rows| - 1].frameworks);
    }
  }

  lemma {:induction false} NormalRowsAreFixed(rows: seq<Row>)
    requires Normal(rows)
    ensures Normalize(rows) == rows
  {
    hide NormalIds, FilterIds;
    if rows != [] {
      var front, row := rows[..|rows| - 1], rows[|rows| - 1];
      assert rows == front + [row] && row in rows && forall r <- front :: r in rows;
      NormalRowsAreFixed(front);
      NormalIsFixed(row.frameworks);
    }
  }

  /** MAIN: normalization is idempotent. */
  lemma NormalizeTwice(rows: seq<Row>)
    ensures Normalize(Normalize(rows)) == Normalize(rows)
  {
    NormalizeIsNormal(rows);
    NormalRowsAreFixed(Normalize(rows));
  }

  // ---------- selecting ----------

  /** Frameworks, and host and framework pairs, in lower case. */
  datatype Selectors = Selectors(frameworks: set<string>, pairs: set<(string, string)>)

  predicate Dropped(row: Row, sel: Selectors, id: string) {
    var low := Lower(id);
    low in sel.frameworks || (Lower(row.hostId), low) in sel.pairs || (Lower(row.sshHost), low) in sel.pairs
  }

  predicate Kept(row: Row, sel: Selectors, id: string) {
    var low := Lower(id);
    low in sel.frameworks
    || (row.hostId != "" && (Lower(row.hostId), low) in sel.pairs)
    || (row.sshHost != "" && (Lower(row.sshHost), low) in sel.pairs)
  }

  /** What `include` takes (`kept`) and what `exclude` leaves. */
  predicate Selects(row: Row, sel: Selectors, kept: bool, id: string) {
    if kept then Kept(row, sel, id) else !Dropped(row, sel, id)
  }

  function SelectIds(row: Row, sel: Selectors, kept: bool, ids: seq<string>): seq<string> {
    if ids == [] then []
    else SelectIds(row, sel, kept, ids[..|ids| - 1]) + if Selects(row, sel, kept, ids[|ids| - 1]) then [ids[|ids| - 1]] else []
  }

  function SelectRows(rows: seq<Row>, sel: Selectors, kept: bool): seq<Row> {
    if rows == [] then []
    else
      var row := rows[|rows| - 1];
      WithRow(SelectRows(rows[..|rows| - 1], sel, kept), row, SelectIds(row, sel, kept, row.frameworks))
  }

  /** One more row, unless it has no framework. */
  function WithRow(rows: seq<Row>, row: Row, ids: seq<string>): seq<Row> {
    if ids == [] then rows else rows + [row.(frameworks := ids)]
  }

  /** The `exclude` decision: `apply_scope_exclusions` normalizes, and the decision once more. */
  function Exclude(rows: seq<Row>, sel: Selectors): seq<Row> { Normalize(Normalize(SelectRows(rows, sel, false))) }

  /** The `include` decision; without any selector it is unclear. */
  function Include(rows: seq<Row>, sel: Selectors): Option<seq<Row>> {
    if sel.frameworks == {} && sel.pairs == {} then None else Some(Normalize(SelectRows(rows, sel, true)))
  }

  // ---------- the two decisions split the plan ----------

  /** The rows of a normal plan with the frameworks that are kept, or those that are not, in order; a
      row without any is left out. */
  function Side(rows: seq<Row>, sel: Selectors, kept: bool): seq<Row> {
    if rows == [] then []
    else
      var row := rows[|rows| - 1];
      WithRow(Side(rows[..|rows| - 1], sel, kept), row, Pick(row, sel, kept, row.frameworks))
  }

  function Pick(row: Row, sel: Selectors, kept: bool, ids: seq<string>): seq<string> {
    if ids == [] then []
    else Pick(row, sel, kept, ids[..|ids| - 1]) + if Kept(row, sel, ids[|ids| - 1]) == kept then [ids[|ids| - 1]] else []
  }

  /** Putting both parts together again, following the selection. */
  function Rejoin(row: Row, sel: Selectors, ids: seq<string>, kept: seq<string>, rest: seq<string>): seq<string>
    decreases |ids|
  {
    if ids == [] then kept + rest
    else if Kept(row, sel, ids[0]) then
      if kept == [] then [] else [kept[0]] + Rejoin(row, sel, ids[1..], kept[1..], rest)
    else
      if rest == [] then [] else [rest[0]] + Rejoin(row, sel, ids[1..], kept, rest[1..])
  }

  /** MAIN: of every row each framework lands in exactly one part, and both parts keep the order: read
      along the selection they make up the row again. */
  lemma PartsMakeTheRow(row: Row, sel: Selectors, ids: seq<string>)
    ensures var kept, rest := Pick(row, sel, true, ids), Pick(row, sel, false, ids);
            && Rejoin(row, sel, ids, kept, rest) == ids
            && multiset(kept) + multiset(rest) == multiset(ids)
            && forall id <- ids :: (id in kept) != (id in rest)
  {
    RejoinPicks(row, sel, ids);
    PickCounts(row, sel, ids);
    PickMembers(row, sel, true, ids);
    PickMembers(row, sel, false, ids);
    hide *;
  }

  lemma {:induction false} PickMembers(row: Row, sel: Selectors, kept: bool, ids: seq<string>)
    ensures forall id :: id in Pick(row, sel, kept, ids) <==> id in ids && Kept(row, sel, id) == kept
  {
    hide Kept;
    if ids != [] {
      var front, id := ids[..|ids| - 1], ids[|ids| - 1];
      PickMembers(row, sel, kept, front);
      assert ids == front + [id];
    }
  }

  lemma {:induction false} PickHead(row: Row, sel: Selectors, kept: bool, ids: seq<string>)
    requires ids != []
    ensures Pick(row, sel, kept, ids)
            == (if Kept(row, sel, ids[0]) == kept then [ids[0]] else []) + Pick(row, sel, kept, ids[1..])
  {
    hide Kept;
    if |ids| == 1 {
      assert ids[..0] == [] && ids[1..] == [];
    } else {
      var front := ids[..|ids| - 1];
      PickHead(row, sel, kept, front);
      assert front[1..] == ids[1..][..|ids| - 2] && front[0] == ids[0] && ids[1..][|ids| - 2] == ids[|ids| - 1];
    }
  }

  lemma RejoinStep(row: Row, sel: Selectors, ids: seq<string>, kept: seq<string>, rest: seq<string>)
    requires ids != []
    ensures Kept(row, sel, ids[0]) ==>
              Rejoin(row, sel, ids, [ids[0]] + kept, rest) == [ids[0]] + Rejoin(row, sel, ids[1..], kept, rest)
    ensures !Kept(row, sel, ids[0]) ==>
              Rejoin(row, sel, ids, kept, [ids[0]] + rest) == [ids[0]] + Rejoin(row, sel, ids[1..], kept, rest)
  {
    hide Kept;
    assert ([ids[0]] + kept)[1..] == kept && ([ids[0]] + rest)[1..] == rest;
  }

  lemma {:induction false} RejoinPicks(row: Row, sel: Selectors, ids: seq<string>)
    ensures Rejoin(row, sel, ids, Pick(row, sel, true, ids), Pick(row, sel, false, ids)) == ids
    decreases |ids|
  {
    if ids != [] {
      var kept, rest := Pick(row, sel, true, ids[1..]), Pick(row, sel, false, ids[1..]);
      PickHead(row, sel, true, ids);
      PickHead(row, sel, false, ids);
      RejoinStep(row, sel, ids, kept, rest);
      RejoinPicks(row, sel, ids[1..]);
      hide *;
      assert ids == [ids[0]] + ids[1..] && [] + kept == kept && [] + rest == rest;
    }
  }

  lemma {:induction false} PickCounts(row: Row, sel: Selectors, ids: seq<string>)
    ensures multiset(Pick(row, sel, true, ids)) + multiset(Pick(row, sel, false, ids)) == multiset(ids)
  {
    hide Kept;
    if ids != [] {
      var front, id := ids[..|ids| - 1], ids[|ids| - 1];
      PickCounts(row, sel, front);
      assert ids == front + [id];
      PickSnoc(row, sel, true, front, id);
      PickSnoc(row, sel, false, front, id);
      hide Pick;
    }
  }

  /** The id survives normalization, in some case and place. */
  predicate Matters(id: string) { Strip(id) != "" && !IsDiscovery(Strip(id)) }

  /** Both decisions see the id as they see it stripped. */
  predicate Steady(row: Row, sel: Selectors, id: string) {
    Dropped(row, sel, id) == Kept(row, sel, Strip(id)) && Kept(row, sel, id) == Kept(row, sel, Strip(id))
  }

  predicate Stable(rows: seq<Row>, sel: Selectors) {
    forall r <- rows, id <- r.frameworks :: Matters(id) ==> Steady(r, sel, id)
  }

  /** No pair is without a host, unless the row has both. */
  predicate Sound(row: Row, sel: Selectors) {
    forall p <- sel.pairs :: p.0 == "" ==> row.hostId != "" && row.sshHost != ""
  }

  /** No row without a host meets, at once, a pair without a host and an id that is not stripped. */
  predicate OneFault(rows: seq<Row>, sel: Selectors) {
    forall r <- rows, id <- r.frameworks :: Sound(r, sel) || Strip(id) == id
  }

  /** For the same selectors, the two decisions are the two sides of the normalized plan. */
  predicate Splits(rows: seq<Row>, sel: Selectors) {
    && Exclude(rows, sel) == Side(Normalize(rows), sel, false)
    && (sel.frameworks != {} || sel.pairs != {} ==> Include(rows, sel) == Some(Side(Normalize(rows), sel, true)))
  }

  lemma SoundSelection(row: Row, sel: Selectors, id: string)
    ensures Kept(row, sel, id) ==> Dropped(row, sel, id)
    ensures Sound(row, sel) ==> Dropped(row, sel, id) == Kept(row, sel, id)
  {
    assert Lower("") == "";
  }

  /** Only hosts and lower case count. */
  lemma SelectionIgnores(r: Row, t: Row, sel: Selectors, a: string, b: string)
    requires r.hostId == t.hostId && r.sshHost == t.sshHost && Lower(a) == Lower(b)
    ensures Kept(r, sel, a) == Kept(t, sel, b) && Dropped(r, sel, a) == Dropped(t, sel, b)
  {
  }

  /** Selecting and normalizing a row may change places. */
  lemma {:induction false} PickCommutes(row: Row, sel: Selectors, kept: bool, ids: seq<string>)
    requires forall id <- ids :: Matters(id) ==> Selects(row, sel, kept, id) == (Kept(row, sel, Strip(id)) == kept)
    ensures FilterIds(SelectIds(row, sel, kept, ids)) == Pick(row, sel, kept, FilterIds(ids))
  {
    if ids != [] {
      var front, id := ids[..|ids| - 1], ids[|ids| - 1];
      assert ids == front + [id] && id in ids && forall x <- front :: x in ids;
      PickCommutes(row, sel, kept, front);
      var all, s := FilterIds(front), Strip(id);
      assert Matters(id) <==> s != "" && !IsDiscovery(s);
      hide *;
      PickMembers(row, sel, kept, all);
      HasSame(row, sel, kept, all, Pick(row, sel, kept, all), s);
      SelectSnoc(row, sel, kept, front, id);
      PickSnoc(row, sel, kept, all, s);
      FilterSnoc(front, id);
      FilterSnoc(SelectIds(row, sel, kept, front), id);
    }
  }

  lemma HasSame(row: Row, sel: Selectors, kept: bool, all: seq<string>, part: seq<string>, id: string)
    requires forall x <- part :: x in all
    requires forall x <- all :: Kept(row, sel, x) == kept ==> x in part
    ensures Kept(row, sel, id) == kept ==> Has(all, id) == Has(part, id)
  {
    hide Lower;
    if Kept(row, sel, id) == kept {
      if Has(part, id) {
        var k :| 0 <= k < |part| && Lower(part[k]) == Lower(id);
        assert part[k] in part;
      }
      if Has(all, id) {
        var k :| 0 <= k < |all| && Lower(all[k]) == Lower(id);
        SelectionIgnores(row, row, sel, all[k], id);
        assert all[k] in all;
      }
    }
  }

  lemma PickSnoc(row: Row, sel: Selectors, kept: bool, ids: seq<string>, id: string)
    ensures Kept(row, sel, id) == kept ==> Pick(row, sel, kept, ids + [id]) == Pick(row, sel, kept, ids) + [id]
    ensures Kept(row, sel, id) != kept ==> Pick(row, sel, kept, ids + [id]) == Pick(row, sel, kept, ids)
  {
    assert (ids + [id])[..|ids|] == ids;
  }

  lemma SelectSnoc(row: Row, sel: Selectors, kept: bool, ids: seq<string>, id: string)
    ensures SelectIds(row, sel, kept, ids + [id])
            == if Selects(row, sel, kept, id) then SelectIds(row, sel, kept, ids) + [id] else SelectIds(row, sel, kept, ids)
  {
    assert (ids + [id])[..|ids|] == ids;
  }

  lemma FilterSnoc(ids: seq<string>, id: string)
    ensures var s := Strip(id);
            FilterIds(ids + [id])
            == if s == "" || IsDiscovery(s) || Has(FilterIds(ids), s) then FilterIds(ids) else FilterIds(ids) + [s]
  {
    assert (ids + [id])[..|ids|] == ids;
  }

  /** Where ids are steady, selecting and normalizing a plan may change places. */
  lemma {:induction false} SelectedIsSide(rows: seq<Row>, sel: Selectors, kept: bool)
    requires Stable(rows, sel)
    ensures Normalize(SelectRows(rows, sel, kept)) == Side(Normalize(rows), sel, kept)
  {
    if rows != [] {
      var front, row := rows[..|rows| - 1], rows[|rows| - 1];
      assert rows == front + [row] && row in rows && forall r <- front :: r in rows;
      assert forall id <- row.frameworks :: Matters(id) ==> Steady(row, sel, id);
      SelectedIsSide(front, sel, kept);
      hide *;
      SteadySelects(row, sel, kept);
      PickCommutes(row, sel, kept, row.frameworks);
      SelectStep(front, row, sel, kept);
      RowStep(SelectRows(front, sel, kept), row, SelectIds(row, sel, kept, row.frameworks));
      NormalizeStep(front, row);
      SideStep(Normalize(front), row, sel, kept, FilterIds(row.frameworks));
    }
  }

  lemma SteadySelects(row: Row, sel: Selectors, kept: bool)
    requires forall id <- row.frameworks :: Matters(id) ==> Steady(row, sel, id)
    ensures forall id <- row.frameworks :: Matters(id) ==> Selects(row, sel, kept, id) == (Kept(row, sel, Strip(id)) == kept)
  {
    hide Matters, Kept, Dropped, Strip;
  }

  lemma SelectStep(front: seq<Row>, row: Row, sel: Selectors, kept: bool)
    ensures SelectRows(front + [row], sel, kept)
            == WithRow(SelectRows(front, sel, kept), row, SelectIds(row, sel, kept, row.frameworks))
  {
    assert (front + [row])[..|front|] == front;
  }

  lemma NormalizeStep(front: seq<Row>, row: Row)
    ensures Normalize(front + [row]) == WithRow(Normalize(front), row, FilterIds(row.frameworks))
  {
    assert (front + [row])[..|front|] == front;
  }

  lemma RowStep(rows: seq<Row>, row: Row, ids: seq<string>)
    ensures Normalize(WithRow(rows, row, ids)) == WithRow(Normalize(rows), row, FilterIds(ids))
  {
    if ids != [] {
      var more := rows + [row.(frameworks := ids)];
      assert more[..|rows|] == rows;
      hide FilterIds;
    }
  }

  lemma SideStep(rows: seq<Row>, row: Row, sel: Selectors, kept: bool, ids: seq<string>)
    ensures Side(WithRow(rows, row, ids), sel, kept) == WithRow(Side(rows, sel, kept), row, Pick(row, sel, kept, ids))
  {
    if ids != [] {
      var r := row.(frameworks := ids);
      var more := rows + [r];
      assert more[..|rows|] == rows;
      SameKept(row, r, sel, kept, ids);
      hide Pick;
    }
  }

  lemma {:induction false} SameKept(a: Row, b: Row, sel: Selectors, kept: bool, ids: seq<string>)
    requires a.hostId == b.hostId && a.sshHost == b.sshHost
    ensures Pick(a, sel, kept, ids) == Pick(b, sel, kept, ids)
  {
    if ids != [] {
      SameKept(a, b, sel, kept, ids[..|ids| - 1]);
      SelectionIgnores(a, b, sel, ids[|ids| - 1], ids[|ids| - 1]);
      hide Kept;
    }
  }

  // ---------- and only then ----------

  /** The plan offers framework `low` (in lower case) on these hosts. */
  predicate Offers(rows: seq<Row>, row: Row, low: string) {
    exists r, x :: r in rows && x in r.frameworks && r.hostId == row.hostId && r.sshHost == row.sshHost && Lower(x) == low
  }

  lemma {:induction false} FilterHas(ids: seq<string>, id: string)
    requires id in ids && Matters(id)
    ensures Has(FilterIds(ids), Strip(id))
  {
    hide Lower, IsDiscovery, Strip;
    var front, last := ids[..|ids| - 1], ids[|ids| - 1];
    assert ids == front + [last];
    if id in front {
      FilterHas(front, id);
      var all := FilterIds(front);
      var k :| 0 <= k < |all| && Lower(all[k]) == Lower(Strip(id));
      assert FilterIds(ids)[k] == all[k];
    } else if !Has(FilterIds(front), Strip(id)) {
      assert FilterIds(ids)[|FilterIds(front)|] == Strip(id);
    }
  }

  /** What matters is still offered after normalization. */
  lemma {:induction false} NormalizeOffers(rows: seq<Row>, row: Row, id: string)
    requires row in rows && id in row.frameworks && Matters(id)
    ensures Offers(Normalize(rows), row, Lower(Strip(id)))
  {
    hide Lower, Matters, Strip, FilterIds, Has;
    var front, last := rows[..|rows| - 1], rows[|rows| - 1];
    assert rows == front + [last];
    if row in front {
      NormalizeOffers(front, row, id);
      var r, x :| r in Normalize(front) && x in r.frameworks && r.hostId == row.hostId && r.sshHost == row.sshHost
        && Lower(x) == Lower(Strip(id));
      assert r in Normalize(rows);
    } else {
      FilterHas(row.frameworks, id);
      var x := Match(FilterIds(row.frameworks), Strip(id));
      var r := row.(frameworks := FilterIds(row.frameworks));
      assert r in Normalize(rows) && x in r.frameworks;
    }
  }

  lemma Match(ids: seq<string>, id: string) returns (x: string)
    requires Has(ids, id)
    ensures x in ids && Lower(x) == Lower(id)
  {
    var k :| 0 <= k < |ids| && Lower(ids[k]) == Lower(id);
    x := ids[k];
  }

  lemma {:induction false} FilterFrom(ids: seq<string>, x: string) returns (id: string)
    requires x in FilterIds(ids)
    ensures id in ids && Strip(id) == x && Matters(id)
  {
    hide Lower, IsDiscovery, Strip, Has;
    var front, last := ids[..|ids| - 1], ids[|ids| - 1];
    assert ids == front + [last];
    if x in FilterIds(front) { id := FilterFrom(front, x); } else { id := last; }
  }

  /** Everything in a normalized plan comes from the plan. */
  lemma {:induction false} NormalizeFrom(rows: seq<Row>, n: Row, x: string) returns (row: Row, id: string)
    requires n in Normalize(rows) && x in n.frameworks
    ensures row in rows && id in row.frameworks && Strip(id) == x && Matters(id)
    ensures row.hostId == n.hostId && row.sshHost == n.sshHost
  {
    hide FilterIds, Matters, Strip;
    var front, last := rows[..|rows| - 1], rows[|rows| - 1];
    assert rows == front + [last];
    if n in Normalize(front) {
      row, id := NormalizeFrom(front, n, x);
    } else {
      row := last;
      id := FilterFrom(last.frameworks, x);
    }
  }

  lemma {:induction false} SelectMembers(row: Row, sel: Selectors, kept: bool, ids: seq<string>)
    ensures forall id :: id in SelectIds(row, sel, kept, ids) <==> id in ids && Selects(row, sel, kept, id)
  {
    hide Selects;
    if ids != [] {
      var front, id := ids[..|ids| - 1], ids[|ids| - 1];
      SelectMembers(row, sel, kept, front);
      assert ids == front + [id];
    }
  }

  /** A selection holds the rows with what it selects. */
  lemma {:induction false} SelectRowsHold(rows: seq<Row>, sel: Selectors, kept: bool, row: Row)
    requires row in rows && SelectIds(row, sel, kept, row.frameworks) != []
    ensures row.(frameworks := SelectIds(row, sel, kept, row.frameworks)) in SelectRows(rows, sel, kept)
  {
    hide SelectIds;
    var front, last := rows[..|rows| - 1], rows[|rows| - 1];
    assert rows == front + [last];
    if row in front { SelectRowsHold(front, sel, kept, row); }
  }

  lemma {:induction false} SelectRowsFrom(rows: seq<Row>, sel: Selectors, kept: bool, r: Row) returns (row: Row)
    requires r in SelectRows(rows, sel, kept)
    ensures row in rows && r == row.(frameworks := SelectIds(row, sel, kept, row.frameworks))
  {
    hide SelectIds;
    var front, last := rows[..|rows| - 1], rows[|rows| - 1];
    assert rows == front + [last];
    if r in SelectRows(front, sel, kept) { row := SelectRowsFrom(front, sel, kept, r); } else { row := last; }
  }

  lemma {:induction false} SideHolds(rows: seq<Row>, sel: Selectors, kept: bool, row: Row)
    requires row in rows && Pick(row, sel, kept, row.frameworks) != []
    ensures row.(frameworks := Pick(row, sel, kept, row.frameworks)) in Side(rows, sel, kept)
  {
    hide Pick;
    var front, last := rows[..|rows| - 1], rows[|rows| - 1];
    assert rows == front + [last];
    if row in front { SideHolds(front, sel, kept, row); }
  }

  lemma {:induction false} SideFrom(rows: seq<Row>, sel: Selectors, kept: bool, r: Row) returns (row: Row)
    requires r in Side(rows, sel, kept)
    ensures row in rows && r == row.(frameworks := Pick(row, sel, kept, row.frameworks))
  {
    hide Pick;
    var front, last := rows[..|rows| - 1], rows[|rows| - 1];
    assert rows == front + [last];
    if r in Side(front, sel, kept) { row := SideFrom(front, sel, kept, r); } else { row := last; }
  }

  /** What a decision selects must be kept, or not kept, once stripped. */
  lemma SelectedLands(rows: seq<Row>, sel: Selectors, kept: bool, row: Row, id: string)
    requires Normalize(SelectRows(rows, sel, kept)) == Side(Normalize(rows), sel, kept)
    requires row in rows && id in row.frameworks && Matters(id) && Selects(row, sel, kept, id)
    ensures Kept(row, sel, Strip(id)) == kept
  {
    hide *;
    var ids := SelectIds(row, sel, kept, row.frameworks);
    var chosen := row.(frameworks := ids);
    SelectMembers(row, sel, kept, row.frameworks);
    SelectRowsHold(rows, sel, kept, row);
    NormalizeOffers(SelectRows(rows, sel, kept), chosen, id);
    var r, x := OfferedBy(Side(Normalize(rows), sel, kept), chosen, Lower(Strip(id)));
    var n := SideFrom(Normalize(rows), sel, kept, r);
    PickMembers(n, sel, kept, n.frameworks);
    SelectionIgnores(n, row, sel, x, Strip(id));
  }

  lemma OfferedBy(rows: seq<Row>, row: Row, low: string) returns (r: Row, x: string)
    requires Offers(rows, row, low)
    ensures r in rows && x in r.frameworks && r.hostId == row.hostId && r.sshHost == row.sshHost && Lower(x) == low
  {
    r, x :| r in rows && x in r.frameworks && r.hostId == row.hostId && r.sshHost == row.sshHost && Lower(x) == low;
  }

  /** A stripped id that is dropped but not kept would be missing on both sides. */
  lemma DroppedIsKept(rows: seq<Row>, sel: Selectors, row: Row, id: string)
    requires OneFault(rows, sel) && Normalize(SelectRows(rows, sel, false)) == Side(Normalize(rows), sel, false)
    requires row in rows && id in row.frameworks && Matters(id) && Strip(id) == id && !Sound(row, sel)
    requires Dropped(row, sel, id)
    ensures Kept(row, sel, id)
  {
    if !Kept(row, sel, id) {
      hide *;
      NormalizeOffers(rows, row, id);
      var n, x := OfferedBy(Normalize(rows), row, Lower(id));
      SelectionIgnores(n, row, sel, x, id);
      PickMembers(n, sel, false, n.frameworks);
      SideHolds(Normalize(rows), sel, false, n);
      var r, y := NormalizeFrom(SelectRows(rows, sel, false), n.(frameworks := Pick(n, sel, false, n.frameworks)), x);
      var q := SelectRowsFrom(rows, sel, false, r);
      NotDropped(q, sel, y);
      StrippedHere(rows, sel, row, q, y);
      SelectionIgnores(q, row, sel, y, id);
    }
  }

  lemma NotDropped(row: Row, sel: Selectors, id: string)
    requires id in SelectIds(row, sel, false, row.frameworks)
    ensures id in row.frameworks && !Dropped(row, sel, id)
  {
    SelectMembers(row, sel, false, row.frameworks);
  }

  lemma StrippedHere(rows: seq<Row>, sel: Selectors, row: Row, other: Row, id: string)
    requires OneFault(rows, sel) && other in rows && id in other.frameworks
    requires other.hostId == row.hostId && other.sshHost == row.sshHost && !Sound(row, sel)
    ensures Strip(id) == id
  {
    hide Strip;
  }

  lemma SplitIsStable(rows: seq<Row>, sel: Selectors, row: Row, id: string)
    requires OneFault(rows, sel)
    requires Normalize(SelectRows(rows, sel, false)) == Side(Normalize(rows), sel, false)
    requires Normalize(SelectRows(rows, sel, true)) == Side(Normalize(rows), sel, true)
    requires row in rows && id in row.frameworks && Matters(id)
    ensures Steady(row, sel, id)
  {
    hide Normalize, SelectRows, Side, Matters, Kept, Dropped, Strip, Sound;
    SoundSelection(row, sel, id);
    if Kept(row, sel, id) { SelectedLands(rows, sel, true, row, id); }
    if !Dropped(row, sel, id) { SelectedLands(rows, sel, false, row, id); }
    if !Sound(row, sel) && Dropped(row, sel, id) { DroppedIsKept(rows, sel, row, id); }
  }

  /** MAIN: for the same selectors, `exclude` and `include` are the two sides of the normalized plan,
      row by row and in order, exactly if every id that matters is matched as it would be stripped.
      Only where a row without a host meets both a pair without a host and an id that is not stripped
      may they be so without it. */
  lemma DecisionsSplitThePlan(rows: seq<Row>, sel: Selectors)
    ensures Stable(rows, sel) ==> Splits(rows, sel)
    ensures OneFault(rows, sel) ==> (Splits(rows, sel) <==> Stable(rows, sel))
  {
    NormalizeTwice(SelectRows(rows, sel, false));
    hide Normalize, SelectRows, Side, OneFault, Strip, Matters;
    if Stable(rows, sel) {
      SelectedIsSide(rows, sel, false);
      SelectedIsSide(rows, sel, true);
    } else if OneFault(rows, sel) && Splits(rows, sel) {
      if sel.frameworks == {} && sel.pairs == {} {
        NothingSelected(rows, sel);
      } else {
        hide Steady;
        forall r, id | r in rows && id in r.frameworks && Matters(id) ensures Steady(r, sel, id) {
          SplitIsStable(rows, sel, r, id);
        }
      }
    }
  }

  lemma NothingSelected(rows: seq<Row>, sel: Selectors)
    requires sel.frameworks == {} && sel.pairs == {}
    ensures Stable(rows, sel)
  {
    hide Strip, Lower, Matters;
  }

  /** An id with white space at its end is matched before it is stripped: both decisions keep it. */
  lemma UnstrippedLandsTwice()
    ensures var rows := [Row("h", "h", ["a ", "a"])];
            var sel := Selectors({"a"}, {});
            && Exclude(rows, sel) == [Row("h", "h", ["a"])] && Include(rows, sel) == Some([Row("h", "h", ["a"])])
  {
    var row, sel := Row("h", "h", ["a ", "a"]), Selectors({"a"}, {});
    UnstrippedPicks(row, sel);
    UnstrippedFilters();
    hide SelectIds, FilterIds;
    OneRow(row, ["a "]);
    OneRow(row, ["a"]);
    assert [row][..0] == [];
    assert SelectRows([row], sel, false) == [row.(frameworks := ["a "])] && SelectRows([row], sel, true) == [row.(frameworks := ["a"])];
  }

  lemma UnstrippedPicks(row: Row, sel: Selectors)
    requires row == Row("h", "h", ["a ", "a"]) && sel == Selectors({"a"}, {})
    ensures SelectIds(row, sel, false, ["a ", "a"]) == ["a "] && SelectIds(row, sel, true, ["a ", "a"]) == ["a"]
  {
    assert Lower("a ") == "a " && Lower("a") == "a" && "a "[1] == ' ' && |"a "| == 2;
    assert Dropped(row, sel, "a") && !Dropped(row, sel, "a ") && Kept(row, sel, "a") && !Kept(row, sel, "a ");
    hide Dropped, Kept, Lower;
    assert ["a ", "a"][..1] == ["a "] && ["a "][..0] == [];
    assert SelectIds(row, sel, false, ["a "]) == ["a "] && SelectIds(row, sel, true, ["a "]) == [];
  }

  lemma UnstrippedFilters()
    ensures FilterIds(["a "]) == ["a"] && FilterIds(["a"]) == ["a"] && FilterIds(["a ", "a"]) == ["a"]
  {
    StripSpace();
    hide Strip, IsDiscovery, FilterIds, Lower;
    NothingFiltered();
    FilterSnoc([], "a");
    FilterSnoc([], "a ");
    FilterSnoc(["a "], "a");
    assert [] + ["a"] == ["a"] && [] + ["a "] == ["a "] && ["a "] + ["a"] == ["a ", "a"];
    assert !Has([], "a") && Has(["a"], "a") by { assert ["a"][0] == "a"; }
  }

  lemma OneRow(row: Row, ids: seq<string>)
    requires FilterIds(ids) != []
    ensures Normalize([row.(frameworks := ids)]) == [row.(frameworks := FilterIds(ids))]
  {
    assert [row.(frameworks := ids)][..0] == [];
  }

  /** A pair without a host drops the id from a row without one, and never keeps it. */
  lemma HostlessPairLosesIds()
    ensures var rows, sel := [Row("", "", ["a"])], Selectors({}, {("", "a")});
            && Normalize(rows) == rows && Exclude(rows, sel) == [] && Include(rows, sel) == Some([])
  {
    var row, sel := Row("", "", ["a"]), Selectors({}, {("", "a")});
    assert Lower("a") == "a" && Lower("") == "";
    assert ("", "a") in sel.pairs;
    assert !Selects(row, sel, false, "a") && !Selects(row, sel, true, "a");
    UnstrippedFilters();
    hide Selects, FilterIds;
    assert row.(frameworks := ["a"]) == row && [row][..0] == [] && ["a"][..0] == [];
    assert SelectIds(row, sel, false, ["a"]) == [] && SelectIds(row, sel, true, ["a"]) == [];
    assert SelectRows([row], sel, false) == [] && SelectRows([row], sel, true) == [];
    OneRow(row, ["a"]);
  }

  /** With both faults in one row the sides can still come out right, although "a " is not steady. */
  lemma TwoFaultsCancel()
    ensures var rows, sel := [Row("", "", ["a ", "a"])], Selectors({"a"}, {("", "a ")});
            !Stable(rows, sel) && Splits(rows, sel)
  {
    var row, sel := Row("", "", ["a ", "a"]), Selectors({"a"}, {("", "a ")});
    var n := row.(frameworks := ["a"]);
    TwoFaultsSelect(row, sel);
    UnstrippedFilters();
    StripSpace();
    hide *;
    NotStable(row, sel, "a ");
    TwoFaultsRow(row, n, sel);
    TwoFaultsSplit(row, n, sel);
  }

  lemma NotStable(row: Row, sel: Selectors, id: string)
    requires id in row.frameworks && Strip(id) == "a" && !IsDiscovery("a") && Kept(row, sel, "a") && !Kept(row, sel, id)
    ensures !Stable([row], sel)
  {
    hide Kept, Dropped, Strip, IsDiscovery;
    assert Matters(id) && !Steady(row, sel, id);
    hide Matters, Steady;
    assert row in [row];
  }

  lemma TwoFaultsSplit(row: Row, n: Row, sel: Selectors)
    requires n == row.(frameworks := ["a"])
    requires SelectIds(row, sel, false, row.frameworks) == [] && SelectIds(row, sel, true, row.frameworks) == ["a"]
    requires Normalize([row]) == [n] && Normalize([n]) == [n] && Normalize([]) == []
    requires Side([n], sel, false) == [] && Side([n], sel, true) == [n]
    ensures Splits([row], sel)
  {
    SelectOne(row, sel, false);
    SelectOne(row, sel, true);
    hide SelectIds, SelectRows, Normalize, Side;
  }

  lemma SelectOne(row: Row, sel: Selectors, kept: bool)
    ensures var ids := SelectIds(row, sel, kept, row.frameworks);
            SelectRows([row], sel, kept) == if ids == [] then [] else [row.(frameworks := ids)]
  {
    var rows := [row];
    hide SelectIds;
    assert rows[..0] == [];
  }

  lemma TwoFaultsRow(row: Row, n: Row, sel: Selectors)
    requires row == Row("", "", ["a ", "a"]) && n == row.(frameworks := ["a"])
    requires FilterIds(["a"]) == ["a"] && FilterIds(["a ", "a"]) == ["a"]
    requires Pick(n, sel, false, ["a"]) == [] && Pick(n, sel, true, ["a"]) == ["a"]
    ensures Normalize([row]) == [n] && Normalize([n]) == [n] && Normalize([]) == []
    ensures Side([n], sel, false) == [] && Side([n], sel, true) == [n]
  {
    hide FilterIds, Pick;
    OneRow(row, ["a ", "a"]);
    OneRow(n, ["a"]);
    assert row.(frameworks := ["a ", "a"]) == row && n.(frameworks := ["a"]) == n && [n][..0] == [];
  }

  lemma StripSpace()
    ensures Strip("a ") == "a" && Strip("a") == "a" && !IsDiscovery("a")
  {
    Bare("a");
    assert "a "[0..] == "a " && "a "[..1] == "a";
    assert |Lower("a")| == 1;
  }

  lemma TwoFaultsSelect(row: Row, sel: Selectors)
    requires row == Row("", "", ["a ", "a"]) && sel == Selectors({"a"}, {("", "a ")})
    ensures SelectIds(row, sel, false, ["a ", "a"]) == [] && SelectIds(row, sel, true, ["a ", "a"]) == ["a"]
    ensures Kept(row, sel, "a") && !Kept(row, sel, "a ")
    ensures var n := row.(frameworks := ["a"]); Pick(n, sel, false, ["a"]) == [] && Pick(n, sel, true, ["a"]) == ["a"]
  {
    assert Lower("a ") == "a " && Lower("a") == "a" && Lower("") == "" && |"a "| == 2;
    assert ("", "a ") in sel.pairs;
    assert Dropped(row, sel, "a") && Dropped(row, sel, "a ") && Kept(row, sel, "a") && !Kept(row, sel, "a ");
    var n := row.(frameworks := ["a"]);
    assert Kept(n, sel, "a");
    hide Dropped, Kept, Lower;
    assert ["a ", "a"][..1] == ["a "] && ["a "][..0] == [] && ["a"][..0] == [];
    assert SelectIds(row, sel, false, ["a "]) == [] && SelectIds(row, sel, true, ["a "]) == [];
  }

  // ---------- the loops ----------

  function Lows(ids: seq<string>): set<string> { set k | 0 <= k < |ids| :: Lower(ids[k]) }

  lemma NoLows()
    ensures Lows([]) == {}
  {
  }

  lemma LowsSnoc(ids: seq<string>, id: string)
    ensures Lower(id) in Lows(ids) <==> Has(ids, id)
    ensures Lows(ids + [id]) == Lows(ids) + {Lower(id)}
  {
    hide Lower;
    var more := ids + [id];
    assert more[|ids|] == id && forall k :: 0 <= k < |ids| ==> more[k] == ids[k];
    forall low | low in Lows(ids) ensures low in Lows(more) {
      var k :| 0 <= k < |ids| && Lower(ids[k]) == low;
      assert Lower(more[k]) == low;
    }
  }

  method FilterScopeFrameworkIds(ids: seq<string>) returns (out: seq<string>)
    ensures out == FilterIds(ids) && NormalIds(out)
  {
    FilterNormal(ids);
    hide NormalIds, Strip, IsDiscovery, Lower, Lows, Has;
    out := [];
    assert Lows([]) == {} by { NoLows(); }
    var seen: set<string> := {};
    assert ids[..0] == [];
    for n := 0 to |ids|
      invariant out == FilterIds(ids[..n])
      invariant seen == Lows(out)
    {
      assert ids[..n + 1][..n] == ids[..n];
      var id := Strip(ids[n]);
      if id == "" || IsDiscovery(id) { continue; }
      LowsSnoc(out, id);
      if Lower(id) in seen { continue; }
      seen := seen + {Lower(id)};
      out := out + [id];
    }
    assert ids[..|ids|] == ids;
  }

  method NormalizeScopeJobs(rows: seq<Row>) returns (out: seq<Row>)
    ensures out == Normalize(rows) && Normal(out)
  {
    NormalizeIsNormal(rows);
    hide Normal, NormalIds, FilterIds;
    out := [];
    assert rows[..0] == [];
    for n := 0 to |rows|
      invariant out == Normalize(rows[..n])
    {
      assert rows[..n + 1][..n] == rows[..n];
      var kept := FilterScopeFrameworkIds(rows[n].frameworks);
      if kept == [] { continue; }
      out := out + [rows[n].(frameworks := kept)];
    }
    assert rows[..|rows|] == rows;
  }

  method ApplyScopeExclusions(rows: seq<Row>, sel: Selectors) returns (out: seq<Row>)
    ensures out == Normalize(SelectRows(rows, sel, false))
  {
    hide Dropped;
    var left: seq<Row> := [];
    assert rows[..0] == [];
    for n := 0 to |rows|
      invariant left == SelectRows(rows[..n], sel, false)
    {
      assert rows[..n + 1][..n] == rows[..n];
      var row, kept := rows[n], [];
      assert row.frameworks[..0] == [];
      for m := 0 to |row.frameworks|
        invariant kept == SelectIds(row, sel, false, row.frameworks[..m])
      {
        assert row.frameworks[..m + 1][..m] == row.frameworks[..m];
        if Dropped(row, sel, row.frameworks[m]) { continue; }
        kept := kept + [row.frameworks[m]];
      }
      assert row.frameworks[..|row.frameworks|] == row.frameworks;
      if kept == [] { continue; }
      left := left + [row.(frameworks := kept)];
    }
    assert rows[..|rows|] == rows;
    out := NormalizeScopeJobs(left);
  }

  method KeepSelected(rows: seq<Row>, sel: Selectors) returns (out: seq<Row>)
    ensures out == SelectRows(rows, sel, true)
  {
    hide Kept;
    out := [];
    assert rows[..0] == [];
    for n := 0 to |rows|
      invariant out == SelectRows(rows[..n], sel, true)
    {
      assert rows[..n + 1][..n] == rows[..n];
      var row, kept := rows[n], [];
      assert row.frameworks[..0] == [];
      for m := 0 to |row.frameworks|
        invariant kept == SelectIds(row, sel, true, row.frameworks[..m])
      {
        assert row.frameworks[..m + 1][..m] == row.frameworks[..m];
        if Kept(row, sel, row.frameworks[m]) { kept := kept + [row.frameworks[m]]; }
      }
      assert row.frameworks[..|row.frameworks|] == row.frameworks;
      if kept != [] { out := out + [row.(frameworks := kept)]; }
    }
    assert rows[..|rows|] == rows;
  }

  datatype Action = Confirm | Drop | Keep | Unclear

  /** `resolve_scope_decision`: an unclear answer gives no plan, every other a normal one. */
  method ResolveScopeDecision(rows: seq<Row>, action: Action, sel: Selectors) returns (plan: Option<seq<Row>>)
    ensures action == Confirm ==> plan == Some(Normalize(rows))
    ensures action == Drop ==> plan == Some(Exclude(rows, sel))
    ensures action == Keep ==> plan == Include(rows, sel)
    ensures plan.Some? ==> Normal(plan.value)
    ensures plan.None? <==> action == Unclear || (action == Keep && sel == Selectors({}, {}))
  {
    hide Normal, Normalize, SelectRows;
    match action {
      case Confirm =>
        var all := NormalizeScopeJobs(rows);
        return Some(all);
      case Drop =>
        var left := ApplyScopeExclusions(rows, sel);
        left := NormalizeScopeJobs(left);
        return Some(left);
      case Keep =>
        if sel.frameworks == {} && sel.pairs == {} { return None; }
        var kept := KeepSelected(rows, sel);
        kept := NormalizeScopeJobs(kept);
        return Some(kept);
      case Unclear => return None;
    }
  }
}
