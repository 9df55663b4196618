/** What excluding and including leave of a plan, said of the names that were selected. */
module ScopeSelection {
  import opened Options
  import opened PlanText
  import PlanWords
  import opened PythonText
  import opened ScopeDecision

  /** The framework is selected for every host, or for this one under its id or its address. */
  predicate Named(sel: Selectors, row: Row, id: string) {
    Lower(id) in sel.frameworks || (Lower(row.hostId), Lower(id)) in sel.pairs || (Lower(row.sshHost), Lower(id)) in sel.pairs
  }

  /** The same, but an id or address that is empty stands for no host. */
  predicate NamedHere(sel: Selectors, row: Row, id: string) {
    || Lower(id) in sel.frameworks
    || (row.hostId != "" && (Lower(row.hostId), Lower(id)) in sel.pairs)
    || (row.sshHost != "" && (Lower(row.sshHost), Lower(id)) in sel.pairs)
  }

  predicate Tidy(rows: seq<Row>) { forall r <- rows, id <- r.frameworks :: Strip(id) == id }

  lemma MattersIs(id: string)
    ensures Matters(id) <==> Strip(id) != "" && !PlanWords.HostFacts(Strip(id))
  {
    StripTwice(id);
    PlanWords.DiscoveryIs(Strip(id));
  }

  lemma SelectsIs(row: Row, sel: Selectors, id: string)
    ensures Selects(row, sel, false, id) <==> !Named(sel, row, id)
    ensures Selects(row, sel, true, id) <==> NamedHere(sel, row, id)
  {
  }

  lemma NamedIgnores(sel: Selectors, r: Row, t: Row, a: string, b: string)
    requires r.hostId == t.hostId && r.sshHost == t.sshHost && Lower(a) == Lower(b)
    ensures Named(sel, r, a) <==> Named(sel, t, b)
    ensures NamedHere(sel, r, a) <==> NamedHere(sel, t, b)
  {
  }

  /** What stands in the normalized selection was selected in the plan. */
  lemma SelectedFrom(rows: seq<Row>, sel: Selectors, kept: bool, r: Row, x: string) returns (row: Row, id: string)
    requires r in Normalize(SelectRows(rows, sel, kept)) && x in r.frameworks
    ensures row in rows && id in row.frameworks && Strip(id) == x && Matters(id) && Selects(row, sel, kept, id)
    ensures row.hostId == r.hostId && row.sshHost == r.sshHost
  {
    hide *;
    var chosen;
    chosen, id := NormalizeFrom(SelectRows(rows, sel, kept), r, x);
    row := SelectRowsFrom(rows, sel, kept, chosen);
    SelectMembers(row, sel, kept, row.frameworks);
  }

  /** What was selected in the plan stands in the normalized selection. */
  lemma SelectedStands(rows: seq<Row>, sel: Selectors, kept: bool, row: Row, id: string)
    requires row in rows && id in row.frameworks && Matters(id) && Selects(row, sel, kept, id)
    ensures Offers(Normalize(SelectRows(rows, sel, kept)), row, Lower(Strip(id)))
  {
    hide *;
    var chosen := row.(frameworks := SelectIds(row, sel, kept, row.frameworks));
    SelectMembers(row, sel, kept, row.frameworks);
    SelectRowsHold(rows, sel, kept, row);
    NormalizeOffers(SelectRows(rows, sel, kept), chosen, id);
    var r, x := OfferedBy(Normalize(SelectRows(rows, sel, kept)), chosen, Lower(Strip(id)));
    OfferedHere(Normalize(SelectRows(rows, sel, kept)), r, x, row, Lower(Strip(id)));
  }

  lemma OfferedHere(rows: seq<Row>, r: Row, x: string, row: Row, low: string)
    requires r in rows && x in r.frameworks && r.hostId == row.hostId && r.sshHost == row.sshHost && Lower(x) == low
    ensures Offers(rows, row, low)
  {
    hide Lower;
  }

  lemma ExcludeIs(rows: seq<Row>, sel: Selectors)
    ensures Exclude(rows, sel) == Normalize(SelectRows(rows, sel, false))
  {
    NormalizeTwice(SelectRows(rows, sel, false));
    hide Normalize, SelectRows;
  }

  /** No framework of the row is selected for its host, and none is a discovery. */
  predicate NoneNamed(r: Row, sel: Selectors) {
    forall x <- r.frameworks :: !Named(sel, r, x) && x != "" && !PlanWords.HostFacts(x)
  }

  /** MAIN: excluding leaves no framework that was selected for its host, and no discovery. */
  lemma ExcludedAreGone(rows: seq<Row>, sel: Selectors)
    requires Tidy(rows)
    ensures forall r <- Exclude(rows, sel) :: NoneNamed(r, sel)
  {
    ExcludeIs(rows, sel);
    hide Exclude, Normalize, SelectRows, Named, Selects, Matters, Strip, PlanWords.HostFacts;
    forall r | r in Exclude(rows, sel) ensures NoneNamed(r, sel) {
      forall x | x in r.frameworks ensures !Named(sel, r, x) && x != "" && !PlanWords.HostFacts(x) {
        var q, y := SelectedFrom(rows, sel, false, r, x);
        SelectsIs(q, sel, y);
        MattersIs(y);
        NamedIgnores(sel, q, r, y, x);
      }
    }
  }

  /** MAIN: and every other. */
  lemma OthersStay(rows: seq<Row>, sel: Selectors, row: Row, id: string)
    requires Tidy(rows) && row in rows && id in row.frameworks && id != "" && !PlanWords.HostFacts(id) && !Named(sel, row, id)
    ensures Offers(Exclude(rows, sel), row, Lower(id))
  {
    ExcludeIs(rows, sel);
    hide Exclude, Normalize, SelectRows, Named, Selects, Matters, Strip, Offers, PlanWords.HostFacts;
    SelectsIs(row, sel, id);
    MattersIs(id);
    SelectedStands(rows, sel, false, row, id);
  }

  lemma IncludeIs(rows: seq<Row>, sel: Selectors)
    requires Include(rows, sel).Some?
    ensures Include(rows, sel).value == Normalize(SelectRows(rows, sel, true))
  {
  }

  /** Every framework of the plan is selected for its host, and none is a discovery. */
  predicate AllNamed(plan: seq<Row>, sel: Selectors) { forall r <- plan :: RowNamed(r, sel) }

  predicate RowNamed(r: Row, sel: Selectors) {
    forall x <- r.frameworks :: NamedHere(sel, r, x) && x != "" && !PlanWords.HostFacts(x)
  }

  /** MAIN: including leaves only what was selected. */
  lemma IncludedAreNamed(rows: seq<Row>, sel: Selectors)
    requires Tidy(rows) && Include(rows, sel).Some?
    ensures AllNamed(Include(rows, sel).value, sel)
  {
    IncludeIs(rows, sel);
    hide *;
    OnlySelectedStay(rows, sel);
  }

  lemma OnlySelectedStay(rows: seq<Row>, sel: Selectors)
    requires Tidy(rows)
    ensures AllNamed(Normalize(SelectRows(rows, sel, true)), sel)
  {
    hide Normalize, SelectRows, NamedHere, Named, Selects, Matters, Strip, PlanWords.HostFacts;
    forall r | r in Normalize(SelectRows(rows, sel, true)) ensures RowNamed(r, sel) {
      forall x | x in r.frameworks ensures NamedHere(sel, r, x) && x != "" && !PlanWords.HostFacts(x) {
        var q, y := SelectedFrom(rows, sel, true, r, x);
        SelectsIs(q, sel, y);
        MattersIs(y);
        NamedIgnores(sel, q, r, y, x);
      }
    }
  }

  /** MAIN: and all of it. */
  lemma NamedStay(rows: seq<Row>, sel: Selectors, row: Row, id: string)
    requires Tidy(rows) && row in rows && id in row.frameworks && id != "" && !PlanWords.HostFacts(id)
    requires NamedHere(sel, row, id)
    ensures Include(rows, sel).Some? && Offers(Include(rows, sel).value, row, Lower(id))
  {
    assert Include(rows, sel).Some?;
    IncludeIs(rows, sel);
    hide Include, Normalize, SelectRows, NamedHere, Named, Selects, Matters, Strip, Offers, PlanWords.HostFacts;
    SelectsIs(row, sel, id);
    MattersIs(id);
    SelectedStands(rows, sel, true, row, id);
  }

  predicate Auditable(r: Row) { forall x <- r.frameworks :: x != "" && Strip(x) == x && !PlanWords.HostFacts(x) }

  /** MAIN: confirming leaves everything but blanks and discovery, and not these. */
  lemma ConfirmedAreAuditable(rows: seq<Row>)
    ensures forall r <- Normalize(rows) :: Auditable(r)
  {
    hide Normalize, Matters, Strip, PlanWords.HostFacts;
    forall r | r in Normalize(rows) ensures Auditable(r) {
      forall x | x in r.frameworks ensures x != "" && Strip(x) == x && !PlanWords.HostFacts(x) {
        var q, y := NormalizeFrom(rows, r, x);
        StripTwice(y);
        MattersIs(y);
      }
    }
  }

  lemma AuditableStay(rows: seq<Row>, row: Row, id: string)
    requires row in rows && id in row.frameworks && Strip(id) != "" && !PlanWords.HostFacts(Strip(id))
    ensures Offers(Normalize(rows), row, Lower(Strip(id)))
  {
    MattersIs(id);
    hide *;
    NormalizeOffers(rows, row, id);
  }
}
