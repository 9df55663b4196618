/** Several stores open on one run folder: each hands out numbers from its own counters. */
module EvidenceShared {
  import opened EvidenceNumbers
  import opened Options

  /** The counters of the open stores, and all numbers handed out, in order. */
  datatype Shared = Shared(stores: seq<Counters>, tickets: seq<Ticket>)

  datatype Turn = Turn(store: nat, path: Path)

  function Hand(x: Shared, t: Turn): Shared
    requires t.store < |x.stores|
  {
    var n: nat := Count(x.stores[t.store], t.path) + 1;
    var raised: Counters := x.stores[t.store][t.path := n];
    Shared(x.stores[t.store := raised], x.tickets + [Ticket(t.path, n, None)])
  }

  /** The store's counter has reached every number of the folder that any store has handed out. */
  ghost predicate CaughtUp(x: Shared, t: Turn)
    requires t.store < |x.stores|
  {
    forall u <- x.tickets :: u.path == t.path ==> u.number <= Count(x.stores[t.store], t.path)
  }

  /** One more number keeps the order exactly if the store has caught up. */
  lemma HandKeepsOrder(x: Shared, t: Turn)
    requires t.store < |x.stores| && Increasing(x.tickets)
    ensures Increasing(Hand(x, t).tickets) <==> CaughtUp(x, t)
  {
    var ts, n := x.tickets, Count(x.stores[t.store], t.path) + 1;
    var more := Hand(x, t).tickets;
    assert more[|ts|] == Ticket(t.path, n, None) && forall k :: 0 <= k < |ts| ==> more[k] == ts[k] && ts[k] in ts;
    if Increasing(more) {
      forall u | u in ts && u.path == t.path ensures u.number < n {
        var k :| 0 <= k < |ts| && ts[k] == u;
        assert more[k] == u;
      }
    }
  }

  predicate Turns(x: Shared, ts: seq<Turn>) { forall t <- ts :: t.store < |x.stores| }

  function HandAll(x: Shared, ts: seq<Turn>): Shared
    requires Turns(x, ts)
    decreases |ts|
  {
    if ts == [] then x else assert ts[0] in ts; HandAll(Hand(x, ts[0]), ts[1..])
  }

  ghost predicate AllCaughtUp(x: Shared, ts: seq<Turn>)
    requires Turns(x, ts)
    decreases |ts|
  {
    ts == [] || (assert ts[0] in ts; CaughtUp(x, ts[0]) && AllCaughtUp(Hand(x, ts[0]), ts[1..]))
  }

  lemma {:induction false} HandedStay(x: Shared, ts: seq<Turn>)
    requires Turns(x, ts) && Increasing(HandAll(x, ts).tickets)
    ensures Increasing(x.tickets)
    decreases |ts|
  {
    if ts != [] {
      assert ts[0] in ts;
      var next := Hand(x, ts[0]);
      HandedStay(next, ts[1..]);
      assert forall k :: 0 <= k < |x.tickets| ==> next.tickets[k] == x.tickets[k];
    }
  }

  /** MAIN: whatever turns several stores take, no folder sees a number twice and later numbers are
      larger exactly if every store that hands one out has caught up with all others. */
  lemma {:induction false} TurnsKeepOrder(x: Shared, ts: seq<Turn>)
    requires Turns(x, ts) && Increasing(x.tickets)
    ensures Increasing(HandAll(x, ts).tickets) <==> AllCaughtUp(x, ts)
    decreases |ts|
  {
    if ts != [] {
      assert ts[0] in ts;
      HandKeepsOrder(x, ts[0]);
      if CaughtUp(x, ts[0]) {
        hide Hand, CaughtUp, Increasing;
        TurnsKeepOrder(Hand(x, ts[0]), ts[1..]);
      } else if Increasing(HandAll(x, ts).tickets) {
        HandedStay(Hand(x, ts[0]), ts[1..]);
      }
    }
  }

  /** Two stores whose counters of a folder agree hand out the same number. */
  lemma TwoStoresCollide(x: Shared, a: nat, b: nat, p: Path)
    requires a < |x.stores| && b < |x.stores| && a != b && Count(x.stores[a], p) == Count(x.stores[b], p)
    ensures var y := Hand(Hand(x, Turn(a, p)), Turn(b, p));
            && y.tickets == x.tickets + [Ticket(p, Count(x.stores[a], p) + 1, None)] + [Ticket(p, Count(x.stores[a], p) + 1, None)]
            && !Increasing(y.tickets)
  {
    var y := Hand(Hand(x, Turn(a, p)), Turn(b, p));
    var n := |x.tickets|;
    assert y.tickets[n].path == y.tickets[n + 1].path && y.tickets[n].number == y.tickets[n + 1].number;
  }
}
