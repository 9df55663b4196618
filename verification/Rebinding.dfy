/** Moving a run to another folder: everything is checked first, then the items move one by one. */
module Rebinding {
  import opened EvidenceNumbers
  import opened EvidenceStore
  import opened RunFolders
  import opened RunOwner
  import opened Options

  /** The run folders below the evidence root. */
  type Runs = map<Path, Node>

  /** Neither folder lies inside the other: items cannot move into a folder that moves with them. */
  predicate Beside(root: Path, newRoot: Path) { !Below(root, newRoot) && !Below(newRoot, root) }

  /** The items of `all` with names in `names`. */
  function Part(all: Items, names: set<string>): Items { map k | k in all && k in names :: all[k] }

  lemma PartMerges(source: Items, dest: Items, names: set<string>)
    requires Mergeable(source, dest)
    ensures Mergeable(Part(source, names), dest)
  {
  }

  lemma OneMore(source: Items, dest: Items, names: set<string>, k: string)
    requires Mergeable(source, dest) && k in source && k !in names
    requires Mergeable(Part(source, names), dest) && Mergeable(Part(source, names + {k}), dest)
    ensures Overlay(Part(source, names + {k}), dest)
            == Overlay(Part(source, names), dest)[k := if k in dest then CopyTree(source[k], dest[k]) else source[k]]
  {
    hide CopyTree, Compatible;
  }

  lemma Missing(source: Items, dest: Items, names: set<string>, k: string)
    requires Mergeable(Part(source, names), dest) && k !in names
    ensures k in Overlay(Part(source, names), dest) <==> k in dest
    ensures k in dest ==> Overlay(Part(source, names), dest)[k] == dest[k]
  {
  }

  lemma PartsOfAll(source: Items, dest: Items)
    requires Mergeable(source, dest)
    ensures Part(source, source.Keys) == source && Mergeable(Part(source, source.Keys - source.Keys), dest)
    ensures Overlay(Part(source, source.Keys - source.Keys), dest) == dest
  {
    assert Part(source, {}) == map[];
  }

  /** Moving one more item. */
  lemma PartStep(source: Items, dest: Items, todo: set<string>, k: string)
    requires Mergeable(source, dest) && k in todo && todo <= source.Keys && Mergeable(Part(source, source.Keys - todo), dest)
    ensures k in Part(source, todo) && Part(source, todo)[k] == source[k]
    ensures Part(source, todo - {k}) == Part(source, todo) - {k}
    ensures Mergeable(Part(source, source.Keys - (todo - {k})), dest)
    ensures var there := Overlay(Part(source, source.Keys - todo), dest);
            && (k in there ==> Compatible(source[k], there[k]))
            && Overlay(Part(source, source.Keys - (todo - {k})), dest)
               == there[k := if k in there then CopyTree(source[k], there[k]) else source[k]]
  {
    var moved := source.Keys - todo;
    assert source.Keys - (todo - {k}) == moved + {k};
    PartMerges(source, dest, moved + {k});
    Missing(source, dest, moved, k);
    OneMore(source, dest, moved, k);
    hide CopyTree, Compatible;
  }

  /** The run folders while items move: those in `todo` are still at the source, the others lie over
      the destination, and no other run has changed. */
  ghost predicate Moving(before: Runs, now: Runs, root: Path, newRoot: Path, source: Items, dest: Items, todo: set<string>) {
    && root != newRoot && todo <= source.Keys && Mergeable(source, dest)
    && Mergeable(Part(source, source.Keys - todo), dest)
    && root in now && now[root] == Folder(Part(source, todo))
    && newRoot in now && now[newRoot] == Folder(Overlay(Part(source, source.Keys - todo), dest))
    && now - {root, newRoot} == before - {root, newRoot}
  }

  predicate CanMove(runs: Runs, root: Path, newRoot: Path, name: string) {
    && root != newRoot && root in runs && runs[root].Folder? && newRoot in runs && runs[newRoot].Folder?
    && name in runs[root].items
    && (name in runs[newRoot].items ==> Compatible(runs[root].items[name], runs[newRoot].items[name]))
  }

  function WithMoved(runs: Runs, root: Path, newRoot: Path, name: string): Runs
    requires CanMove(runs, root, newRoot, name)
  {
    var item, there := runs[root].items[name], runs[newRoot].items;
    var copied := if name in there then CopyTree(item, there[name]) else item;
    runs[newRoot := Folder(there[name := copied])][root := Folder(runs[root].items - {name})]
  }

  lemma MovingStep(before: Runs, now: Runs, root: Path, newRoot: Path, source: Items, dest: Items, todo: set<string>, k: string)
    requires Moving(before, now, root, newRoot, source, dest, todo) && k in todo
    ensures CanMove(now, root, newRoot, k)
    ensures Moving(before, WithMoved(now, root, newRoot, k), root, newRoot, source, dest, todo - {k})
  {
    PartStep(source, dest, todo, k);
    hide Overlay, Mergeable, Part, CopyTree, Compatible;
    var next := WithMoved(now, root, newRoot, k);
    assert next - {root, newRoot} == now - {root, newRoot};
  }

  lemma MovingEnd(before: Runs, now: Runs, root: Path, newRoot: Path, source: Items, dest: Items)
    requires Moving(before, now, root, newRoot, source, dest, {}) && root in before
    ensures now - {root} == before[newRoot := Folder(Overlay(source, dest))] - {root}
  {
    assert source.Keys - {} == source.Keys;
    PartsOfAll(source, dest);
    hide Overlay, Mergeable, Part;
    assert forall r :: r in now && r != root && r != newRoot ==> r in now - {root, newRoot};
    assert forall r :: r in before && r != root && r != newRoot ==> r in before - {root, newRoot};
    assert forall r :: r in before && r != root && r != newRoot ==> r in now - {root, newRoot};
    assert forall r :: r in now && r != root && r != newRoot ==> r in before - {root, newRoot};
    assert forall r :: r in now && r != root && r != newRoot ==> now[r] == (now - {root, newRoot})[r] == before[r];
  }

  class RunFolder {
    var runs: Runs
    var root: Path
    const store: Store

    constructor (runs: Runs, root: Path, store: Store)
      requires root in runs && runs[root].Folder?
      ensures this.runs == runs && this.root == root && this.store == store
    {
      this.runs, this.root, this.store := runs, root, store;
    }

    function Destination(newRoot: Path): Option<Node>
      reads this
    {
      if newRoot in runs then Some(runs[newRoot]) else None
    }

    function Source(): Items
      reads this
      requires root in runs && runs[root].Folder?
    {
      runs[root].items
    }

    method CheckDestination(newRoot: Path, expected: Owner) returns (ok: bool)
      requires root in runs && runs[root].Folder?
      ensures ok == Accepts(Source(), Destination(newRoot), expected)
    {
      if newRoot !in runs { return true; }
      if runs[newRoot].File? { return false; }
      var items := runs[newRoot].items;
      if items == map[] { return true; }
      if !HasManifestFile(items) { return false; }
      var owner := ManifestOf(items);
      if owner == None { return false; }
      if expected.client != "" && owner.value.client != expected.client { return false; }
      if expected.run != "" && owner.value.run != expected.run { return false; }
      if HasManifestFile(Source()) {
        var mine := ManifestOf(Source());
        if mine == None || mine != owner { return false; }
      }
      return true;
    }

    method MoveItems(newRoot: Path)
      requires root in runs && runs[root].Folder? && newRoot != root && Beside(root, newRoot)
      requires newRoot in runs ==> runs[newRoot].Folder?
      requires Mergeable(Source(), ItemsOf(Destination(newRoot)))
      modifies `runs
      ensures runs == old(runs)[newRoot := Folder(Overlay(old(Source()), ItemsOf(old(Destination(newRoot)))))] - {root}
    {
      ghost var before, source, dest := runs, Source(), ItemsOf(Destination(newRoot));
      if newRoot !in runs { runs := runs[newRoot := Folder(map[])]; }
      var todo := Source().Keys;
      PartsOfAll(source, dest);
      assert Moving(before, runs, root, newRoot, source, dest, todo);
      hide *;
      while todo != {}
        invariant Moving(before, runs, root, newRoot, source, dest, todo)
        decreases |todo|
      {
        var name :| name in todo;
        MovingStep(before, runs, root, newRoot, source, dest, todo, name);
        MoveItem(newRoot, name);
        todo := todo - {name};
      }
      MovingEnd(before, runs, root, newRoot, source, dest);
      runs := runs - {root};
    }

    method MoveItem(newRoot: Path, name: string)
      requires CanMove(runs, root, newRoot, name)
      modifies `runs
      ensures runs == WithMoved(old(runs), root, newRoot, name)
    {
      var item, there := runs[root].items[name], runs[newRoot].items;
      var copied := item;
      if item.Folder? && name in there { copied := CopyTree(item, there[name]); }
      runs := runs[newRoot := Folder(there[name := copied])];
      runs := runs[root := Folder(runs[root].items - {name})];
    }

    /** MAIN: a refused re-binding changes nothing. An accepted one leaves the overlay, stamped with
        the expected owner, in the new folder and nothing in the old one; no other run is touched. */
    method RebindRunId(newRoot: Path, client: string, run: string) returns (ok: bool)
      requires root in runs && runs[root].Folder? && newRoot != [] && Beside(root, newRoot)
      requires newRoot != root && Admits(Source(), Destination(newRoot), client, run, newRoot[|newRoot| - 1]) ==>
                 Mergeable(Source(), ItemsOf(Destination(newRoot)))
      modifies this, store
      ensures newRoot == old(root) ==> ok && unchanged(this) && unchanged(store)
      ensures !ok ==> unchanged(this) && unchanged(store)
      ensures var expected := ExpectedOwner(client, run, newRoot[|newRoot| - 1], old(Source()));
              newRoot != old(root) ==>
                && ok == Admits(old(Source()), old(Destination(newRoot)), client, run, newRoot[|newRoot| - 1])
                && (ok ==>
                      var result := Rebound(old(Source()), ItemsOf(old(Destination(newRoot))), expected);
                      && root == newRoot && runs == old(runs)[newRoot := Folder(result)] - {old(root)}
                      && store.disk == DiskOf(result)
                      && (forall o :: IsKnown(old(Source()), client, run, newRoot[|newRoot| - 1], o) ==> OwnedBy(result, o))
                      && forall p :: Count(store.counters, p) == Seeded(DiskOf(result), old(store.counters), p))
    {
      if newRoot == root { return true; }
      AcceptedIsAdmitted(Source(), Destination(newRoot), client, run, newRoot[|newRoot| - 1]);
      var expected := ExpectedOwner(client, run, newRoot[|newRoot| - 1], Source());
      ok := CheckDestination(newRoot, expected);
      if !ok { return; }
      ghost var source, dest := Source(), ItemsOf(Destination(newRoot));
      hide Overlay, Mergeable, DiskOf, Seeded, ExpectedOwner, IsKnown, OwnedBy, Admits;
      forall o | IsKnown(source, client, run, newRoot[|newRoot| - 1], o)
        ensures OwnedBy(Rebound(source, dest, expected), o)
      {
        KnownOwnerIsStamped(source, dest, client, run, newRoot[|newRoot| - 1], o);
      }
      MoveItems(newRoot);
      root := newRoot;
      StampOwnership(expected);
      store.disk := DiskOf(runs[root].items);
      store.SeedCountersFromDisk();
    }

    method StampOwnership(expected: Owner)
      requires root in runs && runs[root].Folder?
      modifies `runs
      ensures runs == old(runs)[root := Folder(Stamped(old(Source()), expected))]
    {
      if Known(expected) {
        var items := runs[root].items;
        if !HasManifestFile(items) || ManifestOf(items) != Some(expected) {
          runs := runs[root := Folder(items[OWNERSHIP := File(Manifest(expected))])];
        }
      }
    }
  }
}
