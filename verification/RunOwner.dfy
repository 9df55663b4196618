/** Who may re-bind a run to a folder and whose folder it is then, said of the caller's own arguments. */
module RunOwner {
  import opened EvidenceNumbers
  import opened Options
  import opened RunFolders

  /** The folder's manifest names this owner. */
  predicate OwnedBy(items: Items, o: Owner) { "ownership.json" in items && items["ownership.json"] == File(Manifest(o)) }

  predicate IsRunName(s: string) { |s| > 8 && s[..5] == "arun_" }

  /** The owner is the client and the run that were given; when no run was, the last segment of the path
      stands for it if it looks like one. */
  predicate AsGiven(o: Owner, client: string, run: string, last: string) {
    && (client != "" ==> o.client == client)
    && (run != "" ==> o.run == run)
    && (run == "" && IsRunName(last) ==> o.run == last)
  }

  /** A manifest file of the source names this owner. */
  predicate SourceAgrees(source: Items, o: Owner) {
    "ownership.json" in source && source["ownership.json"].File? ==> OwnedBy(source, o)
  }

  /** The destination is new or empty, or a folder whose owner is as given and as the source has it. */
  ghost predicate Admits(source: Items, dest: Option<Node>, client: string, run: string, last: string) {
    match dest
    case None => true
    case Some(File(_)) => false
    case Some(Folder(items)) => items == map[] || exists o :: OwnedBy(items, o) && AsGiven(o, client, run, last) && SourceAgrees(source, o)
  }

  /** MAIN: a destination is accepted exactly if it is admitted: another client's or another run's folder
      never is. */
  lemma AcceptedIsAdmitted(source: Items, dest: Option<Node>, client: string, run: string, last: string)
    ensures Accepts(source, dest, ExpectedOwner(client, run, last, source)) <==> Admits(source, dest, client, run, last)
  {
    if dest.Some? && dest.value.Folder? && dest.value.items != map[] {
      var items := dest.value.items;
      if Admits(source, dest, client, run, last) {
        var o :| OwnedBy(items, o) && AsGiven(o, client, run, last) && SourceAgrees(source, o);
        assert ManifestOf(items) == Some(o);
      }
      if Accepts(source, dest, ExpectedOwner(client, run, last, source)) {
        var o := ManifestOf(items).value;
        assert OwnedBy(items, o) && AsGiven(o, client, run, last) && SourceAgrees(source, o);
      }
    }
  }

  /** The owner that is known before the move: the arguments, the last segment, the source's manifest. */
  ghost predicate IsKnown(source: Items, client: string, run: string, last: string, o: Owner) {
    && o.client != "" && o.run != ""
    && (o.client == client || (client == "" && exists s :: OwnedBy(source, s) && o.client == s.client))
    && (|| o.run == run
        || (run == "" && IsRunName(last) && o.run == last)
        || (run == "" && !IsRunName(last) && exists s :: OwnedBy(source, s) && o.run == s.run))
  }

  /** MAIN: when the owner is known in full, its manifest is the one in the new folder, whatever either
      folder held before. */
  lemma KnownOwnerIsStamped(source: Items, dest: Items, client: string, run: string, last: string, o: Owner)
    requires Mergeable(source, dest) && IsKnown(source, client, run, last, o)
    ensures OwnedBy(Rebound(source, dest, ExpectedOwner(client, run, last, source)), o)
  {
    hide Overlay, Mergeable;
    forall s | OwnedBy(source, s) ensures ManifestOf(source) == Some(s) {}
    assert ExpectedOwner(client, run, last, source) == o;
  }
}
