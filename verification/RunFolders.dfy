/** Run folders as trees, their ownership manifests, and what re-binding a run to another folder does
    to them. */
module RunFolders {
  import opened EvidenceNumbers
  import opened Options

  datatype Owner = Owner(client: string, run: string)

  /** A manifest is a file text that reads as one. */
  datatype Content = Manifest(owner: Owner) | Other(text: string)

  datatype Node = File(content: Content) | Folder(items: map<string, Node>)

  type Items = map<string, Node>

  const OWNERSHIP := "ownership.json"

  // ---------- overlaying ----------

  /** No name is a file in one tree and a folder in the other. */
  predicate Compatible(s: Node, d: Node)
    decreases s
  {
    match (s, d)
    case (File(_), File(_)) => true
    case (Folder(si), Folder(di)) => forall k :: k in si && k in di ==> Compatible(si[k], di[k])
    case _ => false
  }

  /** Copying `s` over `d`, folder by folder. */
  function CopyTree(s: Node, d: Node): Node
    requires Compatible(s, d)
    decreases s
  {
    match (s, d)
    case (Folder(si), Folder(di)) => Folder(map k | k in si.Keys + di.Keys ::
      if k in si && k in di then CopyTree(si[k], di[k]) else if k in si then si[k] else di[k])
    case _ => s
  }

  /** The file at a path below a node. */
  function FileAt(n: Node, p: Path): Option<Content>
    decreases |p|
  {
    match n
    case File(c) => if p == [] then Some(c) else None
    case Folder(items) => if p != [] && p[0] in items then FileAt(items[p[0]], p[1..]) else None
  }

  /** MAIN: the copy holds every file of the source, and of the destination every other. */
  lemma {:induction false} CopyIsOverlay(s: Node, d: Node, p: Path)
    requires Compatible(s, d)
    ensures FileAt(CopyTree(s, d), p) == if FileAt(s, p).Some? then FileAt(s, p) else FileAt(d, p)
    decreases |p|
  {
    if p != [] && s.Folder? {
      var k := p[0];
      if k in s.items && k in d.items { CopyIsOverlay(s.items[k], d.items[k], p[1..]); }
    }
  }

  // ---------- ownership ----------

  function ManifestOf(items: Items): Option<Owner> {
    if OWNERSHIP in items && items[OWNERSHIP].File? && items[OWNERSHIP].content.Manifest? then
      Some(items[OWNERSHIP].content.owner)
    else None
  }

  predicate HasManifestFile(items: Items) { OWNERSHIP in items && items[OWNERSHIP].File? }

  predicate LooksLikeRun(s: string) { "arun_" <= s && |s| > 8 }

  /** The owner the destination must have, as far as it is known: from the arguments, then from the
      last segment of the path, then from the source's manifest. An unknown part is empty. */
  function ExpectedOwner(client: string, run: string, last: string, source: Items): Owner {
    var named := if run == "" && LooksLikeRun(last) then last else run;
    match ManifestOf(source)
    case None => Owner(client, named)
    case Some(o) => Owner(if client == "" then o.client else client, if named == "" then o.run else named)
  }

  predicate Matches(owner: Owner, expected: Owner) {
    (expected.client == "" || owner.client == expected.client) && (expected.run == "" || owner.run == expected.run)
  }

  predicate Known(o: Owner) { o.client != "" && o.run != "" }

  /** Whether the destination accepts the source: it is missing or empty, or its manifest matches, and
      the source's manifest, if there is one, agrees with it. */
  predicate Accepts(source: Items, dest: Option<Node>, expected: Owner) {
    match dest
    case None => true
    case Some(File(_)) => false
    case Some(Folder(items)) =>
      items == map[]
      || (ManifestOf(items).Some? && Matches(ManifestOf(items).value, expected)
          && (HasManifestFile(source) ==> ManifestOf(source) == ManifestOf(items)))
  }

  function ItemsOf(dest: Option<Node>): Items {
    if dest.Some? && dest.value.Folder? then dest.value.items else map[]
  }

  /** The manifest of a known expected owner takes the place of any other. */
  function Stamped(items: Items, expected: Owner): Items {
    if Known(expected) && ManifestOf(items) != Some(expected) then items[OWNERSHIP := File(Manifest(expected))] else items
  }

  /** What the file system allows to be merged. */
  predicate Mergeable(source: Items, dest: Items) {
    && (forall k :: k in source && k in dest ==> Compatible(source[k], dest[k]))
    && (OWNERSHIP in source ==> source[OWNERSHIP].File?) && (OWNERSHIP in dest ==> dest[OWNERSHIP].File?)
  }

  function Overlay(source: Items, dest: Items): Items
    requires Mergeable(source, dest)
  {
    map k | k in source.Keys + dest.Keys ::
      if k in source && k in dest then CopyTree(source[k], dest[k]) else if k in source then source[k] else dest[k]
  }

  function Rebound(source: Items, dest: Items, expected: Owner): Items
    requires Mergeable(source, dest)
  {
    Stamped(Overlay(source, dest), expected)
  }

  /** MAIN: apart from the manifest, the re-bound folder holds every file of the source, and every
      file of the destination that the source does not have. */
  lemma ReboundIsOverlay(source: Items, dest: Items, expected: Owner, p: Path)
    requires Mergeable(source, dest) && p != [] && p[0] != OWNERSHIP
    ensures FileAt(Folder(Rebound(source, dest, expected)), p)
            == if FileAt(Folder(source), p).Some? then FileAt(Folder(source), p) else FileAt(Folder(dest), p)
  {
    if p[0] in source && p[0] in dest { CopyIsOverlay(source[p[0]], dest[p[0]], p[1..]); }
  }

  /** Whose folder it is. A known expected owner owns the result. A destination that had files
      keeps its owner. Otherwise the result has the source's manifest. */
  lemma ReboundOwner(source: Items, dest: Option<Node>, expected: Owner)
    requires Mergeable(source, ItemsOf(dest)) && Accepts(source, dest, expected)
    ensures var r := Rebound(source, ItemsOf(dest), expected);
            && (Known(expected) ==> ManifestOf(r) == Some(expected))
            && (ItemsOf(dest) != map[] ==> ManifestOf(r) == ManifestOf(ItemsOf(dest)))
            && (!Known(expected) && ItemsOf(dest) == map[] ==> ManifestOf(r) == ManifestOf(source))
  {
    var all := Overlay(source, ItemsOf(dest));
    if OWNERSHIP in source && OWNERSHIP in ItemsOf(dest) {
      assert all[OWNERSHIP] == source[OWNERSHIP];
    }
  }

  // ---------- evidence numbers of a tree ----------

  function Sub(items: Items, name: string): Items {
    if name in items && items[name].Folder? then items[name].items else map[]
  }

  function SubAt(items: Items, p: Path): Items
    decreases |p|
  {
    if p == [] then items else SubAt(Sub(items, p[0]), p[1..])
  }

  function FileNames(items: Items): set<string> { set k | k in items && items[k].File? }

  function FolderNames(items: Items): set<string> { set k | k in items && items[k].Folder? }

  function HasReport(items: Items): bool { "report.md" in FileNames(items) }

  /** The tree as seeding sees it: its folders at depth two and three, and the reports at depth one
      and two. */
  function DiskOf(t: Items): Disk {
    var two := set a, b | a in FolderNames(t) && b in FolderNames(Sub(t, a)) :: [a, b];
    var three := set p, c | p in two && c in FolderNames(SubAt(t, p)) :: p + [c];
    var one := set a | a in FolderNames(t) :: [a];
    Disk(map p | p in two + three :: FileNames(SubAt(t, p)), set p | p in one + two && HasReport(SubAt(t, p)))
  }

  lemma {:induction false} SubGrows(s: Items, d: Items, p: Path)
    requires forall k :: k in s && k in d ==> Compatible(s[k], d[k])
    ensures var all := CopyTree(Folder(s), Folder(d)).items;
            FileNames(SubAt(s, p)) + FileNames(SubAt(d, p)) <= FileNames(SubAt(all, p))
    decreases |p|
  {
    var all := CopyTree(Folder(s), Folder(d)).items;
    if p != [] {
      var k := p[0];
      if k in s && k in d && s[k].Folder? {
        SubGrows(s[k].items, d[k].items, p[1..]);
      } else if k in s {
        EmptyBelow(p[1..]);
      } else {
        EmptyBelow(p[1..]);
      }
    }
  }

  lemma {:induction false} EmptyBelow(p: Path)
    ensures SubAt(map[], p) == map[]
    decreases |p|
  {
    if p != [] { EmptyBelow(p[1..]); }
  }

  lemma MaxSeqGrows(a: set<string>, b: set<string>)
    requires a <= b
    ensures MaxSeq(a) <= MaxSeq(b)
  {
    var m, n := MaxSeq(a), MaxSeq(b);
    assert IsMaxSeq(a, m) && IsMaxSeq(b, n);
  }

  lemma DiskFacts(t: Items, p: Path)
    requires p in DiskOf(t).files
    ensures p != [] && p[0] in FolderNames(t) && DiskOf(t).files[p] == FileNames(SubAt(t, p))
  {
    hide SubAt, Sub, HasReport;
  }

  lemma StampedBelow(items: Items, expected: Owner, p: Path)
    requires p != [] && p[0] != OWNERSHIP
    ensures SubAt(Stamped(items, expected), p) == SubAt(items, p)
  {
  }

  /** MAIN: after re-binding, the counter of every folder that seeding looks into has reached the
      largest number of either tree. */
  lemma CountersReachBoth(source: Items, dest: Items, expected: Owner, before: Counters, p: Path)
    requires Mergeable(source, dest)
    requires var d := DiskOf(Rebound(source, dest, expected)); p in d.files && Counted(d, p)
    ensures var n := Seeded(DiskOf(Rebound(source, dest, expected)), before, p);
            n >= MaxSeq(FileNames(SubAt(source, p))) && n >= MaxSeq(FileNames(SubAt(dest, p))) && n >= Count(before, p)
  {
    var all, result := Overlay(source, dest), Rebound(source, dest, expected);
    assert all == CopyTree(Folder(source), Folder(dest)).items;
    SubGrows(source, dest, p);
    hide CopyTree, Compatible, DiskOf, SubAt, Counted, MaxSeq, FileNames;
    DiskFacts(result, p);
    OwnershipIsNoFolder(source, dest, expected);
    StampedBelow(all, expected, p);
    hide Overlay, Stamped;
    MaxSeqGrows(FileNames(SubAt(source, p)), FileNames(SubAt(result, p)));
    MaxSeqGrows(FileNames(SubAt(dest, p)), FileNames(SubAt(result, p)));
  }

  lemma OwnershipIsNoFolder(source: Items, dest: Items, expected: Owner)
    requires Mergeable(source, dest)
    ensures OWNERSHIP !in FolderNames(Rebound(source, dest, expected))
  {
  }
}
