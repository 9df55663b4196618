/** What seeding sees of a run's tree, by the paths of its files. */
module RunTrees {
  import opened EvidenceNumbers
  import opened Options
  import opened RunFolders

  /** A folder stands at the path. */
  predicate FolderAt(t: Items, p: Path)
    decreases |p|
  {
    p == [] || (p[0] in t && t[p[0]].Folder? && FolderAt(t[p[0]].items, p[1..]))
  }

  lemma {:induction false} FileBelow(t: Items, p: Path, name: string)
    ensures FileAt(Folder(t), p + [name]).Some? <==> FolderAt(t, p) && name in FileNames(SubAt(t, p))
    decreases |p|
  {
    if p == [] {
      assert (p + [name])[1..] == [];
    } else {
      assert (p + [name])[0] == p[0] && (p + [name])[1..] == p[1..] + [name];
      if p[0] in t && t[p[0]].Folder? { FileBelow(t[p[0]].items, p[1..], name); }
    }
  }

  lemma {:induction false} FolderBelow(t: Items, p: Path, name: string)
    ensures FolderAt(t, p + [name]) <==> FolderAt(t, p) && name in FolderNames(SubAt(t, p))
    decreases |p|
  {
    if p == [] {
      assert (p + [name])[1..] == [];
    } else {
      assert (p + [name])[0] == p[0] && (p + [name])[1..] == p[1..] + [name];
      if p[0] in t && t[p[0]].Folder? { FolderBelow(t[p[0]].items, p[1..], name); }
    }
  }

  lemma DepthOne(t: Items, p: Path)
    ensures p in (set a | a in FolderNames(t) :: [a]) <==> |p| == 1 && FolderAt(t, p)
  {
    if |p| == 1 {
      assert p == [] + [p[0]] && p == [p[0]];
      FolderBelow(t, [], p[0]);
    }
    hide FolderAt, SubAt, FolderNames;
    assert SubAt(t, []) == t by { NoPath(t); }
  }

  lemma NoPath(t: Items)
    ensures SubAt(t, []) == t && FolderAt(t, [])
  {
  }

  lemma DepthTwo(t: Items, p: Path)
    ensures p in (set a, b | a in FolderNames(t) && b in FolderNames(Sub(t, a)) :: [a, b]) <==> |p| == 2 && FolderAt(t, p)
  {
    if |p| == 2 {
      assert p == [p[0]] + [p[1]] && [p[0]] == [] + [p[0]] && p == [p[0], p[1]];
      FolderBelow(t, [p[0]], p[1]);
      FolderBelow(t, [], p[0]);
      SubOne(t, p[0]);
      NoPath(t);
    }
    hide FolderAt, SubAt, Sub, FolderNames;
  }

  lemma SubOne(t: Items, name: string)
    ensures SubAt(t, [name]) == Sub(t, name)
  {
    assert [name][1..] == [];
  }

  lemma ThirdIs(t: Items, p: Path)
    requires |p| == 3
    ensures FolderAt(t, p) <==> FolderAt(t, p[..2]) && p[2] in FolderNames(SubAt(t, p[..2]))
  {
    assert p == p[..2] + [p[2]];
    FolderBelow(t, p[..2], p[2]);
  }

  /** MAIN: seeding sees the folders two and three levels down with the files in them, and at one and two
      levels the folders with a `report.md`. */
  lemma DiskIsTree(t: Items, p: Path, name: string)
    ensures p in DiskOf(t).files <==> (|p| == 2 || |p| == 3) && FolderAt(t, p)
    ensures p in DiskOf(t).files ==> (name in DiskOf(t).files[p] <==> FileAt(Folder(t), p + [name]).Some?)
    ensures p in DiskOf(t).reports <==> (|p| == 1 || |p| == 2) && FileAt(Folder(t), p + ["report.md"]).Some?
  {
    FileBelow(t, p, name);
    FileBelow(t, p, "report.md");
    DepthOne(t, p);
    DepthTwo(t, p);
    if |p| == 3 {
      DepthTwo(t, p[..2]);
      ThirdIs(t, p);
      assert p == p[..2] + [p[2]];
    }
    hide FolderAt, FileAt, SubAt, Sub, FolderNames, FileNames;
  }
}
