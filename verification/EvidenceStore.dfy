/** The store object: it hands out numbers under its lock, writes files, and seeds its counters by
    walking the run folder. */
module EvidenceStore {
  import opened EvidenceNames
  import opened EvidenceNumbers
  import opened Ordering

  /** `after` differs from `before` exactly on the scanned folders, which have reached their largest
      number. */
  ghost predicate SeededOn(d: Disk, before: Counters, after: Counters, scanned: set<Path>) {
    forall p :: Count(after, p) == if p in scanned then Max(Count(before, p), MaxSeq(Files(d, p))) else Count(before, p)
  }

  function Children(d: Disk, p: Path): set<string> {
    set q | q in d.files.Keys + d.reports && Below(p, q) :: q[|p|]
  }

  /** The requirement folders of framework folder `fw`. */
  function Requirements(d: Disk, fw: Path): set<Path> {
    set p | p in d.files.Keys && |p| == |fw| + 1 && Below(fw, p)
  }

  /** The counted folders below the folders of `parents` with the given names. */
  ghost function CountedBelow(d: Disk, parent: Path, names: set<string>): set<Path> {
    set p | p in d.files.Keys && Below(parent, p) && p[|parent|] in names && Counted(d, p)
  }

  lemma Compose(d: Disk, before: Counters, mid: Counters, after: Counters, a: set<Path>, b: set<Path>)
    requires SeededOn(d, before, mid, a) && SeededOn(d, mid, after, b)
    ensures SeededOn(d, before, after, a + b)
  {
    hide MaxSeq, Files;
  }

  /** One more framework folder of a host. */
  lemma HostPart(d: Disk, host: string, scanned: set<string>, fw: string)
    requires !Dotted(host) && !Recognised(d, [host])
    ensures CountedBelow(d, [host], scanned + {fw})
            == CountedBelow(d, [host], scanned)
               + if !Dotted(fw) && Recognised(d, [host, fw]) then Requirements(d, [host, fw]) else {}
  {
    forall p: Path | |p| > 1 && p[0] == host && p[1] == fw ensures p[..1] == [host] && p[..2] == [host, fw] {}
    hide Recognised, Dotted;
  }

  /** One more folder at the root. */
  lemma RootPart(d: Disk, scanned: set<string>, child: string)
    ensures CountedBelow(d, [], scanned + {child})
            == CountedBelow(d, [], scanned)
               + if Dotted(child) then {} else if Recognised(d, [child]) then Requirements(d, [child])
                 else CountedBelow(d, [], {child})
  {
    forall p: Path | |p| > 0 && p[0] == child ensures p[..1] == [child] {}
    hide Recognised, Dotted;
  }

  lemma HostAll(d: Disk, host: string)
    requires !Dotted(host) && !Recognised(d, [host])
    ensures CountedBelow(d, [host], Children(d, [host])) == CountedBelow(d, [], {host})
  {
    hide Recognised, Dotted;
    forall p: Path | |p| > 0 && p[0] == host ensures p[..1] == [host] {}
    forall p | p in CountedBelow(d, [], {host}) ensures p in CountedBelow(d, [host], Children(d, [host])) {
      assert p[..1] == [host] && Below([host], p) && p in d.files.Keys + d.reports;
      assert p[1] in Children(d, [host]);
    }
  }

  lemma RootAll(d: Disk)
    ensures forall p :: p in CountedBelow(d, [], Children(d, [])) <==> p in d.files && Counted(d, p)
  {
    forall p | p in d.files && Counted(d, p) ensures p in CountedBelow(d, [], Children(d, [])) {
      assert Below([], p) && p in d.files.Keys + d.reports;
      assert p[0] in Children(d, []);
    }
    hide Counted;
  }

  class Store {
    var disk: Disk
    var counters: Counters

    constructor (d: Disk)
      ensures disk == d && forall p :: Count(counters, p) == Seeded(d, map[], p)
    {
      disk, counters := d, map[];
      new;
      SeedCountersFromDisk();
    }

    /** The locked part of a tool write: the folder exists and the number is taken. */
    method StartToolResult(p: Path) returns (n: nat)
      modifies this
      ensures n == Count(old(counters), p) + 1 && counters == old(counters)[p := n]
      ensures disk == WithFiles(old(disk), p, {})
    {
      ghost var was := disk;
      if p !in disk.files { disk := disk.(files := disk.files[p := {}]); }
      counters := counters[p := (if p in counters then counters[p] else 0) + 1];
      n := counters[p];
      assert Files(was, p) + {} == Files(was, p);
      assert disk.files == WithFiles(was, p, {}).files;
    }

    /** The rest of it: both files are written. */
    method FinishToolResult(p: Path, n: nat, tool: string)
      requires p in disk.files
      modifies `disk
      ensures disk == WithFiles(old(disk), p, Names(n, tool))
    {
      disk := disk.(files := disk.files[p := disk.files[p] + {Name(n, tool, ".json")}]);
      disk := disk.(files := disk.files[p := disk.files[p] + {Name(n, tool, ".txt")}]);
      assert disk.files[p] == Files(old(disk), p) + Names(n, tool);
    }

    /** `list_tool_result_files`: filtered, then sorted by name. */
    method ListToolResultFiles(p: Path) returns (list: seq<string>)
      ensures IsListing(Files(disk, p), list)
    {
      if p !in disk.files { return []; }
      list := Sort(set name | name in disk.files[p] && IsListed(name));
    }

    method LargestNumber(names: set<string>) returns (m: nat)
      ensures m == MaxSeq(names)
    {
      hide MaxSeq;
      m := 0;
      var todo := names;
      while todo != {}
        invariant todo <= names && IsMaxSeq(names - todo, m)
        decreases |todo|
      {
        var name :| name in todo;
        todo := todo - {name};
        assert names - todo == (names - todo - {name}) + {name};
        if SeqOf(name).Some? && SeqOf(name).value > m { m := SeqOf(name).value; }
      }
      assert names - todo == names;
    }

    method ScanFramework(fw: Path)
      modifies `counters
      ensures SeededOn(disk, old(counters), counters, Requirements(disk, fw))
    {
      hide MaxSeq, IsMaxSeq;
      var all := Requirements(disk, fw);
      var todo := all;
      while todo != {}
        invariant todo <= all && SeededOn(disk, old(counters), counters, all - todo)
        decreases |todo|
      {
        var p :| p in todo;
        todo := todo - {p};
        var m := LargestNumber(disk.files[p]);
        if m > 0 { counters := counters[p := Max(Count(counters, p), m)]; }
      }
      assert all - todo == all;
    }

    method ScanHost(host: string)
      requires !Dotted(host) && !Recognised(disk, [host])
      modifies `counters
      ensures SeededOn(disk, old(counters), counters, CountedBelow(disk, [], {host}))
    {
      hide MaxSeq, IsMaxSeq, Recognised;
      var all := Children(disk, [host]);
      var todo := all;
      while todo != {}
        invariant todo <= all && SeededOn(disk, old(counters), counters, CountedBelow(disk, [host], all - todo))
        decreases |todo|
      {
        var fw :| fw in todo;
        todo := todo - {fw};
        HostPart(disk, host, all - todo - {fw}, fw);
        assert all - todo == (all - todo - {fw}) + {fw};
        ghost var mid := counters;
        if !Dotted(fw) && Recognised(disk, [host, fw]) {
          ScanFramework([host, fw]);
          Compose(disk, old(counters), mid, counters, CountedBelow(disk, [host], all - todo - {fw}),
                  Requirements(disk, [host, fw]));
        }
      }
      assert all - todo == all;
      HostAll(disk, host);
    }

    method SeedCountersFromDisk()
      modifies `counters
      ensures forall p :: Count(counters, p) == Seeded(disk, old(counters), p)
    {
      hide MaxSeq, IsMaxSeq, Recognised;
      var all := Children(disk, []);
      var todo := all;
      while todo != {}
        invariant todo <= all && SeededOn(disk, old(counters), counters, CountedBelow(disk, [], all - todo))
        decreases |todo|
      {
        var child :| child in todo;
        todo := todo - {child};
        RootPart(disk, all - todo - {child}, child);
        assert all - todo == (all - todo - {child}) + {child};
        ghost var mid, part := counters, CountedBelow(disk, [], all - todo - {child});
        if !Dotted(child) {
          if Recognised(disk, [child]) {
            ScanFramework([child]);
            Compose(disk, old(counters), mid, counters, part, Requirements(disk, [child]));
          } else {
            ScanHost(child);
            Compose(disk, old(counters), mid, counters, part, CountedBelow(disk, [], {child}));
          }
        }
      }
      assert all - todo == all;
      RootAll(disk);
      hide Counted, CountedBelow, Children;
    }
  }
}
