/** The controls of a CIS `.audit` file: how occurrences of the same control id are merged, and what
    the merged catalogue holds. */
module AuditControls {

  /** `Control` as a value. */
  datatype Control = Control(
    id: string, title: string, checkType: string, info: string, solution: string, expected: string,
    cmds: seq<string>, file: string, regex: string, reference: string, seeAlso: string)

  datatype Field = Title | Info | Solution | CheckType | Expect | File | Regex | Reference | SeeAlso

  function Get(c: Control, f: Field): string {
    match f
    case Title => c.title
    case Info => c.info
    case Solution => c.solution
    case CheckType => c.checkType
    case Expect => c.expected
    case File => c.file
    case Regex => c.regex
    case Reference => c.reference
    case SeeAlso => c.seeAlso
  }

  // ---------- merging ----------

  function Longer(kept: string, added: string): string { if |added| > |kept| then added else kept }

  function Given(kept: string, added: string): string { if kept == "" then added else kept }

  function AddCmd(cmds: seq<string>, cmd: string): seq<string> {
    if cmd != "" && cmd !in cmds then cmds + [cmd] else cmds
  }

  function AddCmds(cmds: seq<string>, more: seq<string>): seq<string> {
    if more == [] then cmds else AddCmd(AddCmds(cmds, more[..|more| - 1]), more[|more| - 1])
  }

  function Merge(kept: Control, added: Control): Control {
    Control(kept.id, Longer(kept.title, added.title), Given(kept.checkType, added.checkType),
            Longer(kept.info, added.info), Longer(kept.solution, added.solution), Given(kept.expected, added.expected),
            AddCmds(kept.cmds, added.cmds), Given(kept.file, added.file), Given(kept.regex, added.regex),
            Given(kept.reference, added.reference), Given(kept.seeAlso, added.seeAlso))
  }

  datatype Catalog = Catalog(controls: map<string, Control>, order: seq<string>)

  function Upsert(c: Catalog, k: Control): Catalog {
    if k.id in c.controls then c.(controls := c.controls[k.id := Merge(c.controls[k.id], k)])
    else Catalog(c.controls[k.id := k], c.order + [k.id])
  }

  function UpsertAll(ks: seq<Control>): Catalog {
    if ks == [] then Catalog(map[], []) else Upsert(UpsertAll(ks[..|ks| - 1]), ks[|ks| - 1])
  }

  // ---------- the catalogue's order ----------

  predicate Seen(ks: seq<Control>, id: string) { exists i :: 0 <= i < |ks| && ks[i].id == id }

  /** Where `id` occurs first. */
  function FirstAt(ks: seq<Control>, id: string): (i: nat)
    requires Seen(ks, id)
    ensures i < |ks| && ks[i].id == id && forall j :: 0 <= j < i ==> ks[j].id != id
  {
    if ks[0].id == id then 0
    else
      assert exists i :: 0 <= i < |ks[1..]| && ks[1..][i].id == id by {
        var i :| 0 <= i < |ks| && ks[i].id == id;
        assert ks[1..][i - 1] == ks[i];
      }
      1 + FirstAt(ks[1..], id)
  }

  lemma FirstAtGrows(ks: seq<Control>, k: Control, id: string)
    requires Seen(ks, id)
    ensures Seen(ks + [k], id) && FirstAt(ks + [k], id) == FirstAt(ks, id)
  {
    var more := ks + [k];
    assert more[FirstAt(ks, id)].id == id;
    assert forall j :: 0 <= j < |ks| ==> more[j] == ks[j];
  }

  lemma SeenSnoc(ks: seq<Control>, k: Control)
    ensures forall id :: Seen(ks + [k], id) <==> Seen(ks, id) || id == k.id
  {
    var more := ks + [k];
    assert more[|ks|] == k;
    forall id | Seen(ks, id) ensures Seen(more, id) {
      var i :| 0 <= i < |ks| && ks[i].id == id;
      assert more[i].id == id;
    }
  }

  /** MAIN, first half: the catalogue holds and lists exactly the ids that occur. */
  lemma {:induction false} HoldsWhatOccurs(ks: seq<Control>)
    ensures var c := UpsertAll(ks);
            forall id :: (id in c.controls <==> Seen(ks, id)) && (id in c.order <==> Seen(ks, id))
  {
    if ks != [] {
      var before, k := ks[..|ks| - 1], ks[|ks| - 1];
      HoldsWhatOccurs(before);
      SeenSnoc(before, k);
      assert ks == before + [k];
      hide Seen, Merge;
    }
  }

  /** MAIN, second half: in the order in which they first occur, so each once. */
  lemma {:induction false} OrderIsFirstSeen(ks: seq<Control>, i: nat, j: nat)
    requires i < j < |UpsertAll(ks).order|
    ensures var order := UpsertAll(ks).order;
            Seen(ks, order[i]) && Seen(ks, order[j]) && FirstAt(ks, order[i]) < FirstAt(ks, order[j])
  {
    if ks != [] {
      var before, k, n := ks[..|ks| - 1], ks[|ks| - 1], |UpsertAll(ks[..|ks| - 1]).order|;
      assert ks == before + [k];
      HoldsWhatOccurs(before);
      hide Seen, FirstAt, Merge;
      assert UpsertAll(before).order[i] in UpsertAll(before).order;
      FirstAtGrows(before, k, UpsertAll(before).order[i]);
      if j < n {
        OrderIsFirstSeen(before, i, j);
        FirstAtGrows(before, k, UpsertAll(before).order[j]);
      } else {
        FirstAtEnd(before, k);
      }
    }
  }

  lemma FirstAtEnd(ks: seq<Control>, k: Control)
    requires !Seen(ks, k.id)
    ensures Seen(ks + [k], k.id) && FirstAt(ks + [k], k.id) == |ks|
  {
    var more := ks + [k];
    assert more[|ks|] == k;
    assert forall j :: 0 <= j < |ks| ==> more[j] == ks[j];
  }

  // ---------- what each control holds ----------

  /** The occurrences of `id`, in order. */
  function Of(ks: seq<Control>, id: string): (os: seq<Control>)
    ensures forall k :: k in os <==> k in ks && k.id == id
  {
    if ks == [] then []
    else
      var k, rest := ks[|ks| - 1], Of(ks[..|ks| - 1], id);
      assert forall o :: o in ks <==> o == k || o in ks[..|ks| - 1];
      if k.id == id then rest + [k] else rest
  }

  function MergeAll(os: seq<Control>): Control
    requires os != []
  {
    if |os| == 1 then os[0] else Merge(MergeAll(os[..|os| - 1]), os[|os| - 1])
  }

  lemma MergeSnoc(os: seq<Control>, k: Control)
    requires os != []
    ensures MergeAll(os + [k]) == Merge(MergeAll(os), k)
  {
    assert (os + [k])[..|os|] == os;
  }

  lemma {:induction false} ControlIsMerged(ks: seq<Control>, id: string)
    ensures id in UpsertAll(ks).controls <==> Of(ks, id) != []
    ensures Of(ks, id) != [] ==> UpsertAll(ks).controls[id] == MergeAll(Of(ks, id))
  {
    if ks != [] {
      var before, k := ks[..|ks| - 1], ks[|ks| - 1];
      ControlIsMerged(before, id);
      if k.id == id {
        if Of(before, id) != [] { MergeSnoc(Of(before, id), k); }
        assert MergeAll([k]) == k;
      }
      hide Merge, MergeAll;
    }
  }

  function Column(os: seq<Control>, f: Field): seq<string> { seq(|os|, i requires 0 <= i < |os| => Get(os[i], f)) }

  /** `v` is the longest of `vs`, and the first of that length. */
  predicate IsLongest(vs: seq<string>, v: string) {
    exists i :: 0 <= i < |vs| && vs[i] == v && (forall j :: 0 <= j < |vs| ==> |vs[j]| <= |v|)
      && forall j :: 0 <= j < i ==> |vs[j]| < |v|
  }

  /** `v` is the first of `vs` that is not empty, and empty only if all of them are. */
  predicate IsFirstGiven(vs: seq<string>, v: string) {
    if v == "" then forall j :: 0 <= j < |vs| ==> vs[j] == ""
    else exists i :: 0 <= i < |vs| && vs[i] == v && forall j :: 0 <= j < i ==> vs[j] == ""
  }

  lemma LongestSnoc(vs: seq<string>, v: string, w: string)
    requires IsLongest(vs, v)
    ensures IsLongest(vs + [w], Longer(v, w))
  {
    var all, u := vs + [w], Longer(v, w);
    var i :| 0 <= i < |vs| && vs[i] == v && (forall j :: 0 <= j < |vs| ==> |vs[j]| <= |v|)
             && forall j :: 0 <= j < i ==> |vs[j]| < |v|;
    var at := if |w| > |v| then |vs| else i;
    assert all[at] == u && forall j :: 0 <= j < at ==> all[j] == vs[j];
  }

  lemma GivenSnoc(vs: seq<string>, v: string, w: string)
    requires IsFirstGiven(vs, v)
    ensures IsFirstGiven(vs + [w], Given(v, w))
  {
    var all, u := vs + [w], Given(v, w);
    if v != "" {
      var i :| 0 <= i < |vs| && vs[i] == v && forall j :: 0 <= j < i ==> vs[j] == "";
      assert all[i] == u && forall j :: 0 <= j < i ==> all[j] == vs[j];
    } else if w != "" {
      assert all[|vs|] == u && forall j :: 0 <= j < |vs| ==> all[j] == vs[j];
    }
  }

  /** The fields of which the longest value is kept; of the others the first that is not empty is. */
  predicate KeepsLongest(f: Field) { f.Title? || f.Info? || f.Solution? }

  predicate Richest(os: seq<Control>, c: Control, f: Field) {
    if KeepsLongest(f) then IsLongest(Column(os, f), Get(c, f)) else IsFirstGiven(Column(os, f), Get(c, f))
  }

  lemma {:induction false} MergedIsRichest(os: seq<Control>, f: Field)
    requires os != []
    ensures Richest(os, MergeAll(os), f)
  {
    var k, vs := os[|os| - 1], Column(os, f);
    if |os| == 1 {
      assert vs == [Get(k, f)] && vs[0] == Get(k, f);
    } else {
      var before := os[..|os| - 1];
      MergedIsRichest(before, f);
      assert vs == Column(before, f) + [Get(k, f)];
      if KeepsLongest(f) {
        LongestSnoc(Column(before, f), Get(MergeAll(before), f), Get(k, f));
      } else {
        GivenSnoc(Column(before, f), Get(MergeAll(before), f), Get(k, f));
      }
      hide IsLongest, IsFirstGiven, Column;
    }
  }

  // ---------- commands ----------

  /** All of `cmds`, then commands of `more` only, none empty and none twice, with none of `more`'s
      missing. */
  lemma {:induction false} AddCmdsUnites(cmds: seq<string>, more: seq<string>)
    ensures var all := AddCmds(cmds, more);
            && cmds <= all
            && (forall c :: c in all <==> c in cmds || (c in more && c != ""))
            && (forall i :: |cmds| <= i < |all| ==> all[i] !in all[..i])
  {
    if more != [] {
      var rest, last := more[..|more| - 1], more[|more| - 1];
      AddCmdsUnites(cmds, rest);
      var part, all := AddCmds(cmds, rest), AddCmds(cmds, more);
      assert more == rest + [last];
      assert forall i :: 0 <= i < |part| ==> all[i] == part[i] && all[..i] == part[..i];
      if all != part { assert all[..|part|] == part; }
    }
  }

  /** The commands of a merged control: the first occurrence's as they are, then each further
      non-empty command of any occurrence, once. */
  predicate KeepsCommands(os: seq<Control>, cmds: seq<string>)
    requires os != []
  {
    && os[0].cmds <= cmds
    && (forall c <- cmds :: exists k <- os :: c in k.cmds)
    && (forall k <- os, c <- k.cmds :: c != "" ==> c in cmds)
    && (forall i :: |os[0].cmds| <= i < |cmds| ==> cmds[i] != "" && cmds[i] !in cmds[..i])
  }

  lemma {:induction false} MergedKeepsCommands(os: seq<Control>)
    requires os != []
    ensures KeepsCommands(os, MergeAll(os).cmds)
  {
    if |os| == 1 {
      assert os[0] in os;
    } else {
      var before, k := os[..|os| - 1], os[|os| - 1];
      MergedKeepsCommands(before);
      CommandsSnoc(before, MergeAll(before).cmds, k);
      assert os == before + [k];
    }
  }

  lemma CommandsSnoc(os: seq<Control>, cmds: seq<string>, k: Control)
    requires os != [] && KeepsCommands(os, cmds)
    ensures KeepsCommands(os + [k], AddCmds(cmds, k.cmds))
  {
    var more, all := os + [k], AddCmds(cmds, k.cmds);
    AddCmdsUnites(cmds, k.cmds);
    assert more[0] == os[0] && k in more;
    forall c <- all ensures exists o <- more :: c in o.cmds {
      if c in cmds {
        var o :| o in os && c in o.cmds;
        assert o in more;
      }
    }
    forall i | |os[0].cmds| <= i < |all| ensures all[i] != "" && all[i] !in all[..i] {
      if i < |cmds| {
        assert all[i] == cmds[i] && all[..i] == cmds[..i];
      } else {
        AddedIsGiven(cmds, k.cmds, i);
      }
    }
  }

  lemma {:induction false} AddedIsGiven(cmds: seq<string>, more: seq<string>, i: nat)
    requires |cmds| <= i < |AddCmds(cmds, more)|
    ensures AddCmds(cmds, more)[i] != ""
  {
    if more != [] && i < |AddCmds(cmds, more[..|more| - 1])| { AddedIsGiven(cmds, more[..|more| - 1], i); }
  }

  /** MAIN: of every control the catalogue keeps the longest title, info and solution, the first
      non-empty value of every other field, and every non-empty command. */
  lemma CatalogIsRichest(ks: seq<Control>, id: string)
    requires id in UpsertAll(ks).controls
    ensures Of(ks, id) != []
    ensures var c := UpsertAll(ks).controls[id];
            c.id == id && (forall f :: Richest(Of(ks, id), c, f)) && KeepsCommands(Of(ks, id), c.cmds)
  {
    hide *;
    ControlIsMerged(ks, id);
    var os := Of(ks, id);
    MergedId(os);
    forall f ensures Richest(os, MergeAll(os), f) { MergedIsRichest(os, f); }
    MergedKeepsCommands(os);
    assert os[0] in os;
  }

  lemma {:induction false} MergedId(os: seq<Control>)
    requires os != []
    ensures MergeAll(os).id == os[0].id
  {
    if |os| > 1 { MergedId(os[..|os| - 1]); }
  }
}
