/** The result store: results by id and ids by logical key, two indexes that must agree. */
module ResultStore {
  import opened PythonText

  datatype Finding = Finding(
    resultId: string, client: string, auditRun: string, asset: string, framework: string, version: string,
    requirement: string, content: string)

  /** The logical key: who was assessed, in which run, against what. */
  datatype Key = Key(client: string, auditRun: string, asset: string, framework: string, version: string, requirement: string)

  function KeyOf(f: Finding): Key {
    Key(Strip(f.client), Strip(f.auditRun), Strip(f.asset), Strip(f.framework), Strip(f.version), Strip(f.requirement))
  }

  /** `validate_result_identity`. */
  predicate Complete(f: Finding) {
    var k := KeyOf(f);
    && Strip(f.resultId) != "" && k.client != "" && k.auditRun != "" && k.asset != "" && k.framework != ""
    && k.version != "" && k.requirement != ""
  }

  datatype Index = Index(byId: map<string, Finding>, byKey: map<Key, string>)

  const NOTHING := Index(map[], map[])

  /** The two indexes are mutual inverses, of complete results under their own ids. */
  ghost predicate Ok(x: Index) {
    && (forall id :: id in x.byId ==> x.byId[id].resultId == id && Complete(x.byId[id]))
    && (forall id :: id in x.byId ==> KeyOf(x.byId[id]) in x.byKey && x.byKey[KeyOf(x.byId[id])] == id)
    && (forall k :: k in x.byKey ==> x.byKey[k] in x.byId && KeyOf(x.byId[x.byKey[k]]) == k)
  }

  /** The conditions under which `put` raises nothing. */
  predicate Accepts(x: Index, f: Finding, allowUpdate: bool) {
    Complete(f)
    && if f.resultId in x.byId then KeyOf(x.byId[f.resultId]) == KeyOf(f) && allowUpdate
       else KeyOf(f) in x.byKey ==> x.byKey[KeyOf(f)] == f.resultId
  }

  function Stored(x: Index, f: Finding): Index {
    Index(x.byId[f.resultId := f], x.byKey[KeyOf(f) := f.resultId])
  }

  function Put(x: Index, f: Finding, allowUpdate: bool): Index {
    if Accepts(x, f, allowUpdate) then Stored(x, f) else x
  }

  /** Every id that was there is still there, under the same key. */
  ghost predicate KeepsKeys(x: Index, y: Index) {
    forall id :: id in x.byId ==> id in y.byId && KeyOf(y.byId[id]) == KeyOf(x.byId[id])
  }

  /** The identity of a result is complete when nothing of it is blank, and two results have the same
      logical key exactly when client, run, asset, framework, version and requirement agree. */
  lemma IdentityIs(f: Finding, g: Finding)
    ensures Complete(f) <==>
      && Strip(f.resultId) != "" && Strip(f.client) != "" && Strip(f.auditRun) != "" && Strip(f.asset) != ""
      && Strip(f.framework) != "" && Strip(f.version) != "" && Strip(f.requirement) != ""
    ensures KeyOf(f) == KeyOf(g) <==>
      && Strip(f.client) == Strip(g.client) && Strip(f.auditRun) == Strip(g.auditRun) && Strip(f.asset) == Strip(g.asset)
      && Strip(f.framework) == Strip(g.framework) && Strip(f.version) == Strip(g.version)
      && Strip(f.requirement) == Strip(g.requirement)
  {
    hide Strip;
  }

  /** MAIN: a put keeps the indexes inverse and every id's key; it stores the finding exactly if the id
      and the key are both new, or belong together already and updates are allowed. */
  lemma PutKeepsOk(x: Index, f: Finding, allowUpdate: bool)
    requires Ok(x)
    ensures var y := Put(x, f, allowUpdate);
            && Ok(y) && KeepsKeys(x, y)
            && (forall id :: id in x.byId && id != f.resultId ==> y.byId[id] == x.byId[id])
            && (if Accepts(x, f, allowUpdate) then f.resultId in y.byId && y.byId[f.resultId] == f && y.byId.Keys == x.byId.Keys + {f.resultId}
                else y == x)
    ensures Accepts(x, f, allowUpdate) <==>
              Complete(f) && ((f.resultId !in x.byId && KeyOf(f) !in x.byKey)
                              || (allowUpdate && KeyOf(f) in x.byKey && x.byKey[KeyOf(f)] == f.resultId))
  {
    hide Strip;
    var k := KeyOf(f);
    hide KeyOf, Complete;
    if f.resultId in x.byId { assert x.byKey[KeyOf(x.byId[f.resultId])] == f.resultId; }
    if k in x.byKey { assert KeyOf(x.byId[x.byKey[k]]) == k; }
  }

  /** Storing all of them, one after another. */
  function PutAll(x: Index, fs: seq<Finding>): Index {
    if fs == [] then x else Put(PutAll(x, fs[..|fs| - 1]), fs[|fs| - 1], true)
  }

  lemma {:induction false} PutAllKeepsOk(x: Index, fs: seq<Finding>)
    requires Ok(x)
    ensures Ok(PutAll(x, fs)) && KeepsKeys(x, PutAll(x, fs))
  {
    hide Put, Ok, KeyOf;
    if fs != [] {
      PutAllKeepsOk(x, fs[..|fs| - 1]);
      PutKeepsOk(PutAll(x, fs[..|fs| - 1]), fs[|fs| - 1], true);
    }
  }

  /** The index of the first finding, at or after `from`, that is rejected once those before it are
      stored; or their number. */
  function FirstRejected(x: Index, fs: seq<Finding>, from: nat): (n: nat)
    requires from <= |fs|
    ensures from <= n <= |fs|
    decreases |fs| - from
  {
    if from == |fs| || !Accepts(PutAll(x, fs[..from]), fs[from], true) then from else FirstRejected(x, fs, from + 1)
  }

  /** MAIN: all before it are accepted, and it is not. */
  lemma {:induction false} FirstRejectedIs(x: Index, fs: seq<Finding>, from: nat, i: nat)
    requires from <= i < |fs| && i <= FirstRejected(x, fs, from)
    ensures Accepts(PutAll(x, fs[..i]), fs[i], true) <==> i < FirstRejected(x, fs, from)
    decreases i - from
  {
    hide Accepts, PutAll;
    if from < i { FirstRejectedIs(x, fs, from + 1, i); }
  }

  // ---------- whole histories ----------

  datatype Call = One(finding: Finding, allowUpdate: bool) | Many(findings: seq<Finding>)

  /** `put`, or `put_many`, which keeps what it stored before it raised. */
  function Apply(x: Index, c: Call): Index {
    match c
    case One(f, u) => Put(x, f, u)
    case Many(fs) => PutAll(x, fs[..FirstRejected(x, fs, 0)])
  }

  function ApplyAll(x: Index, calls: seq<Call>): Index {
    if calls == [] then x else Apply(ApplyAll(x, calls[..|calls| - 1]), calls[|calls| - 1])
  }

  /** MAIN: after any calls, raising or not, the indexes are mutual inverses. */
  lemma {:induction false} HistoriesKeepOk(calls: seq<Call>)
    ensures Ok(ApplyAll(NOTHING, calls))
  {
    if calls != [] {
      var x, c := ApplyAll(NOTHING, calls[..|calls| - 1]), calls[|calls| - 1];
      HistoriesKeepOk(calls[..|calls| - 1]);
      ApplyKeepsOk(x, c);
      hide Ok, Apply;
    }
  }

  lemma ApplyKeepsOk(x: Index, c: Call)
    requires Ok(x)
    ensures Ok(Apply(x, c)) && KeepsKeys(x, Apply(x, c))
  {
    match c {
      case One(f, u) => PutKeepsOk(x, f, u);
      case Many(fs) => PutAllKeepsOk(x, fs[..FirstRejected(x, fs, 0)]);
    }
  }

  /** MAIN: and no id has ever changed its logical key. */
  lemma {:induction false} IdsKeepTheirKeys(calls: seq<Call>, i: nat, id: string)
    requires i <= |calls| && id in ApplyAll(NOTHING, calls[..i]).byId
    ensures id in ApplyAll(NOTHING, calls).byId
    ensures KeyOf(ApplyAll(NOTHING, calls).byId[id]) == KeyOf(ApplyAll(NOTHING, calls[..i]).byId[id])
    decreases |calls|
  {
    if i == |calls| {
      assert calls[..i] == calls;
    } else {
      var front := calls[..|calls| - 1];
      assert front[..i] == calls[..i];
      IdsKeepTheirKeys(front, i, id);
      HistoriesKeepOk(front);
      ApplyKeepsOk(ApplyAll(NOTHING, front), calls[|calls| - 1]);
      hide Ok, Apply, KeyOf;
    }
  }

  // ---------- the store ----------

  class Store {
    var byId: map<string, Finding>
    var byLogical: map<Key, string>

    function X(): Index
      reads this
    {
      Index(byId, byLogical)
    }

    constructor ()
      ensures X() == NOTHING
    {
      byId, byLogical := map[], map[];
    }

    /** A rejected finding changes nothing. */
    method PutOne(f: Finding, allowUpdate: bool) returns (ok: bool)
      requires Ok(X())
      modifies this
      ensures ok == Accepts(old(X()), f, allowUpdate)
      ensures X() == Put(old(X()), f, allowUpdate)
      ensures Ok(X()) && KeepsKeys(old(X()), X())
    {
      PutKeepsOk(X(), f, allowUpdate);
      hide Complete, Ok, KeyOf;
      if !Complete(f) { return false; }
      var id, key := f.resultId, KeyOf(f);
      if id in byId {
        var prev := byId[id];
        if KeyOf(prev) != key { return false; }
        if !allowUpdate { return false; }
        byId := byId[id := f];
        byLogical := byLogical[key := id];
        return true;
      }
      if key in byLogical && byLogical[key] != id { return false; }
      byId := byId[id := f];
      byLogical := byLogical[key := id];
      return true;
    }

    /** Exactly the findings before the first rejected one are kept. */
    method PutMany(fs: seq<Finding>) returns (ok: bool, n: nat)
      requires Ok(X())
      modifies this
      ensures n == FirstRejected(old(X()), fs, 0) && ok == (n == |fs|)
      ensures X() == PutAll(old(X()), fs[..n])
      ensures Ok(X()) && KeepsKeys(old(X()), X())
    {
      hide *;
      ghost var x := X();
      n := 0;
      NoneYet(x, fs);
      while n < |fs|
        invariant n <= |fs| && FirstRejected(x, fs, n) == FirstRejected(x, fs, 0)
        invariant X() == PutAll(x, fs[..n]) && Ok(X())
      {
        OneMore(x, fs, n);
        var stored := PutOne(fs[n], true);
        if !stored {
          PutAllKeepsOk(x, fs[..n]);
          return false, n;
        }
        n := n + 1;
      }
      PutAllKeepsOk(x, fs[..n]);
      return true, n;
    }
  }

  lemma NoneYet(x: Index, fs: seq<Finding>)
    ensures PutAll(x, fs[..0]) == x
  {
    assert fs[..0] == [];
  }

  /** The next finding is stored, or it is the first rejected one. */
  lemma OneMore(x: Index, fs: seq<Finding>, n: nat)
    requires n < |fs|
    ensures var y := PutAll(x, fs[..n]);
            && PutAll(x, fs[..n + 1]) == Put(y, fs[n], true)
            && (Accepts(y, fs[n], true) ==> FirstRejected(x, fs, n) == FirstRejected(x, fs, n + 1))
            && (!Accepts(y, fs[n], true) ==> FirstRejected(x, fs, n) == n && Put(y, fs[n], true) == y)
  {
    hide Accepts;
    assert fs[..n + 1][..n] == fs[..n];
  }
}
