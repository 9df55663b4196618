/** Strings in alphabetical order, and sorting without repetition. */
module Ordering {

  /** Alphabetical order by code points. */
  predicate Less(a: string, b: string) {
    b != "" && (a == "" || a[0] < b[0] || (a[0] == b[0] && Less(a[1..], b[1..])))
  }

  lemma {:induction false} LessIsTotal(a: string, b: string)
    ensures a == b || Less(a, b) || Less(b, a)
  {
    if a != "" && b != "" && a[0] == b[0] {
      LessIsTotal(a[1..], b[1..]);
      assert a == [a[0]] + a[1..] && b == [b[0]] + b[1..];
    }
  }

  lemma {:induction false} LessIsTransitive(a: string, b: string, c: string)
    requires Less(a, b) && Less(b, c)
    ensures Less(a, c)
  {
    if a != "" && a[0] == b[0] && b[0] == c[0] { LessIsTransitive(a[1..], b[1..], c[1..]); }
  }

  /** The strings agree before position `i`, and there `a` has ended or the smaller character. */
  predicate SmallerAt(a: string, b: string, i: nat) {
    i <= |a| && i < |b| && (forall k :: 0 <= k < i ==> a[k] == b[k]) && (i < |a| ==> a[i] < b[i])
  }

  /** The first character that differs decides, or a missing one. */
  lemma {:induction false} LessIs(a: string, b: string)
    ensures Less(a, b) <==> exists i: nat :: SmallerAt(a, b, i)
  {
    if a != "" && b != "" && a[0] == b[0] {
      LessIs(a[1..], b[1..]);
      if Less(a[1..], b[1..]) {
        var i: nat :| SmallerAt(a[1..], b[1..], i);
        forall k | 0 <= k < i + 1 ensures a[k] == b[k] { if k > 0 { assert a[1..][k - 1] == b[1..][k - 1]; } }
        assert SmallerAt(a, b, i + 1);
      }
      if i: nat :| SmallerAt(a, b, i) {
        assert i > 0;
        assert SmallerAt(a[1..], b[1..], i - 1);
      }
    } else if b != "" {
      assert Less(a, b) <==> SmallerAt(a, b, 0);
    }
  }

  lemma {:induction false} NotBeforeItself(a: string)
    ensures !Less(a, a)
  {
    if a != "" { NotBeforeItself(a[1..]); }
  }

  method Smallest(names: set<string>) returns (least: string)
    requires names != {}
    ensures least in names && forall v <- names :: v == least || Less(least, v)
  {
    least :| least in names;
    var todo := names - {least};
    while todo != {}
      invariant todo <= names && least in names && least !in todo
      invariant forall v <- names - todo :: v == least || Less(least, v)
      decreases |todo|
    {
      var v :| v in todo;
      todo := todo - {v};
      LessIsTotal(least, v);
      if Less(v, least) {
        forall w | w in names - todo && w != v ensures Less(v, w) {
          if w != least { LessIsTransitive(v, least, w); }
        }
        least := v;
      }
    }
  }

  predicate Sorted(names: seq<string>) { forall i, j :: 0 <= i < j < |names| ==> Less(names[i], names[j]) }

  /** A sorted list is determined by its members. */
  lemma {:induction false} SortedIsUnique(a: seq<string>, b: seq<string>)
    requires Sorted(a) && Sorted(b) && forall x :: x in a <==> x in b
    ensures a == b
    decreases |a|
  {
    if a != [] { assert a[0] in b; }
    if b != [] { assert b[0] in a; }
    if a != [] && b != [] {
      LeastIsFirst(a, b);
      LeastIsFirst(b, a);
      if a[0] != b[0] { LessIsTransitive(a[0], b[0], a[0]); }
      NotBeforeItself(a[0]);
      SameRest(a, b);
      SortedIsUnique(a[1..], b[1..]);
    }
  }

  lemma LeastIsFirst(a: seq<string>, b: seq<string>)
    requires Sorted(a) && a != [] && b != [] && b[0] in a
    ensures a[0] == b[0] || Less(a[0], b[0])
  {
    var k :| 0 <= k < |a| && a[k] == b[0];
  }

  lemma SameRest(a: seq<string>, b: seq<string>)
    requires Sorted(a) && Sorted(b) && a != [] && b != [] && a[0] == b[0] && forall x :: x in a <==> x in b
    ensures Sorted(a[1..]) && Sorted(b[1..]) && forall x :: x in a[1..] <==> x in b[1..]
  {
    RestIsLater(a);
    RestIsLater(b);
  }

  lemma RestIsLater(a: seq<string>)
    requires Sorted(a) && a != []
    ensures forall x :: x in a[1..] <==> x in a && x != a[0]
  {
    NotBeforeItself(a[0]);
    assert a == [a[0]] + a[1..];
    assert forall k :: 0 < k < |a| ==> a[1..][k - 1] == a[k] && Less(a[0], a[k]);
  }

  /** `sorted` of names that do not repeat. */
  method Sort(names: set<string>) returns (list: seq<string>)
    ensures Sorted(list) && forall x :: x in list <==> x in names
  {
    hide Less;
    list := [];
    var todo := names;
    while todo != {}
      invariant todo <= names && Sorted(list) && forall x :: x in list <==> x in names - todo
      invariant forall x, y :: x in list && y in todo ==> Less(x, y)
      decreases |todo|
    {
      var least := Smallest(todo);
      todo := todo - {least};
      list := list + [least];
    }
  }
}
