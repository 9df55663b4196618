/** The append-only tree merge of the visualizer (`reconcile`, `importAndAppend`), on trees without
    script elements. */
module Reconcile {

  // ---------- trees and their merge ----------

  datatype Tree =
    | Text(value: string)
    | Comment(value: string)
    | Element(name: string, attrs: string, children: seq<Tree>)

  /** Same node type and, for elements, same node name. */
  predicate Matches(x: Tree, y: Tree) {
    match x
    case Text(_) => y.Text?
    case Comment(_) => y.Comment?
    case Element(name, _, _) => y.Element? && y.name == name
  }

  function MergeNode(x: Tree, y: Tree): Tree
    decreases y
  {
    if !Matches(x, y) then y
    else
      match y
      case Text(_) => y
      case Comment(_) => x
      case Element(_, _, kids) => x.(children := Merge(x.children, kids))
  }

  function Merge(xs: seq<Tree>, ys: seq<Tree>): (r: seq<Tree>)
    ensures |r| == if |xs| < |ys| then |ys| else |xs|
    decreases ys
  {
    if ys == [] then xs
    else if xs == [] then ys
    else [MergeNode(xs[0], ys[0])] + Merge(xs[1..], ys[1..])
  }

  lemma {:induction false} MergeAt(xs: seq<Tree>, ys: seq<Tree>, i: nat)
    requires i < |Merge(xs, ys)|
    ensures Merge(xs, ys)[i]
         == if i >= |ys| then xs[i] else if i >= |xs| then ys[i] else MergeNode(xs[i], ys[i])
    decreases |ys|
  {
    if ys != [] && xs != [] && i > 0 { MergeAt(xs[1..], ys[1..], i - 1); }
  }

  /** One more incoming child. */
  lemma MergeSnoc(xs: seq<Tree>, ys: seq<Tree>, y: Tree)
    ensures var r := Merge(xs, ys);
      Merge(xs, ys + [y])
      == if |ys| < |xs| then r[|ys| := MergeNode(xs[|ys|], y)] else r + [y]
    ensures |ys| < |xs| ==> Merge(xs, ys)[|ys|] == xs[|ys|]
  {
    hide Merge, MergeNode;
    var r, s := Merge(xs, ys), Merge(xs, ys + [y]);
    var t := if |ys| < |xs| then r[|ys| := MergeNode(xs[|ys|], y)] else r + [y];
    forall i | 0 <= i < |s| ensures s[i] == t[i] {
      MergeAt(xs, ys + [y], i);
      if i < |r| { MergeAt(xs, ys, i); }
    }
    assert s == t;
    if |ys| < |xs| { MergeAt(xs, ys, |ys|); }
  }

  // ---------- what the merge promises ----------

  /** `ys` continues `xs` along its right spine: all but the last node of `xs` are final, and the
      last may still grow. */
  predicate Extends(xs: seq<Tree>, ys: seq<Tree>)
    decreases xs
  {
    |xs| <= |ys|
    && (xs == [] || (xs[..|xs| - 1] == ys[..|xs| - 1] && ExtendsNode(xs[|xs| - 1], ys[|xs| - 1])))
  }

  predicate ExtendsNode(x: Tree, y: Tree)
    decreases x
  {
    match x
    case Text(value) => y.Text? && value <= y.value
    case Comment(_) => x == y
    case Element(name, attrs, kids) => y.Element? && y.name == name && y.attrs == attrs && Extends(kids, y.children)
  }

  lemma {:induction false} ExtendsSelf(x: Tree)
    ensures ExtendsNode(x, x)
    decreases x
  {
    if x.Element? && x.children != [] { ExtendsSelf(x.children[|x.children| - 1]); }
  }

  /** In an extension every live child is extended by the incoming child at its place. */
  lemma ExtendsAt(xs: seq<Tree>, ys: seq<Tree>, i: nat)
    requires Extends(xs, ys) && i < |xs|
    ensures ExtendsNode(xs[i], ys[i])
  {
    if i < |xs| - 1 {
      assert xs[i] == xs[..|xs| - 1][i] == ys[..|xs| - 1][i];
      ExtendsSelf(xs[i]);
    }
  }

  lemma {:induction false} MergeSame(x: Tree)
    ensures MergeNode(x, x) == x
    decreases x
  {
    if x.Element? {
      var r := Merge(x.children, x.children);
      forall i | 0 <= i < |r| ensures r[i] == x.children[i] {
        MergeAt(x.children, x.children, i);
        MergeSame(x.children[i]);
      }
      assert r == x.children;
    }
  }

  /** MAIN: merging an extension yields exactly the incoming tree. */
  lemma {:induction false} MergeExtension(xs: seq<Tree>, ys: seq<Tree>)
    requires Extends(xs, ys)
    ensures Merge(xs, ys) == ys
    decreases xs
  {
    var r := Merge(xs, ys);
    forall i | 0 <= i < |r| ensures r[i] == ys[i] {
      MergeAt(xs, ys, i);
      if i + 1 < |xs| {
        assert xs[i] == xs[..|xs| - 1][i] == ys[..|xs| - 1][i];
        MergeSame(xs[i]);
      } else if i + 1 == |xs| {
        MergeNodeExtension(xs[i], ys[i]);
      }
    }
  }

  lemma {:induction false} MergeNodeExtension(x: Tree, y: Tree)
    requires ExtendsNode(x, y)
    ensures MergeNode(x, y) == y
    decreases x
  {
    if x.Element? { MergeExtension(x.children, y.children); }
  }

  /** The nodes on which the merge arrives at the incoming tree. */
  predicate Converges(xs: seq<Tree>, ys: seq<Tree>)
    decreases ys
  {
    |xs| <= |ys| && forall i :: 0 <= i < |xs| ==> ConvergesNode(xs[i], ys[i])
  }

  predicate ConvergesNode(x: Tree, y: Tree)
    decreases y
  {
    match y
    case Text(_) => true
    case Comment(_) => x.Comment? ==> x == y
    case Element(name, attrs, kids) => x.Element? && x.name == name ==> x.attrs == attrs && Converges(x.children, kids)
  }

  /** MAIN: the merge yields the incoming tree exactly when no node is left over and the matched
      comments and attributes, which are never rewritten, agree. */
  lemma {:induction false} MergeConverges(xs: seq<Tree>, ys: seq<Tree>)
    ensures Merge(xs, ys) == ys <==> Converges(xs, ys)
    decreases ys
  {
    var r := Merge(xs, ys);
    forall i | 0 <= i < |xs| && i < |ys| ensures r[i] == ys[i] <==> ConvergesNode(xs[i], ys[i]) {
      MergeAt(xs, ys, i);
      if Matches(xs[i], ys[i]) && ys[i].Element? { MergeConverges(xs[i].children, ys[i].children); }
    }
    forall i | |xs| <= i < |ys| ensures r[i] == ys[i] { MergeAt(xs, ys, i); }
    if |r| == |ys| && Converges(xs, ys) { assert r == ys; }
  }

  /** MAIN: merging the same incoming tree again changes nothing, whatever was there before. */
  lemma {:induction false} MergeTwice(xs: seq<Tree>, ys: seq<Tree>)
    ensures Merge(Merge(xs, ys), ys) == Merge(xs, ys)
    decreases ys
  {
    var r := Merge(xs, ys);
    forall i | 0 <= i < |r| ensures Merge(r, ys)[i] == r[i] {
      MergeAt(xs, ys, i);
      MergeAt(r, ys, i);
      if i < |ys| {
        if i < |xs| { MergeNodeTwice(xs[i], ys[i]); } else { MergeSame(ys[i]); }
      }
    }
  }

  lemma {:induction false} MergeNodeTwice(x: Tree, y: Tree)
    ensures MergeNode(MergeNode(x, y), y) == MergeNode(x, y)
    decreases y
  {
    if !Matches(x, y) {
      MergeSame(y);
    } else if y.Element? {
      MergeTwice(x.children, y.children);
    }
  }

  /** The subtree at a path of child positions. */
  predicate HasPath(xs: seq<Tree>, path: seq<nat>)
    decreases |path|
  {
    path != [] && path[0] < |xs|
    && (|path| == 1 || (xs[path[0]].Element? && HasPath(xs[path[0]].children, path[1..])))
  }

  function At(xs: seq<Tree>, path: seq<nat>): Tree
    requires HasPath(xs, path)
    decreases |path|
  {
    if |path| == 1 then xs[path[0]] else At(xs[path[0]].children, path[1..])
  }

  /** The path leaves the incoming tree past the end of some child list, which may be empty, having
      passed through elements of equal names only; their attributes may differ. */
  predicate Foreign(xs: seq<Tree>, ys: seq<Tree>, path: seq<nat>)
    requires HasPath(xs, path)
    decreases |path|
  {
    path[0] >= |ys|
    || (|path| > 1 && ys[path[0]].Element? && xs[path[0]].name == ys[path[0]].name
        && Foreign(xs[path[0]].children, ys[path[0]].children, path[1..]))
  }

  /** MAIN: what others added past the incoming children, or under an incoming leaf, survives. */
  lemma {:induction false} ForeignSurvives(xs: seq<Tree>, ys: seq<Tree>, path: seq<nat>)
    requires HasPath(xs, path) && Foreign(xs, ys, path)
    ensures HasPath(Merge(xs, ys), path) && At(Merge(xs, ys), path) == At(xs, path)
    decreases |path|
  {
    MergeAt(xs, ys, path[0]);
    if path[0] < |ys| { ForeignSurvives(xs[path[0]].children, ys[path[0]].children, path[1..]); }
  }

  /** The tree after merging every tree of a stream in turn. */
  function MergeAll(xs: seq<Tree>, stream: seq<seq<Tree>>): seq<Tree>
    decreases |stream|
  {
    if stream == [] then xs else MergeAll(Merge(xs, stream[0]), stream[1..])
  }

  /** MAIN: on a growing stream the live tree is at every moment the latest incoming tree. */
  lemma {:induction false} StreamFollows(xs: seq<Tree>, stream: seq<seq<Tree>>)
    requires stream != [] && Extends(xs, stream[0])
    requires forall i :: 0 <= i < |stream| - 1 ==> Extends(stream[i], stream[i + 1])
    ensures MergeAll(xs, stream) == stream[|stream| - 1]
    decreases |stream|
  {
    MergeExtension(xs, stream[0]);
    if |stream| > 1 { StreamFollows(stream[0], stream[1..]); }
  }
}
