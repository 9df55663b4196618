/** The reconciler as the source has it: live nodes are objects whose child lists and text values
    are changed in place. `Reconcile` says what tree must result. */
module DomReconciler {
  import opened Reconcile

  datatype Kind = TextNode | CommentNode | ElementNode(name: string, attrs: string)

  class Dom {
    const kind: Kind
    var value: string
    var children: seq<Dom>
    ghost var Repr: set<Dom>

    constructor (kind: Kind, value: string)
      ensures Valid() && fresh(Repr) && Repr == {this} && children == []
      ensures this.kind == kind && this.value == value
    {
      this.kind, this.value, children := kind, value, [];
      Repr := {this};
    }

    ghost predicate Valid()
      reads this, Repr
      decreases Repr
    {
      && this in Repr
      && (!kind.ElementNode? ==> children == [])
      && (forall c :: c in children ==> c in Repr && c.Repr <= Repr && this !in c.Repr && c.Valid())
      && (forall i, j :: 0 <= i < j < |children| ==> children[i].Repr !! children[j].Repr)
    }

    ghost function View(): Tree
      requires Valid()
      reads this, Repr
      decreases Repr
    {
      match kind
      case TextNode => Text(value)
      case CommentNode => Comment(value)
      case ElementNode(name, attrs) => Element(name, attrs, Kids())
    }

    ghost function Kids(): (k: seq<Tree>)
      requires Valid()
      reads this, Repr
      ensures |k| == |children|
      decreases Repr, 0
    {
      seq(|children|, i requires 0 <= i < |children| && Valid() reads this, Repr => children[i].View())
    }

    /** The nodes of the tree rooted here. */
    ghost function Nodes(): set<Dom>
      requires Valid()
      reads this, Repr
      decreases Repr
    {
      {this} + (set c, d | c in children && d in c.Nodes() :: d)
    }

    /** The comparison of node types and names. */
    predicate Fits(y: Tree)
      reads this
    {
      match kind
      case TextNode => y.Text?
      case CommentNode => y.Comment?
      case ElementNode(name, _) => y.Element? && y.name == name
    }
  }

  /** A new, detached copy of an incoming node. */
  method Import(incoming: Tree) returns (el: Dom)
    ensures fresh(el.Repr) && el.Valid() && el.View() == incoming
    decreases incoming, 0
  {
    match incoming {
      case Text(value) => el := new Dom(TextNode, value);
      case Comment(value) => el := new Dom(CommentNode, value);
      case Element(name, attrs, kids) =>
        el := new Dom(ElementNode(name, attrs), "");
        var i := 0;
        while i < |kids|
          invariant i <= |kids| && el.Valid() && fresh(el.Repr)
          invariant el.Kids() == kids[..i] && el.kind.ElementNode?
        {
          ImportAndAppend(el, kids[i]);
          i := i + 1;
        }
        assert kids[..i] == kids;
    }
  }

  /** `importAndAppend`, without scripts. */
  method ImportAndAppend(parent: Dom, incoming: Tree)
    requires parent.Valid() && parent.kind.ElementNode?
    modifies parent
    ensures parent.Valid() && fresh(parent.Repr - old(parent.Repr))
    ensures parent.Kids() == old(parent.Kids()) + [incoming]
    ensures |parent.children| == |old(parent.children)| + 1
    ensures parent.children[..|parent.children| - 1] == old(parent.children)
    ensures old(parent.Nodes()) <= parent.Nodes()
    decreases incoming, 1
  {
    hide Dom.Nodes;
    var el := Import(incoming);
    parent.children := parent.children + [el];
    parent.Repr := parent.Repr + el.Repr;
    NodesGrow(parent);
  }

  /** The mismatch case: the node at `i` gives way to a copy of the incoming one. */
  method ReplaceAt(existing: Dom, i: nat, incoming: Tree)
    requires existing.Valid() && i < |existing.children|
    modifies existing
    ensures existing.Valid() && fresh(existing.Repr - old(existing.Repr))
    ensures existing.Kids() == old(existing.Kids())[i := incoming]
    ensures |existing.children| == |old(existing.children)|
    ensures forall k :: 0 <= k < |existing.children| && k != i ==> existing.children[k] == old(existing.children[k])
  {
    var el := Import(incoming);
    existing.children := existing.children[i := el];
    existing.Repr := existing.Repr + el.Repr;
  }

  /** One turn of the loop, at a position that has a live child. */
  method ReconcileAt(existing: Dom, i: nat, incoming: Tree)
    requires existing.Valid() && i < |existing.children|
    modifies existing.Repr
    ensures existing.Valid() && fresh(existing.Repr - old(existing.Repr))
    ensures existing.Kids() == old(existing.Kids())[i := MergeNode(old(existing.Kids())[i], incoming)]
    ensures |existing.children| == |old(existing.children)|
    ensures forall k :: 0 <= k < |existing.children| && (k != i || old(existing.children[i].Fits(incoming))) ==>
        existing.children[k] == old(existing.children[k])
    ensures ExtendsNode(old(existing.Kids())[i], incoming) ==> old(existing.Nodes()) <= existing.Nodes()
    decreases incoming, 2
  {
    var child := existing.children[i];
    if !child.Fits(incoming) {
      ReplaceAt(existing, i, incoming);
    } else if child.kind.TextNode? {
      RewriteAt(existing, i, incoming.value);
    } else if child.kind.ElementNode? {
      DescendAt(existing, i, incoming);
      if ExtendsNode(old(existing.Kids())[i], incoming) { NodesGrow(existing); }
    }
  }

  twostate lemma NodesGrow(existing: Dom)
    requires old(existing.Valid()) && existing.Valid()
    requires forall c :: c in old(existing.children) ==> c in existing.children && old(c.Nodes()) <= c.Nodes()
    ensures old(existing.Nodes()) <= existing.Nodes()
  {
  }

  /** The text case. */
  method RewriteAt(existing: Dom, i: nat, value: string)
    requires existing.Valid() && i < |existing.children| && existing.children[i].kind.TextNode?
    modifies existing.children[i]
    ensures existing.Valid() && existing.Repr == old(existing.Repr) && existing.children == old(existing.children)
    ensures existing.Kids() == old(existing.Kids())[i := Text(value)]
    ensures old(existing.Nodes()) <= existing.Nodes()
  {
    var child := existing.children[i];
    if child.value != value { child.value := value; }
    NodesGrow(existing);
  }

  /** The element case. */
  method DescendAt(existing: Dom, i: nat, incoming: Tree)
    requires existing.Valid() && i < |existing.children| && incoming.Element?
    requires existing.children[i].kind.ElementNode? && existing.children[i].Fits(incoming)
    modifies existing.Repr
    ensures existing.Valid() && fresh(existing.Repr - old(existing.Repr)) && existing.children == old(existing.children)
    ensures existing.Kids() == old(existing.Kids())[i := MergeNode(old(existing.Kids())[i], incoming)]
    ensures ExtendsNode(old(existing.Kids())[i], incoming) ==>
        forall c :: c in existing.children ==> old(c.Nodes()) <= c.Nodes()
    decreases incoming, 1
  {
    hide Merge, Extends, Dom.Nodes;
    var child := existing.children[i];
    ghost var kids := existing.Kids();
    assert child in existing.children && kids[i] == child.View();
    ReconcileInto(child, incoming);
    existing.Repr := existing.Repr + child.Repr;
    assert existing.Kids()[i] == MergeNode(kids[i], incoming);
    if ExtendsNode(kids[i], incoming) {
      assert old(child.Nodes()) <= child.Nodes();
    }
  }

  /** `reconcile`. */
  method ReconcileInto(existing: Dom, incoming: Tree)
    requires existing.Valid() && existing.kind.ElementNode? && incoming.Element?
    modifies existing.Repr
    ensures existing.Valid() && fresh(existing.Repr - old(existing.Repr))
    ensures existing.Kids() == Merge(old(existing.Kids()), incoming.children)
    ensures Extends(old(existing.Kids()), incoming.children) ==> old(existing.Nodes()) <= existing.Nodes()
    decreases incoming, 0
  {
    ghost var xs, ys := existing.Kids(), incoming.children;
    assert ys[..0] == [] && Merge(xs, []) == xs;
    hide Merge, MergeNode, ExtendsNode, Extends, Dom.Nodes, Dom.Kids;
    var i := 0;
    while i < |incoming.children|
      invariant i <= |incoming.children|
      invariant existing.Valid() && fresh(existing.Repr - old(existing.Repr))
      invariant existing.Kids() == Merge(xs, ys[..i])
      invariant Extends(xs, ys) ==> old(existing.Nodes()) <= existing.Nodes()
    {
      Turn(existing, i, incoming.children[i], xs, ys);
      i := i + 1;
    }
    assert ys[..i] == ys;
  }

  /** One turn of the loop. */
  method Turn(existing: Dom, i: nat, incoming: Tree, ghost xs: seq<Tree>, ghost ys: seq<Tree>)
    requires existing.Valid() && existing.kind.ElementNode?
    requires i < |ys| && ys[i] == incoming && existing.Kids() == Merge(xs, ys[..i])
    modifies existing.Repr
    ensures existing.Valid() && fresh(existing.Repr - old(existing.Repr))
    ensures existing.Kids() == Merge(xs, ys[..i + 1])
    ensures Extends(xs, ys) ==> old(existing.Nodes()) <= existing.Nodes()
    decreases incoming, 3
  {
    hide Merge, MergeNode, ExtendsNode, Extends, Dom.Nodes;
    assert ys[..i + 1] == ys[..i] + [ys[i]];
    MergeSnoc(xs, ys[..i], ys[i]);
    if i >= |existing.children| {
      ImportAndAppend(existing, incoming);
    } else {
      if Extends(xs, ys) { ExtendsAt(xs, ys, i); }
      ReconcileAt(existing, i, incoming);
    }
  }
}
