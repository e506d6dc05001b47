/** The OPC UA address space: nodes linked by child and sibling pointers, searched depth first. */
module OpcUaTree {
  import opened Common
  import opened OpcUaSpec

  class Node {
    const nodeId: NodeId
    var parent: Node?
    var children: Node?
    var next: Node?

    constructor (nodeId: NodeId, parent: Node?)
      ensures this.nodeId == nodeId && this.parent == parent && children == null && next == null
    {
      this.nodeId, this.parent := nodeId, parent;
      children, next := null, null;
    }
  }

  /** What a list of siblings stands for: the first node, what is below it, and the siblings after it. */
  datatype Forest = Empty | Tree(node: Node, below: Forest, after: Forest)

  /** Depth first, a node before its children, children before later siblings. */
  ghost function Preorder(f: Forest): seq<Node> {
    match f
    case Empty => []
    case Tree(n, below, after) => [n] + Preorder(below) + Preorder(after)
  }

  ghost function Nodes(f: Forest): set<Node> {
    match f
    case Empty => {}
    case Tree(n, below, after) => {n} + Nodes(below) + Nodes(after)
  }

  lemma {:induction false} InOrder(f: Forest, m: Node)
    ensures m in Preorder(f) <==> m in Nodes(f)
  {
    if f.Tree? {
      InOrder(f.below, m);
      InOrder(f.after, m);
    }
  }

  predicate Matches(n: Node, id: NodeId) { n.nodeId == id && id.Numeric? }

  /** The first node in the given order that matches, if any. */
  ghost function FirstMatch(ns: seq<Node>, id: NodeId): Node? {
    if ns == [] then null else if Matches(ns[0], id) then ns[0] else FirstMatch(ns[1..], id)
  }

  lemma {:induction false} FirstMatchConcat(a: seq<Node>, b: seq<Node>, id: NodeId)
    ensures FirstMatch(a + b, id) == if FirstMatch(a, id) != null then FirstMatch(a, id) else FirstMatch(b, id)
  {
    if a == [] {
      assert a + b == b;
    } else {
      assert (a + b)[1..] == a[1..] + b;
      FirstMatchConcat(a[1..], b, id);
    }
  }

  lemma {:induction false} FirstMatchIs(ns: seq<Node>, id: NodeId)
    ensures FirstMatch(ns, id) != null <==> exists n :: n in ns && Matches(n, id)
    ensures var r := FirstMatch(ns, id); r != null ==> r in ns && Matches(r, id)
  {
    if ns != [] && !Matches(ns[0], id) { FirstMatchIs(ns[1..], id); }
  }

  datatype Links = Links(children: Node?, next: Node?)

  /** The pointers, read off from the nodes, draw the forest f from n on. */
  ghost predicate Draws(n: Node?, f: Forest, links: map<Node, Links>)
    decreases f
  {
    match f
    case Empty => n == null
    case Tree(m, below, after) =>
      n == m && m in links && Draws(links[m].children, below, links) && Draws(links[m].next, after, links)
  }

  ghost predicate ReadOff(f: Forest, links: map<Node, Links>)
    reads Nodes(f)
  {
    forall m :: m in Nodes(f) ==> m in links && links[m] == Links(m.children, m.next)
  }

  lemma FirstMatchTree(n: Node, below: Forest, after: Forest, id: NodeId)
    ensures FirstMatch(Preorder(Tree(n, below, after)), id)
            == if Matches(n, id) then n
               else if FirstMatch(Preorder(below), id) != null then FirstMatch(Preorder(below), id)
               else FirstMatch(Preorder(after), id)
  {
    assert Preorder(Tree(n, below, after))[1..] == Preorder(below) + Preorder(after);
    FirstMatchConcat(Preorder(below), Preorder(after), id);
  }

  /** find_recursive: what it returns is the first match of the depth-first order. */
  function FindRecursive(n: Node?, id: NodeId, ghost f: Forest, ghost links: map<Node, Links>): (found: Node?)
    requires Draws(n, f, links) && ReadOff(f, links)
    reads Nodes(f)
    ensures found == FirstMatch(Preorder(f), id)
    decreases f
  {
    if n == null then null
    else
      FirstMatchTree(n, f.below, f.after, id);
      if n.nodeId.ns == id.ns && n.nodeId.Numeric? && id.Numeric? && n.nodeId.id == id.id then n
      else
        var found := FindRecursive(n.children, id, f.below, links);
        if found != null then found else FindRecursive(n.next, id, f.after, links)
  }

  // ----- adding a node

  /** No node is there twice. */
  ghost predicate Apart(f: Forest) {
    match f
    case Empty => true
    case Tree(n, below, after) =>
      n !in Nodes(below) && n !in Nodes(after) && Nodes(below) !! Nodes(after) && Apart(below) && Apart(after)
  }

  /** x becomes the first child of p. */
  ghost function Insert(f: Forest, p: Node, x: Node): Forest {
    match f
    case Empty => Empty
    case Tree(n, below, after) =>
      if n == p then Tree(n, Tree(x, Empty, below), after)
      else Tree(n, Insert(below, p, x), Insert(after, p, x))
  }

  lemma {:induction false} InsertNodes(f: Forest, p: Node, x: Node)
    requires Apart(f) && x !in Nodes(f)
    ensures Apart(Insert(f, p, x)) && Nodes(Insert(f, p, x)) == Nodes(f) + (if p in Nodes(f) then {x} else {})
    decreases f
  {
    if f.Tree? {
      var g := Insert(f, p, x);
      if f.node == p {
        assert Nodes(Tree(x, Empty, f.below)) == {x} + Nodes(f.below);
        assert Nodes(g) == Nodes(f) + {x};
      } else {
        InsertNodes(f.below, p, x);
        InsertNodes(f.after, p, x);
        assert Nodes(g) == {f.node} + Nodes(g.below) + Nodes(g.after);
      }
    }
  }

  /** The pointers after x was linked in as p's first child. */
  function Linked(links: map<Node, Links>, p: Node, x: Node): map<Node, Links>
    requires p in links
  {
    links[p := Links(x, links[p].next)][x := Links(null, links[p].children)]
  }

  lemma {:induction false} Unmoved(n: Node?, f: Forest, links: map<Node, Links>, p: Node, x: Node)
    requires Draws(n, f, links) && p in links && p !in Nodes(f) && x !in Nodes(f)
    ensures Draws(n, f, Linked(links, p, x)) && Insert(f, p, x) == f
    decreases f
  {
    if f.Tree? {
      Unmoved(links[f.node].children, f.below, links, p, x);
      Unmoved(links[f.node].next, f.after, links, p, x);
    }
  }

  /** Linking x in as p's first child draws the forest with x inserted. */
  lemma {:induction false} Relinked(n: Node?, f: Forest, links: map<Node, Links>, p: Node, x: Node)
    requires Draws(n, f, links) && Apart(f) && x !in Nodes(f) && p in links && p != x
    ensures Draws(n, Insert(f, p, x), Linked(links, p, x))
    decreases f
  {
    if f.Tree? {
      var l := links[f.node];
      if f.node == p {
        Unmoved(l.children, f.below, links, p, x);
        Unmoved(l.next, f.after, links, p, x);
      } else {
        Relinked(l.children, f.below, links, p, x);
        Relinked(l.next, f.after, links, p, x);
      }
    }
  }

  /** A search for any other id finds what it found before. */
  lemma {:induction false} InsertFindsOthers(f: Forest, p: Node, x: Node, id: NodeId)
    requires !Matches(x, id)
    ensures FirstMatch(Preorder(Insert(f, p, x)), id) == FirstMatch(Preorder(f), id)
    decreases f
  {
    if f.Tree? {
      hide FirstMatch, Preorder;
      FirstMatchTree(f.node, f.below, f.after, id);
      if f.node == p {
        FirstMatchTree(f.node, Tree(x, Empty, f.below), f.after, id);
        FirstMatchTree(x, Empty, f.below, id);
        NoMatch(id);
      } else {
        FirstMatchTree(f.node, Insert(f.below, p, x), Insert(f.after, p, x), id);
        InsertFindsOthers(f.below, p, x, id);
        InsertFindsOthers(f.after, p, x, id);
      }
    }
  }

  lemma NoMatch(id: NodeId)
    ensures FirstMatch(Preorder(Empty), id) == null
  {
  }

  /** A search for the new node's numeric id finds it, or a node of the same id that comes first. */
  lemma InsertFindsNew(f: Forest, p: Node, x: Node, id: NodeId)
    requires Apart(f) && x !in Nodes(f) && p in Nodes(f) && Matches(x, id)
    ensures var r := FirstMatch(Preorder(Insert(f, p, x)), id);
            r != null && Matches(r, id) && (FirstMatch(Preorder(f), id) == null ==> r == x)
  {
    InsertNodes(f, p, x);
    var g := Insert(f, p, x);
    InOrder(g, x);
    FirstMatchIs(Preorder(g), id);
    FirstMatchIs(Preorder(f), id);
    var r := FirstMatch(Preorder(g), id);
    InOrder(g, r);
    InOrder(f, r);
  }

  /** The address-space part of opcua_server_t. */
  class Server {
    var rootNode: Node?
    var nodeCount: nat
    ghost var forest: Forest
    ghost var links: map<Node, Links>
    ghost var all: set<Node>  // every node ever added, in the tree or not

    ghost predicate Valid()
      reads this, all
    {
      && Nodes(forest) <= all && all == links.Keys
      && (forall m :: m in all ==> links[m] == Links(m.children, m.next))
      && Draws(rootNode, forest, links) && Apart(forest)
    }

    constructor ()
      ensures Valid() && forest == Empty && all == {} && nodeCount == 0
    {
      rootNode, nodeCount := null, 0;
      forest, links, all := Empty, map[], {};
    }

    /** The new node becomes its parent's first child. */
    method AddChild(node: Node, parent: Node)
      requires Valid() && parent in all && node !in all && node.children == null
      modifies this`forest, this`links, this`all, node`next, parent`children
      ensures Valid() && forest == Insert(old(forest), parent, node) && all == old(all) + {node}
    {
      hide Draws, Insert, Apart, Nodes;
      Relinked(rootNode, forest, links, parent, node);
      InsertNodes(forest, parent, node);
      node.next := parent.children;
      parent.children := node;
      forest, links := Insert(forest, parent, node), Linked(links, parent, node);
      all := all + {node};
    }

    method AddApart(node: Node)
      requires Valid() && node !in all && node.children == null && node.next == null
      modifies this`rootNode, this`forest, this`links, this`all
      ensures Valid() && all == old(all) + {node}
      ensures forest == if old(rootNode) == null then Tree(node, Empty, Empty) else old(forest)
    {
      hide Draws, Apart, Nodes;
      KeepsDrawing(rootNode, forest, links, node);
      links := links[node := Links(null, null)];
      Single(node, links);
      if rootNode == null {
        rootNode := node;
        forest := Tree(node, Empty, Empty);
      }
      all := all + {node};
    }

    /** opcua_add_node. Only the first parentless node is kept; the tree does not reach a later one.
        memory says whether the allocation succeeds. */
    method AddNode(parent: Node?, nodeId: NodeId, memory: bool) returns (added: Node?)
      requires Valid() && (parent == null || parent in all)
      modifies this, if parent != null then {parent} else {}
      ensures Valid() && (added != null <==> memory)
      ensures added == null ==> forest == old(forest) && nodeCount == old(nodeCount) && all == old(all)
      ensures added != null ==>
                && fresh(added) && added.nodeId == nodeId && added.parent == parent
                && nodeCount == old(nodeCount) + 1 && all == old(all) + {added}
                && forest == if parent != null then Insert(old(forest), parent, added)
                             else if old(rootNode) == null then Tree(added, Empty, Empty) else old(forest)
    {
      hide Draws, Apart, Nodes, Insert;
      if !memory {
        return null;
      }
      var node := new Node(nodeId, parent);
      if parent != null {
        AddChild(node, parent);
      } else {
        AddApart(node);
      }
      nodeCount := nodeCount + 1;
      added := node;
    }

    /** opcua_find_node */
    method FindNode(id: NodeId) returns (node: Node?)
      requires Valid()
      ensures node == FirstMatch(Preorder(forest), id)
      ensures node != null <==> exists m :: m in Nodes(forest) && Matches(m, id)
      ensures !id.Numeric? ==> node == null
    {
      node := FindRecursive(rootNode, id, forest, links);
      FirstMatchIs(Preorder(forest), id);
      forall m | m in all ensures m in Preorder(forest) <==> m in Nodes(forest) {
        InOrder(forest, m);
      }
      if node != null { InOrder(forest, node); }
    }
  }

  lemma Single(x: Node, links: map<Node, Links>)
    requires x in links && links[x] == Links(null, null)
    ensures Draws(x, Tree(x, Empty, Empty), links) && Apart(Tree(x, Empty, Empty)) && Nodes(Tree(x, Empty, Empty)) == {x}
  {
  }

  lemma {:induction false} KeepsDrawing(n: Node?, f: Forest, links: map<Node, Links>, x: Node)
    requires Draws(n, f, links) && x !in Nodes(f)
    ensures Draws(n, f, links[x := Links(null, null)])
    decreases f
  {
    if f.Tree? {
      KeepsDrawing(links[f.node].children, f.below, links, x);
      KeepsDrawing(links[f.node].next, f.after, links, x);
    }
  }
}
