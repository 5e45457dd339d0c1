/** The splay tree of picoquic/picosplay.c.

    A tree carries, as ghost state, its nodes in order and the shape of their links. Every
    operation is specified by what it does to the sequence of nodes. */
module SplayTree {
  import opened SplayShape
  import opened SplayDelete
  import opened SplayLinks

  /** What an ordering function must be for the tree to order anything. */
  ghost predicate Preorder<V(!new)>(comp: (V, V) -> int) {
    && (forall a, b :: comp(a, b) < 0 <==> comp(b, a) > 0)
    && (forall a, b, c :: comp(a, b) <= 0 && comp(b, c) <= 0 ==> comp(a, c) <= 0)
  }

  ghost predicate Sorted<V(!new)>(comp: (V, V) -> int, nodes: seq<TreeNode<V>>)
    reads nodes`value
  {
    forall i, j :: 0 <= i < j < |nodes| ==> comp(nodes[i].value, nodes[j].value) <= 0
  }

  /** The first a nodes are not above v, and those from b on are. */
  ghost predicate Splits<V(!new)>(comp: (V, V) -> int, nodes: seq<TreeNode<V>>, v: V, a: int, b: int)
    reads nodes`value
  {
    && 0 <= a <= b <= |nodes|
    && (forall i :: 0 <= i < a ==> comp(v, nodes[i].value) >= 0)
    && (forall i :: b <= i < |nodes| ==> comp(v, nodes[i].value) < 0)
  }

  /** v is below the node at c: the split moves down to c. */
  lemma SplitBelow<V(!new)>(comp: (V, V) -> int, nodes: seq<TreeNode<V>>, v: V, a: int, b: int, c: int)
    requires Preorder(comp) && Sorted(comp, nodes) && Splits(comp, nodes, v, a, b) && a <= c < b
    requires comp(v, nodes[c].value) < 0
    ensures Splits(comp, nodes, v, a, c)
  {
    forall i | c <= i < |nodes| ensures comp(v, nodes[i].value) < 0 {
      if c < i { assert comp(nodes[c].value, nodes[i].value) <= 0; }
    }
  }

  /** v is not below the node at c: the split moves up past c. */
  lemma SplitAbove<V(!new)>(comp: (V, V) -> int, nodes: seq<TreeNode<V>>, v: V, a: int, b: int, c: int)
    requires Preorder(comp) && Sorted(comp, nodes) && Splits(comp, nodes, v, a, b) && a <= c < b
    requires comp(v, nodes[c].value) >= 0
    ensures Splits(comp, nodes, v, c + 1, b)
  {
    forall i | 0 <= i <= c ensures comp(v, nodes[i].value) >= 0 {
      if i < c { assert comp(nodes[i].value, nodes[c].value) <= 0; }
    }
  }

  /** The search stands at node c, or has left the tree below node q, with the places from a
      to b still open. */
  ghost predicate Searching(s: Shape, c: int, a: int, b: int, q: int, onLeft: bool) {
    && Sized(s)
    && if c != -1 then Node(s, c) && a == s.lo[c] <= c < b == s.hi[c]
       else Node(s, q) && a == b == Place(q, onLeft) && (if onLeft then s.left[q] else s.right[q]) == -1
  }

  lemma GoDown(s: Shape, c: int, a: int, b: int, q: int, onLeft: bool)
    requires Tree(s) && Searching(s, c, a, b, q, onLeft) && c != -1
    ensures a <= c < b && Node(s, c)
    ensures Searching(s, s.left[c], a, c, c, true)
    ensures Searching(s, s.right[c], c + 1, b, c, false)
  {
    TreeAround(s, c);
  }

  lemma Links<V>(nodes: seq<TreeNode<V>>, s: Shape, c: int)
    requires Mirror(nodes, s) && 0 <= c < |nodes|
    ensures Linked(nodes, s, c)
  {
  }

  /** One step of the search of picosplay_insert, down from node curr. */
  method SearchStep<V(!new)>(comp: (V, V) -> int, curr: TreeNode<V>, v: V, ghost nodes: seq<TreeNode<V>>,
                             ghost s: Shape, ghost c: int, ghost a: int, ghost b: int)
    returns (next: TreeNode?<V>, onLeft: bool, ghost c': int, ghost a': int, ghost b': int)
    requires Preorder(comp) && Sorted(comp, nodes) && Tree(s) && Mirror(nodes, s)
    requires 0 <= c < |nodes| && curr == nodes[c]
    requires Splits(comp, nodes, v, a, b) && Searching(s, c, a, b, c, false)
    ensures -1 <= c' < |nodes| && next == At(nodes, c') && b' - a' < b - a
    ensures Splits(comp, nodes, v, a', b') && Searching(s, c', a', b', c, onLeft)
  {
    Links(nodes, s, c);
    GoDown(s, c, a, b, c, false);
    hide Preorder, Sorted, Splits, Tree, Mirror, Searching;
    onLeft := comp(v, curr.value) < 0;
    if onLeft {
      SplitBelow(comp, nodes, v, a, b, c);
      next, c', a', b' := curr.left, s.left[c], a, c;
    } else {
      SplitAbove(comp, nodes, v, a, b, c);
      next, c', a', b' := curr.right, s.right[c], c + 1, b;
    }
  }

  /** The search of picosplay_insert: where the new value belongs, after its equals. */
  method Search<V(!new)>(comp: (V, V) -> int, root: TreeNode<V>, v: V,
                         ghost nodes: seq<TreeNode<V>>, ghost s: Shape)
    returns (parent: TreeNode<V>, onLeft: bool, ghost q: int)
    requires Preorder(comp) && Sorted(comp, nodes)
    requires Tree(s) && Mirror(nodes, s) && |nodes| > 0 && root == nodes[s.top]
    ensures 0 <= q < |nodes| && nodes[q] == parent
    ensures (if onLeft then s.left[q] else s.right[q]) == -1
    ensures Splits(comp, nodes, v, Place(q, onLeft), Place(q, onLeft))
  {
    var curr: TreeNode?<V> := root;
    ghost var c, a, b := s.top, 0, |nodes|;
    parent, onLeft, q := root, false, c;
    TreeAround(s, c);
    while curr != null
      invariant -1 <= c < |nodes| && curr == At(nodes, c)
      invariant 0 <= q < |nodes| && nodes[q] == parent
      invariant Splits(comp, nodes, v, a, b) && Searching(s, c, a, b, q, onLeft)
      decreases b - a
    {
      parent, q := curr, c;
      curr, onLeft, c, a, b := SearchStep(comp, curr, v, nodes, s, c, a, b);
    }
  }

  /** A new node at the split keeps the order. */
  lemma InsertSorted<V(!new)>(comp: (V, V) -> int, nodes: seq<TreeNode<V>>, j: int, n: TreeNode<V>)
    requires Preorder(comp) && Sorted(comp, nodes) && Splits(comp, nodes, n.value, j, j)
    ensures Sorted(comp, Insert(nodes, j, n))
  {
    var all := Insert(nodes, j, n);
    forall x, y | 0 <= x < y < |all| ensures comp(all[x].value, all[y].value) <= 0 {
      if x != j { assert all[Up(Down(x, j), j)] == nodes[Down(x, j)]; }
      if y != j { assert all[Up(Down(y, j), j)] == nodes[Down(y, j)]; }
    }
  }

  lemma RemoveSorted<V(!new)>(comp: (V, V) -> int, nodes: seq<TreeNode<V>>, r: int)
    requires Sorted(comp, nodes) && 0 <= r < |nodes|
    ensures Sorted(comp, Remove(nodes, r))
  {
    var rest := Remove(nodes, r);
    forall x, y | 0 <= x < y < |rest| ensures comp(rest[x].value, rest[y].value) <= 0 {
      assert rest[Closed(Opened(x, r), r)] == nodes[Opened(x, r)];
      assert rest[Closed(Opened(y, r), r)] == nodes[Opened(y, r)];
    }
  }

  // ----------------------------------------------------------------------- looking a value up

  /** A node equal to v can only stand between a and b. */
  ghost predicate Between<V(!new)>(comp: (V, V) -> int, nodes: seq<TreeNode<V>>, v: V, a: int, b: int)
    reads nodes`value
  {
    && 0 <= a <= b <= |nodes|
    && (forall i :: 0 <= i < a ==> comp(v, nodes[i].value) > 0)
    && (forall i :: b <= i < |nodes| ==> comp(v, nodes[i].value) < 0)
  }

  lemma BetweenBelow<V(!new)>(comp: (V, V) -> int, nodes: seq<TreeNode<V>>, v: V, a: int, b: int, c: int)
    requires Preorder(comp) && Sorted(comp, nodes) && Between(comp, nodes, v, a, b) && a <= c < b
    requires comp(v, nodes[c].value) < 0
    ensures Between(comp, nodes, v, a, c)
  {
    forall i | c <= i < |nodes| ensures comp(v, nodes[i].value) < 0 {
      if c < i { assert comp(nodes[c].value, nodes[i].value) <= 0; }
    }
  }

  lemma BetweenAbove<V(!new)>(comp: (V, V) -> int, nodes: seq<TreeNode<V>>, v: V, a: int, b: int, c: int)
    requires Preorder(comp) && Sorted(comp, nodes) && Between(comp, nodes, v, a, b) && a <= c < b
    requires comp(v, nodes[c].value) > 0
    ensures Between(comp, nodes, v, c + 1, b)
  {
    forall i | 0 <= i <= c ensures comp(v, nodes[i].value) > 0 {
      if i < c { assert comp(nodes[i].value, nodes[c].value) <= 0; }
      assert comp(nodes[c].value, v) < 0;
    }
  }

  /** One step of the search of picosplay_find. */
  method FindStep<V(!new)>(comp: (V, V) -> int, curr: TreeNode<V>, v: V, ghost nodes: seq<TreeNode<V>>,
                           ghost s: Shape, ghost c: int, ghost a: int, ghost b: int)
    returns (next: TreeNode?<V>, ghost c': int, ghost a': int, ghost b': int, ghost onLeft: bool)
    requires Preorder(comp) && Sorted(comp, nodes) && Tree(s) && Mirror(nodes, s)
    requires 0 <= c < |nodes| && curr == nodes[c] && comp(v, curr.value) != 0
    requires Between(comp, nodes, v, a, b) && Searching(s, c, a, b, c, false)
    ensures -1 <= c' < |nodes| && next == At(nodes, c') && b' - a' < b - a
    ensures Between(comp, nodes, v, a', b') && Searching(s, c', a', b', c, onLeft)
  {
    Links(nodes, s, c);
    GoDown(s, c, a, b, c, false);
    hide Preorder, Sorted, Between, Tree, Mirror, Searching;
    if comp(v, curr.value) < 0 {
      BetweenBelow(comp, nodes, v, a, b, c);
      next, c', a', b', onLeft := curr.left, s.left[c], a, c, true;
    } else {
      BetweenAbove(comp, nodes, v, a, b, c);
      next, c', a', b', onLeft := curr.right, s.right[c], c + 1, b, false;
    }
  }

  /** The search of picosplay_find: a node equal to the value, if there is one. */
  method Lookup<V(!new)>(comp: (V, V) -> int, root: TreeNode?<V>, v: V,
                         ghost nodes: seq<TreeNode<V>>, ghost s: Shape)
    returns (found: TreeNode?<V>, ghost c: int)
    requires Preorder(comp) && Sorted(comp, nodes) && Tree(s) && Mirror(nodes, s)
    requires root == At(nodes, s.top)
    ensures -1 <= c < |nodes| && found == At(nodes, c)
    ensures found != null ==> comp(v, found.value) == 0
    ensures found == null ==> forall i :: 0 <= i < |nodes| ==> comp(v, nodes[i].value) != 0
  {
    found, c := root, s.top;
    ghost var a, b, q, onLeft := 0, |nodes|, s.top, false;
    if c != -1 { TreeAround(s, c); }
    while found != null && comp(v, found.value) != 0
      invariant -1 <= c < |nodes| && found == At(nodes, c)
      invariant Between(comp, nodes, v, a, b)
      invariant if |nodes| == 0 then c == -1 else Searching(s, c, a, b, q, onLeft)
      decreases b - a
    {
      q := c;
      found, c, a, b, onLeft := FindStep(comp, found, v, nodes, s, c, a, b);
    }
  }

  lemma InsertMembers<V>(nodes: seq<TreeNode<V>>, j: int, n: TreeNode<V>)
    requires 0 <= j <= |nodes|
    ensures forall k :: 0 <= k <= |nodes| ==> Insert(nodes, j, n)[k] == n || Insert(nodes, j, n)[k] in nodes
  {
  }

  ghost const LONE := Shape(0, [-1], [-1], [-1], [0], [1])

  /** A tree of one node. */
  lemma Alone<V(!new)>(comp: (V, V) -> int, n: TreeNode<V>)
    requires n.left == null && n.right == null && n.parent == null
    ensures Tree(LONE) && Mirror([n], LONE) && Sorted(comp, [n])
    ensures Splits(comp, [], n.value, 0, 0) && Insert([], 0, n) == [n]
  {
    assert Local(LONE, 0) && Linked([n], LONE, 0);
  }

  /** The new node becomes a leaf of a non-empty tree. */
  method HangBelow<V(!new)>(comp: (V, V) -> int, root: TreeNode<V>, n: TreeNode<V>,
                            ghost nodes: seq<TreeNode<V>>, ghost s: Shape)
    returns (ghost j: int, ghost t: Shape)
    requires Preorder(comp) && Sorted(comp, nodes)
    requires Tree(s) && Mirror(nodes, s) && |nodes| > 0 && root == nodes[s.top]
    requires n !in nodes && n.left == null && n.right == null
    modifies n`parent, nodes`left, nodes`right
    ensures Splits(comp, nodes, n.value, j, j)
    ensures Tree(t) && Mirror(Insert(nodes, j, n), t) && Sorted(comp, Insert(nodes, j, n))
  {
    var parent, onLeft;
    ghost var q;
    hide Tree, Preorder, Sorted;
    parent, onLeft, q := Search(comp, root, n.value, nodes, s);
    j, t := Place(q, onLeft), AddLeaf(s, q, onLeft);
    InsertSorted(comp, nodes, j, n);
    AddLeafTree(s, q, onLeft);
    hide AddLeaf, Insert, Splits;
    AttachLeaf(n, parent, onLeft, nodes, s, q);
  }

  /** The new node becomes a leaf of the tree. */
  method Hang<V(!new)>(comp: (V, V) -> int, root: TreeNode?<V>, n: TreeNode<V>,
                       ghost nodes: seq<TreeNode<V>>, ghost s: Shape)
    returns (ghost j: int, ghost t: Shape)
    requires Preorder(comp) && Sorted(comp, nodes)
    requires Tree(s) && Mirror(nodes, s) && root == At(nodes, s.top)
    requires n !in nodes && n.left == null && n.right == null && n.parent == null
    modifies n`parent, nodes`left, nodes`right
    ensures Splits(comp, nodes, n.value, j, j)
    ensures Tree(t) && Mirror(Insert(nodes, j, n), t) && Sorted(comp, Insert(nodes, j, n))
  {
    if root == null {
      assert nodes == [];
      Alone(comp, n);
      j, t := 0, LONE;
    } else {
      j, t := HangBelow(comp, root, n, nodes, s);
    }
  }

  /** The shape without its top. */
  ghost function WithoutTop(s: Shape): Shape
    requires Tree(s) && |s.left| > 0
  {
    if s.left[s.top] == -1 || s.right[s.top] == -1 then RemoveThin(s)
    else
      ThickTree(s);
      RemoveThick(s)
  }

  lemma WithoutTopTree(s: Shape)
    requires Tree(s) && |s.left| > 0
    ensures Tree(WithoutTop(s)) && |WithoutTop(s).left| == |s.left| - 1
  {
    if s.left[s.top] == -1 || s.right[s.top] == -1 {
      ThinTree(s);
    } else {
      ThickTree(s);
    }
  }

  /** The second half of picosplay_delete_hint: the root is taken out. */
  method Detach<V>(node: TreeNode<V>, ghost nodes: seq<TreeNode<V>>, ghost s: Shape)
    returns (root: TreeNode?<V>)
    requires Tree(s) && Mirror(nodes, s) && |nodes| > 0 && nodes[s.top] == node
    modifies nodes`parent, nodes`left, nodes`right
    ensures Tree(WithoutTop(s)) && Mirror(Remove(nodes, s.top), WithoutTop(s))
    ensures root == At(Remove(nodes, s.top), WithoutTop(s).top)
  {
    WithoutTopTree(s);
    assert Linked(nodes, s, s.top);
    if node.left == null || node.right == null {
      root := DetachThin(node, nodes, s);
    } else {
      ThickTop(s);
      root := DetachThick(node, nodes, s);
    }
  }

  lemma RemoveMembers<V>(nodes: seq<TreeNode<V>>, r: int)
    requires 0 <= r < |nodes|
    ensures forall k :: 0 <= k < |nodes| - 1 ==> Remove(nodes, r)[k] in nodes
  {
  }

  /** The climb of picosplay_next: node c ends where place k ends, and moves up. */
  lemma ClimbsTo(s: Shape, k: int, c: int)
    requires Tree(s) && Node(s, k) && Node(s, c) && s.hi[c] == k + 1
    ensures s.parent[c] == -1 ==> k + 1 == |s.left|
    ensures s.parent[c] != -1 ==> Node(s, s.parent[c])
    ensures s.parent[c] != -1 && s.right[s.parent[c]] == c ==>
              s.hi[s.parent[c]] == k + 1 && s.parent[c] < c
    ensures s.parent[c] != -1 && s.right[s.parent[c]] != c ==> s.parent[c] == k + 1
  {
    TreeAround(s, c);
    TreeAround(s, s.top);
  }

  /** What the climb reads at node c. */
  lemma ClimbLinks<V>(nodes: seq<TreeNode<V>>, s: Shape, c: int)
    requires Mirror(nodes, s) && 0 <= c < |nodes|
    ensures -1 <= s.parent[c] < |nodes| && nodes[c].parent == At(nodes, s.parent[c])
    ensures s.parent[c] != -1 ==>
              (nodes[s.parent[c]].right == nodes[c] <==> s.right[s.parent[c]] == c)
  {
    Links(nodes, s, c);
    if s.parent[c] != -1 { Links(nodes, s, s.parent[c]); }
  }

  method Climb<V>(node: TreeNode<V>, ghost nodes: seq<TreeNode<V>>, ghost s: Shape, ghost k: int)
    returns (next: TreeNode?<V>)
    requires Tree(s) && Mirror(nodes, s) && 0 <= k < |nodes| && nodes[k] == node && s.hi[k] == k + 1
    ensures next == if k + 1 < |nodes| then nodes[k + 1] else null
  {
    ghost var c := k;
    var curr := node;
    hide Tree;
    ClimbLinks(nodes, s, c);
    while curr.parent != null && curr == curr.parent.right
      invariant 0 <= c < |nodes| && nodes[c] == curr && s.hi[c] == k + 1
      decreases c
    {
      ClimbLinks(nodes, s, c);
      ClimbsTo(s, k, c);
      c, curr := s.parent[c], curr.parent;
    }
    ClimbLinks(nodes, s, c);
    ClimbsTo(s, k, c);
    next := curr.parent;
  }

  /** picosplay_next: the node after the given one, or NULL after the last. */
  method Next<V>(node: TreeNode<V>, ghost nodes: seq<TreeNode<V>>, ghost s: Shape, ghost k: int)
    returns (next: TreeNode?<V>)
    requires Tree(s) && Mirror(nodes, s) && 0 <= k < |nodes| && nodes[k] == node
    ensures next == if k + 1 < |nodes| then nodes[k + 1] else null
  {
    assert Linked(nodes, s, k);
    TreeAround(s, k);
    hide Tree, Mirror;
    if node.right != null {
      next := Leftmost(node.right, nodes, s, s.right[k]);
    } else {
      next := Climb(node, nodes, s, k);
    }
  }

  class OrderedTree<V(!new)> {
    const comp: (V, V) -> int
    var root: TreeNode?<V>
    var size: int
    ghost var nodes: seq<TreeNode<V>>
    ghost var shape: Shape

    ghost predicate Valid()
      reads this, nodes
    {
      && Tree(shape) && Mirror(nodes, shape) && root == At(nodes, shape.top)
      && size == |nodes| && Preorder(comp) && Sorted(comp, nodes)
    }

    /** picosplay_init_tree. */
    constructor (comp: (V, V) -> int)
      requires Preorder(comp)
      ensures Valid() && nodes == [] && this.comp == comp
    {
      this.comp := comp;
      root, size := null, 0;
      nodes, shape := [], Shape(-1, [], [], [], [], []);
    }

    method Splay(x: TreeNode<V>, ghost k: int)
      requires Tree(shape) && Mirror(nodes, shape) && 0 <= k < |nodes| && nodes[k] == x
      modifies `root, `shape, nodes`parent, nodes`left, nodes`right
      ensures Tree(shape) && Mirror(nodes, shape) && root == x && shape.top == k
      ensures shape == SplayShape.Splay(old(shape), k)
    {
      SplayKeepsTree(shape, k);
      SplayUp(x, nodes, shape, k);
      shape := SplayShape.Splay(shape, k);
      root := x;
    }

    /** The new node is linked in as a leaf. */
    method Hook(n: TreeNode<V>) returns (ghost j: int)
      requires Valid() && n !in nodes && n.left == null && n.right == null && n.parent == null
      modifies `nodes, `shape, n`parent, nodes`left, nodes`right
      ensures Tree(shape) && Mirror(nodes, shape) && Sorted(comp, nodes) && 0 <= j <= |old(nodes)|
      ensures Splits(comp, old(nodes), n.value, j, j) && nodes == Insert(old(nodes), j, n)
    {
      hide Tree, Mirror, Sorted, Preorder, Insert, At;
      ghost var t;
      j, t := Hang(comp, root, n, nodes, shape);
      nodes, shape := Insert(nodes, j, n), t;
    }

    /** picosplay_insert: the new node stands after all nodes not above it, and at the root. */
    method Add(v: V) returns (n: TreeNode<V>, ghost j: int)
      requires Valid()
      modifies this, nodes`parent, nodes`left, nodes`right
      ensures Valid() && root == n && fresh(n) && n.value == v
      ensures Splits(comp, old(nodes), v, j, j) && nodes == Insert(old(nodes), j, n)
    {
      hide Tree, Mirror, Sorted, Splits, Preorder, Insert;
      n := new TreeNode(v);
      j := Hook(n);
      InsertMembers(old(nodes), j, n);
      Splay(n, j);
      size := size + 1;
    }

    /** picosplay_find: a node equal to the value comes to the root; none is found only when
        there is none. */
    method Find(v: V) returns (found: TreeNode?<V>)
      requires Valid()
      modifies `root, `shape, nodes`parent, nodes`left, nodes`right
      ensures Valid()
      ensures found != null ==> found in nodes && root == found && comp(v, found.value) == 0
      ensures found == null ==> root == old(root) && shape == old(shape)
      ensures found == null <==> forall i :: 0 <= i < |nodes| ==> comp(v, nodes[i].value) != 0
    {
      hide Tree, Mirror, Sorted, Preorder;
      ghost var k;
      found, k := Lookup(comp, root, v, nodes, shape);
      if found != null {
        Splay(found, k);
      }
    }

    /** picosplay_delete_hint: the node leaves the sequence, the others keep their order. */
    method DeleteHint(node: TreeNode?<V>) returns (ghost k: int)
      requires Valid() && (node != null ==> node in nodes)
      modifies this, nodes`parent, nodes`left, nodes`right
      ensures Valid() && -1 <= k < |old(nodes)| && node == At(old(nodes), k)
      ensures nodes == if node == null then old(nodes) else Remove(old(nodes), k)
    {
      hide Tree, Mirror, Sorted, Preorder, Remove, WithoutTop;
      if node == null {
        return -1;
      }
      k :| 0 <= k < |nodes| && nodes[k] == node;
      RemoveSorted(comp, nodes, k);
      RemoveMembers(nodes, k);
      Splay(node, k);
      root := Detach(node, nodes, shape);
      nodes, shape := Remove(nodes, k), WithoutTop(shape);
      size := size - 1;
    }

    /** picosplay_delete: one node equal to the value leaves the sequence, if there is one. */
    method Delete(v: V) returns (ghost k: int)
      requires Valid()
      modifies this, nodes`parent, nodes`left, nodes`right
      ensures Valid() && -1 <= k < |old(nodes)|
      ensures k == -1 <==> forall i :: 0 <= i < |old(nodes)| ==> comp(v, old(nodes[i].value)) != 0
      ensures k == -1 ==> nodes == old(nodes)
      ensures k != -1 ==> comp(v, old(nodes[k].value)) == 0 && nodes == Remove(old(nodes), k)
    {
      hide Tree, Mirror, Sorted, Preorder, Remove;
      var node := Find(v);
      k := DeleteHint(node);
    }

    /** picosplay_first. */
    method First() returns (first: TreeNode?<V>)
      requires Valid()
      ensures first == if |nodes| == 0 then null else nodes[0]
    {
      first := Leftmost(root, nodes, shape, shape.top);
    }

    /** picosplay_empty_tree: deletes roots until there is none. */
    method Empty()
      requires Valid()
      modifies this, nodes`parent, nodes`left, nodes`right
      ensures Valid() && nodes == [] && root == null && size == 0
    {
      while root != null
        invariant Valid() && forall i :: 0 <= i < |nodes| ==> nodes[i] in old(nodes)
        decreases |nodes|
      {
        ghost var before := nodes;
        ghost var k := DeleteHint(root);
        RemoveMembers(before, k);
      }
    }
  }
}
