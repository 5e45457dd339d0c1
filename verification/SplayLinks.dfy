/** The linked nodes of the splay tree of picoquic/picosplay.c.

    Each routine is proved against its effect on the shape of the links (SplayShape). */
module SplayLinks {
  import opened SplayShape
  import opened SplayDelete

  class TreeNode<V> {
    var parent: TreeNode?<V>
    var left: TreeNode?<V>
    var right: TreeNode?<V>
    var value: V

    constructor (v: V)
      ensures value == v && left == null && right == null && parent == null
    {
      value, left, right, parent := v, null, null, null;
    }
  }

  ghost function At<V>(nodes: seq<TreeNode<V>>, k: int): TreeNode?<V>
    requires -1 <= k < |nodes|
  {
    if k == -1 then null else nodes[k]
  }

  ghost predicate Linked<V>(nodes: seq<TreeNode<V>>, s: Shape, k: int)
    requires Sized(s) && |nodes| == |s.left| && 0 <= k < |nodes|
    reads nodes[k]
  {
    && -1 <= s.left[k] < |nodes| && nodes[k].left == At(nodes, s.left[k])
    && -1 <= s.right[k] < |nodes| && nodes[k].right == At(nodes, s.right[k])
    && -1 <= s.parent[k] < |nodes| && nodes[k].parent == At(nodes, s.parent[k])
  }

  ghost predicate Distinct<V>(nodes: seq<TreeNode<V>>) {
    forall i, j :: 0 <= i < j < |nodes| ==> nodes[i] != nodes[j]
  }

  /** The links of the nodes are those of the shape. */
  ghost predicate Mirror<V>(nodes: seq<TreeNode<V>>, s: Shape)
    reads nodes
  {
    && Sized(s) && |nodes| == |s.left| && Distinct(nodes)
    && forall k :: 0 <= k < |nodes| ==> Linked(nodes, s, k)
  }

  method SetLeft<V>(n: TreeNode<V>, m: TreeNode?<V>, ghost nodes: seq<TreeNode<V>>, ghost s: Shape,
                    ghost k: int, ghost j: int)
    requires Mirror(nodes, s) && 0 <= k < |nodes| && nodes[k] == n
    requires -1 <= j < |nodes| && m == At(nodes, j)
    modifies n`left
    ensures Mirror(nodes, s.(left := s.left[k := j]))
  {
    n.left := m;
    ghost var t := s.(left := s.left[k := j]);
    forall i | 0 <= i < |nodes| ensures Linked(nodes, t, i) {
      assert old(Linked(nodes, s, i));
    }
  }

  method SetRight<V>(n: TreeNode<V>, m: TreeNode?<V>, ghost nodes: seq<TreeNode<V>>, ghost s: Shape,
                     ghost k: int, ghost j: int)
    requires Mirror(nodes, s) && 0 <= k < |nodes| && nodes[k] == n
    requires -1 <= j < |nodes| && m == At(nodes, j)
    modifies n`right
    ensures Mirror(nodes, s.(right := s.right[k := j]))
  {
    n.right := m;
    ghost var t := s.(right := s.right[k := j]);
    forall i | 0 <= i < |nodes| ensures Linked(nodes, t, i) {
      assert old(Linked(nodes, s, i));
    }
  }

  method SetParent<V>(n: TreeNode<V>, m: TreeNode?<V>, ghost nodes: seq<TreeNode<V>>, ghost s: Shape,
                      ghost k: int, ghost j: int)
    requires Mirror(nodes, s) && 0 <= k < |nodes| && nodes[k] == n
    requires -1 <= j < |nodes| && m == At(nodes, j)
    modifies n`parent
    ensures Mirror(nodes, s.(parent := s.parent[k := j]))
  {
    n.parent := m;
    ghost var t := s.(parent := s.parent[k := j]);
    forall i | 0 <= i < |nodes| ensures Linked(nodes, t, i) {
      assert old(Linked(nodes, s, i));
    }
  }

  /** The mirror is about links only. */
  lemma SameLinks<V>(nodes: seq<TreeNode<V>>, s: Shape, t: Shape)
    requires Mirror(nodes, s) && Sized(t)
    requires t.left == s.left && t.right == s.right && t.parent == s.parent
    ensures Mirror(nodes, t)
  {
    forall k | 0 <= k < |nodes| ensures Linked(nodes, t, k) {
      assert Linked(nodes, s, k);
    }
  }

  /** mark_gp, on shapes. */
  ghost function Marked(s: Shape, x: int): Shape
    requires CanLift(s, x)
  {
    var p := s.parent[x];
    var g := s.parent[p];
    s.(left := Adopt(s.left, g, p, x), right := Adopt(s.right, g, p, x),
       parent := s.parent[x := g][p := x])
  }

  /** mark_gp: the child moves up to its grandparent. */
  method MarkGrandparent<V>(child: TreeNode<V>, ghost nodes: seq<TreeNode<V>>, ghost s: Shape, ghost x: int)
    requires Mirror(nodes, s) && CanLift(s, x) && nodes[x] == child
    requires ParentOk(s, s.parent[x])
    requires s.parent[s.parent[x]] != -1 ==>
               s.left[s.parent[s.parent[x]]] != s.right[s.parent[s.parent[x]]]
    modifies nodes`parent, nodes`left, nodes`right
    ensures Mirror(nodes, Marked(s, x))
  {
    ghost var p := s.parent[x];
    ghost var g := s.parent[p];
    assert Linked(nodes, s, x) && Linked(nodes, s, p);
    assert g != -1 ==> Linked(nodes, s, g);
    var parent := child.parent;
    var grand := parent.parent;
    SetParent(child, grand, nodes, s, x, g);
    ghost var t := s.(parent := s.parent[x := g]);
    SetParent(parent, child, nodes, t, p, x);
    t := t.(parent := t.parent[p := x]);
    if grand == null {
      assert g == -1;
      SameLinks(nodes, t, Marked(s, x));
      return;
    }
    if grand.left == parent {
      SetLeft(grand, child, nodes, t, g, x);
      t := t.(left := t.left[g := x]);
    } else {
      SetRight(grand, child, nodes, t, g, x);
      t := t.(right := t.right[g := x]);
    }
    SameLinks(nodes, t, Marked(s, x));
  }

  /** The preconditions of a rotation, from the tree. */
  lemma RotationOk(s: Shape, x: int)
    requires Tree(s) && Node(s, x) && s.parent[x] != -1
    ensures CanLift(s, x) && ParentOk(s, s.parent[x])
    ensures s.left[s.parent[x]] == x || s.right[s.parent[x]] == x
    ensures s.parent[s.parent[x]] != -1 ==>
              s.left[s.parent[s.parent[x]]] != s.right[s.parent[s.parent[x]]]
  {
    Liftable(s, x);
    TreeAround(s, s.parent[x]);
  }

  /** The parent of a left child takes over the child's right subtree and goes below it. */
  method HandRight<V>(child: TreeNode<V>, parent: TreeNode<V>, ghost nodes: seq<TreeNode<V>>,
                      ghost s: Shape, ghost x: int, ghost p: int)
    requires Mirror(nodes, s) && Node(s, x) && Node(s, p) && nodes[x] == child && nodes[p] == parent
    modifies nodes`parent, nodes`left, nodes`right
    ensures -1 <= s.right[x] < |nodes|
    ensures Mirror(nodes, s.(left := s.left[p := s.right[x]], right := s.right[x := p],
                             parent := Put(s.parent, s.right[x], p)))
  {
    assert Linked(nodes, s, x);
    var inner := child.right;
    SetLeft(parent, inner, nodes, s, p, s.right[x]);
    ghost var t := s.(left := s.left[p := s.right[x]]);
    if inner != null {
      SetParent(inner, parent, nodes, t, t.right[x], p);
      t := t.(parent := t.parent[t.right[x] := p]);
    }
    SetRight(child, parent, nodes, t, x, p);
  }

  /** The parent of a right child takes over the child's left subtree and goes below it. */
  method HandLeft<V>(child: TreeNode<V>, parent: TreeNode<V>, ghost nodes: seq<TreeNode<V>>,
                     ghost s: Shape, ghost x: int, ghost p: int)
    requires Mirror(nodes, s) && Node(s, x) && Node(s, p) && nodes[x] == child && nodes[p] == parent
    modifies nodes`parent, nodes`left, nodes`right
    ensures -1 <= s.left[x] < |nodes|
    ensures Mirror(nodes, s.(right := s.right[p := s.left[x]], left := s.left[x := p],
                             parent := Put(s.parent, s.left[x], p)))
  {
    assert Linked(nodes, s, x);
    var inner := child.left;
    SetRight(parent, inner, nodes, s, p, s.left[x]);
    ghost var t := s.(right := s.right[p := s.left[x]]);
    if inner != null {
      SetParent(inner, parent, nodes, t, t.left[x], p);
      t := t.(parent := t.parent[t.left[x] := p]);
    }
    SetLeft(child, parent, nodes, t, x, p);
  }

  /** rotate: the child takes its parent's place. */
  method Rotate<V>(child: TreeNode<V>, ghost nodes: seq<TreeNode<V>>, ghost s: Shape, ghost x: int)
    requires Mirror(nodes, s) && Tree(s) && Node(s, x) && s.parent[x] != -1 && nodes[x] == child
    modifies nodes`parent, nodes`left, nodes`right
    ensures CanLift(s, x) && Mirror(nodes, SplayShape.Rotate(s, x))
  {
    RotationOk(s, x);
    hide Tree;
    ghost var p := s.parent[x];
    assert Linked(nodes, s, x) && Linked(nodes, s, p);
    var parent := child.parent;
    var onLeft := parent.left == child;
    MarkGrandparent(child, nodes, s, x);
    ghost var t := SplayShape.Rotate(s, x);
    ghost var m := Marked(s, x);
    hide Mirror, ParentOk;
    if onLeft {
      HandRight(child, parent, nodes, m, x, p);
      SameLinks(nodes, m.(left := m.left[p := m.right[x]], right := m.right[x := p],
                          parent := Put(m.parent, m.right[x], p)), t);
    } else {
      HandLeft(child, parent, nodes, m, x, p);
      SameLinks(nodes, m.(right := m.right[p := m.left[x]], left := m.left[x := p],
                          parent := Put(m.parent, m.left[x], p)), t);
    }
  }

  /** zig, zigzig or zigzag: one turn of the loop of splay. */
  method SplayTurn<V>(x: TreeNode<V>, ghost nodes: seq<TreeNode<V>>, ghost s: Shape, ghost k: int)
    requires Mirror(nodes, s) && Tree(s) && Node(s, k) && s.parent[k] != -1 && nodes[k] == x
    modifies nodes`parent, nodes`left, nodes`right
    ensures Mirror(nodes, SplayStep(s, k))
  {
    ghost var p := s.parent[k];
    RotateTree(s, k);
    assert Linked(nodes, s, k) && Linked(nodes, s, p);
    ghost var g := s.parent[p];
    assert g != -1 ==> Linked(nodes, s, g);
    var parent := x.parent;
    var grand := parent.parent;
    if grand == null {
      Rotate(x, nodes, s, k);
    } else if (x == parent.left && parent == grand.left) || (x == parent.right && parent == grand.right) {
      assert SameSide(s, k, p, g);
      RotateTree(s, p);
      Liftable(s, p);
      LiftParentFirst(s, k, p);
      hide Tree, SplayShape.Rotate;
      Rotate(parent, nodes, s, p);
      Rotate(x, nodes, SplayShape.Rotate(s, p), k);
    } else {
      assert !SameSide(s, k, p, g);
      hide Tree, SplayShape.Rotate;
      Rotate(x, nodes, s, k);
      Rotate(x, nodes, SplayShape.Rotate(s, k), k);
    }
  }

  /** splay, without the update of the root: the node is lifted until it has no parent. */
  method SplayUp<V>(x: TreeNode<V>, ghost nodes: seq<TreeNode<V>>, ghost s: Shape, ghost k: int)
    requires Mirror(nodes, s) && Tree(s) && Node(s, k) && nodes[k] == x
    modifies nodes`parent, nodes`left, nodes`right
    ensures Mirror(nodes, Splay(s, k))
  {
    ghost var t := s;
    assert Linked(nodes, s, k);
    hide SplayStep;
    while x.parent != null
      invariant |t.left| == |nodes| && Tree(t) && Mirror(nodes, t) && Splay(t, k) == Splay(s, k)
      invariant Linked(nodes, t, k)
      decreases |nodes| - (t.hi[k] - t.lo[k])
    {
      SplayStepTree(t, k);
      Within(t, k);
      SplayTurn(x, nodes, t, k);
      t := SplayStep(t, k);
      assert Linked(nodes, t, k);
    }
  }

  // ------------------------------------------------------------------------------ a new leaf

  function Insert<T>(q: seq<T>, j: int, x: T): (r: seq<T>)
    requires 0 <= j <= |q|
    ensures |r| == |q| + 1 && r[j] == x
    ensures forall k :: 0 <= k < |q| ==> r[Up(k, j)] == q[k]
  {
    q[..j] + [x] + q[j..]
  }

  lemma InsertDistinct<V>(nodes: seq<TreeNode<V>>, j: int, n: TreeNode<V>)
    requires Distinct(nodes) && n !in nodes && 0 <= j <= |nodes|
    ensures Distinct(Insert(nodes, j, n))
  {
    var all := Insert(nodes, j, n);
    forall a, b | 0 <= a < b < |all| ensures all[a] != all[b] {
      if a != j { assert all[Up(Down(a, j), j)] == nodes[Down(a, j)]; }
      if b != j { assert all[Up(Down(b, j), j)] == nodes[Down(b, j)]; }
    }
  }

  lemma AtUp<V>(nodes: seq<TreeNode<V>>, j: int, n: TreeNode<V>, k: int)
    requires 0 <= j <= |nodes| && -1 <= k < |nodes|
    ensures At(Insert(nodes, j, n), Up(k, j)) == At(nodes, k)
  {
  }

  /** The links of old node o once n hangs below node q. */
  ghost predicate Attached<V>(nodes: seq<TreeNode<V>>, s: Shape, q: int, onLeft: bool, o: int, n: TreeNode<V>)
    requires Sized(s) && |nodes| == |s.left| && Node(s, o)
    reads nodes[o]
  {
    && -1 <= s.left[o] < |nodes| && -1 <= s.right[o] < |nodes| && -1 <= s.parent[o] < |nodes|
    && nodes[o].left == (if onLeft && o == q then n else At(nodes, s.left[o]))
    && nodes[o].right == (if !onLeft && o == q then n else At(nodes, s.right[o]))
    && nodes[o].parent == At(nodes, s.parent[o])
  }

  /** The links of an old node, seen from the longer sequence. */
  lemma LinkedUp<V>(nodes: seq<TreeNode<V>>, s: Shape, t: Shape, q: int, onLeft: bool, o: int, n: TreeNode<V>)
    requires Sized(s) && |nodes| == |s.left| && Node(s, q) && Node(s, o)
    requires Sized(t) && |t.left| == |s.left| + 1 && Moved(s, t, q, onLeft, o)
    requires Attached(nodes, s, q, onLeft, o, n)
    ensures Linked(Insert(nodes, Place(q, onLeft), n), t, Up(o, Place(q, onLeft)))
  {
    var j := Place(q, onLeft);
    AtUp(nodes, j, n, s.left[o]);
    AtUp(nodes, j, n, s.right[o]);
    AtUp(nodes, j, n, s.parent[o]);
  }

  lemma NewLinked<V>(nodes: seq<TreeNode<V>>, s: Shape, t: Shape, q: int, onLeft: bool, n: TreeNode<V>)
    requires Sized(s) && |nodes| == |s.left| && Grown(s, t, q, onLeft)
    requires n.left == null && n.right == null && n.parent == nodes[q]
    ensures Linked(Insert(nodes, Place(q, onLeft), n), t, Place(q, onLeft))
  {
    AtUp(nodes, Place(q, onLeft), n, q);
  }

  lemma GrownLinked<V>(nodes: seq<TreeNode<V>>, s: Shape, q: int, onLeft: bool, n: TreeNode<V>, k: int)
    requires Tree(s) && |nodes| == |s.left| && Node(s, q) && 0 <= k <= |nodes|
    requires (if onLeft then s.left[q] else s.right[q]) == -1
    requires n.left == null && n.right == null && n.parent == nodes[q]
    requires Node(s, Down(k, Place(q, onLeft))) ==>
               Attached(nodes, s, q, onLeft, Down(k, Place(q, onLeft)), n)
    ensures Grown(s, AddLeaf(s, q, onLeft), q, onLeft)
    ensures Linked(Insert(nodes, Place(q, onLeft), n), AddLeaf(s, q, onLeft), k)
  {
    hide AddLeaf, Attached, Linked, Insert, Moved, LeafAt, Local, TopOk;
    var t, j := AddLeaf(s, q, onLeft), Place(q, onLeft);
    NewLeaf(s, q, onLeft);
    NewLinked(nodes, s, t, q, onLeft, n);
    if k != j {
      Within(s, Down(k, j));
      OldMoved(s, q, onLeft, Down(k, j));
      LinkedUp(nodes, s, t, q, onLeft, Down(k, j), n);
    }
  }

  /** The new node becomes a child of the last node of the search. */
  method AttachLeaf<V>(n: TreeNode<V>, parent: TreeNode<V>, onLeft: bool,
                       ghost nodes: seq<TreeNode<V>>, ghost s: Shape, ghost q: int)
    requires Tree(s) && Mirror(nodes, s) && Node(s, q) && nodes[q] == parent && n !in nodes
    requires (if onLeft then s.left[q] else s.right[q]) == -1 && n.left == null && n.right == null
    modifies n`parent, parent`left, parent`right
    ensures Mirror(Insert(nodes, Place(q, onLeft), n), AddLeaf(s, q, onLeft))
  {
    n.parent := parent;
    if onLeft {
      parent.left := n;
    } else {
      parent.right := n;
    }
    forall o | Node(s, o) ensures Attached(nodes, s, q, onLeft, o, n) {
      assert old(Linked(nodes, s, o));
    }
    ghost var all, t := Insert(nodes, Place(q, onLeft), n), AddLeaf(s, q, onLeft);
    InsertDistinct(nodes, Place(q, onLeft), n);
    NewLeaf(s, q, onLeft);
    hide AddLeaf, Insert, Linked, Attached, Tree, Distinct, LeafAt;
    forall k | 0 <= k < |all| ensures Linked(all, t, k) {
      GrownLinked(nodes, s, q, onLeft, n, k);
    }
  }

  // --------------------------------------------------------------------------- taking a node out

  function Remove<T>(q: seq<T>, r: int): (p: seq<T>)
    requires 0 <= r < |q|
    ensures |p| == |q| - 1
    ensures forall k :: 0 <= k < |q| && k != r ==> p[Closed(k, r)] == q[k]
  {
    q[..r] + q[r + 1..]
  }

  lemma RemoveDistinct<V>(nodes: seq<TreeNode<V>>, r: int)
    requires Distinct(nodes) && 0 <= r < |nodes|
    ensures Distinct(Remove(nodes, r))
  {
    var rest := Remove(nodes, r);
    forall a, b | 0 <= a < b < |rest| ensures rest[a] != rest[b] {
      assert rest[Closed(Opened(a, r), r)] == nodes[Opened(a, r)];
      assert rest[Closed(Opened(b, r), r)] == nodes[Opened(b, r)];
    }
  }

  /** Node o keeps its links, which no longer lead to the node at place r. */
  ghost predicate Carries(u: Shape, t: Shape, r: int, o: int)
    requires Sized(u) && Node(u, r) && Node(u, o) && o != r && Sized(t) && |t.left| == |u.left| - 1
  {
    && u.left[o] != r && t.left[Closed(o, r)] == Closed(u.left[o], r)
    && u.right[o] != r && t.right[Closed(o, r)] == Closed(u.right[o], r)
    && u.parent[o] != r && t.parent[Closed(o, r)] == Closed(u.parent[o], r)
  }

  lemma CloseMirror<V>(nodes: seq<TreeNode<V>>, u: Shape, t: Shape, r: int)
    requires Mirror(nodes, u) && Node(u, r) && Sized(t) && |t.left| == |u.left| - 1
    requires forall o :: Node(u, o) && o != r ==> Carries(u, t, r, o)
    ensures Mirror(Remove(nodes, r), t)
  {
    RemoveDistinct(nodes, r);
    var rest := Remove(nodes, r);
    hide Remove;
    forall k | 0 <= k < |rest| ensures Linked(rest, t, k) {
      var o := Opened(k, r);
      assert Closed(o, r) == k && Linked(nodes, u, o) && Carries(u, t, r, o);
    }
  }

  /** The links once the top's only child has no parent. */
  ghost function UnlinkedThin(s: Shape): Shape
    requires Sized(s) && Node(s, s.top) && -1 <= Only(s) < |s.left|
  {
    s.(parent := Put(s.parent, Only(s), -1))
  }

  lemma ThinCarries(s: Shape, o: int)
    requires Tree(s) && |s.left| > 0 && AtEnd(s) && Old(s, o)
    ensures Shrunk(s, RemoveThin(s)) && Carries(UnlinkedThin(s), RemoveThin(s), s.top, o)
  {
    TreeAround(s, o);
    NotTop(s, o);
    ThinKept(s, o);
    hide RemoveThin, Tree;
  }

  /** The links once the successor has taken the top's place. */
  ghost function UnlinkedThick(s: Shape): (u: Shape)
    requires Sized(s) && Node(s, s.top) && Successor(s)
    ensures Sized(u) && |u.left| == |s.left|
  {
    var r, x := s.top, s.top + 1;
    var p, y := s.parent[x], s.right[x];
    if p == r then
      s.(left := s.left[x := s.left[r]], parent := s.parent[x := -1][s.left[r] := x])
    else
      s.(left := s.left[p := y][x := s.left[r]], right := s.right[x := s.right[r]],
         parent := Put(s.parent, y, p)[s.right[r] := x][x := -1][s.left[r] := x])
  }

  lemma UnlinkedAt(s: Shape, o: int)
    requires Sized(s) && Node(s, s.top) && Successor(s) && Old(s, o) && o != s.top + 1
    ensures var u, r, x := UnlinkedThick(s), s.top, s.top + 1;
            && u.left[o] == (if o == s.parent[x] then s.right[x] else s.left[o])
            && u.right[o] == s.right[o]
            && u.parent[o] == (if o == s.left[r] || o == s.right[r] then x
                               else if o == s.right[x] then
                                 (if s.right[r] == x then x else s.parent[x])
                               else s.parent[o])
  {
  }

  lemma KeptCarries(s: Shape, t: Shape, o: int)
    requires Shrunk(s, t) && Successor(s) && Old(s, o) && o != s.top + 1 && KeptThick(s, t, o)
    requires LeftOk(s, o) && RightOk(s, o) && ParentOk(s, o)
    requires s.left[o] != s.top && s.right[o] != s.top
    ensures Carries(UnlinkedThick(s), t, s.top, o)
  {
    UnlinkedAt(s, o);
    hide UnlinkedThick;
  }

  lemma TopCarries(s: Shape, t: Shape)
    requires Shrunk(s, t) && Successor(s) && NewTop(s, t)
    ensures Carries(UnlinkedThick(s), t, s.top, s.top + 1)
  {
  }

  lemma OldCarries(s: Shape, o: int)
    requires Tree(s) && |s.left| > 0 && Successor(s) && Old(s, o) && o != s.top + 1
    ensures Shrunk(s, RemoveThick(s)) && Carries(UnlinkedThick(s), RemoveThick(s), s.top, o)
  {
    TreeAround(s, o);
    NotTop(s, o);
    hide RemoveThick, Tree, UnlinkedThick, Carries, KeptThick;
    ThickKept(s, o);
    KeptCarries(s, RemoveThick(s), o);
  }

  lemma ThickCarries(s: Shape, o: int)
    requires Tree(s) && |s.left| > 0 && Successor(s) && Old(s, o)
    ensures Shrunk(s, RemoveThick(s)) && Carries(UnlinkedThick(s), RemoveThick(s), s.top, o)
  {
    if o == s.top + 1 {
      ThickTop(s);
      hide RemoveThick, Tree, UnlinkedThick, Carries, Successor, NewTop;
      TopCarries(s, RemoveThick(s));
    } else {
      hide RemoveThick, Tree, UnlinkedThick, Carries, Successor;
      OldCarries(s, o);
    }
  }

  /** leftmost: the first node of a subtree. */
  method Leftmost<V>(node: TreeNode?<V>, ghost nodes: seq<TreeNode<V>>, ghost s: Shape, ghost k: int)
    returns (first: TreeNode?<V>)
    requires Tree(s) && Mirror(nodes, s) && -1 <= k < |nodes| && node == At(nodes, k)
    ensures k == -1 ==> first == null
    ensures k != -1 ==> 0 <= s.lo[k] < |nodes| && first == nodes[s.lo[k]]
  {
    first := null;
    var cur := node;
    ghost var c, last := k, -1;
    while cur != null
      invariant -1 <= c < |nodes| && cur == At(nodes, c) && -1 <= last < |nodes| && first == At(nodes, last)
      invariant k == -1 ==> c == -1 && last == -1
      invariant k != -1 && c != -1 ==> s.lo[c] == s.lo[k]
      invariant k != -1 && c == -1 ==> last != -1 && s.lo[k] == last
      decreases c
    {
      assert Linked(nodes, s, c);
      TreeAround(s, c);
      first, cur := cur, cur.left;
      last, c := c, s.left[c];
    }
  }

  /** Deletion of a top with a missing child: the other child becomes the root. */
  method DetachThin<V>(node: TreeNode<V>, ghost nodes: seq<TreeNode<V>>, ghost s: Shape)
    returns (root: TreeNode?<V>)
    requires Tree(s) && Mirror(nodes, s) && |nodes| > 0 && nodes[s.top] == node
    requires s.left[s.top] == -1 || s.right[s.top] == -1
    modifies nodes`parent, nodes`left, nodes`right
    ensures Shrunk(s, RemoveThin(s)) && Mirror(Remove(nodes, s.top), RemoveThin(s))
    ensures -1 <= RemoveThin(s).top < |nodes| - 1
    ensures root == At(Remove(nodes, s.top), RemoveThin(s).top)
  {
    TopAtEnd(s);
    ThinTop(s);
    assert Linked(nodes, s, s.top);
    if node.left == null {
      root := node.right;
      if root != null {
        SetParent(root, null, nodes, s, s.right[s.top], -1);
      }
    } else {
      root := node.left;
      SetParent(root, null, nodes, s, s.left[s.top], -1);
    }
    forall o | Node(s, o) && o != s.top
      ensures Carries(UnlinkedThin(s), RemoveThin(s), s.top, o)
    {
      ThinCarries(s, o);
    }
    CloseMirror(nodes, UnlinkedThin(s), RemoveThin(s), s.top);
  }

  /** The links once the successor stands on top of the right subtree. */
  ghost function Unhooked(s: Shape): (u: Shape)
    requires Sized(s) && Node(s, s.top) && Successor(s)
  {
    var r, x := s.top, s.top + 1;
    var p, y := s.parent[x], s.right[x];
    if p == r then s
    else
      s.(left := s.left[p := y], right := s.right[x := s.right[r]],
         parent := Put(s.parent, y, p)[s.right[r] := x])
  }

  /** The successor hands its right subtree to its parent and takes the top's right subtree. */
  method Unhook<V>(x: TreeNode<V>, node: TreeNode<V>, ghost nodes: seq<TreeNode<V>>, ghost s: Shape)
    requires Mirror(nodes, s) && Node(s, s.top) && Successor(s)
    requires nodes[s.top] == node && nodes[s.top + 1] == x
    modifies nodes`parent, nodes`left, nodes`right
    ensures Mirror(nodes, Unhooked(s))
  {
    ghost var r, k := s.top, s.top + 1;
    assert Linked(nodes, s, r) && Linked(nodes, s, k);
    if x.parent != node {
      var parent, inner, right := x.parent, x.right, node.right;
      ghost var t := s.(left := s.left[s.parent[k] := s.right[k]]);
      SetLeft(parent, inner, nodes, s, s.parent[k], s.right[k]);
      if inner != null {
        SetParent(inner, parent, nodes, t, s.right[k], s.parent[k]);
        t := t.(parent := t.parent[s.right[k] := s.parent[k]]);
      }
      SetRight(x, right, nodes, t, k, s.right[r]);
      t := t.(right := t.right[k := s.right[r]]);
      SetParent(right, x, nodes, t, s.right[r], k);
    }
  }

  /** The successor becomes the root and takes the top's left subtree. */
  method Crown<V>(x: TreeNode<V>, node: TreeNode<V>, ghost nodes: seq<TreeNode<V>>, ghost s: Shape)
    requires Sized(s) && Node(s, s.top) && Successor(s) && Mirror(nodes, Unhooked(s))
    requires nodes[s.top] == node && nodes[s.top + 1] == x
    modifies nodes`parent, nodes`left, nodes`right
    ensures Mirror(nodes, UnlinkedThick(s))
  {
    ghost var r, k := s.top, s.top + 1;
    ghost var t := Unhooked(s);
    assert Linked(nodes, t, r);
    SetParent(x, null, nodes, t, k, -1);
    t := t.(parent := t.parent[k := -1]);
    var left := node.left;
    SetLeft(x, left, nodes, t, k, s.left[r]);
    t := t.(left := t.left[k := s.left[r]]);
    SetParent(left, x, nodes, t, s.left[r], k);
    t := t.(parent := t.parent[s.left[r] := k]);
    SameLinks(nodes, t, UnlinkedThick(s));
  }

  /** Deletion of a top with two children: its successor takes its place. */
  method DetachThick<V>(node: TreeNode<V>, ghost nodes: seq<TreeNode<V>>, ghost s: Shape)
    returns (root: TreeNode<V>)
    requires Tree(s) && Mirror(nodes, s) && |nodes| > 0 && nodes[s.top] == node
    requires s.left[s.top] != -1 && s.right[s.top] != -1
    modifies nodes`parent, nodes`left, nodes`right
    ensures Node(s, s.top + 1) && Shrunk(s, RemoveThick(s))
    ensures Mirror(Remove(nodes, s.top), RemoveThick(s)) && root == Remove(nodes, s.top)[s.top]
  {
    TopSuccessor(s);
    ThickTop(s);
    ghost var r, k := s.top, s.top + 1;
    TreeAround(s, r);
    assert Linked(nodes, s, r);
    root := Leftmost(node.right, nodes, s, s.right[r]);
    forall o | Node(s, o) && o != r
      ensures Carries(UnlinkedThick(s), RemoveThick(s), r, o)
    {
      ThickCarries(s, o);
    }
    hide Tree, RemoveThick, NewTop, UnlinkedThick, Carries, Unhooked, Around, Successor;
    Unhook(root, node, nodes, s);
    Crown(root, node, nodes, s);
    CloseMirror(nodes, UnlinkedThick(s), RemoveThick(s), r);
  }
}
