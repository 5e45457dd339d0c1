/** The shape of a splay tree with parent links (picoquic/picosplay.c).

    Nodes are named by their place in the in-order sequence, and -1 stands for NULL. Besides
    the links, a shape records the interval lo..hi of places that each subtree occupies: a
    node's left subtree ends where the node stands, its right subtree begins just after it.
    In these terms well-formedness is a condition on each node and its neighbours only, and a
    rotation moves no node: the in-order sequence is the sequence of places itself. */
module SplayShape {

  datatype Shape = Shape(top: int, left: seq<int>, right: seq<int>, parent: seq<int>,
                         lo: seq<int>, hi: seq<int>)

  ghost predicate Sized(s: Shape) {
    |s.left| == |s.right| == |s.parent| == |s.lo| == |s.hi|
  }

  ghost predicate Node(s: Shape, k: int) {
    0 <= k < |s.left|
  }

  ghost predicate Span(s: Shape, k: int)
    requires Sized(s) && Node(s, k)
  {
    0 <= s.lo[k] <= k < s.hi[k] <= |s.left|
  }

  ghost predicate LeftOk(s: Shape, k: int)
    requires Sized(s) && Node(s, k)
  {
    if s.left[k] == -1 then s.lo[k] == k
    else 0 <= s.left[k] < k && s.parent[s.left[k]] == k
         && s.lo[s.left[k]] == s.lo[k] && s.hi[s.left[k]] == k
  }

  ghost predicate RightOk(s: Shape, k: int)
    requires Sized(s) && Node(s, k)
  {
    if s.right[k] == -1 then s.hi[k] == k + 1
    else k < s.right[k] < |s.left| && s.parent[s.right[k]] == k
         && s.lo[s.right[k]] == k + 1 && s.hi[s.right[k]] == s.hi[k]
  }

  ghost predicate ParentOk(s: Shape, k: int)
    requires Sized(s) && Node(s, k)
  {
    if s.parent[k] == -1 then k == s.top
    else Node(s, s.parent[k]) && (s.left[s.parent[k]] == k || s.right[s.parent[k]] == k)
  }

  /** Node k, its children and its parent fit together. */
  ghost predicate Local(s: Shape, k: int)
    requires Sized(s) && Node(s, k)
  {
    Span(s, k) && LeftOk(s, k) && RightOk(s, k) && ParentOk(s, k)
  }

  ghost predicate TopOk(s: Shape)
    requires Sized(s)
  {
    if |s.left| == 0 then s.top == -1
    else Node(s, s.top) && s.parent[s.top] == -1 && s.lo[s.top] == 0 && s.hi[s.top] == |s.left|
  }

  /** A tree: every node fits, and the top one spans all places. */
  ghost predicate Tree(s: Shape) {
    Sized(s) && TopOk(s) && forall k {:trigger Local(s, k)} :: Node(s, k) ==> Local(s, k)
  }

  // ------------------------------------------------------------------------------- rotation

  /** `a[k := v]`, or `a` itself for the NULL index. */
  function Put(a: seq<int>, k: int, v: int): (r: seq<int>)
    requires -1 <= k < |a|
    ensures |r| == |a| && forall i :: 0 <= i < |a| ==> r[i] == if i == k then v else a[i]
  {
    if k == -1 then a else a[k := v]
  }

  /** mark_gp: the grandparent adopts x in place of its parent. */
  function Adopt(a: seq<int>, g: int, p: int, x: int): (r: seq<int>)
    requires -1 <= g < |a|
    ensures |r| == |a|
    ensures forall i :: 0 <= i < |a| ==> r[i] == if i == g && a[g] == p then x else a[i]
  {
    if g != -1 && a[g] == p then a[g := x] else a
  }

  ghost predicate CanLift(s: Shape, x: int) {
    && Sized(s) && Node(s, x) && Node(s, s.parent[x])
    && -1 <= s.parent[s.parent[x]] < |s.left|
    && s.parent[x] != x && s.parent[s.parent[x]] != s.parent[x] && s.parent[s.parent[x]] != x
    && -1 <= s.left[x] < |s.left| && -1 <= s.right[x] < |s.left|
  }

  /** rotate of a left child. */
  function LiftLeft(s: Shape, x: int): Shape
    requires CanLift(s, x)
  {
    var p := s.parent[x];
    var g := s.parent[p];
    Shape(if g == -1 then x else s.top,
          Put(Adopt(s.left, g, p, x), p, s.right[x]),
          Put(Adopt(s.right, g, p, x), x, p),
          Put(Put(Put(s.parent, x, g), p, x), s.right[x], p),
          Put(Put(s.lo, x, s.lo[p]), p, x + 1),
          Put(s.hi, x, s.hi[p]))
  }

  /** rotate of a right child. */
  function LiftRight(s: Shape, x: int): Shape
    requires CanLift(s, x)
  {
    var p := s.parent[x];
    var g := s.parent[p];
    Shape(if g == -1 then x else s.top,
          Put(Adopt(s.left, g, p, x), x, p),
          Put(Adopt(s.right, g, p, x), p, s.left[x]),
          Put(Put(Put(s.parent, x, g), p, x), s.left[x], p),
          Put(s.lo, x, s.lo[p]),
          Put(Put(s.hi, x, s.hi[p]), p, x))
  }

  /** Node k and all its neighbours fit. */
  ghost predicate Around(s: Shape, k: int)
    requires Sized(s) && Node(s, k)
  {
    && Local(s, k)
    && (s.left[k] != -1 ==> Local(s, s.left[k]))
    && (s.right[k] != -1 ==> Local(s, s.right[k]))
    && (s.parent[k] != -1 ==> Local(s, s.parent[k]))
  }

  lemma TreeAround(s: Shape, k: int)
    requires Tree(s) && Node(s, k)
    ensures Around(s, k)
  {
    assert Local(s, k);
  }

  lemma LiftLeftSpan(s: Shape, x: int, p: int, k: int)
    requires CanLift(s, x) && p == s.parent[x] && s.left[p] == x && Node(s, k)
    requires Span(s, x) && Span(s, p) && Span(s, k) && LeftOk(s, p)
    ensures Span(LiftLeft(s, x), k)
  {
  }

  lemma LiftLeftLeftOk(s: Shape, x: int, p: int, k: int)
    requires CanLift(s, x) && p == s.parent[x] && s.left[p] == x && Node(s, k)
    requires LeftOk(s, x) && RightOk(s, x) && LeftOk(s, p) && LeftOk(s, k)
    requires s.right[x] != -1 ==> Span(s, s.right[x])
    ensures LeftOk(LiftLeft(s, x), k)
  {
  }

  lemma LiftLeftRightOk(s: Shape, x: int, p: int, k: int)
    requires CanLift(s, x) && p == s.parent[x] && s.left[p] == x && Node(s, k)
    requires RightOk(s, x) && LeftOk(s, p) && RightOk(s, p) && RightOk(s, k) && Span(s, x)
    ensures RightOk(LiftLeft(s, x), k)
  {
  }

  lemma LiftLeftParentOk(s: Shape, x: int, p: int, k: int)
    requires CanLift(s, x) && p == s.parent[x] && s.left[p] == x && Node(s, k)
    requires LeftOk(s, p) && RightOk(s, x) && ParentOk(s, p) && ParentOk(s, k)
    ensures ParentOk(LiftLeft(s, x), k)
  {
  }

  lemma LiftRightSpan(s: Shape, x: int, p: int, k: int)
    requires CanLift(s, x) && p == s.parent[x] && s.right[p] == x && Node(s, k)
    requires Span(s, x) && Span(s, p) && Span(s, k) && RightOk(s, p)
    ensures Span(LiftRight(s, x), k)
  {
  }

  lemma LiftRightRightOk(s: Shape, x: int, p: int, k: int)
    requires CanLift(s, x) && p == s.parent[x] && s.right[p] == x && Node(s, k)
    requires RightOk(s, x) && LeftOk(s, x) && RightOk(s, p) && RightOk(s, k)
    requires s.left[x] != -1 ==> Span(s, s.left[x])
    ensures RightOk(LiftRight(s, x), k)
  {
  }

  lemma LiftRightLeftOk(s: Shape, x: int, p: int, k: int)
    requires CanLift(s, x) && p == s.parent[x] && s.right[p] == x && Node(s, k)
    requires LeftOk(s, x) && RightOk(s, p) && LeftOk(s, p) && LeftOk(s, k) && Span(s, x)
    ensures LeftOk(LiftRight(s, x), k)
  {
  }

  lemma LiftRightParentOk(s: Shape, x: int, p: int, k: int)
    requires CanLift(s, x) && p == s.parent[x] && s.right[p] == x && Node(s, k)
    requires RightOk(s, p) && LeftOk(s, x) && ParentOk(s, p) && ParentOk(s, k)
    ensures ParentOk(LiftRight(s, x), k)
  {
  }

  /** Rotation, whichever side the node is on. */
  function Rotate(s: Shape, x: int): Shape
    requires CanLift(s, x)
  {
    if s.left[s.parent[x]] == x then LiftLeft(s, x) else LiftRight(s, x)
  }

  /** Any node but the top can be rotated; its parent's interval is wider than its own. */
  lemma Liftable(s: Shape, x: int)
    requires Tree(s) && Node(s, x) && s.parent[x] != -1
    ensures CanLift(s, x)
    ensures s.left[s.parent[x]] == x || s.right[s.parent[x]] == x
    ensures s.hi[x] - s.lo[x] < s.hi[s.parent[x]] - s.lo[s.parent[x]]
  {
    TreeAround(s, x);
    TreeAround(s, s.parent[x]);
  }

  lemma RotateLocal(s: Shape, x: int, p: int, k: int)
    requires CanLift(s, x) && p == s.parent[x] && (s.left[p] == x || s.right[p] == x) && Node(s, k)
    requires Around(s, x) && Around(s, p) && Around(s, k)
    ensures Local(Rotate(s, x), k)
  {
    hide LiftLeft, LiftRight;
    if s.left[p] == x {
      LiftLeftSpan(s, x, p, k);
      LiftLeftLeftOk(s, x, p, k);
      LiftLeftRightOk(s, x, p, k);
      LiftLeftParentOk(s, x, p, k);
    } else {
      LiftRightSpan(s, x, p, k);
      LiftRightRightOk(s, x, p, k);
      LiftRightLeftOk(s, x, p, k);
      LiftRightParentOk(s, x, p, k);
    }
  }

  /** The links and intervals of the lifted node, and the top. */
  lemma RotateTop(s: Shape, x: int, p: int)
    requires CanLift(s, x) && p == s.parent[x] && (s.left[p] == x || s.right[p] == x)
    requires TopOk(s) && ParentOk(s, p) && Local(s, x) && Local(s, p)
    ensures var t := Rotate(s, x);
            && Sized(t) && |t.left| == |s.left| && t.parent[x] == s.parent[p]
            && t.lo[x] == s.lo[p] && t.hi[x] == s.hi[p] && TopOk(t)
  {
  }

  /** A rotation keeps the tree: all nodes in their places, all links consistent. The lifted
      node takes over its parent's interval. */
  lemma RotateTree(s: Shape, x: int)
    requires Tree(s) && Node(s, x) && s.parent[x] != -1
    ensures CanLift(s, x)
    ensures var p, t := s.parent[x], Rotate(s, x);
            && Tree(t) && |t.left| == |s.left| && t.parent[x] == s.parent[p]
            && t.lo[x] == s.lo[p] && t.hi[x] == s.hi[p]
  {
    Liftable(s, x);
    var p, t := s.parent[x], Rotate(s, x);
    TreeAround(s, x);
    TreeAround(s, p);
    RotateTop(s, x, p);
    hide Rotate, Local;
    forall k | Node(t, k) ensures Local(t, k) {
      TreeAround(s, k);
      RotateLocal(s, x, p, k);
    }
  }

  // -------------------------------------------------------------------------------- splaying

  ghost predicate SameSide(s: Shape, x: int, p: int, g: int)
    requires Sized(s) && Node(s, p) && Node(s, g)
  {
    (x == s.left[p] && p == s.left[g]) || (x == s.right[p] && p == s.right[g])
  }

  /** Lifting the parent of a node on the same side leaves the node below it. */
  lemma LiftParentFirst(s: Shape, x: int, p: int)
    requires Tree(s) && Node(s, x) && s.parent[x] == p != -1 && CanLift(s, p)
    requires s.left[s.parent[p]] == p || s.right[s.parent[p]] == p
    requires SameSide(s, x, p, s.parent[p])
    ensures Rotate(s, p).parent[x] == p
    ensures Rotate(s, p).lo[x] == s.lo[x] && Rotate(s, p).hi[x] == s.hi[x]
  {
    TreeAround(s, x);
    TreeAround(s, p);
    TreeAround(s, s.parent[p]);
  }

  /** One turn of the loop of splay: zig, zig-zig or zig-zag. */
  ghost function SplayStep(s: Shape, x: int): Shape
    requires Tree(s) && Node(s, x) && s.parent[x] != -1
  {
    var p := s.parent[x];
    RotateTree(s, x);
    var g := s.parent[p];
    if g == -1 then Rotate(s, x)
    else if SameSide(s, x, p, g) then
      RotateTree(s, p);
      Liftable(s, p);
      LiftParentFirst(s, x, p);
      RotateTree(Rotate(s, p), x);
      Rotate(Rotate(s, p), x)
    else
      RotateTree(Rotate(s, x), x);
      Rotate(Rotate(s, x), x)
  }

  /** Each turn keeps the tree and widens the node's interval. */
  lemma SplayStepTree(s: Shape, x: int)
    requires Tree(s) && Node(s, x) && s.parent[x] != -1
    ensures var t := SplayStep(s, x);
            && Tree(t) && |t.left| == |s.left|
            && t.hi[x] - t.lo[x] > s.hi[x] - s.lo[x] && t.hi[x] - t.lo[x] <= |t.left|
  {
    var p := s.parent[x];
    hide Tree, Rotate;
    RotateTree(s, x);
    Liftable(s, x);
    var g := s.parent[p];
    if g == -1 {
      Within(Rotate(s, x), x);
    } else if SameSide(s, x, p, g) {
      RotateTree(s, p);
      Liftable(s, p);
      LiftParentFirst(s, x, p);
      var t := Rotate(s, p);
      RotateTree(t, x);
      Liftable(t, x);
      Within(Rotate(t, x), x);
    } else {
      var t := Rotate(s, x);
      RotateTree(t, x);
      Liftable(t, x);
      Within(Rotate(t, x), x);
    }
  }

  lemma Within(s: Shape, k: int)
    requires Tree(s) && Node(s, k)
    ensures Span(s, k)
  {
    TreeAround(s, k);
  }

  /** splay: the node is lifted until it is the top. */
  ghost function Splay(s: Shape, x: int): Shape
    requires Tree(s) && Node(s, x)
    decreases |s.left| - (s.hi[x] - s.lo[x])
  {
    if s.parent[x] == -1 then s
    else
      SplayStepTree(s, x);
      Splay(SplayStep(s, x), x)
  }

  /** Splaying keeps the tree, and with it the in-order sequence and all links, and puts the
      node at the top. */
  lemma {:induction false} SplayKeepsTree(s: Shape, x: int)
    requires Tree(s) && Node(s, x)
    ensures Tree(Splay(s, x)) && |Splay(s, x).left| == |s.left| && Splay(s, x).top == x
    decreases |s.left| - (s.hi[x] - s.lo[x])
  {
    if s.parent[x] == -1 {
      TreeAround(s, x);
    } else {
      hide Tree, SplayStep;
      SplayStepTree(s, x);
      SplayKeepsTree(SplayStep(s, x), x);
    }
  }

  // ------------------------------------------------------------------------------ insertion

  /** Place k once a new node stands at place j. */
  function Up(k: int, j: int): int { if k >= j then k + 1 else k }

  /** ... and back. */
  function Down(k: int, j: int): int { if k > j then k - 1 else k }

  /** A new leaf below node q, on its left or right, where q has no child yet. */
  ghost function AddLeaf(s: Shape, q: int, onLeft: bool): Shape
    requires Sized(s) && Node(s, q)
  {
    var n, j := |s.left| + 1, if onLeft then q else q + 1;
    Shape(Up(s.top, j),
          seq(n, k requires 0 <= k < n =>
            if k == j then -1 else if onLeft && k == q + 1 then j else Up(s.left[Down(k, j)], j)),
          seq(n, k requires 0 <= k < n =>
            if k == j then -1 else if !onLeft && k == q then j else Up(s.right[Down(k, j)], j)),
          seq(n, k requires 0 <= k < n => if k == j then Up(q, j) else Up(s.parent[Down(k, j)], j)),
          seq(n, k requires 0 <= k < n =>
            if k == j then j
            else if s.lo[Down(k, j)] > q then s.lo[Down(k, j)] + 1 else s.lo[Down(k, j)]),
          seq(n, k requires 0 <= k < n =>
            if k == j then j + 1
            else if s.hi[Down(k, j)] > q then s.hi[Down(k, j)] + 1 else s.hi[Down(k, j)]))
  }

  function Place(q: int, onLeft: bool): int { if onLeft then q else q + 1 }

  /** What became of old node o. */
  ghost predicate Moved(s: Shape, t: Shape, q: int, onLeft: bool, o: int)
    requires Sized(s) && Node(s, q) && Node(s, o) && Sized(t) && |t.left| == |s.left| + 1
    requires Node(t, Up(o, Place(q, onLeft)))
  {
    var j := Place(q, onLeft);
    var k := Up(o, j);
    && t.left[k] == (if onLeft && o == q then j else Up(s.left[o], j))
    && t.right[k] == (if !onLeft && o == q then j else Up(s.right[o], j))
    && t.parent[k] == Up(s.parent[o], j)
    && t.lo[k] == (if s.lo[o] > q then s.lo[o] + 1 else s.lo[o])
    && t.hi[k] == (if s.hi[o] > q then s.hi[o] + 1 else s.hi[o])
  }

  lemma OldMoved(s: Shape, q: int, onLeft: bool, o: int)
    requires Sized(s) && Node(s, q) && Node(s, o) && Span(s, o)
    ensures Moved(s, AddLeaf(s, q, onLeft), q, onLeft, o)
  {
    assert Down(Up(o, Place(q, onLeft)), Place(q, onLeft)) == o;
  }

  ghost predicate LeafAt(t: Shape, j: int, q: int)
    requires Sized(t) && Node(t, j)
  {
    && t.left[j] == -1 && t.right[j] == -1 && t.parent[j] == Up(q, j)
    && t.lo[j] == j && t.hi[j] == j + 1
  }

  ghost predicate Grown(s: Shape, t: Shape, q: int, onLeft: bool) {
    && Sized(s) && Node(s, q) && (if onLeft then s.left[q] else s.right[q]) == -1
    && Sized(t) && |t.left| == |s.left| + 1 && LeafAt(t, Place(q, onLeft), q)
  }

  lemma NewLeaf(s: Shape, q: int, onLeft: bool)
    requires Sized(s) && Node(s, q) && (if onLeft then s.left[q] else s.right[q]) == -1
    ensures Grown(s, AddLeaf(s, q, onLeft), q, onLeft)
  {
  }

  lemma GrownSpan(s: Shape, t: Shape, q: int, onLeft: bool, o: int)
    requires Grown(s, t, q, onLeft) && Node(s, o) && Moved(s, t, q, onLeft, o)
    requires Span(s, o)
    ensures Span(t, Up(o, Place(q, onLeft)))
  {
  }

  lemma GrownLeft(s: Shape, t: Shape, q: int, onLeft: bool, o: int)
    requires Grown(s, t, q, onLeft) && Node(s, o) && Moved(s, t, q, onLeft, o)
    requires Span(s, o) && LeftOk(s, o)
    requires s.left[o] != -1 ==> Moved(s, t, q, onLeft, s.left[o]) && Span(s, s.left[o])
    ensures LeftOk(t, Up(o, Place(q, onLeft)))
  {
  }

  lemma GrownRight(s: Shape, t: Shape, q: int, onLeft: bool, o: int)
    requires Grown(s, t, q, onLeft) && Node(s, o) && Moved(s, t, q, onLeft, o)
    requires Span(s, o) && RightOk(s, o)
    requires s.right[o] != -1 ==> Moved(s, t, q, onLeft, s.right[o]) && Span(s, s.right[o])
    ensures RightOk(t, Up(o, Place(q, onLeft)))
  {
  }

  lemma GrownParent(s: Shape, t: Shape, q: int, onLeft: bool, o: int)
    requires Grown(s, t, q, onLeft) && Node(s, o) && Moved(s, t, q, onLeft, o)
    requires t.top == Up(s.top, Place(q, onLeft)) && ParentOk(s, o)
    requires s.parent[o] != -1 ==> Moved(s, t, q, onLeft, s.parent[o])
    ensures ParentOk(t, Up(o, Place(q, onLeft)))
  {
  }

  lemma AddLeafLocal(s: Shape, q: int, onLeft: bool, o: int)
    requires Sized(s) && Node(s, q) && (if onLeft then s.left[q] else s.right[q]) == -1
    requires Node(s, o) && Around(s, o)
    ensures Local(AddLeaf(s, q, onLeft), Up(o, Place(q, onLeft)))
  {
    var t := AddLeaf(s, q, onLeft);
    hide Moved, Grown;
    OldMoved(s, q, onLeft, o);
    if s.left[o] != -1 { OldMoved(s, q, onLeft, s.left[o]); }
    if s.right[o] != -1 { OldMoved(s, q, onLeft, s.right[o]); }
    if s.parent[o] != -1 { OldMoved(s, q, onLeft, s.parent[o]); }
    NewLeaf(s, q, onLeft);
    hide AddLeaf;
    GrownSpan(s, t, q, onLeft, o);
    GrownLeft(s, t, q, onLeft, o);
    GrownRight(s, t, q, onLeft, o);
    GrownParent(s, t, q, onLeft, o);
  }

  lemma GrownTop(s: Shape, t: Shape, q: int, onLeft: bool)
    requires Grown(s, t, q, onLeft) && Node(s, s.top) && Moved(s, t, q, onLeft, s.top)
    requires t.top == Up(s.top, Place(q, onLeft)) && TopOk(s)
    ensures TopOk(t)
  {
  }

  lemma GrownLeaf(s: Shape, t: Shape, q: int, onLeft: bool)
    requires Grown(s, t, q, onLeft) && Moved(s, t, q, onLeft, q)
    ensures Local(t, Place(q, onLeft))
  {
  }

  lemma AddLeafNew(s: Shape, q: int, onLeft: bool)
    requires Sized(s) && Node(s, q) && (if onLeft then s.left[q] else s.right[q]) == -1
    requires Span(s, q)
    ensures Sized(AddLeaf(s, q, onLeft)) && Local(AddLeaf(s, q, onLeft), Place(q, onLeft))
  {
    NewLeaf(s, q, onLeft);
    OldMoved(s, q, onLeft, q);
    hide AddLeaf;
    GrownLeaf(s, AddLeaf(s, q, onLeft), q, onLeft);
  }

  lemma AddLeafAt(s: Shape, q: int, onLeft: bool, k: int)
    requires Tree(s) && Node(s, q) && (if onLeft then s.left[q] else s.right[q]) == -1
    requires 0 <= k <= |s.left|
    ensures Sized(AddLeaf(s, q, onLeft)) && Node(AddLeaf(s, q, onLeft), k)
    ensures Local(AddLeaf(s, q, onLeft), k)
  {
    hide AddLeaf, TopOk, LeftOk, RightOk, ParentOk, Around;
    TreeAround(s, q);
    AddLeafNew(s, q, onLeft);
    if k != Place(q, onLeft) {
      TreeAround(s, Down(k, Place(q, onLeft)));
      AddLeafLocal(s, q, onLeft, Down(k, Place(q, onLeft)));
    }
  }

  /** Adding a leaf where there is none keeps the tree: every old node keeps its order. */
  lemma AddLeafTree(s: Shape, q: int, onLeft: bool)
    requires Tree(s) && Node(s, q) && (if onLeft then s.left[q] else s.right[q]) == -1
    ensures Tree(AddLeaf(s, q, onLeft))
  {
    var t := AddLeaf(s, q, onLeft);
    NewLeaf(s, q, onLeft);
    TreeAround(s, s.top);
    OldMoved(s, q, onLeft, s.top);
    GrownTop(s, t, q, onLeft);
    hide AddLeaf, Around, Local, TopOk, Moved, LeafAt;
    forall k | Node(t, k) ensures Local(t, k) {
      AddLeafAt(s, q, onLeft, k);
    }
  }

  // --------------------------------------------------------------------------- order of nodes

  /** The nodes on either side of the top stay on their side, subtrees included. */
  lemma {:induction false} Apart(s: Shape, o: int)
    requires Tree(s) && Node(s, o)
    ensures o > s.top ==> s.lo[o] > s.top
    ensures o < s.top ==> s.hi[o] <= s.top
    decreases |s.left| - (s.hi[o] - s.lo[o])
  {
    TreeAround(s, o);
    if s.parent[o] != -1 {
      Liftable(s, o);
      Within(s, s.parent[o]);
      Apart(s, s.parent[o]);
    }
  }

  /** A place with no left child starts its own interval, and the other way round. */
  lemma NoLeft(s: Shape, k: int)
    requires Tree(s) && Node(s, k)
    ensures s.left[k] == -1 <==> s.lo[k] == k
    ensures s.right[k] == -1 <==> s.hi[k] == k + 1
  {
    TreeAround(s, k);
  }

  /** The in-order walk along the links, from node k. */
  ghost function InOrder(s: Shape, k: int): seq<int>
    requires Tree(s) && -1 <= k < |s.left|
    decreases if k == -1 then 0 else s.hi[k] - s.lo[k]
  {
    if k == -1 then []
    else
      TreeAround(s, k);
      InOrder(s, s.left[k]) + [k] + InOrder(s, s.right[k])
  }

  /** The places from a to b. */
  ghost function Places(a: int, b: int): seq<int>
    requires a <= b
  {
    seq(b - a, i => a + i)
  }

  lemma PlacesJoin(a: int, k: int, b: int)
    requires a <= k < b
    ensures Places(a, k) + [k] + Places(k + 1, b) == Places(a, b)
  {
  }

  lemma NoPlaces(a: int)
    ensures Places(a, a) == []
  {
  }

  /** Walking a subtree visits the places of its interval, in increasing order. */
  lemma {:induction false} InOrderIsInterval(s: Shape, k: int)
    requires Tree(s) && Node(s, k)
    ensures s.lo[k] <= s.hi[k] && InOrder(s, k) == Places(s.lo[k], s.hi[k])
    decreases s.hi[k] - s.lo[k]
  {
    assert Sized(s);
    hide Tree, Places;
    TreeAround(s, k);
    if s.left[k] == -1 { NoPlaces(k); } else { InOrderIsInterval(s, s.left[k]); }
    if s.right[k] == -1 { NoPlaces(k + 1); } else { InOrderIsInterval(s, s.right[k]); }
    assert InOrder(s, k) == Places(s.lo[k], k) + [k] + Places(k + 1, s.hi[k]);
    PlacesJoin(s.lo[k], k, s.hi[k]);
  }

  /** A walk from the root visits every place, whatever the shape: splaying any node leaves the
      in-order sequence of the tree as it was. */
  lemma SplayKeepsOrder(s: Shape, x: int)
    requires Tree(s) && Node(s, x)
    ensures var t := Splay(s, x);
            && Tree(t) && Node(t, t.top)
            && InOrder(t, t.top) == InOrder(s, s.top) == Places(0, |s.left|)
  {
    SplayKeepsTree(s, x);
    InOrderIsInterval(s, s.top);
    InOrderIsInterval(Splay(s, x), x);
  }
}
