/** What splaying costs (picoquic/picosplay.c): although one splay may take as many turns as the
    tree is deep, any series of splays takes a logarithmic number of turns each, on average. This
    is what the choice between zig-zig and zig-zag is for. */
module SplayCost {

  import opened SplayShape

  /** The logarithm of a size, rounded down. */
  function Rank(n: nat): nat {
    if n < 2 then 0 else 1 + Rank(n / 2)
  }

  lemma {:induction false} RankUp(a: nat, b: nat)
    requires a <= b
    ensures Rank(a) <= Rank(b)
    decreases b
  {
    if a >= 2 { RankUp(a / 2, b / 2); }
  }

  lemma {:induction false} RankDouble(a: nat)
    requires a > 0
    ensures Rank(2 * a) == Rank(a) + 1
  {
  }

  /** Of two parts of a whole, at least one is of lower rank than the whole. */
  lemma RankParts(a: nat, b: nat, c: nat)
    requires 0 < a && 0 < b && a + b <= c
    ensures Rank(a) + Rank(b) + 1 <= 2 * Rank(c)
  {
    RankUp(a, c);
    RankUp(b, c);
    if a <= b {
      RankDouble(a);
      RankUp(2 * a, c);
    } else {
      RankDouble(b);
      RankUp(2 * b, c);
    }
  }

  /** How many nodes the subtree of node k has. */
  ghost function Size(s: Shape, k: int): nat
    requires Sized(s) && Node(s, k)
  {
    if s.lo[k] < s.hi[k] then s.hi[k] - s.lo[k] else 0
  }

  /** The ranks of the subtrees of the first n nodes, added up. */
  ghost function Ranks(s: Shape, n: nat): nat
    requires Sized(s) && n <= |s.left|
  {
    if n == 0 then 0 else Ranks(s, n - 1) + Rank(Size(s, n - 1))
  }

  /** The potential of a tree. */
  ghost function Potential(s: Shape): nat
    requires Sized(s)
  {
    Ranks(s, |s.left|)
  }

  /** Two trees that differ in the sizes of two nodes. */
  lemma {:induction false} RanksDiffer(s: Shape, t: Shape, x: int, p: int, n: nat)
    requires Sized(s) && Sized(t) && |s.left| == |t.left| && Node(s, x) && Node(s, p) && x != p
    requires forall k :: Node(s, k) && k != x && k != p ==> Size(t, k) == Size(s, k)
    requires n <= |s.left|
    ensures Ranks(t, n) - Ranks(s, n)
         == (if x < n then Rank(Size(t, x)) - Rank(Size(s, x)) else 0)
          + (if p < n then Rank(Size(t, p)) - Rank(Size(s, p)) else 0)
  {
    hide Size, Rank;
    if n > 0 {
      RanksDiffer(s, t, x, p, n - 1);
      assert Node(s, n - 1);
    }
  }

  /** The interval of the parent once the node is lifted over it. */
  lemma RotateSpans(s: Shape, x: int, p: int)
    requires CanLift(s, x) && p == s.parent[x] && (s.left[p] == x || s.right[p] == x)
    requires Span(s, x) && Span(s, p) && LeftOk(s, p) && RightOk(s, p)
    ensures var t := Rotate(s, x);
            && t.lo[x] == s.lo[p] && t.hi[x] == s.hi[p]
            && t.lo[p] == (if s.left[p] == x then x + 1 else s.lo[p])
            && t.hi[p] == (if s.left[p] == x then s.hi[p] else x)
  {
  }

  lemma RotateOthers(s: Shape, x: int, p: int)
    requires CanLift(s, x) && p == s.parent[x]
    ensures var t := Rotate(s, x);
            && Sized(t) && |t.left| == |s.left|
            && forall k :: Node(s, k) && k != x && k != p ==> Size(t, k) == Size(s, k)
  {
  }

  /** A rotation gives the node the size of its parent, and changes no other size but the
      parent's, which becomes smaller than that. */
  lemma RotateSizes(s: Shape, x: int)
    requires Tree(s) && Node(s, x) && s.parent[x] != -1
    ensures CanLift(s, x) && Node(s, s.parent[x]) && s.parent[x] != x
    ensures var t, p := Rotate(s, x), s.parent[x];
            && Sized(t) && |t.left| == |s.left| && Size(t, x) == Size(s, p)
            && (forall k :: Node(s, k) && k != x && k != p ==> Size(t, k) == Size(s, k))
            && 0 < Size(t, p) < Size(s, p)
  {
    RotateInside(s, x);
    hide Tree, Rotate, Size;
    RotateOthers(s, x, s.parent[x]);
  }

  lemma RotateInside(s: Shape, x: int)
    requires Tree(s) && Node(s, x) && s.parent[x] != -1
    ensures CanLift(s, x) && Node(s, s.parent[x]) && s.parent[x] != x
    ensures var t, p := Rotate(s, x), s.parent[x];
            && Sized(t) && |t.left| == |s.left| && Size(t, x) == Size(s, p) && 0 < Size(t, p) < Size(s, p)
            && t.lo[x] == s.lo[p] && t.hi[x] == s.hi[p]
            && t.lo[p] == (if s.left[p] == x then x + 1 else s.lo[p])
            && t.hi[p] == (if s.left[p] == x then s.hi[p] else x)
  {
    hide Tree, Rotate;
    Pair(s, x);
    RotateOthers(s, x, s.parent[x]);
    RotateSpans(s, x, s.parent[x]);
  }

  /** A node and its parent. */
  lemma Pair(s: Shape, x: int)
    requires Tree(s) && Node(s, x) && s.parent[x] != -1
    ensures CanLift(s, x)
    ensures var p := s.parent[x];
            && (s.left[p] == x || s.right[p] == x)
            && Span(s, x) && Span(s, p) && LeftOk(s, p) && RightOk(s, p)
  {
    Liftable(s, x);
    TreeAround(s, x);
    TreeAround(s, s.parent[x]);
  }

  /** So the potential changes by the new rank of the parent less the old one of the node. */
  lemma RotatePotential(s: Shape, x: int)
    requires Tree(s) && Node(s, x) && s.parent[x] != -1
    ensures CanLift(s, x) && Node(s, s.parent[x])
    ensures var t, p := Rotate(s, x), s.parent[x];
            && Sized(t) && |t.left| == |s.left|
            && Potential(t) == Potential(s) - Rank(Size(s, x)) + Rank(Size(t, p))
  {
    RotateSizes(s, x);
    hide Rotate, Tree, Rank, Size;
    RanksDiffer(s, Rotate(s, x), x, s.parent[x], |s.left|);
  }

  // ------------------------------------------------------------------------------------ one turn

  /** What a turn costs: one, and what it adds to the potential, is at most three times what the
      node gains in rank; the last turn may cost one more. */
  ghost predicate Pays(s: Shape, t: Shape, x: int)
    requires Sized(s) && Node(s, x) && Sized(t) && Node(t, x)
  {
    1 + Potential(t) + 3 * Rank(Size(s, x))
    <= Potential(s) + 3 * Rank(Size(t, x)) + if s.parent[x] != -1 && t.parent[x] == -1 then 1 else 0
  }

  lemma ParentSize(s: Shape, x: int)
    requires Tree(s) && Node(s, x) && s.parent[x] != -1
    ensures Node(s, s.parent[x]) && 0 < Size(s, x) <= Size(s, s.parent[x])
    ensures Rank(Size(s, x)) <= Rank(Size(s, s.parent[x]))
  {
    Liftable(s, x);
    Within(s, x);
    RankUp(Size(s, x), Size(s, s.parent[x]));
  }

  lemma ZigPays(s: Shape, x: int)
    requires Tree(s) && Node(s, x) && s.parent[x] != -1 && Node(s, s.parent[x]) && s.parent[s.parent[x]] == -1
    ensures CanLift(s, x) && Tree(Rotate(s, x)) && Node(Rotate(s, x), x) && Pays(s, Rotate(s, x), x)
  {
    var p := s.parent[x];
    RotateTree(s, x);
    var t := Rotate(s, x);
    hide Tree, Rotate, Rank;
    RotatePotential(s, x);
    RotateSizes(s, x);
    ParentSize(s, x);
    RankUp(Size(t, p), Size(s, p));
  }

  /** The three sizes after a zig-zig: the grandparent has lost all of x's subtree. */
  lemma ZigZigSizes(s: Shape, x: int, p: int, g: int)
    requires Tree(s) && Node(s, x) && p == s.parent[x] != -1 && Node(s, p) && g == s.parent[p] != -1
    requires Node(s, g) && SameSide(s, x, p, g)
    ensures CanLift(s, p)
    ensures var t := Rotate(s, p); Sized(t) && Node(t, g) && 0 < Size(s, x) && 0 < Size(t, g)
                                   && Size(s, x) + Size(t, g) <= Size(s, g)
  {
    Liftable(s, x);
    Liftable(s, p);
    TreeAround(s, x);
    TreeAround(s, p);
    TreeAround(s, g);
    RotateSizes(s, p);
    hide Tree, ParentOk, Rotate;
    RotateSpans(s, p, g);
  }

  lemma ZigZigPays(s: Shape, x: int, p: int, g: int)
    requires Tree(s) && Node(s, x) && p == s.parent[x] != -1 && Node(s, p) && g == s.parent[p] != -1
    requires Node(s, g) && SameSide(s, x, p, g)
    ensures Sized(SplayStep(s, x)) && Node(SplayStep(s, x), x) && Pays(s, SplayStep(s, x), x)
  {
    RotateTree(s, x);
    RotateTree(s, p);
    Liftable(s, p);
    LiftParentFirst(s, x, p);
    var t := Rotate(s, p);
    RotateTree(t, x);
    var u := Rotate(t, x);
    assert SplayStep(s, x) == u;
    hide Tree, Rotate, Rank, SplayStep, Potential;
    RotatePotential(s, p);
    RotatePotential(t, x);
    RotateSizes(s, p);
    RotateSizes(t, x);
    ParentSize(s, x);
    ZigZigSizes(s, x, p, g);
    RankParts(Size(s, x), Size(t, g), Size(s, g));
    RankUp(Size(u, p), Size(s, g));
  }

  /** After a zig-zag the parent and the grandparent share what the grandparent had. */
  lemma ZigZagSizes(s: Shape, x: int, p: int, g: int)
    requires Tree(s) && Node(s, x) && p == s.parent[x] != -1 && Node(s, p) && g == s.parent[p] != -1
    requires Node(s, g) && !SameSide(s, x, p, g)
    ensures CanLift(s, x) && CanLift(Rotate(s, x), x)
    ensures var t, u := Rotate(s, x), Rotate(Rotate(s, x), x);
            && Sized(t) && Node(t, p) && t.parent[x] == g && Sized(u) && Node(u, g)
            && 0 < Size(t, p) && 0 < Size(u, g) && Size(t, p) + Size(u, g) <= Size(s, g)
  {
    RotateTree(s, x);
    var t := Rotate(s, x);
    hide Tree, Rotate;
    Pair(s, x);
    Pair(s, p);
    ZigZagSide(s, x, p, g);
    RotateInside(s, x);
    RotateInside(t, x);
    hide LeftOk, RightOk, CanLift, Size, Span;
    ZigZagShare(s, t, Rotate(t, x), x, p, g, s.left[p] == x);
  }

  lemma ZigZagShare(s: Shape, t: Shape, u: Shape, x: int, p: int, g: int, onLeft: bool)
    requires Sized(s) && Sized(t) && Sized(u) && Node(s, g) && Node(s, p) && Node(t, p) && Node(u, g)
    requires t.lo[p] == (if onLeft then x + 1 else s.lo[p]) && t.hi[p] == (if onLeft then s.hi[p] else x)
    requires u.lo[g] == (if !onLeft then x + 1 else s.lo[g]) && u.hi[g] == (if !onLeft then s.hi[g] else x)
    requires s.lo[g] <= s.lo[p] && s.hi[p] <= s.hi[g] && 0 < Size(t, p) && 0 < Size(u, g)
    ensures Size(t, p) + Size(u, g) <= Size(s, g)
  {
  }

  lemma ZigZagSide(s: Shape, x: int, p: int, g: int)
    requires CanLift(s, x) && p == s.parent[x] && g == s.parent[p] && Node(s, g)
    requires s.left[p] == x || s.right[p] == x
    requires LeftOk(s, p) && RightOk(s, p) && LeftOk(s, g) && RightOk(s, g) && Span(s, x) && Span(s, p)
    ensures var t := Rotate(s, x);
            && (s.left[g] == p <==> t.left[g] == x) && t.lo[g] == s.lo[g] && t.hi[g] == s.hi[g]
  {
  }

  lemma ZigZagPays(s: Shape, x: int, p: int, g: int)
    requires Tree(s) && Node(s, x) && p == s.parent[x] != -1 && Node(s, p) && g == s.parent[p] != -1
    requires Node(s, g) && !SameSide(s, x, p, g)
    ensures Sized(SplayStep(s, x)) && Node(SplayStep(s, x), x) && Pays(s, SplayStep(s, x), x)
  {
    RotateTree(s, x);
    var t := Rotate(s, x);
    RotateTree(t, x);
    var u := Rotate(t, x);
    assert SplayStep(s, x) == u;
    hide Tree, Rotate, Rank, SplayStep, Potential;
    RotatePotential(s, x);
    RotatePotential(t, x);
    RotateSizes(s, x);
    RotateSizes(t, x);
    ParentSize(s, x);
    ParentSize(s, p);
    ZigZagSizes(s, x, p, g);
    RankParts(Size(t, p), Size(u, g), Size(s, g));
  }

  lemma TurnPays(s: Shape, x: int)
    requires Tree(s) && Node(s, x) && s.parent[x] != -1
    ensures Sized(SplayStep(s, x)) && Node(SplayStep(s, x), x) && Pays(s, SplayStep(s, x), x)
  {
    Liftable(s, x);
    var p := s.parent[x];
    var g := s.parent[p];
    hide Pays, Rotate, Tree;
    if g == -1 {
      ZigPays(s, x);
    } else if SameSide(s, x, p, g) {
      hide SplayStep;
      ZigZigPays(s, x, p, g);
    } else {
      hide SplayStep;
      ZigZagPays(s, x, p, g);
    }
  }

  // --------------------------------------------------------------------------------- whole splays

  /** The turns of the loop of splay. */
  ghost function Turns(s: Shape, x: int): nat
    requires Tree(s) && Node(s, x)
    decreases |s.left| - (s.hi[x] - s.lo[x])
  {
    if s.parent[x] == -1 then 0
    else
      SplayStepTree(s, x);
      1 + Turns(SplayStep(s, x), x)
  }

  /** One splay: its turns and what it adds to the potential. */
  lemma {:induction false} SplayPays(s: Shape, x: int)
    requires Tree(s) && Node(s, x)
    ensures Tree(Splay(s, x)) && |Splay(s, x).left| == |s.left|
    ensures Turns(s, x) + Potential(Splay(s, x)) + 3 * Rank(Size(s, x))
            <= Potential(s) + 3 * Rank(|s.left|) + 1
    ensures s.parent[x] == -1 ==> Turns(s, x) == 0 && Splay(s, x) == s
    decreases |s.left| - (s.hi[x] - s.lo[x])
  {
    SplayKeepsTree(s, x);
    Within(s, x);
    RankUp(Size(s, x), |s.left|);
    if s.parent[x] != -1 {
      var t := SplayStep(s, x);
      TurnPays(s, x);
      SplayStepTree(s, x);
      SplayPays(t, x);
      Within(t, x);
      RankUp(Size(t, x), |t.left|);
      hide Tree, SplayStep, Potential, Rank, Size;
    }
  }

  ghost predicate SplayedTo(s: Shape, x: int, t: Shape) {
    Tree(s) && Node(s, x) && t == Splay(s, x)
  }

  /** The trees of a series of splays of the nodes xs. */
  ghost predicate IsSeries(ss: seq<Shape>, xs: seq<int>)
    requires |ss| == |xs| + 1
  {
    forall k :: 0 <= k < |xs| ==> SplayedTo(ss[k], xs[k], ss[k + 1])
  }

  /** The turns of the first m of them. */
  ghost function AllTurns(ss: seq<Shape>, xs: seq<int>, m: nat): nat
    requires |ss| == |xs| + 1 && IsSeries(ss, xs) && m <= |xs|
  {
    if m == 0 then 0
    else
      assert SplayedTo(ss[m - 1], xs[m - 1], ss[m]);
      AllTurns(ss, xs, m - 1) + Turns(ss[m - 1], xs[m - 1])
  }

  lemma {:induction false} RanksBound(s: Shape, n: nat)
    requires Tree(s) && n <= |s.left|
    ensures Ranks(s, n) <= n * Rank(|s.left|)
  {
    if n > 0 {
      RanksBound(s, n - 1);
      Within(s, n - 1);
      RankUp(Size(s, n - 1), |s.left|);
      assert n * Rank(|s.left|) == (n - 1) * Rank(|s.left|) + Rank(|s.left|);
    }
  }

  lemma {:induction false} SeriesPays(ss: seq<Shape>, xs: seq<int>, m: nat)
    requires |ss| == |xs| + 1 && IsSeries(ss, xs) && m <= |xs| && Tree(ss[0])
    ensures Tree(ss[m]) && |ss[m].left| == |ss[0].left|
    ensures AllTurns(ss, xs, m) + Potential(ss[m])
            <= Potential(ss[0]) + Budget(m, |ss[0].left|)
  {
    hide *;
    if m == 0 {
      SeriesStart(ss, xs, |ss[0].left|);
    } else {
      SeriesNext(ss, xs, m);
      SeriesPays(ss, xs, m - 1);
      BudgetNext(m, |ss[0].left|);
    }
  }

  lemma SeriesStart(ss: seq<Shape>, xs: seq<int>, n: nat)
    requires |ss| == |xs| + 1 && IsSeries(ss, xs)
    ensures AllTurns(ss, xs, 0) == 0 == Budget(0, n)
  {
    hide Rank;
  }

  lemma SeriesNext(ss: seq<Shape>, xs: seq<int>, m: nat)
    requires |ss| == |xs| + 1 && IsSeries(ss, xs) && 0 < m <= |xs|
    ensures Tree(ss[m - 1]) && Tree(ss[m]) && |ss[m].left| == |ss[m - 1].left|
    ensures AllTurns(ss, xs, m) + Potential(ss[m])
            <= AllTurns(ss, xs, m - 1) + Potential(ss[m - 1]) + 3 * Rank(|ss[m - 1].left|) + 1
  {
    assert SplayedTo(ss[m - 1], xs[m - 1], ss[m]);
    var before := AllTurns(ss, xs, m - 1);
    assert AllTurns(ss, xs, m) == before + Turns(ss[m - 1], xs[m - 1]);
    hide Tree, Splay, Turns, Potential, Rank, Size, IsSeries, AllTurns;
    SplayPays(ss[m - 1], xs[m - 1]);
  }

  /** What m splays of a tree of n nodes are given. */
  function Budget(m: nat, n: nat): nat {
    m * (3 * Rank(n) + 1)
  }

  lemma BudgetNext(m: nat, n: nat)
    requires m > 0
    ensures Budget(m, n) == Budget(m - 1, n) + 3 * Rank(n) + 1
  {
    hide Rank;
  }

  /** Any series of m splays of any nodes of a tree of n nodes takes at most
      m * (3 log n + 1) + n log n turns, whatever the shape it starts from. */
  lemma Amortized(ss: seq<Shape>, xs: seq<int>)
    requires |ss| == |xs| + 1 && IsSeries(ss, xs) && Tree(ss[0])
    ensures var n := |ss[0].left|;
            AllTurns(ss, xs, |xs|) <= |xs| * (3 * Rank(n) + 1) + n * Rank(n)
  {
    hide Rank, Tree, Ranks, AllTurns, IsSeries;
    SeriesPays(ss, xs, |xs|);
    RanksBound(ss[0], |ss[0].left|);
  }
}
