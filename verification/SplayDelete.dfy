/** Removing the top node of a splay tree (picosplay_delete_hint, picoquic/picosplay.c). */
module SplayDelete {
  import opened SplayShape

  /** Place o once the node at place r is gone, and back. NULL stays NULL. */
  function Closed(o: int, r: int): int { if o > r then o - 1 else o }

  function Opened(k: int, r: int): int { if k >= r then k + 1 else k }

  /** The only child of the top, or NULL. */
  function Only(s: Shape): int
    requires 0 <= s.top < |s.left| && s.top < |s.right|
  {
    if s.left[s.top] == -1 then s.right[s.top] else s.left[s.top]
  }

  ghost predicate Shrunk(s: Shape, t: Shape) {
    Sized(s) && Node(s, s.top) && Sized(t) && |t.left| == |s.left| - 1
  }

  ghost predicate Old(s: Shape, o: int) {
    Node(s, o) && o != s.top
  }

  // -------------------------------------------------------------- a top with at most one child

  /** What becomes of old node o when the top's only child takes its place. */
  ghost predicate KeptThin(s: Shape, t: Shape, o: int)
    requires Shrunk(s, t) && Old(s, o)
  {
    var r, k := s.top, Closed(o, s.top);
    && t.left[k] == Closed(s.left[o], r) && t.right[k] == Closed(s.right[o], r)
    && t.parent[k] == (if o == Only(s) then -1 else Closed(s.parent[o], r))
    && t.lo[k] == (if o > r then s.lo[o] - 1 else s.lo[o])
    && t.hi[k] == (if o > r then s.hi[o] - 1 else s.hi[o])
  }

  ghost function RemoveThin(s: Shape): Shape
    requires Sized(s) && Node(s, s.top)
  {
    var n, r := |s.left| - 1, s.top;
    Shape(Closed(Only(s), r),
          seq(n, k requires 0 <= k < n => Closed(s.left[Opened(k, r)], r)),
          seq(n, k requires 0 <= k < n => Closed(s.right[Opened(k, r)], r)),
          seq(n, k requires 0 <= k < n =>
            if Opened(k, r) == Only(s) then -1 else Closed(s.parent[Opened(k, r)], r)),
          seq(n, k requires 0 <= k < n =>
            if k >= r then s.lo[Opened(k, r)] - 1 else s.lo[Opened(k, r)]),
          seq(n, k requires 0 <= k < n =>
            if k >= r then s.hi[Opened(k, r)] - 1 else s.hi[Opened(k, r)]))
  }

  lemma ThinKept(s: Shape, o: int)
    requires Sized(s) && Node(s, s.top) && Old(s, o)
    ensures Shrunk(s, RemoveThin(s)) && KeptThin(s, RemoveThin(s), o)
  {
    assert Opened(Closed(o, s.top), s.top) == o;
  }

  /** With a missing child the top stands first or last. */
  ghost predicate AtEnd(s: Shape)
    requires Sized(s) && Node(s, s.top)
  {
    && ((s.left[s.top] == -1 && s.top == 0) || (s.right[s.top] == -1 && s.top == |s.left| - 1))
    && (Only(s) == -1 || (Old(s, Only(s)) && s.parent[Only(s)] == s.top))
  }

  lemma ThinSpan(s: Shape, t: Shape, o: int)
    requires Shrunk(s, t) && Old(s, o) && KeptThin(s, t, o) && AtEnd(s)
    requires Span(s, o) && (o > s.top ==> s.lo[o] > s.top) && (o < s.top ==> s.hi[o] <= s.top)
    ensures Span(t, Closed(o, s.top))
  {
  }

  lemma ThinLeft(s: Shape, t: Shape, o: int)
    requires Shrunk(s, t) && Old(s, o) && KeptThin(s, t, o) && AtEnd(s)
    requires LeftOk(s, o)
    requires s.left[o] != -1 ==> Old(s, s.left[o]) && KeptThin(s, t, s.left[o])
    ensures LeftOk(t, Closed(o, s.top))
  {
  }

  lemma ThinRight(s: Shape, t: Shape, o: int)
    requires Shrunk(s, t) && Old(s, o) && KeptThin(s, t, o) && AtEnd(s)
    requires RightOk(s, o)
    requires s.right[o] != -1 ==> Old(s, s.right[o]) && KeptThin(s, t, s.right[o])
    ensures RightOk(t, Closed(o, s.top))
  {
  }

  lemma ThinParent(s: Shape, t: Shape, o: int)
    requires Shrunk(s, t) && Old(s, o) && KeptThin(s, t, o) && AtEnd(s)
    requires t.top == Closed(Only(s), s.top) && ParentOk(s, o)
    requires s.parent[o] != -1 && s.parent[o] != s.top ==> KeptThin(s, t, s.parent[o])
    ensures ParentOk(t, Closed(o, s.top))
  {
  }

  lemma TopAtEnd(s: Shape)
    requires Tree(s) && |s.left| > 0 && (s.left[s.top] == -1 || s.right[s.top] == -1)
    ensures AtEnd(s)
  {
    TreeAround(s, s.top);
  }

  lemma NotTop(s: Shape, o: int)
    requires Tree(s) && Old(s, o)
    ensures s.left[o] == -1 || Old(s, s.left[o])
    ensures s.right[o] == -1 || Old(s, s.right[o])
  {
    TreeAround(s, o);
  }

  lemma ThinLocal(s: Shape, o: int)
    requires Tree(s) && |s.left| > 0 && AtEnd(s) && Old(s, o)
    ensures Shrunk(s, RemoveThin(s)) && Local(RemoveThin(s), Closed(o, s.top))
  {
    var t := RemoveThin(s);
    TreeAround(s, o);
    Apart(s, o);
    NotTop(s, o);
    hide Tree, KeptThin, AtEnd;
    ThinKept(s, o);
    if s.left[o] != -1 { ThinKept(s, s.left[o]); }
    if s.right[o] != -1 { ThinKept(s, s.right[o]); }
    if s.parent[o] != -1 && s.parent[o] != s.top { ThinKept(s, s.parent[o]); }
    ThinSpan(s, t, o);
    ThinLeft(s, t, o);
    ThinRight(s, t, o);
    ThinParent(s, t, o);
  }

  lemma ThinTop(s: Shape)
    requires Tree(s) && |s.left| > 0 && AtEnd(s)
    ensures Shrunk(s, RemoveThin(s)) && TopOk(RemoveThin(s))
  {
    TreeAround(s, s.top);
    if Only(s) != -1 {
      ThinKept(s, Only(s));
    }
  }

  lemma ThinTree(s: Shape)
    requires Tree(s) && |s.left| > 0 && (s.left[s.top] == -1 || s.right[s.top] == -1)
    ensures Shrunk(s, RemoveThin(s)) && Tree(RemoveThin(s))
  {
    var t := RemoveThin(s);
    TopAtEnd(s);
    ThinTop(s);
    hide RemoveThin, Local, TopOk, AtEnd;
    forall k | Node(t, k) ensures Local(t, k) {
      ThinLocal(s, Opened(k, s.top));
    }
  }

  // ------------------------------------------------------------------- a top with two children

  /** The successor of the top takes its place: it hands its right subtree to its parent. */
  ghost predicate KeptThick(s: Shape, t: Shape, o: int)
    requires Shrunk(s, t) && Old(s, o) && Node(s, s.top + 1) && o != s.top + 1
  {
    var r, x, k := s.top, s.top + 1, Closed(o, s.top);
    && t.left[k] == Closed(if s.left[o] == x then s.right[x] else s.left[o], r)
    && t.right[k] == Closed(s.right[o], r)
    && t.parent[k] == (if o == s.left[r] || o == s.right[r] then r
                       else if o == s.right[x] && x != s.right[r] then Closed(s.parent[x], r)
                       else Closed(s.parent[o], r))
    && t.lo[k] == (if s.lo[o] > x then s.lo[o] - 1 else s.lo[o])
    && t.hi[k] == (if o > r then s.hi[o] - 1 else s.hi[o])
  }

  ghost predicate NewTop(s: Shape, t: Shape)
    requires Shrunk(s, t) && Node(s, s.top + 1)
  {
    var r, x := s.top, s.top + 1;
    && t.top == r && t.left[r] == s.left[r] && t.parent[r] == -1
    && t.right[r] == Closed(if x == s.right[r] then s.right[x] else s.right[r], r)
    && t.lo[r] == 0 && t.hi[r] == |s.left| - 1
  }

  ghost function RemoveThick(s: Shape): Shape
    requires Sized(s) && Node(s, s.top) && Node(s, s.top + 1)
  {
    var n, r, x := |s.left| - 1, s.top, s.top + 1;
    Shape(r,
          seq(n, k requires 0 <= k < n =>
            if k == r then s.left[r]
            else Closed(if s.left[Opened(k, r)] == x then s.right[x] else s.left[Opened(k, r)], r)),
          seq(n, k requires 0 <= k < n =>
            if k == r then Closed(if x == s.right[r] then s.right[x] else s.right[r], r)
            else Closed(s.right[Opened(k, r)], r)),
          seq(n, k requires 0 <= k < n =>
            var o := Opened(k, r);
            if k == r then -1
            else if o == s.left[r] || o == s.right[r] then r
            else if o == s.right[x] && x != s.right[r] then Closed(s.parent[x], r)
            else Closed(s.parent[o], r)),
          seq(n, k requires 0 <= k < n =>
            if k == r then 0
            else if s.lo[Opened(k, r)] > x then s.lo[Opened(k, r)] - 1 else s.lo[Opened(k, r)]),
          seq(n, k requires 0 <= k < n =>
            if k == r then n
            else if k >= r then s.hi[Opened(k, r)] - 1 else s.hi[Opened(k, r)]))
  }

  lemma ThickKept(s: Shape, o: int)
    requires Sized(s) && Node(s, s.top) && Node(s, s.top + 1) && Old(s, o) && o != s.top + 1
    ensures Shrunk(s, RemoveThick(s)) && KeptThick(s, RemoveThick(s), o)
  {
    assert Opened(Closed(o, s.top), s.top) == o;
  }

  lemma ThickTop(s: Shape)
    requires Sized(s) && Node(s, s.top) && Node(s, s.top + 1)
    ensures Shrunk(s, RemoveThick(s)) && NewTop(s, RemoveThick(s))
  {
  }

  /** The successor of a top with two children: it has no left child, and is a left child
      unless it hangs on the top itself. */
  ghost predicate Successor(s: Shape)
    requires Sized(s) && Node(s, s.top)
  {
    var r, x := s.top, s.top + 1;
    && Node(s, x) && s.left[x] == -1 && s.lo[x] == x && s.left[r] != -1 && s.right[r] != -1
    && RightOk(s, x) && Old(s, s.left[r]) && s.left[r] < r && s.right[r] >= x
    && Node(s, s.parent[x]) && s.parent[x] != x
    && (s.parent[x] == r <==> s.right[r] == x)
    && (s.parent[x] != r ==> s.left[s.parent[x]] == x && s.parent[x] > x)
    && (s.right[x] != -1 ==> s.parent[s.right[x]] == x)
    && s.parent[s.left[r]] == r && Node(s, s.right[r]) && s.parent[s.right[r]] == r
  }

  /** A node whose interval begins just after the top hangs below the top on the left spine. */
  lemma OnSpine(s: Shape, x: int)
    requires Tree(s) && Node(s, x) && s.lo[x] == s.top + 1 && x > s.top
    ensures Node(s, s.parent[x]) && s.parent[x] != x
    ensures s.parent[x] == s.top <==> s.right[s.top] == x
    ensures s.parent[x] != s.top ==> s.left[s.parent[x]] == x && s.parent[x] > x
  {
    TreeAround(s, x);
    Liftable(s, x);
    TreeAround(s, s.top);
    TreeAround(s, s.parent[x]);
    Apart(s, s.parent[x]);
    hide Tree;
  }

  lemma TopSuccessor(s: Shape)
    requires Tree(s) && |s.left| > 0 && s.left[s.top] != -1 && s.right[s.top] != -1
    ensures Successor(s)
  {
    var x := s.top + 1;
    TreeAround(s, s.top);
    TreeAround(s, x);
    Apart(s, x);
    NoLeft(s, x);
    OnSpine(s, x);
    hide Tree;
  }

  lemma ThickSpan(s: Shape, t: Shape, o: int)
    requires Shrunk(s, t) && Successor(s) && Old(s, o) && o != s.top + 1 && KeptThick(s, t, o)
    requires Span(s, o) && (o > s.top ==> s.lo[o] > s.top) && (o < s.top ==> s.hi[o] <= s.top)
    ensures Span(t, Closed(o, s.top))
  {
  }

  lemma ThickLeft(s: Shape, t: Shape, o: int)
    requires Shrunk(s, t) && Successor(s) && Old(s, o) && o != s.top + 1 && KeptThick(s, t, o)
    requires LeftOk(s, o) && Span(s, o)
    requires (o > s.top ==> s.lo[o] > s.top) && (o < s.top ==> s.hi[o] <= s.top)
    requires s.left[o] != -1 && s.left[o] != s.top + 1 ==>
               Old(s, s.left[o]) && KeptThick(s, t, s.left[o]) && Span(s, s.left[o])
    requires s.left[o] == s.top + 1 && s.right[s.top + 1] != -1 ==>
               KeptThick(s, t, s.right[s.top + 1]) && Span(s, s.right[s.top + 1])
    ensures LeftOk(t, Closed(o, s.top))
  {
  }

  lemma ThickRight(s: Shape, t: Shape, o: int)
    requires Shrunk(s, t) && Successor(s) && Old(s, o) && o != s.top + 1 && KeptThick(s, t, o)
    requires RightOk(s, o) && s.right[o] != s.top + 1
    requires (o > s.top ==> s.lo[o] > s.top) && (o < s.top ==> s.hi[o] <= s.top)
    requires s.right[o] != -1 ==>
               Old(s, s.right[o]) && KeptThick(s, t, s.right[o]) && Span(s, s.right[o])
    ensures RightOk(t, Closed(o, s.top))
  {
  }

  lemma ThickParent(s: Shape, t: Shape, o: int)
    requires Shrunk(s, t) && Successor(s) && Old(s, o) && o != s.top + 1 && KeptThick(s, t, o)
    requires NewTop(s, t) && ParentOk(s, o)
    requires s.parent[s.top + 1] != s.top ==> KeptThick(s, t, s.parent[s.top + 1])
    requires Old(s, s.parent[o]) && s.parent[o] != s.top + 1 ==> KeptThick(s, t, s.parent[o])
    ensures ParentOk(t, Closed(o, s.top))
  {
  }

  lemma ThickNewTop(s: Shape, t: Shape)
    requires Shrunk(s, t) && Successor(s) && NewTop(s, t) && LeftOk(s, s.top) && RightOk(s, s.top)
    requires TopOk(s) && KeptThick(s, t, s.left[s.top])
    requires s.right[s.top] != s.top + 1 ==> KeptThick(s, t, s.right[s.top])
    requires s.right[s.top + 1] != -1 ==> KeptThick(s, t, s.right[s.top + 1])
    ensures Local(t, s.top) && TopOk(t)
  {
  }

  lemma KeptIfOld(s: Shape, o: int)
    requires Sized(s) && Node(s, s.top) && Node(s, s.top + 1)
    ensures Shrunk(s, RemoveThick(s))
    ensures Old(s, o) && o != s.top + 1 ==> KeptThick(s, RemoveThick(s), o)
  {
    ThickTop(s);
    if Old(s, o) && o != s.top + 1 { ThickKept(s, o); }
  }

  lemma LocalAt(s: Shape, o: int)
    requires Tree(s) && Node(s, o)
    ensures Local(s, o)
  {
  }

  lemma SpanIfNode(s: Shape, o: int)
    requires Tree(s)
    ensures Node(s, o) ==> Span(s, o)
  {
    if Node(s, o) { Within(s, o); }
  }

  lemma LeftIsOld(s: Shape, o: int)
    requires Tree(s) && Old(s, o)
    ensures s.left[o] == -1 || (Old(s, s.left[o]) && Span(s, s.left[o]))
  {
    NotTop(s, o);
    SpanIfNode(s, s.left[o]);
  }

  lemma RightIsOld(s: Shape, o: int)
    requires Tree(s) && Old(s, o)
    ensures s.right[o] == -1 || (Old(s, s.right[o]) && Span(s, s.right[o]))
  {
    NotTop(s, o);
    SpanIfNode(s, s.right[o]);
  }

  lemma ThickSpanAt(s: Shape, o: int)
    requires Tree(s) && |s.left| > 0 && Successor(s) && Old(s, o) && o != s.top + 1
    ensures Shrunk(s, RemoveThick(s)) && Span(RemoveThick(s), Closed(o, s.top))
  {
    Within(s, o);
    Apart(s, o);
    hide Tree, KeptThick;
    ThickKept(s, o);
    ThickSpan(s, RemoveThick(s), o);
  }

  lemma ThickLeftAt(s: Shape, o: int)
    requires Tree(s) && |s.left| > 0 && Successor(s) && Old(s, o) && o != s.top + 1
    ensures Shrunk(s, RemoveThick(s)) && LeftOk(RemoveThick(s), Closed(o, s.top))
  {
    var t, x := RemoveThick(s), s.top + 1;
    LocalAt(s, o);
    Apart(s, o);
    LeftIsOld(s, o);
    RightIsOld(s, x);
    hide Tree, KeptThick, RightOk, ParentOk, RemoveThick, Successor;
    KeptIfOld(s, o);
    KeptIfOld(s, s.left[o]);
    KeptIfOld(s, s.right[x]);
    ThickLeft(s, t, o);
  }

  lemma ThickRightAt(s: Shape, o: int)
    requires Tree(s) && |s.left| > 0 && Successor(s) && Old(s, o) && o != s.top + 1
    ensures Shrunk(s, RemoveThick(s)) && RightOk(RemoveThick(s), Closed(o, s.top))
  {
    LocalAt(s, o);
    Apart(s, o);
    RightIsOld(s, o);
    hide Tree, KeptThick, LeftOk, ParentOk, RemoveThick;
    KeptIfOld(s, o);
    KeptIfOld(s, s.right[o]);
    ThickRight(s, RemoveThick(s), o);
  }

  lemma ThickParentAt(s: Shape, o: int)
    requires Tree(s) && |s.left| > 0 && Successor(s) && Old(s, o) && o != s.top + 1
    ensures Shrunk(s, RemoveThick(s)) && ParentOk(RemoveThick(s), Closed(o, s.top))
  {
    var x := s.top + 1;
    LocalAt(s, o);
    hide Tree, KeptThick, NewTop, LeftOk, RightOk, RemoveThick, Span;
    ThickTop(s);
    KeptIfOld(s, o);
    KeptIfOld(s, s.parent[x]);
    KeptIfOld(s, s.parent[o]);
    ThickParent(s, RemoveThick(s), o);
  }

  lemma ThickTopAt(s: Shape)
    requires Tree(s) && |s.left| > 0 && Successor(s)
    ensures Shrunk(s, RemoveThick(s)) && Local(RemoveThick(s), s.top) && TopOk(RemoveThick(s))
  {
    var x := s.top + 1;
    TreeAround(s, s.top);
    hide Local, KeptThick, NewTop;
    ThickTop(s);
    ThickKept(s, s.left[s.top]);
    if s.right[s.top] != x { ThickKept(s, s.right[s.top]); }
    if s.right[x] != -1 { ThickKept(s, s.right[x]); }
    ThickNewTop(s, RemoveThick(s));
  }

  lemma ThickAt(s: Shape, o: int)
    requires Tree(s) && |s.left| > 0 && Successor(s) && Old(s, o) && o != s.top + 1
    ensures Shrunk(s, RemoveThick(s)) && Local(RemoveThick(s), Closed(o, s.top))
  {
    ThickSpanAt(s, o);
    ThickLeftAt(s, o);
    ThickRightAt(s, o);
    ThickParentAt(s, o);
    hide RemoveThick, Successor, Tree, Span, LeftOk, RightOk, ParentOk;
  }

  lemma ThickAll(s: Shape, k: int)
    requires Tree(s) && 0 <= k < |s.left| - 1 && Successor(s)
    ensures Shrunk(s, RemoveThick(s)) && Local(RemoveThick(s), k)
  {
    hide RemoveThick, Successor, Tree, Local;
    if k == s.top {
      ThickTopAt(s);
    } else {
      ThickAt(s, Opened(k, s.top));
    }
  }

  lemma ThickTree(s: Shape)
    requires Tree(s) && |s.left| > 0 && s.left[s.top] != -1 && s.right[s.top] != -1
    ensures Node(s, s.top + 1) && Shrunk(s, RemoveThick(s)) && Tree(RemoveThick(s))
  {
    TopSuccessor(s);
    var t := RemoveThick(s);
    ThickTopAt(s);
    hide RemoveThick, TopOk, Successor, Local;
    forall k | Node(t, k) ensures Local(t, k) {
      ThickAll(s, k);
    }
  }
}
