/** The list of received packet numbers (picoquic/sacks.c).

    Ranges are kept from the highest to the lowest, with at least one number missing
    between two neighbours. The empty list stands for the marker start == 2^64 - 1. */
module SackList {

  import opened Varint

  datatype Range = Range(lo: nat, hi: nat)

  ghost predicate Normal(s: seq<Range>) {
    && (forall i :: 0 <= i < |s| ==> s[i].lo <= s[i].hi)
    && (forall i, j {:trigger s[i].lo, s[j].hi} :: 0 <= i < j < |s| ==> s[j].hi + 1 < s[i].lo)
  }

  ghost predicate Has(s: seq<Range>, x: int) {
    exists i :: 0 <= i < |s| && s[i].lo <= x <= s[i].hi
  }

  /** Every number from lo to hi is in the list. */
  ghost predicate Contains(s: seq<Range>, lo: nat, hi: nat) {
    forall x :: lo <= x <= hi ==> Has(s, x)
  }

  lemma HasCons(r: Range, s: seq<Range>, x: int)
    ensures Has([r] + s, x) <==> r.lo <= x <= r.hi || Has(s, x)
  {
    var t := [r] + s;
    if r.lo <= x <= r.hi {
      assert t[0].lo <= x <= t[0].hi;
    }
    if Has(s, x) {
      var i :| 0 <= i < |s| && s[i].lo <= x <= s[i].hi;
      assert t[i + 1].lo <= x <= t[i + 1].hi;
    }
  }

  /** The highest number of a normal list is its first upper bound. */
  lemma HasBounds(s: seq<Range>, x: int)
    requires Normal(s) && Has(s, x)
    ensures s[|s| - 1].lo <= x <= s[0].hi
  {
  }

  // ------------------------------------------------------------------ reference insertion

  function Min(a: nat, b: nat): nat { if a < b then a else b }
  function Max(a: nat, b: nat): nat { if a < b then b else a }

  /** Insertion in one line per case: above everything, below the first range, or merged
      with it and carried on. */
  function Add(s: seq<Range>, lo: nat, hi: nat): seq<Range> {
    if s == [] || lo > s[0].hi + 1 then [Range(lo, hi)] + s
    else if hi + 1 < s[0].lo then [s[0]] + Add(s[1..], lo, hi)
    else Add(s[1..], Min(lo, s[0].lo), Max(hi, s[0].hi))
  }

  /** Insertion keeps the normal form, and its result starts at the larger bound. */
  lemma {:induction false} AddNormal(s: seq<Range>, lo: nat, hi: nat)
    requires Normal(s) && lo <= hi
    ensures Normal(Add(s, lo, hi))
    ensures Add(s, lo, hi) != []
    ensures Add(s, lo, hi)[0].hi == if s == [] then hi else Max(hi, s[0].hi)
    decreases |s|
  {
    if s == [] || lo > s[0].hi + 1 {
    } else if hi + 1 < s[0].lo {
      AddNormal(s[1..], lo, hi);
      NormalCons(s[0], Add(s[1..], lo, hi));
    } else {
      AddNormal(s[1..], Min(lo, s[0].lo), Max(hi, s[0].hi));
    }
  }

  lemma NormalCons(r: Range, s: seq<Range>)
    requires Normal(s) && r.lo <= r.hi
    requires s != [] ==> s[0].hi + 1 < r.lo
    ensures Normal([r] + s)
  {
    var t := [r] + s;
    forall i, j | 0 <= i < j < |t| ensures t[j].hi + 1 < t[i].lo {
      if i == 0 && j > 1 {
        assert s[j - 1].hi + 1 < s[0].lo;
      }
    }
  }

  /** Insertion adds exactly the numbers from lo to hi. */
  lemma {:induction false} AddHas(s: seq<Range>, lo: nat, hi: nat, x: int)
    requires Normal(s) && lo <= hi
    ensures Has(Add(s, lo, hi), x) <==> Has(s, x) || lo <= x <= hi
    decreases |s|
  {
    if s != [] {
      HasCons(s[0], s[1..], x);
      assert [s[0]] + s[1..] == s;
    }
    if s == [] || lo > s[0].hi + 1 {
      HasCons(Range(lo, hi), s, x);
    } else if hi + 1 < s[0].lo {
      AddHas(s[1..], lo, hi, x);
      HasCons(s[0], Add(s[1..], lo, hi), x);
    } else {
      AddHas(s[1..], Min(lo, s[0].lo), Max(hi, s[0].hi), x);
    }
  }

  // ------------------------------------------------------------------------ canonical form

  ghost predicate SameNumbers(s: seq<Range>, t: seq<Range>) {
    forall x :: Has(s, x) <==> Has(t, x)
  }

  /** Two normal lists over the same numbers share their first range. */
  lemma SameHead(s: seq<Range>, t: seq<Range>)
    requires Normal(s) && Normal(t) && SameNumbers(s, t) && s != []
    ensures t != [] && s[0] == t[0]
  {
    assert Has(s, s[0].hi) && Has(s, s[0].lo);
    assert Has(t, s[0].hi);
    assert Has(t, t[0].hi) && Has(t, t[0].lo);
    HasBounds(t, s[0].hi);
    HasBounds(s, t[0].hi);
    LowBound(s, t);
    LowBound(t, s);
  }

  lemma LowBound(s: seq<Range>, t: seq<Range>)
    requires Normal(s) && Normal(t) && SameNumbers(s, t) && s != [] && t != []
    requires s[0].hi == t[0].hi
    ensures t[0].lo <= s[0].lo
  {
    JustBelow(t);
    var x := t[0].lo - 1;
    assert Has(s, x) <==> Has(t, x);
  }

  /** The number just below the first range is missing. */
  lemma JustBelow(s: seq<Range>)
    requires Normal(s) && s != []
    ensures !Has(s, s[0].lo - 1)
  {
    forall i | 0 <= i < |s| ensures !(s[i].lo <= s[0].lo - 1 <= s[i].hi) {
      if i > 0 {
        assert s[i].hi + 1 < s[0].lo;
      }
    }
  }

  lemma HasLow(s: seq<Range>)
    requires Normal(s)
    ensures s == [] || Has(s, s[0].lo)
  {
  }

  /** A set of numbers has only one normal list. */
  lemma {:induction false} Canonical(s: seq<Range>, t: seq<Range>)
    requires Normal(s) && Normal(t) && SameNumbers(s, t)
    ensures s == t
    decreases |s|
  {
    if s == [] {
      HasLow(t);
    } else {
      SameHead(s, t);
      assert s == [s[0]] + s[1..] && t == [t[0]] + t[1..];
      forall x ensures Has(s[1..], x) <==> Has(t[1..], x) {
        HasCons(s[0], s[1..], x);
        HasCons(t[0], t[1..], x);
        TailBelow(s, x);
        TailBelow(t, x);
      }
      Canonical(s[1..], t[1..]);
    }
  }

  lemma TailBelow(s: seq<Range>, x: int)
    requires Normal(s) && s != []
    ensures Has(s[1..], x) ==> x < s[0].lo
  {
    if Has(s[1..], x) {
      var i :| 0 <= i < |s[1..]| && s[1..][i].lo <= x <= s[1..][i].hi;
      assert s[i + 1].hi + 1 < s[0].lo;
    }
  }

  /** The reference insertion is the only normal list over the union. */
  lemma AddUnique(s: seq<Range>, lo: nat, hi: nat, t: seq<Range>)
    requires Normal(s) && lo <= hi && Normal(t)
    requires forall x :: Has(t, x) <==> Has(s, x) || lo <= x <= hi
    ensures t == Add(s, lo, hi)
  {
    AddNormal(s, lo, hi);
    forall x ensures Has(t, x) <==> Has(Add(s, lo, hi), x) {
      AddHas(s, lo, hi, x);
    }
    Canonical(t, Add(s, lo, hi));
  }

  // ------------------------------------------------------------------- the in-place version

  /** A number strictly between two neighbours of a normal list is missing. */
  lemma Between(s: seq<Range>, i: nat, x: int)
    requires Normal(s) && i <= |s|
    requires i < |s| ==> s[i].hi < x
    requires i > 0 ==> x < s[i - 1].lo
    ensures !Has(s, x)
  {
    forall j | 0 <= j < |s| ensures !(s[j].lo <= x <= s[j].hi) {
      if j < i - 1 {
        assert s[i - 1].hi + 1 < s[j].lo;
      } else if j > i {
        assert s[j].hi + 1 < s[i].lo;
      }
    }
  }

  /** Replacing ranges i and i + 1 by their hull adds the numbers between them. */
  lemma MergeHas(s: seq<Range>, i: nat, x: int)
    requires i + 1 < |s| && s[i + 1].lo <= s[i + 1].hi < s[i].lo <= s[i].hi
    ensures Has(s[..i] + [Range(s[i + 1].lo, s[i].hi)] + s[i + 2..], x)
       <==> Has(s, x) || s[i + 1].hi < x < s[i].lo
  {
    var r := Range(s[i + 1].lo, s[i].hi);
    HasSplit(s[..i], [r] + s[i + 2..], x);
    HasCons(r, s[i + 2..], x);
    HasSplit(s[..i], s[i..], x);
    HasCons(s[i], s[i + 1..], x);
    HasCons(s[i + 1], s[i + 2..], x);
    assert s[..i] + s[i..] == s && [s[i]] + s[i + 1..] == s[i..];
    assert [s[i + 1]] + s[i + 2..] == s[i + 1..];
    assert s[..i] + [r] + s[i + 2..] == s[..i] + ([r] + s[i + 2..]);
  }

  lemma HasSplit(s: seq<Range>, t: seq<Range>, x: int)
    ensures Has(s + t, x) <==> Has(s, x) || Has(t, x)
  {
    var u := s + t;
    if Has(s, x) {
      var i :| 0 <= i < |s| && s[i].lo <= x <= s[i].hi;
      assert u[i].lo <= x <= u[i].hi;
    }
    if Has(t, x) {
      var i :| 0 <= i < |t| && t[i].lo <= x <= t[i].hi;
      assert u[|s| + i].lo <= x <= u[|s| + i].hi;
    }
  }

  /** Replacing range i by a larger one adds the numbers of the larger one. */
  lemma WidenHas(s: seq<Range>, i: nat, r: Range, x: int)
    requires i < |s| && r.lo <= s[i].lo && s[i].hi <= r.hi
    ensures Has(s[i := r], x) <==> Has(s, x) || r.lo <= x <= r.hi
  {
    HasSplit(s[..i], s[i..], x);
    HasCons(s[i], s[i + 1..], x);
    HasSplit(s[..i], [r] + s[i + 1..], x);
    HasCons(r, s[i + 1..], x);
    assert s == s[..i] + s[i..] && s[i..] == [s[i]] + s[i + 1..];
    assert s[i := r] == s[..i] + ([r] + s[i + 1..]);
  }

  /** Inserting a new range at position i adds its numbers. */
  lemma InsertHas(s: seq<Range>, i: nat, r: Range, x: int)
    requires i <= |s|
    ensures Has(s[..i] + [r] + s[i..], x) <==> Has(s, x) || r.lo <= x <= r.hi
  {
    HasSplit(s[..i], s[i..], x);
    HasSplit(s[..i], [r] + s[i..], x);
    HasCons(r, s[i..], x);
    assert s == s[..i] + s[i..];
    assert s[..i] + [r] + s[i..] == s[..i] + ([r] + s[i..]);
  }

  /** Two insertions over the same numbers give the same list. */
  lemma AddSame(s: seq<Range>, lo: nat, hi: nat, t: seq<Range>, hi': nat)
    requires Normal(s) && Normal(t) && lo <= hi && lo <= hi'
    requires forall x :: Has(s, x) || lo <= x <= hi <==> Has(t, x) || lo <= x <= hi'
    ensures Add(s, lo, hi) == Add(t, lo, hi')
  {
    AddNormal(s, lo, hi);
    AddNormal(t, lo, hi');
    forall x ensures Has(Add(s, lo, hi), x) <==> Has(Add(t, lo, hi'), x) {
      AddHas(s, lo, hi, x);
      AddHas(t, lo, hi', x);
    }
    Canonical(Add(s, lo, hi), Add(t, lo, hi'));
  }

  /** The situation at the head of the loop: range i is examined, the part of the range
      still to be inserted is lo..top, and everything before i lies above it. */
  ghost predicate At(s: seq<Range>, i: nat, lo: nat, top: nat) {
    Normal(s) && i <= |s| && lo <= top && (i > 0 ==> top < s[i - 1].lo)
  }

  /** The hole between ranges i and i - 1 is filled: they become one. */
  lemma FillHole(s: seq<Range>, i: nat, lo: nat, top: nat)
    requires At(s, i, lo, top) && 0 < i < |s| && lo <= s[i].hi + 1 <= top
    requires top + 1 >= s[i - 1].lo
    ensures var t := s[..i - 1] + [Range(s[i].lo, s[i - 1].hi)] + s[i + 1..];
            Normal(t) && Add(t, lo, top) == Add(s, lo, top)
            && t[i - 1] == Range(s[i].lo, s[i - 1].hi) && |t| == |s| - 1
  {
    var t := s[..i - 1] + [Range(s[i].lo, s[i - 1].hi)] + s[i + 1..];
    assert s[i].hi < s[i - 1].lo;
    forall j, k | 0 <= j < k < |t| ensures t[k].hi + 1 < t[j].lo {
      assert t[k].hi == if k < i then s[k].hi else s[k + 1].hi;
      assert t[j].lo == if j < i - 1 then s[j].lo else s[j + 1].lo;
    }
    forall x ensures Has(t, x) <==> Has(s, x) || s[i].hi < x <= top {
      MergeHas(s, i - 1, x);
    }
    AddSame(t, lo, top, s, top);
  }

  /** Range i is extended up to top. */
  lemma ExtendUp(s: seq<Range>, i: nat, lo: nat, top: nat)
    requires At(s, i, lo, top) && i < |s| && lo <= s[i].hi + 1 <= top
    requires i > 0 ==> top + 1 < s[i - 1].lo
    ensures var t := s[i := Range(s[i].lo, top)];
            Normal(t) && Add(t, lo, top) == Add(s, lo, top)
  {
    var t := s[i := Range(s[i].lo, top)];
    forall j, k | 0 <= j < k < |t| ensures t[k].hi + 1 < t[j].lo {
      assert s[k].hi + 1 < s[j].lo;
      if k == i && j < i - 1 {
        assert s[i - 1].hi + 1 < s[j].lo;
      }
    }
    forall x ensures Has(t, x) <==> Has(s, x) || s[i].lo <= x <= top {
      WidenHas(s, i, Range(s[i].lo, top), x);
    }
    AddSame(t, lo, top, s, top);
  }

  /** The rest of the range lies inside range i. */
  lemma Inside(s: seq<Range>, i: nat, lo: nat, top: nat)
    requires Normal(s) && i < |s| && s[i].lo <= lo <= top <= s[i].hi
    ensures Add(s, lo, top) == s && Contains(s, lo, top)
  {
    forall x | lo <= x <= top ensures Has(s, x) {
      assert s[i].lo <= x <= s[i].hi;
    }
    AddUnique(s, lo, top, s);
  }

  /** The last range is extended down to lo. */
  lemma ExtendLast(s: seq<Range>, lo: nat, top: nat)
    requires Normal(s) && s != []
    requires var r := s[|s| - 1]; lo < r.lo <= top <= r.hi
    ensures var t := s[|s| - 1 := Range(lo, s[|s| - 1].hi)];
            Normal(t) && Add(s, lo, top) == t
  {
    var r := Range(lo, s[|s| - 1].hi);
    var t := s[|s| - 1 := r];
    forall x ensures Has(t, x) <==> Has(s, x) || lo <= x <= top {
      WidenHas(s, |s| - 1, r, x);
      assert s[|s| - 1].lo <= x <= s[|s| - 1].hi ==> Has(s, x);
    }
    AddUnique(s, lo, top, t);
  }

  /** What range i already holds need not be inserted again. */
  lemma Continue(s: seq<Range>, i: nat, lo: nat, top: nat)
    requires Normal(s) && i < |s| && lo < s[i].lo <= top <= s[i].hi
    ensures Add(s, lo, s[i].lo - 1) == Add(s, lo, top)
  {
    assert forall x :: s[i].lo <= x <= top ==> Has(s, x);
    AddSame(s, lo, s[i].lo - 1, s, top);
  }

  /** The range touches range i - 1 and leaves a gap above range i: it extends i - 1. */
  lemma ExtendPrevious(s: seq<Range>, i: nat, lo: nat, top: nat)
    requires At(s, i, lo, top) && i > 0 && top + 1 >= s[i - 1].lo
    requires i < |s| ==> lo > s[i].hi + 1
    ensures var t := s[i - 1 := Range(lo, s[i - 1].hi)];
            Normal(t) && Add(s, lo, top) == t
  {
    var r := Range(lo, s[i - 1].hi);
    var t := s[i - 1 := r];
    forall j, k | 0 <= j < k < |t| ensures t[k].hi + 1 < t[j].lo {
      assert s[k].hi + 1 < s[j].lo;
      if j == i - 1 && k > i {
        assert s[k].hi + 1 < s[i].lo;
      }
    }
    forall x ensures Has(t, x) <==> Has(s, x) || lo <= x <= top {
      WidenHas(s, i - 1, r, x);
      assert s[i - 1].lo <= x <= s[i - 1].hi ==> Has(s, x);
    }
    AddUnique(s, lo, top, t);
  }

  lemma InsertNormal(s: seq<Range>, i: nat, lo: nat, top: nat)
    requires At(s, i, lo, top)
    requires i > 0 ==> top + 1 < s[i - 1].lo
    requires i < |s| ==> lo > s[i].hi + 1
    ensures Normal(s[..i] + [Range(lo, top)] + s[i..])
  {
    var t := s[..i] + [Range(lo, top)] + s[i..];
    forall j, k | 0 <= j < k < |t| ensures t[k].hi + 1 < t[j].lo {
      if k == i {
        assert t[j] == s[j] && (j < i - 1 ==> s[i - 1].hi + 1 < s[j].lo);
      } else if j == i {
        assert t[k] == s[k - 1] && (k > i + 1 ==> s[k - 1].hi + 1 < s[i].lo);
      }
    }
  }

  /** The range touches neither neighbour: it becomes a range of its own. */
  lemma NewRange(s: seq<Range>, i: nat, lo: nat, top: nat)
    requires At(s, i, lo, top)
    requires i > 0 ==> top + 1 < s[i - 1].lo
    requires i < |s| ==> lo > s[i].hi + 1
    ensures var t := s[..i] + [Range(lo, top)] + s[i..];
            Normal(t) && Add(s, lo, top) == t
  {
    InsertNormal(s, i, lo, top);
    var t := s[..i] + [Range(lo, top)] + s[i..];
    hide Normal, Has, Add;
    forall x ensures Has(t, x) <==> Has(s, x) || lo <= x <= top {
      InsertHas(s, i, Range(lo, top), x);
    }
    AddUnique(s, lo, top, t);
  }

  /** A number of the range that is missing shows that the range is not contained. */
  lemma NotContained(s: seq<Range>, i: nat, lo: nat, top: nat)
    requires At(s, i, lo, top)
    requires i < |s| ==> top > s[i].hi || lo < s[i].lo <= top
    ensures !Contains(s, lo, top)
  {
    if i < |s| && top <= s[i].hi {
      GapBelow(s, i);
      assert lo <= s[i].lo - 1 <= top;
    } else {
      Between(s, i, top);
    }
  }

  lemma GapBelow(s: seq<Range>, i: nat)
    requires Normal(s) && i < |s|
    ensures !Has(s, s[i].lo - 1)
  {
    forall j | 0 <= j < |s| ensures !(s[j].lo <= s[i].lo - 1 <= s[j].hi) {
      if i < j {
        assert s[j].hi + 1 < s[i].lo;
      } else if j < i {
        assert s[i].hi + 1 < s[j].lo;
      }
    }
  }

  class Sacks {
    var items: seq<Range>

    constructor ()
      ensures items == []
    {
      items := [];
    }

    /** The branch of the update that extends range i up to top, joining it with the range
        above when that fills the hole between them. */
    method Grow(i: nat, lo: nat, top: nat) returns (j: nat)
      requires At(items, i, lo, top) && i < |items| && lo <= items[i].hi + 1 <= top
      modifies this
      ensures Normal(items) && j < |items| && |items| - j == |old(items)| - i
      ensures items[j].lo == old(items)[i].lo <= top <= items[j].hi
      ensures Add(items, lo, top) == Add(old(items), lo, top)
    {
      var sack := items[i];
      if i > 0 && top + 1 >= items[i - 1].lo {
        FillHole(items, i, lo, top);
        items := items[..i - 1] + [Range(sack.lo, items[i - 1].hi)] + items[i + 1..];
        j := i - 1;
      } else {
        ExtendUp(items, i, lo, top);
        items := items[i := Range(sack.lo, top)];
        j := i;
      }
    }

    /** The branches that end below range i: the rest of the range is in it, or is what
        the last range is extended by. Otherwise the ranges after i must be visited. */
    method Lower(i: nat, lo: nat, top: nat) returns (done: bool)
      requires Normal(items) && i < |items| && lo <= top && items[i].lo <= top <= items[i].hi
      modifies this
      ensures done ==> Normal(items) && items == Add(old(items), lo, top)
      ensures !done ==> items == old(items) && i + 1 < |items| && lo < items[i].lo
                        && Add(items, lo, items[i].lo - 1) == Add(items, lo, top)
    {
      if lo >= items[i].lo {
        Inside(items, i, lo, top);
        return true;
      } else if i == |items| - 1 {
        ExtendLast(items, lo, top);
        items := items[i := Range(lo, items[i].hi)];
        return true;
      }
      Continue(items, i, lo, top);
      return false;
    }

    /** The branches that find a hole above range i: it is closed from the range above, or
        it gets a range of its own. */
    method Place(i: nat, lo: nat, top: nat)
      requires At(items, i, lo, top) && (i < |items| ==> lo > items[i].hi + 1)
      modifies this
      ensures Normal(items) && items == Add(old(items), lo, top)
    {
      if i > 0 && top + 1 >= items[i - 1].lo {
        ExtendPrevious(items, i, lo, top);
        items := items[i - 1 := Range(lo, items[i - 1].hi)];
      } else {
        NewRange(items, i, lo, top);
        items := items[..i] + [Range(lo, top)] + items[i..];
      }
    }

    /** One turn of the loop of picoquic_update_sack_list: `isNew` where it sets ret to 0. */
    method Visit(i: nat, lo: nat, top: nat) returns (done: bool, isNew: bool, j: nat, rest: nat)
      requires At(items, i, lo, top) && i < |items|
      modifies this
      ensures done ==> Normal(items) && items == Add(old(items), lo, top)
      ensures !done ==> At(items, j, lo, rest) && j < |items|
                        && |items| - j < |old(items)| - i
                        && Add(items, lo, rest) == Add(old(items), lo, top)
      ensures isNew ==> !Contains(old(items), lo, top)
      ensures !isNew ==> items == old(items)
                          && if done then Contains(items, lo, top) else rest == top
    {
      hide Normal, Contains, Add;
      var sack := items[i];
      done, isNew, j, rest := true, true, i, top;
      if top > sack.hi {
        NotContained(items, i, lo, top);
        if lo > sack.hi + 1 {
          Place(i, lo, top);
        } else {
          j := Grow(i, lo, top);
          done := Lower(j, lo, top);
          if !done { rest, j := items[j].lo - 1, j + 1; }
        }
      } else if top >= sack.lo {
        if lo < sack.lo {
          NotContained(items, i, lo, top);
          done := Lower(i, lo, top);
          if !done { rest, j := sack.lo - 1, i + 1; }
        } else {
          Inside(items, i, lo, top);
          isNew := false;
        }
      } else if i == |items| - 1 {
        NotContained(items, i + 1, lo, top);
        Place(i + 1, lo, top);
      } else {
        done, isNew, j := false, false, i + 1;
      }
    }

    /** picoquic_update_sack_list: returns 1 for a range already there, 0 otherwise. */
    method Update(lo: nat, hi: nat) returns (ret: int)
      requires Normal(items) && lo <= hi
      modifies this
      ensures Normal(items) && items == Add(old(items), lo, hi)
      ensures ret == if Contains(old(items), lo, hi) then 1 else 0
    {
      if items == [] {
        items := [Range(lo, hi)];
        assert !Has(old(items), lo);
        return 0;
      }
      ret := 1;
      var top: nat, i: nat, done := hi, 0, false;
      ghost var contained := Contains(items, lo, hi);
      while !done
        invariant done ==> Normal(items) && items == Add(old(items), lo, hi)
        invariant !done ==> At(items, i, lo, top) && i < |items|
                            && Add(items, lo, top) == Add(old(items), lo, hi)
        invariant ret == 0 ==> !contained
        invariant ret != 0 ==> ret == 1 && items == old(items)
                               && if done then contained else top == hi
        decreases !done, |items| - i
      {
        var isNew;
        done, isNew, i, top := Visit(i, lo, top);
        if isNew { ret := 0; }
      }
    }

    /** picoquic_record_pn_received: `newest` says whether the arrival time is recorded as
        the time of the largest number received. */
    method Record(pn: nat) returns (ret: int, newest: bool)
      requires Normal(items)
      modifies this
      ensures Normal(items) && items == Add(old(items), pn, pn)
      ensures ret == if Has(old(items), pn) then 1 else 0
      ensures newest <==> forall x :: Has(old(items), x) ==> x < pn
    {
      if items == [] {
        items := [Range(pn, pn)];
        return 0, true;
      }
      newest := pn > items[0].hi;
      assert Has(items, items[0].hi);
      ret := Update(pn, pn);
    }

    /** picoquic_is_pn_already_received. */
    method IsReceived(pn: nat) returns (r: bool)
      requires Normal(items)
      ensures r <==> Has(items, pn)
    {
      var i := 0;
      while i < |items|
        invariant i <= |items|
        invariant forall j :: 0 <= j < i ==> pn < items[j].lo
      {
        if pn > items[i].hi {
          Between(items, i, pn);
          return false;
        } else if pn >= items[i].lo {
          return true;
        }
        i := i + 1;
      }
      return false;
    }

    /** picoquic_check_sack_list: -1 when the whole range is already there, else 0. */
    method Check(lo: nat, hi: nat) returns (ret: int)
      requires Normal(items) && lo <= hi
      ensures ret == if Contains(items, lo, hi) then -1 else 0
    {
      if items == [] {
        assert !Has(items, lo);
        return 0;
      }
      var i := 0;
      while true
        invariant At(items, i, lo, hi) && i < |items|
        decreases |items| - i
      {
        if hi > items[i].hi {
          NotContained(items, i, lo, hi);
          return 0;
        } else if hi >= items[i].lo {
          if lo < items[i].lo {
            NotContained(items, i, lo, hi);
            return 0;
          }
          Inside(items, i, lo, hi);
          return -1;
        } else if i == |items| - 1 {
          NotContained(items, i + 1, lo, hi);
          return 0;
        }
        i := i + 1;
      }
    }
  }
}
