/** The memory copy and fill offered to plugins (picoquic/memcpy.c).

    Memory is one array of bytes whose first byte has address `base`; pointers are indices
    into it. A word is four bytes, read in full before any of them is written. */
module MemMove {
  import opened Varint

  const WSIZE := 4

  /** memmove: n bytes at src end up at dst, as they were before. */
  ghost function Moved(m: seq<byte>, dst: nat, src: nat, n: nat): (r: seq<byte>)
    requires dst + n <= |m| && src + n <= |m|
    ensures |r| == |m|
  {
    m[..dst] + m[src..src + n] + m[dst + n..]
  }

  lemma MovedAt(m: seq<byte>, dst: nat, src: nat, n: nat, i: nat)
    requires dst + n <= |m| && src + n <= |m| && i < |m|
    ensures Moved(m, dst, src, n)[i] == if dst <= i < dst + n then m[src + (i - dst)] else m[i]
  {
  }

  lemma ForwardAt(m: seq<byte>, dst: nat, src: nat, k: nat, n: nat, i: nat)
    requires k <= n && dst + n <= |m| && src + n <= |m| && dst <= src && i < |m|
    ensures Moved(Moved(m, dst, src, k), dst + k, src + k, n - k)[i] == Moved(m, dst, src, n)[i]
  {
    hide Moved;
    MovedAt(m, dst, src, n, i);
    MovedAt(Moved(m, dst, src, k), dst + k, src + k, n - k, i);
    MovedAt(m, dst, src, k, if dst + k <= i < dst + n then src + (i - dst) else i);
  }

  /** A move towards lower addresses can be done from the front, ... */
  lemma MovedForward(m: seq<byte>, dst: nat, src: nat, k: nat, n: nat)
    requires k <= n && dst + n <= |m| && src + n <= |m| && dst <= src
    ensures Moved(Moved(m, dst, src, k), dst + k, src + k, n - k) == Moved(m, dst, src, n)
  {
    var l, r := Moved(Moved(m, dst, src, k), dst + k, src + k, n - k), Moved(m, dst, src, n);
    hide Moved;
    forall i: nat | i < |m| ensures l[i] == r[i] {
      ForwardAt(m, dst, src, k, n, i);
    }
  }

  /** ... and one towards higher addresses from the back. */
  lemma MovedBackward(m: seq<byte>, dst: nat, src: nat, k: nat, n: nat)
    requires k <= n && dst + n <= |m| && src + n <= |m| && src <= dst
    ensures Moved(Moved(m, dst + (n - k), src + (n - k), k), dst, src, n - k) == Moved(m, dst, src, n)
  {
    var j := n - k;
    var part := Moved(m, dst + j, src + j, k);
    var l, r := Moved(part, dst, src, j), Moved(m, dst, src, n);
    hide Moved;
    forall i: nat | i < |m| ensures l[i] == r[i] {
      MovedAt(m, dst, src, n, i);
      MovedAt(part, dst, src, j, i);
      MovedAt(m, dst + j, src + j, k, if dst <= i < dst + j then src + (i - dst) else i);
    }
  }

  lemma MovedNothing(m: seq<byte>, dst: nat, src: nat)
    requires dst <= |m| && src <= |m|
    ensures Moved(m, dst, src, 0) == m
  {
  }

  method StoreByte(a: array<byte>, dst: nat, src: nat)
    requires dst < a.Length && src < a.Length
    modifies a
    ensures a[..] == Moved(old(a[..]), dst, src, 1)
  {
    a[dst] := a[src];
  }

  method StoreWord(a: array<byte>, dst: nat, src: nat)
    requires dst + WSIZE <= a.Length && src + WSIZE <= a.Length
    modifies a
    ensures a[..] == Moved(old(a[..]), dst, src, WSIZE)
  {
    a[dst], a[dst + 1], a[dst + 2], a[dst + 3] := a[src], a[src + 1], a[src + 2], a[src + 3];
    ghost var m := old(a[..]);
    forall i: nat | i < a.Length ensures a[i] == Moved(m, dst, src, WSIZE)[i] {
      MovedAt(m, dst, src, WSIZE, i);
    }
  }

  method BytesForward(a: array<byte>, dst: nat, src: nat, t: nat)
    requires dst + t <= a.Length && src + t <= a.Length && dst <= src
    modifies a
    ensures a[..] == Moved(old(a[..]), dst, src, t)
  {
    hide Moved;
    ghost var m := a[..];
    var i: nat := 0;
    MovedNothing(m, dst, src);
    while i < t
      invariant i <= t && a[..] == Moved(m, dst, src, i)
    {
      StoreByte(a, dst + i, src + i);
      MovedForward(m, dst, src, i, i + 1);
      i := i + 1;
    }
  }

  method WordsForward(a: array<byte>, dst: nat, src: nat, t: nat)
    requires dst + WSIZE * t <= a.Length && src + WSIZE * t <= a.Length && dst <= src
    modifies a
    ensures a[..] == Moved(old(a[..]), dst, src, WSIZE * t)
  {
    hide Moved;
    ghost var m := a[..];
    var i: nat := 0;
    MovedNothing(m, dst, src);
    while i < t
      invariant i <= t && a[..] == Moved(m, dst, src, WSIZE * i)
    {
      StoreWord(a, dst + WSIZE * i, src + WSIZE * i);
      MovedForward(m, dst, src, WSIZE * i, WSIZE * (i + 1));
      i := i + 1;
    }
  }

  /** t bytes ending at dst and src. */
  method BytesBackward(a: array<byte>, dst: nat, src: nat, t: nat)
    requires t <= src <= dst <= a.Length
    modifies a
    ensures a[..] == Moved(old(a[..]), dst - t, src - t, t)
  {
    hide Moved;
    ghost var m := a[..];
    var i: nat := 0;
    MovedNothing(m, dst, src);
    while i < t
      invariant i <= t && a[..] == Moved(m, dst - i, src - i, i)
    {
      StoreByte(a, dst - i - 1, src - i - 1);
      MovedBackward(m, dst - (i + 1), src - (i + 1), i, i + 1);
      i := i + 1;
    }
  }

  method WordsBackward(a: array<byte>, dst: nat, src: nat, t: nat)
    requires WSIZE * t <= src <= dst <= a.Length
    modifies a
    ensures a[..] == Moved(old(a[..]), dst - WSIZE * t, src - WSIZE * t, WSIZE * t)
  {
    hide Moved;
    ghost var m := a[..];
    var i: nat := 0;
    MovedNothing(m, dst, src);
    while i < t
      invariant i <= t && a[..] == Moved(m, dst - WSIZE * i, src - WSIZE * i, WSIZE * i)
    {
      StoreWord(a, dst - WSIZE * i - WSIZE, src - WSIZE * i - WSIZE);
      MovedBackward(m, dst - WSIZE * (i + 1), src - WSIZE * (i + 1), WSIZE * i, WSIZE * (i + 1));
      i := i + 1;
    }
  }

  /** The number of bytes copied singly to align both operands: all of them when the low bits
      of the addresses differ or there is no whole word to copy. */
  function HeadForward(d: nat, s: nat, length: nat): (t: nat)
    ensures t <= length && (length > t ==> (d + t) % WSIZE == 0 && (s + t) % WSIZE == 0)
  {
    if s % WSIZE == 0 && d % WSIZE == 0 then 0
    else if s % WSIZE != d % WSIZE || length < WSIZE then length
    else WSIZE - s % WSIZE
  }

  function HeadBackward(d: nat, s: nat, length: nat): (t: nat)
    requires length <= d && length <= s
    ensures t <= length && (length > t ==> (d - t) % WSIZE == 0 && (s - t) % WSIZE == 0)
  {
    if s % WSIZE == 0 && d % WSIZE == 0 then 0
    else if s % WSIZE != d % WSIZE || length <= WSIZE then length
    else s % WSIZE
  }

  method CopyForward(a: array<byte>, base: nat, dst: nat, src: nat, length: nat)
    requires dst + length <= a.Length && src + length <= a.Length && dst < src
    modifies a
    ensures a[..] == Moved(old(a[..]), dst, src, length)
  {
    hide Moved;
    ghost var m := a[..];
    var head := HeadForward(base + dst, base + src, length);
    BytesForward(a, dst, src, head);
    var words: nat := (length - head) / WSIZE;
    WordsForward(a, dst + head, src + head, words);
    MovedForward(m, dst, src, head, head + WSIZE * words);
    BytesForward(a, dst + head + WSIZE * words, src + head + WSIZE * words, (length - head) % WSIZE);
    MovedForward(m, dst, src, head + WSIZE * words, length);
  }

  method CopyBackward(a: array<byte>, base: nat, dst: nat, src: nat, length: nat)
    requires dst + length <= a.Length && src + length <= a.Length && src <= dst
    modifies a
    ensures a[..] == Moved(old(a[..]), dst, src, length)
  {
    hide Moved;
    ghost var m := a[..];
    var d, s := dst + length, src + length;
    var head := HeadBackward(base + d, base + s, length);
    BytesBackward(a, d, s, head);
    var words: nat := (length - head) / WSIZE;
    WordsBackward(a, d - head, s - head, words);
    var tail := head + WSIZE * words;
    MovedBackward(m, d - tail, s - tail, head, tail);
    BytesBackward(a, d - tail, s - tail, (length - head) % WSIZE);
    MovedBackward(m, dst, src, tail, length);
  }

  /** my_memcpy is memmove, whatever the overlap and the alignment. */
  method MemCpy(a: array<byte>, base: nat, dst: nat, src: nat, length: nat) returns (r: nat)
    requires dst + length <= a.Length && src + length <= a.Length
    modifies a
    ensures a[..] == Moved(old(a[..]), dst, src, length) && r == dst
  {
    if length == 0 || dst == src {
      assert a[..] == Moved(a[..], dst, src, length);
    } else if base + dst < base + src {
      CopyForward(a, base, dst, src, length);
    } else {
      CopyBackward(a, base, dst, src, length);
    }
    r := dst;
  }

  // --------------------------------------------------------------------------------------- fill

  ghost function Filled(m: seq<byte>, dst: nat, n: nat, c: byte): (r: seq<byte>)
    requires dst + n <= |m|
    ensures |r| == |m|
    ensures forall i :: 0 <= i < |m| ==> r[i] == if dst <= i < dst + n then c else m[i]
  {
    m[..dst] + seq(n, _ => c) + m[dst + n..]
  }

  /** Words of the byte c from dst on. */
  method FillWords(a: array<byte>, dst: nat, n: nat, c: byte)
    requires dst + WSIZE * n <= a.Length
    modifies a
    ensures a[..] == Filled(old(a[..]), dst, WSIZE * n, c)
  {
    var i: nat := 0;
    while i < n
      invariant i <= n && a[..] == Filled(old(a[..]), dst, WSIZE * i, c)
    {
      var w := dst + WSIZE * i;
      a[w], a[w + 1], a[w + 2], a[w + 3] := c, c, c, c;
      i := i + 1;
    }
  }

  /** my_memset: exactly n bytes are written, although head, tail and words overlap. */
  method MemSet(a: array<byte>, base: nat, dst: nat, v: int, n: nat) returns (r: nat)
    requires dst + n <= a.Length
    modifies a
    ensures a[..] == Filled(old(a[..]), dst, n, (v % 256) as byte) && r == dst
  {
    r := dst;
    var c := (v % 256) as byte;
    if n == 0 { return; }
    a[dst + n - 1] := c;
    a[dst] := c;
    if n <= 2 { return; }
    a[dst + n - 2] := c;
    a[dst + 1] := c;
    a[dst + n - 3] := c;
    a[dst + 2] := c;
    if n <= 6 { return; }
    a[dst + n - 4] := c;
    a[dst + 3] := c;
    if n <= 8 { return; }
    var k := (WSIZE - (base + dst) % WSIZE) % WSIZE;
    FillWords(a, dst + k, (n - k) / WSIZE, c);
  }
}
