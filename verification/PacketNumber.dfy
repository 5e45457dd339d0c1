/** Recovery of a 64-bit packet number from its truncated encoding (picoquic/packet.c and
    picoquic/intformat.c).

    A header carries 7, 14 or 30 low bits of the number. The receiver completes them with the
    number it expects next. Masks are powers of two below 2^64: `mask` keeps all but the low
    bits, so its complement plus one is the window n. */
module PacketNumber {
  import opened Varint

  predicate Window(n: nat) {
    n == 0x80 || n == 0x4000 || n == 0x4000_0000
  }

  function Expected(highest: nat): nat {
    Wrap(highest + 1)
  }

  /** The number in the same window as the expected one. */
  function Merge(expected: nat, n: nat, pn: nat): nat
    requires Window(n) && pn < n
  {
    expected - expected % n + pn
  }

  /** The merged number, or its neighbour one window up or down if that one is closer. */
  function Nearest(expected: nat, n: nat, pn64: nat): nat {
    if pn64 < expected then
      var delta1 := expected - pn64;
      var delta2 := n - delta1;
      if delta2 < delta1 then Wrap(pn64 + n) else pn64
    else
      var delta1 := pn64 - expected;
      var delta2 := n - delta1;
      if delta2 <= delta1 && pn64 >= n then pn64 - n else pn64
  }

  /** picoquic_get_packet_number64. */
  function Recover(highest: nat, n: nat, pn: nat): nat
    requires highest < U64 && Window(n) && pn < n
  {
    Nearest(Expected(highest), n, Merge(Expected(highest), n, pn))
  }

  // -------------------------------------------------------------------------- on machine words

  function Pow2(k: nat): (r: nat)
    ensures r > 0
  {
    if k == 0 then 1 else 2 * Pow2(k - 1)
  }

  /** x & y and x | y, on the k lowest bits. */
  function And(x: nat, y: nat, k: nat): nat {
    if k == 0 then 0 else 2 * And(x / 2, y / 2, k - 1) + (if x % 2 == 1 && y % 2 == 1 then 1 else 0)
  }

  function Or(x: nat, y: nat, k: nat): nat {
    if k == 0 then 0 else 2 * Or(x / 2, y / 2, k - 1) + (if x % 2 == 1 || y % 2 == 1 then 1 else 0)
  }

  lemma HalfModulo(x: nat, m: nat)
    requires m > 0
    ensures x % (2 * m) == 2 * (x / 2 % m) + x % 2
  {
    var q, r := x / 2 / m, x / 2 % m;
    assert x == q * (2 * m) + (2 * r + x % 2);
    Unique(x, 2 * m, q, 2 * r + x % 2);
  }

  lemma Unique(x: nat, m: nat, q: nat, r: nat)
    requires x == q * m + r && r < m
    ensures x % m == r
  {
    Sign(x / m - q, m);
    assert (x / m - q) * m == r - x % m;
  }

  lemma Sign(d: int, m: nat)
    ensures d >= 1 ==> d * m >= m
    ensures d <= -1 ==> d * m <= 0 - m
  {
  }

  lemma {:induction false} AndOnes(x: nat, k: nat)
    requires x < Pow2(k)
    ensures And(x, Pow2(k) - 1, k) == x
  {
    if k > 0 { AndOnes(x / 2, k - 1); }
  }

  /** A mask that has the low j bits clear drops those bits. */
  lemma {:induction false} AndMask(x: nat, j: nat, k: nat)
    requires j <= k && x < Pow2(k)
    ensures Pow2(j) <= Pow2(k) && And(x, Pow2(k) - Pow2(j), k) == x - x % Pow2(j)
  {
    if j == 0 {
      AndOnes(x, k);
    } else {
      AndMask(x / 2, j - 1, k - 1);
      HalfModulo(x, Pow2(j - 1));
    }
  }

  lemma {:induction false} OrZero(x: nat, k: nat)
    requires x < Pow2(k)
    ensures Or(x, 0, k) == x
  {
    if k > 0 { OrZero(x / 2, k - 1); }
  }

  /** Bits that were clear are added. */
  lemma {:induction false} OrAdds(x: nat, y: nat, j: nat, k: nat)
    requires j <= k && x < Pow2(k) && x % Pow2(j) == 0 && y < Pow2(j)
    ensures Or(x, y, k) == x + y
  {
    if j == 0 {
      OrZero(x, k);
    } else {
      HalfModulo(x, Pow2(j - 1));
      OrAdds(x / 2, y / 2, j - 1, k - 1);
    }
  }

  /** The bits in a header of window n. */
  function Bits(n: nat): (r: nat)
    requires Window(n)
    ensures r <= 64 && Pow2(r) == n
  {
    PowersUsed();
    if n == 0x80 then 7 else if n == 0x4000 then 14 else 30
  }

  lemma PowersUsed()
    ensures Pow2(7) == 0x80 && Pow2(14) == 0x4000 && Pow2(30) == 0x4000_0000 && Pow2(64) == U64
  {
    assert Pow2(7) == 0x80;
    assert Pow2(14) == 0x4000;
    assert Pow2(22) == 0x40_0000;
    assert Pow2(30) == 0x4000_0000;
    assert Pow2(38) == 0x40_0000_0000;
    assert Pow2(46) == 0x4000_0000_0000;
    assert Pow2(55) == 0x80_0000_0000_0000;
  }

  /** A machine word with all but the low bits masked, and with low bits put there. */
  lemma MergeIsWords(x: nat, n: nat, pn: nat)
    requires Window(n) && x < U64 && pn < n
    ensures And(x, U64 - n, 64) == x - x % n && Or(x - x % n, pn, 64) == Merge(x, n, pn)
  {
    PowersUsed();
    hide Pow2, And, Or;
    AndMask(x, Bits(n), 64);
    HighBits(x, n);
    OrAdds(x - x % n, pn, Bits(n), 64);
  }

  lemma HighBits(x: nat, n: nat)
    requires Window(n)
    ensures (x - x % n) % n == 0
  {
  }

  /** picoquic_get_packet_number64, on words. */
  method GetPacketNumber64(highest: nat, mask: nat, pn: nat) returns (pn64: nat)
    requires highest < U64 && mask < U64 && Window(U64 - mask) && pn < U64 - mask
    ensures pn64 == Recover(highest, U64 - mask, pn)
  {
    hide Pow2, And, Or;
    var expected := Wrap(highest + 1);
    var notMaskPlusOne := Wrap(U64 - 1 - mask + 1);
    pn64 := Or(And(expected, mask, 64), pn, 64);
    MergeIsWords(expected, notMaskPlusOne, pn);
    MergeIsWords(pn64, notMaskPlusOne, pn);
    if pn64 < expected {
      var delta1 := expected - pn64;
      var delta2 := notMaskPlusOne - delta1;
      if delta2 < delta1 {
        pn64 := Wrap(pn64 + notMaskPlusOne);
      }
    } else {
      var delta1 := pn64 - expected;
      var delta2 := notMaskPlusOne - delta1;
      if delta2 <= delta1 && And(pn64, mask, 64) > 0 {
        pn64 := pn64 - notMaskPlusOne;
      }
    }
  }

  // ------------------------------------------------------------------------------- which come back

  /** The start of the window that holds x. */
  function Start(x: nat, n: nat): nat
    requires Window(n)
  {
    x - x % n
  }

  lemma Multiples(a: nat, b: nat, n: nat)
    ensures a < b ==> a * n + n <= b * n
    ensures a + 1 < b ==> a * n + 2 * n <= b * n
    ensures a + 1 == b ==> a * n + n == b * n
  {
    var c := b - a;
    assert b * n == a * n + c * n;
    if c > 1 { assert c * n == (c - 2) * n + 2 * n; }
    if c > 0 { assert c * n == (c - 1) * n + n; }
  }

  lemma StartIsMultiple(x: nat, n: nat)
    requires Window(n)
    ensures Start(x, n) == (x / n) * n && Start(x, n) <= x < Start(x, n) + n
    ensures x < U64 ==> x / n < U64 / n
    ensures U64 == (U64 / n) * n && n / 2 * 2 == n
  {
  }

  /** Windows do not overlap, and 2^64 is the start of one. */
  lemma StartsApart(x: nat, y: nat, n: nat)
    requires Window(n)
    ensures Start(x, n) < Start(y, n) ==>
              Start(x, n) + n == Start(y, n) || Start(x, n) + 2 * n <= Start(y, n)
    ensures x < U64 ==> Start(x, n) + n == U64 || Start(x, n) + 2 * n <= U64
    ensures Start(x, n) <= x < Start(x, n) + n && n / 2 * 2 == n
  {
    StartIsMultiple(x, n);
    StartIsMultiple(y, n);
    hide Start, Window;
    Multiples(x / n, y / n, n);
    Multiples(y / n, x / n, n);
    Multiples(x / n, U64 / n, n);
  }

  /** When the bits of x in the header bring x back: x lies in the half-open window around the
      expected number; or x is in the first window of all and has no smaller alternative; or
      the numbers have wrapped at 2^64. */
  ghost predicate Recoverable(expected: nat, n: nat, x: nat) {
    || expected - n / 2 <= x < expected + n / 2
    || expected + n / 2 <= x < n
    || x + U64 < expected + n / 2
  }

  /** The choice, with u and v the starts of the windows of x and of the expected number. */
  lemma NearestIff(e: nat, n: nat, x: nat, u: nat, v: nat)
    requires u <= x < u + n && v <= e < v + n && n / 2 * 2 == n && u + n <= U64
    requires v + n == U64 || v + 2 * n <= U64
    requires u == v || u + n == v || v + n == u || u + 2 * n <= v || v + 2 * n <= u
    requires (0 < u ==> n <= u) && (0 < v ==> n <= v)
    ensures Nearest(e, n, v + (x - u)) == x <==> Recoverable(e, n, x)
  {
  }

  /** The exact condition for a truncated number to come back. */
  lemma RecoverIff(highest: nat, n: nat, x: nat)
    requires highest < U64 && Window(n) && x < U64
    ensures Recover(highest, n, x % n) == x <==> Recoverable(Expected(highest), n, x)
  {
    var e := Expected(highest);
    StartsApart(e, x, n);
    StartsApart(x, e, n);
    StartsApart(0, x, n);
    StartsApart(0, e, n);
    NearestIff(e, n, x, Start(x, n), Start(e, n));
    hide Nearest, Recoverable;
    assert Merge(e, n, x % n) == Start(e, n) + (x - Start(x, n));
  }

  // ---------------------------------------------------------------------------- in the header

  /** The low bits of a packet number, the window they stand for and the bytes they take. */
  datatype Truncated = Truncated(pn: nat, window: nat, length: nat)

  /** The switch of picoquic_decrypt_packet on the first byte of the decrypted number. */
  function ReadNumber(s: seq<byte>): Truncated
    requires |s| >= 4
  {
    if s[0] < 0x80 then Truncated(s[0], 0x80, 1)
    else if s[0] < 0xC0 then Truncated(BigEndian([s[0] % 64] + s[1..2]), 0x4000, 2)
    else Truncated(BigEndian([s[0] % 64] + s[1..4]), 0x4000_0000, 4)
  }

  /** picoquic_headint_encode_32, as bytes. */
  function Encode32(x: nat): (r: seq<byte>)
    ensures |r| == 4
  {
    [Shr(x, 3) % 64 + 0xC0, ByteOf(x, 2), ByteOf(x, 1), ByteOf(x, 0)]
  }

  method HeadintEncode32(buf: array<byte>, at: nat, x: nat)
    requires at + 4 <= buf.Length && x < U64
    modifies buf
    ensures buf[at..at + 4] == Encode32(x)
    ensures buf[..at] == old(buf[..at]) && buf[at + 4..] == old(buf[at + 4..])
  {
    Put(buf, at, Encode32(x));
    assert buf[..at] == buf[..at + 4][..at] && buf[at..at + 4] == buf[..at + 4][at..];
  }

  /** picoquic_headint_decode: the same reading, or nothing when too few bytes are given. */
  method HeadintDecode(bytes: seq<byte>, max: nat) returns (value: nat, length: nat)
    requires 1 <= |bytes| && max <= |bytes|
    ensures forall rest :: |bytes + rest| >= 4 ==>
              var t := ReadNumber(bytes + rest);
              if t.length <= max then value == t.pn && length == t.length else value == 0 && length == 0
  {
    value, length := 0, 0;
    var b0: int, b1: int := bytes[0] % 64, if max >= 2 then bytes[1] else 0;
    var b2: int, b3: int := if max >= 4 then bytes[2] else 0, if max >= 4 then bytes[3] else 0;
    BigEndianTwo(b0, b1);
    BigEndianFour(b0, b1, b2, b3);
    if bytes[0] < 0x80 {
      if max >= 1 { value, length := bytes[0], 1; }
    } else if bytes[0] < 0xC0 {
      if max >= 2 { value, length := b0 * 0x100 + b1, 2; }
    } else if max >= 4 {
      value, length := b0 * 0x100_0000 + b1 * 0x1_0000 + b2 * 0x100 + b3, 4;
    }
    forall rest | |bytes + rest| >= 4
      ensures var t := ReadNumber(bytes + rest);
              if t.length <= max then value == t.pn && length == t.length else value == 0 && length == 0
    {
      var s := bytes + rest;
      assert max >= 2 ==> [s[0] % 64] + s[1..2] == [b0, b1];
      assert max >= 4 ==> [s[0] % 64] + s[1..4] == [b0, b1, b2, b3];
    }
  }

  lemma BigEndianTwo(a: byte, b: byte)
    ensures BigEndian([a, b]) == a * 0x100 + b
  {
    BigEndianOne(a);
    assert [a, b][..1] == [a];
  }

  lemma BigEndianFour(a: byte, b: byte, c: byte, d: byte)
    ensures BigEndian([a, b, c, d]) == a * 0x100_0000 + b * 0x1_0000 + c * 0x100 + d
  {
    BigEndianTwo(a, b);
    assert [a, b, c][..2] == [a, b] && [a, b, c, d][..3] == [a, b, c];
    assert BigEndian([a, b, c]) == BigEndian([a, b]) * 0x100 + c;
  }

  /** The four bytes carry the number modulo 2^30. */
  lemma ReadEncode32(x: nat, rest: seq<byte>)
    ensures ReadNumber(Encode32(x) + rest) == Truncated(x % 0x4000_0000, 0x4000_0000, 4)
  {
    var s := Encode32(x) + rest;
    var b0, b1, b2, b3 := Shr(x, 3) % 64, ByteOf(x, 2), ByteOf(x, 1), ByteOf(x, 0);
    assert [s[0] % 64] + s[1..4] == [b0, b1, b2, b3];
    BigEndianFour(b0, b1, b2, b3);
    assert Shr(x, 1) == x / 0x100 && Shr(x, 2) == Shr(x, 1) / 0x100 && Shr(x, 3) == Shr(x, 2) / 0x100;
    Low30(x, Shr(x, 1), Shr(x, 2), Shr(x, 3));
  }

  lemma Remainder(x: nat, q: nat, r: nat)
    requires x == q * 0x4000_0000 + r && r < 0x4000_0000
    ensures x % 0x4000_0000 == r
  {
  }

  lemma Low30(x: nat, a: nat, b: nat, c: nat)
    requires a == x / 0x100 && b == a / 0x100 && c == b / 0x100
    ensures x % 0x4000_0000 == c % 64 * 0x100_0000 + b % 0x100 * 0x1_0000 + a % 0x100 * 0x100 + x % 0x100
  {
    var low := c % 64 * 0x100_0000 + b % 0x100 * 0x1_0000 + a % 0x100 * 0x100 + x % 0x100;
    assert x == a * 0x100 + x % 0x100 && a == b * 0x100 + a % 0x100 && b == c * 0x100 + b % 0x100;
    assert c == c / 64 * 64 + c % 64;
    Remainder(x, c / 64, low);
  }

  /** End to end: a number written by the sender is recovered exactly when it lies in the
      window of 2^30 numbers around the one the receiver expects. */
  lemma EndToEnd(highest: nat, x: nat, rest: seq<byte>)
    requires highest < U64 && x < U64
    ensures var t := ReadNumber(Encode32(x) + rest);
            && Window(t.window) && t.pn < t.window
            && (Recover(highest, t.window, t.pn) == x
                <==> Recoverable(Expected(highest), 0x4000_0000, x))
  {
    ReadEncode32(x, rest);
    RecoverIff(highest, 0x4000_0000, x);
    hide ReadNumber, Encode32, Recover, Recoverable;
  }

  // ----------------------------------------------------------------------------- whole runs

  /** The highest number received so far, the all-ones word standing for none. */
  function Highest(expected: nat): nat
    requires expected < U64
  {
    if expected == 0 then U64 - 1 else expected - 1
  }

  function Next(expected: nat, x: nat): nat {
    if expected <= x < U64 - 1 then x + 1 else expected
  }

  /** No packet overtakes or trails the expected number by 2^29 or more. */
  predicate InStep(expected: nat, xs: seq<nat>)
    decreases |xs|
  {
    xs == [] ||
    (&& expected - 0x2000_0000 <= xs[0] < expected + 0x2000_0000 && xs[0] < U64 - 1
     && InStep(Next(expected, xs[0]), xs[1..]))
  }

  /** What the receiver makes of one header. */
  function Receive(expected: nat, header: seq<byte>): nat
    requires expected < U64 && |header| >= 4
  {
    var t := ReadNumber(header);
    if Window(t.window) && t.pn < t.window then Recover(Highest(expected), t.window, t.pn) else 0
  }

  function ReceiveAll(expected: nat, headers: seq<seq<byte>>): seq<nat>
    requires expected < U64 && forall h :: h in headers ==> |h| >= 4
    decreases |headers|
  {
    if headers == [] then []
    else
      var x := Receive(expected, headers[0]);
      [x] + ReceiveAll(Next(expected, x), headers[1..])
  }

  function SendAll(xs: seq<nat>): (r: seq<seq<byte>>)
    ensures |r| == |xs| && forall h :: h in r ==> |h| == 4
  {
    if xs == [] then [] else [Encode32(xs[0])] + SendAll(xs[1..])
  }

  lemma HeaderBack(expected: nat, x: nat)
    requires expected < U64 && x < U64 && expected - 0x2000_0000 <= x < expected + 0x2000_0000
    ensures Receive(expected, Encode32(x)) == x
  {
    EndToEnd(Highest(expected), x, []);
    assert Encode32(x) + [] == Encode32(x) && Expected(Highest(expected)) == expected;
    hide ReadNumber, Encode32, Recover;
  }

  /** However packets are lost, repeated or reordered within that bound, the receiver gets
      every number right. */
  lemma {:induction false} ReceivesWhatWasSent(expected: nat, xs: seq<nat>)
    requires expected < U64 && InStep(expected, xs)
    ensures ReceiveAll(expected, SendAll(xs)) == xs
    decreases |xs|
  {
    if xs != [] {
      HeaderBack(expected, xs[0]);
      hide Receive, Encode32;
      var hs := SendAll(xs);
      assert hs[0] == Encode32(xs[0]) && hs[1..] == SendAll(xs[1..]);
      ReceivesWhatWasSent(Next(expected, xs[0]), xs[1..]);
      assert xs == [xs[0]] + xs[1..];
    }
  }
}
