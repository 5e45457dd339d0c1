/** Variable-length integers (picoquic/intformat.c).

    The two top bits of the first byte give the length of the encoding: 1, 2, 4 or 8
    bytes, leaving 6, 14, 30 or 62 bits for the value, most significant byte first. */
module Varint {

  type byte = x: int | 0 <= x < 256

  datatype Option<+T> = None | Some(value: T)

  const U64: nat := 0x1_0000_0000_0000_0000
  const VARINT_LIMIT: nat := 0x4000_0000_0000_0000 // 2^62

  /** Arithmetic on 64-bit words. */
  function Wrap(x: nat): (r: nat)
    ensures r < U64 && (x < U64 ==> r == x) && (U64 <= x < 2 * U64 ==> r == x - U64)
  {
    x % U64
  }

  /** What the writers of frames answer when the buffer does not hold the frame. */
  const FRAME_BUFFER_TOO_SMALL := 0x400 + 16

  /** A decoded integer and the number of bytes it was read from. */
  datatype Decoded = Decoded(value: nat, length: nat)

  /** `n >> 8 * k`. */
  function Shr(n: nat, k: nat): nat {
    if k == 0 then n else Shr(n, k - 1) / 0x100
  }

  /** The k-th byte of `n`, the least significant being byte 0. */
  function ByteOf(n: nat, k: nat): byte {
    Shr(n, k) % 0x100
  }

  /** The low k bytes of `n`, most significant first. */
  function LowBytes(n: nat, k: nat): (r: seq<byte>)
    ensures |r| == k
  {
    if k == 0 then [] else [ByteOf(n, k - 1)] + LowBytes(n, k - 1)
  }

  /** The bytes the encoder writes when the buffer is large enough. */
  function Encode(n: nat): (r: seq<byte>)
    requires n < U64
    ensures |r| in {1, 2, 4, 8}
    ensures n < VARINT_LIMIT ==> |r| == Size(n)
  {
    ShrBelow(n);
    if n < 64 then [n]
    else if n < 16384 then [Shr(n, 1) + 0x40] + LowBytes(n, 1)
    else if n < 1073741824 then [Shr(n, 3) + 0x80] + LowBytes(n, 3)
    else [Shr(n, 7) % 64 + 0xC0] + LowBytes(n, 7)
  }

  /** Shifting down by one, three or seven bytes shrinks the bound on a number with it. */
  lemma ShrBelow(n: nat)
    ensures n < 16384 ==> Shr(n, 1) < 64
    ensures n < 1073741824 ==> Shr(n, 3) < 64
    ensures n < VARINT_LIMIT ==> Shr(n, 7) < 64
    ensures n < U64 ==> Shr(n, 7) < 0x100
  {
    assert Shr(n, 1) == n / 0x100;
    assert Shr(n, 2) == Shr(n, 1) / 0x100;
    assert Shr(n, 3) == Shr(n, 2) / 0x100;
    assert Shr(n, 4) == Shr(n, 3) / 0x100;
    assert Shr(n, 5) == Shr(n, 4) / 0x100;
    assert Shr(n, 6) == Shr(n, 5) / 0x100;
    assert Shr(n, 7) == Shr(n, 6) / 0x100;
  }

  /** picoquic_varint_len: zero when the number cannot be represented. */
  function Size(n: nat): nat {
    if n <= 63 then 1
    else if n <= 16383 then 2
    else if n <= 1073741823 then 4
    else if n <= 4611686018427387903 then 8
    else 0
  }

  /** The length announced by the first byte. */
  function LengthOf(first: byte): (r: nat)
    ensures r in {1, 2, 4, 8}
  {
    if first < 0x40 then 1 else if first < 0x80 then 2 else if first < 0xC0 then 4 else 8
  }

  /** The number written most significant byte first in `s`. */
  function BigEndian(s: seq<byte>): nat {
    if s == [] then 0 else 0x100 * BigEndian(s[..|s| - 1]) + s[|s| - 1]
  }

  /** What a decoder reads at the front of `s`: nothing when `s` is too short. */
  function Decode(s: seq<byte>): (r: Option<Decoded>)
    ensures r.Some? ==> 1 <= r.value.length <= |s|
  {
    if s == [] || LengthOf(s[0]) > |s| then None
    else
      var k := LengthOf(s[0]);
      Some(Decoded(BigEndian([s[0] % 64] + s[1..k]), k))
  }

  /** Consecutive byte stores. */
  method Put(buf: array<byte>, at: nat, s: seq<byte>)
    requires at + |s| <= buf.Length
    modifies buf
    ensures buf[..at + |s|] == old(buf[..at]) + s
    ensures buf[at + |s|..] == old(buf[at + |s|..])
  {
    forall i | 0 <= i < |s| {
      buf[at + i] := s[i];
    }
  }

  /** picoquic_varint_encode: writes `n` at buf[at..], or nothing at all when it does not
      fit in `max` bytes. */
  method VarintEncode(buf: array<byte>, at: nat, max: nat, n: nat) returns (length: nat)
    requires at + max <= buf.Length && n < U64
    modifies buf
    ensures length == if |Encode(n)| <= max then |Encode(n)| else 0
    ensures buf[..at + length] == old(buf[..at]) + if length > 0 then Encode(n) else []
    ensures buf[at + length..] == old(buf[at + length..])
  {
    ShrBelow(n);
    var e: seq<byte> := [];
    if n < 16384 {
      if n < 64 {
        if max > 0 { e := [n]; }
      } else {
        if max >= 2 { e := [Shr(n, 1) + 0x40] + LowBytes(n, 1); }
      }
    } else if n < 1073741824 {
      if max >= 4 { e := [Shr(n, 3) + 0x80] + LowBytes(n, 3); }
    } else {
      if max >= 8 { e := [Shr(n, 7) % 64 + 0xC0] + LowBytes(n, 7); }
    }
    Put(buf, at, e);
    return |e|;
  }

  /** picoquic_varint_decode, and with `length == 0` for its null pointer also
      picoquic_frames_varint_decode: reads the integer at bytes[at..]. */
  method VarintDecode(bytes: seq<byte>, at: nat) returns (value: nat, length: nat)
    requires at <= |bytes|
    ensures Decode(bytes[at..]) == if length == 0 then None else Some(Decoded(value, length))
    ensures length <= |bytes| - at
    ensures length == 0 ==> value == 0
  {
    value, length := 0, 0;
    if at == |bytes| { return; }
    length := LengthOf(bytes[at]);
    if length > |bytes| - at { return 0, 0; }
    ghost var s := bytes[at..];
    ghost var t := [s[0] % 64] + s[1..length];
    value := bytes[at] % 64;
    assert t[..1] == [s[0] % 64] && BigEndian(t[..1]) == value by {
      assert t[..1][..0] == [];
    }
    for i := 1 to length
      invariant value == BigEndian(t[..i])
    {
      assert t[..i + 1][..i] == t[..i];
      assert t[i] == s[1..length][i - 1] == s[i];
      value := value * 0x100 + bytes[at + i];
    }
    assert t[..length] == t;
  }

  /** Appending byte k - 1 to a number shifted by k bytes shifts it back by one. */
  lemma Extend(s: seq<byte>, n: nat, k: nat)
    requires k > 0 && BigEndian(s) == Shr(n, k)
    ensures BigEndian(s + [ByteOf(n, k - 1)]) == Shr(n, k - 1)
  {
    assert (s + [ByteOf(n, k - 1)])[..|s|] == s;
  }

  /** A prefix holding `n >> 8 * k`, followed by the k low bytes, holds `n`. */
  lemma {:induction false} Rebuild(s: seq<byte>, n: nat, k: nat)
    requires BigEndian(s) == Shr(n, k)
    ensures BigEndian(s + LowBytes(n, k)) == n
    decreases k
  {
    if k == 0 {
      assert s + [] == s;
    } else {
      var t := s + [ByteOf(n, k - 1)];
      Extend(s, n, k);
      Rebuild(t, n, k - 1);
      assert s + LowBytes(n, k) == t + LowBytes(n, k - 1) by {
        assert LowBytes(n, k) == [ByteOf(n, k - 1)] + LowBytes(n, k - 1);
      }
    }
  }

  lemma BigEndianOne(b: byte)
    ensures BigEndian([b]) == b
  {
    assert [b][..0] == [];
  }

  lemma DecodeAt(first: byte, n: nat, k: nat, rest: seq<byte>)
    requires LengthOf(first) == k + 1 && first % 64 == Shr(n, k)
    ensures Decode([first] + LowBytes(n, k) + rest) == Some(Decoded(n, k + 1))
  {
    var s := [first] + LowBytes(n, k) + rest;
    BigEndianOne(first % 64);
    Rebuild([first % 64], n, k);
    hide BigEndian, Shr, LowBytes, LengthOf;
    assert s[0] == first && s[1..k + 1] == LowBytes(n, k);
  }

  lemma EncodeIs(n: nat) returns (first: byte, k: nat)
    requires n < VARINT_LIMIT
    ensures Encode(n) == [first] + LowBytes(n, k)
    ensures LengthOf(first) == k + 1 && first % 64 == Shr(n, k)
  {
    ShrBelow(n);
    if n < 64 {
      first, k := n, 0;
      assert Shr(n, 0) == n;
    } else if n < 16384 {
      first, k := Shr(n, 1) + 0x40, 1;
    } else if n < 1073741824 {
      first, k := Shr(n, 3) + 0x80, 3;
    } else {
      first, k := Shr(n, 7) + 0xC0, 7;
    }
    hide Shr, LowBytes;
  }

  /** Decoding undoes encoding, whatever bytes follow. */
  lemma RoundTrip(n: nat, rest: seq<byte>)
    requires n < VARINT_LIMIT
    ensures Decode(Encode(n) + rest) == Some(Decoded(n, |Encode(n)|))
  {
    var first, k := EncodeIs(n);
    hide Encode, Decode, Shr, LowBytes, LengthOf;
    DecodeAt(first, n, k, rest);
  }

  lemma {:induction false} BigEndianMonotone(a: byte, b: byte, s: seq<byte>)
    requires a <= b
    ensures BigEndian([a] + s) <= BigEndian([b] + s)
    decreases |s|
  {
    if s == [] {
      BigEndianOne(a);
      BigEndianOne(b);
      assert [a] + s == [a] && [b] + s == [b];
    } else {
      var t := s[..|s| - 1];
      BigEndianMonotone(a, b, t);
      assert ([a] + s)[..|s|] == [a] + t && ([b] + s)[..|s|] == [b] + t;
    }
  }

  /** On any 64-bit number the decoder finds an integer of the encoder's length that is
      never larger than the number encoded; the two are equal exactly below 2^62. */
  lemma DecodeEncode(n: nat, rest: seq<byte>)
    requires n < U64
    ensures Decode(Encode(n) + rest).Some?
    ensures var d := Decode(Encode(n) + rest).value;
            d.length == |Encode(n)| && d.value <= n && (d.value == n <==> n < VARINT_LIMIT)
  {
    var e := Encode(n);
    if n < VARINT_LIMIT {
      RoundTrip(n, rest);
    } else {
      var s := e + rest;
      var top := Shr(n, 7);
      assert s[1..8] == LowBytes(n, 7);
      ShrBelow(n);
      BigEndianOne(top);
      Rebuild([top], n, 7);
      BigEndianMonotone(top % 64, top, LowBytes(n, 7));
      assert s[0] % 64 == top % 64;
      DecodedBelow(s);
    }
  }

  function Pow256(k: nat): nat {
    if k == 0 then 1 else 0x100 * Pow256(k - 1)
  }

  lemma {:induction false} BigEndianBound(a: byte, s: seq<byte>)
    ensures BigEndian([a] + s) < (a + 1) * Pow256(|s|)
    decreases |s|
  {
    if s == [] {
      BigEndianOne(a);
      assert [a] + s == [a];
    } else {
      var t := s[..|s| - 1];
      BigEndianBound(a, t);
      assert ([a] + s)[..|s|] == [a] + t;
      assert (a + 1) * Pow256(|s|) == 0x100 * ((a + 1) * Pow256(|t|));
    }
  }

  /** No decoder output reaches 2^62. */
  lemma DecodedBelow(s: seq<byte>)
    ensures Decode(s).Some? ==> Decode(s).value.value < VARINT_LIMIT
  {
    if Decode(s).Some? {
      var k := LengthOf(s[0]);
      BigEndianBound(s[0] % 64, s[1..k]);
      assert Pow256(3) == 0x100_0000 && Pow256(1) == 0x100 && Pow256(0) == 1;
      assert Pow256(5) == 0x10000 * Pow256(3);
      assert Pow256(7) == 0x10000 * Pow256(5);
    }
  }

  // ------------------------------------------------------------------ several in a row

  datatype Read<+T> = Read(value: T, length: nat)

  ghost predicate All64(ns: seq<nat>) {
    forall i :: 0 <= i < |ns| ==> ns[i] < U64
  }

  function EncodeAll(ns: seq<nat>): seq<byte>
    requires All64(ns)
  {
    if ns == [] then [] else Encode(ns[0]) + EncodeAll(ns[1..])
  }

  lemma EncodeNothing()
    ensures EncodeAll([]) == []
  {
  }

  lemma EncodeAllCons(n: nat, ns: seq<nat>)
    requires n < U64 && All64(ns)
    ensures All64([n] + ns) && EncodeAll([n] + ns) == Encode(n) + EncodeAll(ns)
  {
    hide Encode;
    assert ([n] + ns)[1..] == ns;
  }

  /** The first n integers in `s`. */
  function DecodeAll(s: seq<byte>, n: nat): (r: Option<Read<seq<nat>>>)
    ensures r.Some? ==> |r.value.value| == n && r.value.length <= |s|
    decreases n
  {
    if n == 0 then Some(Read([], 0))
    else
      match Decode(s)
      case None => None
      case Some(d) => Prepend([d.value], d.length, DecodeAll(s[d.length..], n - 1))
  }

  function Prepend(ns: seq<nat>, length: nat, r: Option<Read<seq<nat>>>): Option<Read<seq<nat>>> {
    match r
    case None => None
    case Some(t) => Some(Read(ns + t.value, length + t.length))
  }

  /** What reading `ns` back gives: each number, cut to 62 bits. */
  ghost predicate ReadBack(ns: seq<nat>, ms: seq<nat>) {
    && |ms| == |ns|
    && forall i :: 0 <= i < |ns| ==> ms[i] <= ns[i] && (ns[i] < VARINT_LIMIT ==> ms[i] == ns[i])
  }

  lemma {:induction false} DecodeAllEncodeAll(ns: seq<nat>, rest: seq<byte>)
    requires All64(ns)
    ensures var r := DecodeAll(EncodeAll(ns) + rest, |ns|);
            r.Some? && r.value.length == |EncodeAll(ns)| && ReadBack(ns, r.value.value)
    decreases |ns|
  {
    hide Encode, Decode;
    if ns != [] {
      var e, tail := Encode(ns[0]), EncodeAll(ns[1..]) + rest;
      DecodeEncode(ns[0], tail);
      DecodeAllEncodeAll(ns[1..], rest);
      assert EncodeAll(ns) + rest == e + tail;
      assert (e + tail)[|e|..] == tail;
      ReadBackCons(ns, Decode(e + tail).value.value, DecodeAll(tail, |ns| - 1).value.value);
    }
  }

  lemma ReadBackCons(ns: seq<nat>, m: nat, ms: seq<nat>)
    requires ns != [] && ReadBack(ns[1..], ms)
    requires m <= ns[0] && (ns[0] < VARINT_LIMIT ==> m == ns[0])
    ensures ReadBack(ns, [m] + ms)
  {
    forall i | 1 <= i < |ns| ensures ms[i - 1] <= ns[i] && (ns[i] < VARINT_LIMIT ==> ms[i - 1] == ns[i]) {
      assert ns[1..][i - 1] == ns[i];
    }
  }

  lemma {:induction false} EncodeAllAppend(ns: seq<nat>, ms: seq<nat>)
    requires All64(ns) && All64(ms)
    ensures All64(ns + ms) && EncodeAll(ns + ms) == EncodeAll(ns) + EncodeAll(ms)
    decreases |ns|
  {
    hide Encode;
    if ns == [] {
      assert ns + ms == ms;
    } else {
      EncodeAllAppend(ns[1..], ms);
      assert (ns + ms)[1..] == ns[1..] + ms;
    }
  }

  /** Reading n + m integers is reading n and then m. */
  lemma {:induction false} DecodeAllSplit(s: seq<byte>, n: nat, m: nat)
    ensures DecodeAll(s, n + m)
         == match DecodeAll(s, n)
            case None => None
            case Some(t) => Prepend(t.value, t.length, DecodeAll(s[t.length..], m))
    decreases n
  {
    hide Decode, Prepend;
    if n > 0 {
      match Decode(s)
      case None => PrependNone([], 0);
      case Some(d) =>
        var u := s[d.length..];
        DecodeAllSplit(u, n - 1, m);
        match DecodeAll(u, n - 1)
        case None => PrependNone([d.value], d.length);
        case Some(t) =>
          assert s[d.length + t.length..] == u[t.length..];
          PrependSome([d.value], d.length, t);
          PrependTwice([d.value], d.length, t.value, t.length, DecodeAll(u[t.length..], m));
    } else {
      PrependNothing(DecodeAll(s, m));
      assert s[0..] == s;
    }
  }

  lemma PrependNone(ns: seq<nat>, length: nat)
    ensures Prepend(ns, length, None) == None
  {
  }

  lemma PrependSome(ns: seq<nat>, length: nat, t: Read<seq<nat>>)
    ensures Prepend(ns, length, Some(t)) == Some(Read(ns + t.value, length + t.length))
  {
  }

  lemma PrependNothing(r: Option<Read<seq<nat>>>)
    ensures Prepend([], 0, r) == r
  {
    if r.Some? { assert [] + r.value.value == r.value.value; }
  }

  lemma PrependTwice(ns: seq<nat>, n: nat, ms: seq<nat>, m: nat, r: Option<Read<seq<nat>>>)
    ensures Prepend(ns, n, Prepend(ms, m, r)) == Prepend(ns + ms, n + m, r)
  {
    if r.Some? { assert ns + (ms + r.value.value) == (ns + ms) + r.value.value; }
  }

  // ------------------------------------------------------------- reading them one by one

  /** Of |sofar| + left integers to be read from s[start..], those in `sofar` have been
      found before position `at`. */
  ghost predicate Reading(s: seq<byte>, start: nat, at: nat, sofar: seq<nat>, left: nat) {
    && start <= at <= |s|
    && DecodeAll(s[start..], |sofar| + left)
       == Prepend(sofar, at - start, DecodeAll(s[at..], left))
  }

  lemma ReadingNone(s: seq<byte>, start: nat, left: nat)
    requires start <= |s|
    ensures Reading(s, start, start, [], left)
  {
    match DecodeAll(s[start..], left)
    case None =>
    case Some(t) => assert [] + t.value == t.value;
  }

  lemma ReadingAll(s: seq<byte>, start: nat, at: nat, sofar: seq<nat>)
    requires Reading(s, start, at, sofar, 0)
    ensures DecodeAll(s[start..], |sofar|) == Some(Read(sofar, at - start))
  {
    hide Decode;
    assert sofar + [] == sofar;
  }

  /** One more integer. */
  method Next(s: seq<byte>, ghost start: nat, at: nat, ghost sofar: seq<nat>, ghost left: nat)
    returns (value: nat, length: nat)
    requires Reading(s, start, at, sofar, left) && left > 0
    ensures length <= |s| - at
    ensures length == 0 ==> DecodeAll(s[start..], |sofar| + left).None?
    ensures length > 0 ==> Reading(s, start, at + length, sofar + [value], left - 1)
  {
    hide Decode;
    value, length := VarintDecode(s, at);
    if length > 0 {
      assert s[at..][length..] == s[at + length..];
      match DecodeAll(s[at + length..], left - 1) {
        case None =>
        case Some(t) => assert sofar + ([value] + t.value) == (sofar + [value]) + t.value;
      }
    }
  }
}
