/** Variable-length integers, section 16 of RFC 9000. */
module Varint {
  import opened Common

  const MAX1 := 63
  const MAX2 := 16383
  const MAX4 := 1073741823
  const MAX8 := 4611686018427387903

  /** The number of bytes needed for `i`; larger numbers make the program panic. */
  function Len(i: int): (r: int)
    requires 0 <= i <= MAX8
    ensures r == 1 || r == 2 || r == 4 || r == 8
  {
    if i <= MAX1 then 1 else if i <= MAX2 then 2 else if i <= MAX4 then 4 else 8
  }

  /** The lowest eight bits of `i >> (8 * n)`. */
  function Octet(i: int, n: nat): byte
    requires 0 <= i
  {
    Shift(i, n) % 256
  }

  function Shift(i: int, n: nat): int
    requires 0 <= i
    ensures Shift(i, n) >= 0
  {
    if n == 0 then i else Shift(i, n - 1) / 256
  }

  /** Appends `i`. The two length bits are above the bits of `i`, so setting them is an addition. */
  function Append(b: seq<byte>, i: int): seq<byte>
    requires 0 <= i <= MAX8
  {
    if i <= MAX1 then b + [i]
    else if i <= MAX2 then TwoByteBound(i); b + [Octet(i, 1) + 0x40, Octet(i, 0)]
    else if i <= MAX4 then FourByteBound(i); b + [Octet(i, 3) + 0x80, Octet(i, 2), Octet(i, 1), Octet(i, 0)]
    else EightByteBound(i); b + [Octet(i, 7) + 0xc0, Octet(i, 6), Octet(i, 5), Octet(i, 4),
             Octet(i, 3), Octet(i, 2), Octet(i, 1), Octet(i, 0)]
  }

  lemma TwoByteBound(i: int)
    requires 0 <= i <= MAX2
    ensures Octet(i, 1) < 64 && i == 0x100 * Octet(i, 1) + Octet(i, 0)
  {
  }

  lemma FourByteBound(i: int)
    requires 0 <= i <= MAX4
    ensures Octet(i, 3) < 64
    ensures i == 0x100_0000 * Octet(i, 3) + 0x1_0000 * Octet(i, 2) + 0x100 * Octet(i, 1) + Octet(i, 0)
  {
    var a, b, c := Shift(i, 1), Shift(i, 2), Shift(i, 3);
    assert Shift(i, 0) == i;
    assert a == i / 256 && b == a / 256 && c == b / 256;
  }

  lemma EightByteBound(i: int)
    requires 0 <= i <= MAX8
    ensures Octet(i, 7) < 64
    ensures i == 0x100_0000_0000_0000 * Octet(i, 7) + 0x1_0000_0000_0000 * Octet(i, 6)
              + 0x100_0000_0000 * Octet(i, 5) + 0x1_0000_0000 * Octet(i, 4)
              + 0x100_0000 * Octet(i, 3) + 0x1_0000 * Octet(i, 2) + 0x100 * Octet(i, 1) + Octet(i, 0)
  {
    var a, b, c, d := Shift(i, 1), Shift(i, 2), Shift(i, 3), Shift(i, 4);
    assert Shift(i, 0) == i;
    assert a == i / 256 && b == a / 256 && c == b / 256 && d == c / 256;
    var e, f, g := Shift(i, 5), Shift(i, 6), Shift(i, 7);
    assert e == d / 256 && f == e / 256 && g == f / 256;
  }

  /** The bytes that Append adds. */
  function Encode(i: int): seq<byte>
    requires 0 <= i <= MAX8
  {
    Append([], i)
  }

  lemma AppendEncode(b: seq<byte>, i: int)
    requires 0 <= i <= MAX8
    ensures Append(b, i) == b + Encode(i)
    ensures |Encode(i)| == Len(i)
  {
  }

  /** The length that the two highest bits of the first byte announce. */
  function AnnouncedLen(first: byte): int {
    match first / 64
    case 0 => 1
    case 1 => 2
    case 2 => 4
    case _ => 8
  }

  /** A byte as a number. */
  function At(s: seq<byte>, k: nat): int
    requires k < |s|
  {
    s[k]
  }

  /** Reads a number off the front of `s` and gives back what follows; it fails when `s` ends early. */
  function Read(s: seq<byte>): (r: Option<(int, seq<byte>)>)
    ensures r.Some? <==> |s| > 0 && |s| >= AnnouncedLen(s[0])
    ensures r.Some? ==> 0 <= r.value.0 <= MAX8 && r.value.1 == s[AnnouncedLen(s[0])..]
  {
    if |s| == 0 || |s| < AnnouncedLen(s[0]) then None
    else
      var b1: int := s[0] % 64;
      match AnnouncedLen(s[0])
      case 1 => Some((b1, s[1..]))
      case 2 => Some((0x100 * b1 + At(s, 1), s[2..]))
      case 4 => Some((0x100_0000 * b1 + 0x1_0000 * At(s, 1) + 0x100 * At(s, 2) + At(s, 3), s[4..]))
      case _ =>
        Some((0x100_0000_0000_0000 * b1 + 0x1_0000_0000_0000 * At(s, 1) + 0x100_0000_0000 * At(s, 2)
              + 0x1_0000_0000 * At(s, 3) + 0x100_0000 * At(s, 4) + 0x1_0000 * At(s, 5) + 0x100 * At(s, 6) + At(s, 7),
              s[8..]))
  }

  /** Whatever follows an encoded number, reading gives the number and leaves exactly what follows. */
  lemma RoundTrip(i: int, rest: seq<byte>)
    requires 0 <= i <= MAX8
    ensures Read(Encode(i) + rest) == Some((i, rest))
  {
    hide Octet;
    var s := Encode(i) + rest;
    assert s[Len(i)..] == rest;
    if i <= MAX1 {
    } else if i <= MAX2 {
      TwoByteBound(i);
    } else if i <= MAX4 {
      FourByteBound(i);
    } else {
      EightByteBound(i);
    }
  }

  /** No number is the beginning of another one. */
  lemma SelfDelimiting(i: int, i': int, rest: seq<byte>, rest': seq<byte>)
    requires 0 <= i <= MAX8 && 0 <= i' <= MAX8
    requires Encode(i) + rest == Encode(i') + rest'
    ensures i == i' && rest == rest'
  {
    RoundTrip(i, rest);
    RoundTrip(i', rest');
  }

  /** Encode is the shortest form: no other bytes that read as the same number are shorter. */
  lemma Shortest(s: seq<byte>)
    requires Read(s).Some?
    ensures Len(Read(s).value.0) <= |s| - |Read(s).value.1|
  {
  }

  /** Appends `i` in `length` bytes; the program panics unless `length` is a valid one that is large enough. */
  method AppendWithLen(b: seq<byte>, i: int, length: int) returns (r: seq<byte>)
    requires length == 1 || length == 2 || length == 4 || length == 8
    requires 0 <= i <= MAX8 && Len(i) <= length
    ensures |r| == |b| + length && r[..|b|] == b
    ensures forall rest :: Read(r[|b|..] + rest) == Some((i, rest))
  {
    var l := Len(i);
    if l == length {
      AppendEncode(b, i);
      r := Append(b, i);
      assert r[|b|..] == Encode(i);
      forall rest ensures Read(r[|b|..] + rest) == Some((i, rest)) {
        RoundTrip(i, rest);
      }
      return;
    }
    var tag := if length == 2 then 0x40 else if length == 4 then 0x80 else 0xc0;
    r := b + [tag];
    var j := 1;
    while j < length - l
      invariant 1 <= j <= length - l
      invariant r == b + [tag] + Zeros(j - 1)
    {
      r := r + [0];
      j := j + 1;
    }
    ghost var head := r;
    j := 0;
    while j < l
      invariant 0 <= j <= l
      invariant r == head + Octets(i, l)[..j]
    {
      r := r + [Octet(i, l - 1 - j)];
      j := j + 1;
    }
    assert Octets(i, l)[..l] == Octets(i, l);
    assert r == b + ([tag] + Zeros(length - l - 1) + Octets(i, l));
    forall rest ensures Read(r[|b|..] + rest) == Some((i, rest)) {
      PaddedRead(i, tag, length, rest);
    }
  }

  function Zeros(n: nat): seq<byte> {
    seq(n, _ => 0)
  }

  /** The `n` lowest octets of `i`, the highest of them first. */
  function Octets(i: int, n: nat): seq<byte>
    requires 0 <= i
  {
    seq(n, k requires 0 <= k < n => Octet(i, n - 1 - k))
  }

  lemma PaddedRead(i: int, tag: byte, length: int, rest: seq<byte>)
    requires length == 2 || length == 4 || length == 8
    requires 0 <= i <= MAX8 && Len(i) < length
    requires tag == if length == 2 then 0x40 else if length == 4 then 0x80 else 0xc0
    ensures Read([tag] + Zeros(length - Len(i) - 1) + Octets(i, Len(i)) + rest) == Some((i, rest))
  {
    var l := Len(i);
    var t := [tag] + Zeros(length - l - 1) + Octets(i, l) + rest;
    assert t[length..] == rest;
    assert t[length - 1] == Octet(i, 0);
    if l == 2 {
      TwoByteBound(i);
      assert t[length - 2] == Octet(i, 1);
    } else if l == 4 {
      FourByteBound(i);
      assert t[length - 2] == Octet(i, 1);
      assert t[length - 3] == Octet(i, 2);
      assert t[length - 4] == Octet(i, 3);
    }
  }
}
