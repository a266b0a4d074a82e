/**
  ACK frames on the wire (section 19.3.1 of RFC 9000). Whatever is parsed is a list of ranges as the loss
  recovery expects it, and what a receiver writes is parsed back to the numbers that it has received.
 */
module AckFrames {
  import opened Common
  import opened LossRecovery
  import V = Varint
  import RP = ReceivedPackets

  const MAX_ACK_FRAME_SIZE := 1000
  const ACK_FRAME_TYPE: byte := 2
  const ACK_ECN_FRAME_TYPE: byte := 3

  datatype ECN = ECN(ect0: nat, ect1: nat, ecnce: nat)

  const NO_ECN := ECN(0, 0, 0)

  /** The delay is in nanoseconds. */
  datatype Frame = Frame(ranges: seq<AckRange>, delayTime: int, ecn: ECN)

  datatype Error = UnexpectedEnd | InvalidFirstRange | InvalidRanges

  datatype Outcome<T> = Parsed(value: T, rest: seq<byte>) | Failed(error: Error)

  // ---------------------------------------------------------------------------------------------
  // The ranges

  /** The ranges of a frame, and its delay as it is encoded. */
  datatype Ranges = Ranges(ranges: seq<AckRange>, delay: nat)

  function Prepend(rs: seq<AckRange>, r: Outcome<seq<AckRange>>): Outcome<seq<AckRange>> {
    if r.Failed? then r else Parsed(rs + r.value, r.rest)
  }

  lemma PrependTwice(a: seq<AckRange>, b: seq<AckRange>, r: Outcome<seq<AckRange>>)
    ensures Prepend([], r) == r && Prepend(a, Prepend(b, r)) == Prepend(a + b, r)
  {
    if r.Parsed? {
      assert [] + r.value == r.value;
      assert a + (b + r.value) == (a + b) + r.value;
    }
  }

  /** The next range, below a range that starts at `smallest`. */
  function ReadBlock(s: seq<byte>, smallest: int): Outcome<AckRange> {
    var g := V.Read(s);
    if g.None? then Failed(UnexpectedEnd)
    else if smallest < g.value.0 + 2 then Failed(InvalidRanges)
    else
      var largest := smallest - g.value.0 - 2;
      var b := V.Read(g.value.1);
      if b.None? then Failed(UnexpectedEnd)
      else if b.value.0 > largest then Failed(InvalidRanges)
      else Parsed(AckRange(largest - b.value.0, largest), b.value.1)
  }

  /** All remaining ranges. */
  function ParseBlocks(s: seq<byte>, smallest: int, n: nat): Outcome<seq<AckRange>>
    decreases n
  {
    if n == 0 then Parsed([], s)
    else
      var b := ReadBlock(s, smallest);
      if b.Failed? then Failed(b.error) else Prepend([b.value], ParseBlocks(b.rest, b.value.smallest, n - 1))
  }

  lemma ParseNext(rs: seq<AckRange>, s: seq<byte>, smallest: int, n: nat)
    requires n > 0
    ensures var b := ReadBlock(s, smallest);
            Prepend(rs, ParseBlocks(s, smallest, n)) ==
            if b.Failed? then Failed(b.error)
            else Prepend(rs + [b.value], ParseBlocks(b.rest, b.value.smallest, n - 1))
  {
    hide ReadBlock;
    var b := ReadBlock(s, smallest);
    if b.Parsed? {
      PrependTwice(rs, [b.value], ParseBlocks(b.rest, b.value.smallest, n - 1));
    }
  }

  function ParseRanges(s: seq<byte>): Outcome<Ranges> {
    var la := V.Read(s);
    if la.None? then Failed(UnexpectedEnd)
    else
      var delay := V.Read(la.value.1);
      if delay.None? then Failed(UnexpectedEnd)
      else
        var n := V.Read(delay.value.1);
        if n.None? then Failed(UnexpectedEnd)
        else
          var ab := V.Read(n.value.1);
          if ab.None? then Failed(UnexpectedEnd)
          else if ab.value.0 > la.value.0 then Failed(InvalidFirstRange)
          else
            var r := ParseBlocks(ab.value.1, la.value.0 - ab.value.0, n.value.0);
            if r.Failed? then Failed(r.error)
            else Parsed(Ranges([AckRange(la.value.0 - ab.value.0, la.value.0)] + r.value, delay.value.0), r.rest)
  }

  /** Ranges that lie below a number, with a gap. */
  ghost predicate RangesBelow(rs: seq<AckRange>, smallest: int) {
    && (rs != [] ==> ValidRanges(rs) && rs[0].largest + 1 < smallest)
    && (forall i :: 0 <= i < |rs| ==> 0 <= rs[i].smallest)
  }

  lemma {:induction false} ParsedBelow(s: seq<byte>, smallest: int, n: nat)
    requires 0 <= smallest
    ensures var r := ParseBlocks(s, smallest, n);
            r.Parsed? ==> RangesBelow(r.value, smallest) && |r.value| == n
    decreases n
  {
    hide ReadBlock, RangesBelow;
    if n == 0 {
      NothingBelow(smallest);
    } else if ParseBlocks(s, smallest, n).Parsed? {
      var b := ReadBlock(s, smallest);
      BlockBelow(s, smallest);
      ParsedBelow(b.rest, b.value.smallest, n - 1);
      ConsRange(b.value, ParseBlocks(b.rest, b.value.smallest, n - 1).value, smallest);
    }
  }

  lemma NothingBelow(smallest: int)
    ensures RangesBelow([], smallest)
  {
  }

  lemma BlockBelow(s: seq<byte>, smallest: int)
    ensures var b := ReadBlock(s, smallest);
            b.Parsed? ==> 0 <= b.value.smallest <= b.value.largest && b.value.largest + 1 < smallest
  {
    hide V.Read;
    ReadFacts(s);
    if V.Read(s).Some? {
      ReadFacts(V.Read(s).value.1);
    }
  }

  lemma ReadFacts(s: seq<byte>)
    ensures V.Read(s).Some? ==> 0 <= V.Read(s).value.0
  {
  }

  lemma ConsRange(r: AckRange, rs: seq<AckRange>, smallest: int)
    requires 0 <= r.smallest <= r.largest && r.largest + 1 < smallest && RangesBelow(rs, r.smallest)
    ensures RangesBelow([r] + rs, smallest)
  {
    var all := [r] + rs;
    forall i, j | 0 <= i < j < |all| ensures all[j].largest + 1 < all[i].smallest {
      assert j > 0 && all[j] == rs[j - 1] && (i > 0 ==> all[i] == rs[i - 1]);
    }
  }

  /** Ranges that are parsed are valid. */
  lemma RangesValid(s: seq<byte>)
    requires ParseRanges(s).Parsed?
    ensures ValidRanges(ParseRanges(s).value.ranges)
    ensures forall i :: 0 <= i < |ParseRanges(s).value.ranges| ==> 0 <= ParseRanges(s).value.ranges[i].smallest
  {
    hide V.Read, ParseBlocks;
    var la := V.Read(s).value;
    var delay := V.Read(la.1).value;
    var n := V.Read(delay.1).value;
    var ab := V.Read(n.1).value;
    ReadFacts(delay.1);
    ReadFacts(n.1);
    ParsedBelow(ab.1, la.0 - ab.0, n.0);
    ConsRange(AckRange(la.0 - ab.0, la.0), ParseBlocks(ab.1, la.0 - ab.0, n.0).value, la.0 + 2);
  }

  method ParseRemaining(input: seq<byte>, first: int, n: nat) returns (r: Outcome<seq<AckRange>>)
    ensures r == ParseBlocks(input, first, n)
  {
    hide V.Read, Prepend, ParseBlocks;
    var s, smallest, ranges := input, first, [];
    var i := 0;
    PrependTwice([], [], ParseBlocks(input, first, n));
    while i < n
      invariant 0 <= i <= n && ParseBlocks(input, first, n) == Prepend(ranges, ParseBlocks(s, smallest, n - i))
    {
      ParseNext(ranges, s, smallest, n - i);
      var g := V.Read(s);
      if g.None? {
        return Failed(UnexpectedEnd);
      }
      if smallest < g.value.0 + 2 {
        return Failed(InvalidRanges);
      }
      var largest := smallest - g.value.0 - 2;
      var b := V.Read(g.value.1);
      if b.None? {
        return Failed(UnexpectedEnd);
      }
      if b.value.0 > largest {
        return Failed(InvalidRanges);
      }
      s, smallest := b.value.1, largest - b.value.0;
      ranges := ranges + [AckRange(smallest, largest)];
      i := i + 1;
    }
    ParseDone(ranges, s, smallest);
    return Parsed(ranges, s);
  }

  lemma ParseDone(rs: seq<AckRange>, s: seq<byte>, smallest: int)
    ensures Prepend(rs, ParseBlocks(s, smallest, 0)) == Parsed(rs, s)
  {
    assert rs + [] == rs;
  }

  /** Everything up to the ECN counts. */
  method ParseBody(s: seq<byte>) returns (r: Outcome<Ranges>)
    ensures r == ParseRanges(s)
  {
    hide V.Read, ParseBlocks, ValidRanges;
    if ParseRanges(s).Parsed? {
      RangesValid(s);
    }
    var la := V.Read(s);
    if la.None? {
      return Failed(UnexpectedEnd);
    }
    var delay := V.Read(la.value.1);
    if delay.None? {
      return Failed(UnexpectedEnd);
    }
    var n := V.Read(delay.value.1);
    if n.None? {
      return Failed(UnexpectedEnd);
    }
    ReadFacts(delay.value.1);
    var ab := V.Read(n.value.1);
    if ab.None? {
      return Failed(UnexpectedEnd);
    }
    if ab.value.0 > la.value.0 {
      return Failed(InvalidFirstRange);
    }
    var smallest := la.value.0 - ab.value.0;
    var blocks := ParseRemaining(ab.value.1, smallest, n.value.0);
    if blocks.Failed? {
      return Failed(blocks.error);
    }
    var ranges := [AckRange(smallest, la.value.0)] + blocks.value;
    var valid := ValidateAckRanges(ranges);
    if !valid {
      return Failed(InvalidRanges);
    }
    return Parsed(Ranges(ranges, delay.value.0), blocks.rest);
  }

  /** The check that a frame is sent through after it is parsed. It looks at neighbours only. */
  method ValidateAckRanges(rs: seq<AckRange>) returns (ok: bool)
    ensures ok <==> ValidRanges(rs)
  {
    if |rs| == 0 {
      return false;
    }
    var i := 0;
    while i < |rs|
      invariant 0 <= i <= |rs| && forall k :: 0 <= k < i ==> rs[k].smallest <= rs[k].largest
    {
      if rs[i].smallest > rs[i].largest {
        return false;
      }
      i := i + 1;
    }
    i := 1;
    while i < |rs|
      invariant 1 <= i <= |rs|
      invariant forall j, k :: 0 <= j < k < i ==> rs[k].largest + 1 < rs[j].smallest
    {
      if rs[i - 1].smallest <= rs[i].smallest {
        assert rs[i - 1].smallest <= rs[i].largest + 1;
        return false;
      }
      if rs[i - 1].smallest <= rs[i].largest + 1 {
        return false;
      }
      i := i + 1;
    }
    return true;
  }

  /** Binary search for the highest range that does not start after `p`. */
  method AcksPacket(rs: seq<AckRange>, p: int) returns (acks: bool)
    requires ValidRanges(rs)
    ensures acks <==> Acks(rs, p)
  {
    if p < rs[|rs| - 1].smallest || p > rs[0].largest {
      return false;
    }
    var i, j := 0, |rs|;
    while i < j
      invariant 0 <= i <= j <= |rs|
      invariant forall k :: 0 <= k < i ==> p < rs[k].smallest
      invariant forall k :: j <= k < |rs| ==> rs[k].smallest <= p
    {
      var mid := (i + j) / 2;
      if p < rs[mid].smallest {
        i := mid + 1;
      } else {
        j := mid;
      }
    }
    return p <= rs[i].largest;
  }

  // ---------------------------------------------------------------------------------------------
  // The delay

  const TWO63: int := 0x8000_0000_0000_0000
  const TWO64: int := 0x1_0000_0000_0000_0000
  const INF_DURATION: int := TWO63 - 1
  const ACK_DELAY_EXPONENT := 3
  const NANOS_PER_UNIT := 8000

  /** The value of 64 bits as a signed integer. */
  function Signed64(x: int): int {
    var m := x % TWO64;
    if m >= TWO63 then m - TWO64 else m
  }

  function Pow2(e: nat): nat {
    if e == 0 then 1 else 2 * Pow2(e - 1)
  }

  /** Microseconds, after the shift, as nanoseconds: both the conversion and the product may wrap around. */
  function WrappedNanos(micros: nat): int {
    Signed64(1000 * Signed64(micros))
  }

  function DelayOf(micros: nat): int {
    if WrappedNanos(micros) < 0 then INF_DURATION else WrappedNanos(micros)
  }

  /** The delay of a parsed frame. */
  function DelayTime(delay: nat, exponent: nat): int {
    DelayOf(delay * Pow2(exponent))
  }

  function EncodeDelay(delayTime: nat): nat {
    delayTime / NANOS_PER_UNIT
  }

  lemma SignedSmall(x: int)
    requires 0 <= x < TWO63
    ensures Signed64(x) == x
  {
  }

  lemma SignedEven(x: int)
    ensures Signed64(2 * x) % 2 == 0
  {
    var q := (2 * x) / TWO64;
    assert (2 * x) % TWO64 == 2 * (x - q * (TWO64 / 2));
  }

  /**
    A delay that is too large is meant to become the largest duration. It does exactly if the product wraps
    around to a negative number.
   */
  lemma DelayExactly(micros: nat)
    ensures DelayOf(micros) == Min(1000 * micros, INF_DURATION)
       <==> 1000 * micros <= INF_DURATION || WrappedNanos(micros) < 0
  {
    if 1000 * micros <= INF_DURATION {
      SignedSmall(micros);
      SignedSmall(1000 * micros);
    } else if WrappedNanos(micros) >= 0 {
      SignedEven(500 * Signed64(micros));
      assert 2 * (500 * Signed64(micros)) == 1000 * Signed64(micros);
    }
  }

  /** A delay of 2^61 units wraps around to none at all. */
  lemma DelayWraps()
    ensures DelayTime(0x2000_0000_0000_0000, ACK_DELAY_EXPONENT) == 0
  {
    assert Pow2(3) == 2 * Pow2(2) && Pow2(2) == 2 * Pow2(1) && Pow2(1) == 2 * Pow2(0);
  }

  /** A delay survives in units of eight microseconds. */
  lemma DelayRoundTrip(delayTime: nat)
    requires delayTime <= INF_DURATION
    ensures EncodeDelay(delayTime) <= V.MAX8
    ensures DelayTime(EncodeDelay(delayTime), ACK_DELAY_EXPONENT) == delayTime - delayTime % NANOS_PER_UNIT
  {
    assert Pow2(3) == 2 * Pow2(2) && Pow2(2) == 2 * Pow2(1) && Pow2(1) == 2 * Pow2(0);
    var d := EncodeDelay(delayTime);
    SignedSmall(d * 8);
    SignedSmall(1000 * (d * 8));
  }

  // ---------------------------------------------------------------------------------------------
  // ECN counts, and the whole frame

  function ReadECN(s: seq<byte>): Outcome<ECN> {
    var a := V.Read(s);
    if a.None? then Failed(UnexpectedEnd)
    else
      var b := V.Read(a.value.1);
      if b.None? then Failed(UnexpectedEnd)
      else
        var c := V.Read(b.value.1);
        if c.None? then Failed(UnexpectedEnd) else Parsed(ECN(a.value.0, b.value.0, c.value.0), c.value.1)
  }

  /** What follows the type of the frame, which says whether there are ECN counts. */
  function Parse(s: seq<byte>, typ: byte, exponent: nat): Outcome<Frame> {
    var r := ParseRanges(s);
    if r.Failed? then Failed(r.error)
    else
      var delayTime := DelayTime(r.value.delay, exponent);
      if typ != ACK_ECN_FRAME_TYPE then Parsed(Frame(r.value.ranges, delayTime, NO_ECN), r.rest)
      else
        var e := ReadECN(r.rest);
        if e.Failed? then Failed(e.error) else Parsed(Frame(r.value.ranges, delayTime, e.value), e.rest)
  }

  /** Every frame that is parsed has valid ranges. */
  lemma ParsedValid(s: seq<byte>, typ: byte, exponent: nat)
    requires Parse(s, typ, exponent).Parsed?
    ensures ValidRanges(Parse(s, typ, exponent).value.ranges)
    ensures forall r :: r in Parse(s, typ, exponent).value.ranges ==> 0 <= r.smallest
  {
    hide ParseRanges, ReadECN, DelayTime;
    RangesValid(s);
  }

  method ParseAckFrame(s: seq<byte>, typ: byte, exponent: nat) returns (r: Outcome<Frame>)
    ensures r == Parse(s, typ, exponent)
    ensures r.Parsed? ==> ValidRanges(r.value.ranges)
  {
    hide V.Read, ParseRanges, DelayTime, ValidRanges;
    if Parse(s, typ, exponent).Parsed? {
      ParsedValid(s, typ, exponent);
    }
    var b := ParseBody(s);
    if b.Failed? {
      return Failed(b.error);
    }
    var f := Frame(b.value.ranges, DelayTime(b.value.delay, exponent), NO_ECN);
    if typ != ACK_ECN_FRAME_TYPE {
      return Parsed(f, b.rest);
    }
    var ect0 := V.Read(b.rest);
    if ect0.None? {
      return Failed(UnexpectedEnd);
    }
    var ect1 := V.Read(ect0.value.1);
    if ect1.None? {
      return Failed(UnexpectedEnd);
    }
    var ecnce := V.Read(ect1.value.1);
    if ecnce.None? {
      return Failed(UnexpectedEnd);
    }
    return Parsed(f.(ecn := ECN(ect0.value.0, ect1.value.0, ecnce.value.0)), ecnce.value.1);
  }

  // ---------------------------------------------------------------------------------------------
  // Writing

  ghost predicate Encodable(rs: seq<AckRange>) {
    ValidRanges(rs) && rs[0].largest <= V.MAX8 && forall i :: 0 <= i < |rs| ==> 0 <= rs[i].smallest
  }

  lemma TailBelow(rs: seq<AckRange>, smallest: int)
    requires RangesBelow(rs, smallest) && rs != []
    ensures RangesBelow(rs[1..], rs[0].smallest) && 0 <= rs[0].smallest <= rs[0].largest && rs[0].largest + 1 < smallest
  {
  }

  /** A gap and the length of the range below it. */
  function Pair(gap: int, block: int): seq<byte>
    requires 0 <= gap <= V.MAX8 && 0 <= block <= V.MAX8
  {
    V.Encode(gap) + V.Encode(block)
  }

  function WriteBlocks(rs: seq<AckRange>, smallest: int): seq<byte>
    requires RangesBelow(rs, smallest) && smallest <= V.MAX8
  {
    if rs == [] then []
    else
      TailBelow(rs, smallest);
      Pair(smallest - rs[0].largest - 2, rs[0].largest - rs[0].smallest) + WriteBlocks(rs[1..], rs[0].smallest)
  }

  lemma PairRead(r: AckRange, smallest: int, tail: seq<byte>)
    requires 0 <= r.smallest <= r.largest && r.largest + 1 < smallest <= V.MAX8
    ensures ReadBlock(Pair(smallest - r.largest - 2, r.largest - r.smallest) + tail, smallest) == Parsed(r, tail)
  {
    hide V.Read, V.Encode;
    var gap, block := smallest - r.largest - 2, r.largest - r.smallest;
    assert Pair(gap, block) + tail == V.Encode(gap) + (V.Encode(block) + tail);
    V.RoundTrip(gap, V.Encode(block) + tail);
    V.RoundTrip(block, tail);
  }

  lemma {:induction false} BlocksRoundTrip(rs: seq<AckRange>, smallest: int, rest: seq<byte>)
    requires RangesBelow(rs, smallest) && smallest <= V.MAX8
    ensures ParseBlocks(WriteBlocks(rs, smallest) + rest, smallest, |rs|) == Parsed(rs, rest)
  {
    hide Pair, ReadBlock, RangesBelow;
    if rs == [] {
      assert [] + rest == rest;
    } else {
      TailBelow(rs, smallest);
      var pair := Pair(smallest - rs[0].largest - 2, rs[0].largest - rs[0].smallest);
      var tail := WriteBlocks(rs[1..], rs[0].smallest);
      assert (pair + tail) + rest == pair + (tail + rest);
      PairRead(rs[0], smallest, tail + rest);
      BlocksRoundTrip(rs[1..], rs[0].smallest, rest);
      assert rs == [rs[0]] + rs[1..];
    }
  }

  /** The length of a range on the wire, after the one before it. */
  function RangeLen(rs: seq<AckRange>, i: nat): nat
    requires Encodable(rs) && 0 < i < |rs|
  {
    V.Len(rs[i - 1].smallest - rs[i].largest - 2) + V.Len(rs[i].largest - rs[i].smallest)
  }

  /** The number of ranges that are written, when those before `i` take `length` bytes. */
  function EncodableFrom(rs: seq<AckRange>, i: nat, length: nat): nat
    requires Encodable(rs) && 0 < i <= |rs|
    decreases |rs| - i
  {
    if i == |rs| then |rs|
    else if length + RangeLen(rs, i) > MAX_ACK_FRAME_SIZE then i - 1
    else EncodableFrom(rs, i + 1, length + RangeLen(rs, i))
  }

  function NumEncodable(rs: seq<AckRange>, delay: nat): nat
    requires Encodable(rs) && delay <= V.MAX8
  {
    EncodableFrom(rs, 1, 1 + V.Len(rs[0].largest) + V.Len(delay) + 2)
  }

  method NumEncodableAckRanges(rs: seq<AckRange>, delay: nat) returns (n: nat)
    requires Encodable(rs) && delay <= V.MAX8
    ensures n == NumEncodable(rs, delay) && 1 <= n <= |rs|
    ensures |rs| <= 32 ==> n == |rs|
  {
    var length := 1 + V.Len(rs[0].largest) + V.Len(delay);
    length := length + 2;
    EncodableBound(rs, 1, length);
    var i := 1;
    while i < |rs|
      invariant 1 <= i <= |rs| && 0 <= length && EncodableFrom(rs, i, length) == NumEncodable(rs, delay)
    {
      var rangeLen := RangeLen(rs, i);
      if length + rangeLen > MAX_ACK_FRAME_SIZE {
        return i - 1;
      }
      length := length + rangeLen;
      i := i + 1;
    }
    return |rs|;
  }

  /** One range always fits, and so do 32. */
  lemma {:induction false} EncodableBound(rs: seq<AckRange>, i: nat, length: nat)
    requires Encodable(rs) && 0 < i <= |rs| && length <= 19 + 16 * (i - 1)
    ensures i <= 2 ==> 1 <= EncodableFrom(rs, i, length)
    ensures i - 1 <= EncodableFrom(rs, i, length) <= |rs|
    ensures |rs| <= 32 ==> EncodableFrom(rs, i, length) == |rs|
    decreases |rs| - i
  {
    if i < |rs| && length + RangeLen(rs, i) <= MAX_ACK_FRAME_SIZE {
      EncodableBound(rs, i + 1, length + RangeLen(rs, i));
    }
  }

  function WriteRanges(rs: seq<AckRange>, n: nat, delay: nat): seq<byte>
    requires Encodable(rs) && 1 <= n <= |rs| && n <= V.MAX8 && delay <= V.MAX8
  {
    FirstOnes(rs, n);
    Header(rs[0].largest, delay, n - 1, rs[0].largest - rs[0].smallest) + WriteBlocks(rs[1..n], rs[0].smallest)
  }

  function Header(w: nat, x: nat, y: nat, z: nat): seq<byte>
    requires w <= V.MAX8 && x <= V.MAX8 && y <= V.MAX8 && z <= V.MAX8
  {
    V.Encode(w) + V.Encode(x) + V.Encode(y) + V.Encode(z)
  }

  lemma Assoc(a: seq<byte>, b: seq<byte>, c: seq<byte>)
    ensures (a + b) + c == a + (b + c)
  {
  }

  lemma HeaderRead(w: nat, x: nat, y: nat, z: nat, rest: seq<byte>)
    requires w <= V.MAX8 && x <= V.MAX8 && y <= V.MAX8 && z <= V.MAX8
    ensures V.Read(Header(w, x, y, z) + rest) == Some((w, V.Encode(x) + (V.Encode(y) + (V.Encode(z) + rest))))
    ensures V.Read(V.Encode(x) + (V.Encode(y) + (V.Encode(z) + rest))) == Some((x, V.Encode(y) + (V.Encode(z) + rest)))
    ensures V.Read(V.Encode(y) + (V.Encode(z) + rest)) == Some((y, V.Encode(z) + rest))
    ensures V.Read(V.Encode(z) + rest) == Some((z, rest))
  {
    hide V.Read, V.Encode;
    var s3 := V.Encode(z) + rest;
    var s2 := V.Encode(y) + s3;
    var s1 := V.Encode(x) + s2;
    var a, b := V.Encode(w), V.Encode(w) + V.Encode(x);
    Assoc(b + V.Encode(y), V.Encode(z), rest);
    Assoc(b, V.Encode(y), s3);
    Assoc(a, V.Encode(x), s2);
    V.RoundTrip(w, s1);
    V.RoundTrip(x, s2);
    V.RoundTrip(y, s3);
    V.RoundTrip(z, rest);
  }

  lemma FirstOnes(rs: seq<AckRange>, n: nat)
    requires Encodable(rs) && 1 <= n <= |rs|
    ensures RangesBelow(rs[1..n], rs[0].smallest) && 0 <= rs[0].smallest <= rs[0].largest <= V.MAX8
  {
    if n > 1 {
      assert rs[1..n][0] == rs[1];
    }
  }

  lemma RangesRoundTrip(rs: seq<AckRange>, n: nat, delay: nat, rest: seq<byte>)
    requires Encodable(rs) && 1 <= n <= |rs| && n <= V.MAX8 && delay <= V.MAX8
    ensures ParseRanges(WriteRanges(rs, n, delay) + rest) == Parsed(Ranges(rs[..n], delay), rest)
  {
    hide RangesBelow, ParseBlocks, WriteBlocks, ValidRanges, Header, ParseRanges;
    FirstOnes(rs, n);
    var la, first := rs[0].largest, rs[0].largest - rs[0].smallest;
    var blocks := WriteBlocks(rs[1..n], rs[0].smallest);
    Assoc(Header(la, delay, n - 1, first), blocks, rest);
    ParseHeader(la, delay, n - 1, first, blocks + rest);
    BlocksRoundTrip(rs[1..n], rs[0].smallest, rest);
    assert rs[..n] == [rs[0]] + rs[1..n];
  }

  lemma ParseHeader(la: nat, delay: nat, n: nat, first: nat, rest: seq<byte>)
    requires la <= V.MAX8 && delay <= V.MAX8 && n <= V.MAX8 && first <= la
    ensures ParseRanges(Header(la, delay, n, first) + rest) ==
            var r := ParseBlocks(rest, la - first, n);
            if r.Failed? then Failed(r.error) else Parsed(Ranges([AckRange(la - first, la)] + r.value, delay), r.rest)
  {
    hide V.Read, V.Encode, ParseBlocks, Header, ParseRanges;
    HeaderRead(la, delay, n, first, rest);
    var s3 := V.Encode(first) + rest;
    var s2 := V.Encode(n) + s3;
    ParseFrom(Header(la, delay, n, first) + rest, V.Encode(delay) + s2, s2, s3, rest, la, delay, n, first);
  }

  lemma ParseFrom(s: seq<byte>, s1: seq<byte>, s2: seq<byte>, s3: seq<byte>, s4: seq<byte>,
                  la: nat, delay: nat, n: nat, first: nat)
    requires V.Read(s) == Some((la, s1)) && V.Read(s1) == Some((delay, s2))
    requires V.Read(s2) == Some((n, s3)) && V.Read(s3) == Some((first, s4)) && first <= la
    ensures ParseRanges(s) ==
            var r := ParseBlocks(s4, la - first, n);
            if r.Failed? then Failed(r.error) else Parsed(Ranges([AckRange(la - first, la)] + r.value, delay), r.rest)
  {
    hide V.Read, ParseBlocks;
  }

  /** Appends the ranges, as many as can be encoded. */
  method AppendRanges(b: seq<byte>, rs: seq<AckRange>, delay: nat) returns (r: seq<byte>, n: nat)
    requires Encodable(rs) && delay <= V.MAX8 && |rs| <= V.MAX8
    ensures n == NumEncodable(rs, delay) && 1 <= n <= |rs| && r == b + WriteRanges(rs, n, delay)
  {
    hide Pair, Header, V.Append, NumEncodable, RangesBelow, WriteBlocks, ValidRanges;
    n := NumEncodableAckRanges(rs, delay);
    FirstOnes(rs, n);
    r := AppendFour(b, rs[0].largest, delay, n - 1, rs[0].largest - rs[0].smallest);
    ghost var start := r;
    var i := 1;
    FirstOnes(rs, 1);
    WriteNothing(rs[1..1], rs[0].smallest);
    assert start + [] == start;
    while i < n
      invariant 1 <= i <= n && RangesBelow(rs[1..i], rs[0].smallest)
      invariant r == start + WriteBlocks(rs[1..i], rs[0].smallest)
    {
      FirstOnes(rs, i + 1);
      Neighbours(rs, i);
      WriteNext(rs, i);
      var gap, len := rs[i - 1].smallest - rs[i].largest - 2, rs[i].largest - rs[i].smallest;
      Assoc(start, WriteBlocks(rs[1..i], rs[0].smallest), Pair(gap, len));
      r := AppendPair(r, gap, len);
      i := i + 1;
    }
    FirstOnes(rs, n);
    Assoc(b, Header(rs[0].largest, delay, n - 1, rs[0].largest - rs[0].smallest),
          WriteBlocks(rs[1..n], rs[0].smallest));
  }

  lemma WriteNothing(rs: seq<AckRange>, smallest: int)
    requires rs == [] && smallest <= V.MAX8
    ensures RangesBelow(rs, smallest) && WriteBlocks(rs, smallest) == []
  {
  }

  method AppendPair(b: seq<byte>, gap: int, block: int) returns (r: seq<byte>)
    requires 0 <= gap <= V.MAX8 && 0 <= block <= V.MAX8
    ensures r == b + Pair(gap, block)
  {
    hide V.Encode, V.Append;
    V.AppendEncode(b, gap);
    r := V.Append(b, gap);
    V.AppendEncode(r, block);
    r := V.Append(r, block);
  }

  method AppendFour(b: seq<byte>, w: nat, x: nat, y: nat, z: nat) returns (r: seq<byte>)
    requires w <= V.MAX8 && x <= V.MAX8 && y <= V.MAX8 && z <= V.MAX8
    ensures r == b + Header(w, x, y, z)
  {
    hide V.Encode, V.Append;
    V.AppendEncode(b, w);
    r := V.Append(b, w);
    V.AppendEncode(r, x);
    r := V.Append(r, x);
    V.AppendEncode(r, y);
    r := V.Append(r, y);
    V.AppendEncode(r, z);
    r := V.Append(r, z);
  }

  lemma Neighbours(rs: seq<AckRange>, i: nat)
    requires Encodable(rs) && 0 < i < |rs|
    ensures 0 <= rs[i - 1].smallest - rs[i].largest - 2 <= V.MAX8 && 0 <= rs[i].largest - rs[i].smallest <= V.MAX8
  {
  }

  lemma WriteNext(rs: seq<AckRange>, i: nat)
    requires Encodable(rs) && 0 < i < |rs|
    requires RangesBelow(rs[1..i], rs[0].smallest) && RangesBelow(rs[1..i + 1], rs[0].smallest)
    ensures 0 <= rs[i - 1].smallest - rs[i].largest - 2 <= V.MAX8 && 0 <= rs[i].largest - rs[i].smallest <= V.MAX8
    ensures WriteBlocks(rs[1..i + 1], rs[0].smallest) ==
            WriteBlocks(rs[1..i], rs[0].smallest)
            + Pair(rs[i - 1].smallest - rs[i].largest - 2, rs[i].largest - rs[i].smallest)
  {
    hide Pair, WriteBlocks, RangesBelow;
    Neighbours(rs, i);
    assert rs[1..i + 1] == rs[1..i] + [rs[i]];
    BlocksAppend(rs[1..i], rs[i], rs[0].smallest);
  }

  lemma {:induction false} BlocksAppend(rs: seq<AckRange>, r: AckRange, smallest: int)
    requires RangesBelow(rs, smallest) && RangesBelow(rs + [r], smallest) && smallest <= V.MAX8
    ensures var last := if rs == [] then smallest else rs[|rs| - 1].smallest;
            && 0 <= last - r.largest - 2 <= V.MAX8 && 0 <= r.largest - r.smallest <= V.MAX8
            && WriteBlocks(rs + [r], smallest)
               == WriteBlocks(rs, smallest) + Pair(last - r.largest - 2, r.largest - r.smallest)
  {
    hide Pair, RangesBelow;
    TailBelow(rs + [r], smallest);
    if rs == [] {
      assert rs + [r] == [r] && [r][1..] == [];
      WriteNothing([], r.smallest);
      var p := Pair(smallest - r.largest - 2, r.largest - r.smallest);
      assert p + [] == p == [] + p;
    } else {
      TailBelow(rs, smallest);
      assert (rs + [r])[1..] == rs[1..] + [r] && (rs + [r])[0] == rs[0];
      BlocksAppend(rs[1..], r, rs[0].smallest);
      var last := rs[|rs| - 1].smallest;
      var p0 := Pair(smallest - rs[0].largest - 2, rs[0].largest - rs[0].smallest);
      var p1 := Pair(last - r.largest - 2, r.largest - r.smallest);
      var w := WriteBlocks(rs[1..], rs[0].smallest);
      Assoc(p0, w, p1);
    }
  }

  // ---------------------------------------------------------------------------------------------
  // Writing the whole frame

  predicate CountsOk(e: ECN) {
    e.ect0 <= V.MAX8 && e.ect1 <= V.MAX8 && e.ecnce <= V.MAX8
  }

  predicate HasECN(e: ECN) {
    e.ect0 > 0 || e.ect1 > 0 || e.ecnce > 0
  }

  function TypeOf(e: ECN): byte {
    if HasECN(e) then ACK_ECN_FRAME_TYPE else ACK_FRAME_TYPE
  }

  function WriteECN(e: ECN): seq<byte>
    requires CountsOk(e)
  {
    if HasECN(e) then V.Encode(e.ect0) + V.Encode(e.ect1) + V.Encode(e.ecnce) else []
  }

  /** A frame may be written: its numbers fit, and its delay is not negative. */
  ghost predicate Writable(f: Frame) {
    Encodable(f.ranges) && |f.ranges| <= V.MAX8 && 0 <= f.delayTime <= INF_DURATION && CountsOk(f.ecn)
  }

  /** The number of ranges that are written. */
  function Written(f: Frame): nat
    requires Writable(f)
  {
    DelayRoundTrip(f.delayTime);
    NumEncodable(f.ranges, EncodeDelay(f.delayTime))
  }

  lemma WrittenBound(f: Frame)
    requires Writable(f)
    ensures EncodeDelay(f.delayTime) <= V.MAX8 && 1 <= Written(f) <= |f.ranges|
    ensures |f.ranges| <= 32 ==> Written(f) == |f.ranges|
  {
    DelayRoundTrip(f.delayTime);
    EncodableBound(f.ranges, 1, 1 + V.Len(f.ranges[0].largest) + V.Len(EncodeDelay(f.delayTime)) + 2);
  }

  function Write(f: Frame): seq<byte>
    requires Writable(f)
  {
    WrittenBound(f);
    [TypeOf(f.ecn)] + (WriteRanges(f.ranges, Written(f), EncodeDelay(f.delayTime)) + WriteECN(f.ecn))
  }

  method AppendAckFrame(b: seq<byte>, f: Frame) returns (r: seq<byte>)
    requires Writable(f)
    ensures r == b + Write(f)
  {
    hide V.Encode, V.Append, Encodable, WriteRanges, NumEncodable;
    WrittenBound(f);
    var hasECN := f.ecn.ect0 > 0 || f.ecn.ect1 > 0 || f.ecn.ecnce > 0;
    r := b + [if hasECN then ACK_ECN_FRAME_TYPE else ACK_FRAME_TYPE];
    var n;
    ghost var start := r;
    r, n := AppendRanges(r, f.ranges, EncodeDelay(f.delayTime));
    ghost var ranges := WriteRanges(f.ranges, n, EncodeDelay(f.delayTime));
    if hasECN {
      r := AppendCounts(r, f.ecn);
    } else {
      assert r == r + WriteECN(f.ecn);
    }
    Assoc(start, ranges, WriteECN(f.ecn));
    Assoc(b, [TypeOf(f.ecn)], ranges + WriteECN(f.ecn));
  }

  method AppendCounts(b: seq<byte>, e: ECN) returns (r: seq<byte>)
    requires CountsOk(e) && HasECN(e)
    ensures r == b + WriteECN(e)
  {
    hide V.Encode, V.Append;
    V.AppendEncode(b, e.ect0);
    r := V.Append(b, e.ect0);
    V.AppendEncode(r, e.ect1);
    r := V.Append(r, e.ect1);
    V.AppendEncode(r, e.ecnce);
    r := V.Append(r, e.ecnce);
  }

  lemma ECNRoundTrip(e: ECN, rest: seq<byte>)
    requires CountsOk(e) && HasECN(e)
    ensures ReadECN(WriteECN(e) + rest) == Parsed(e, rest)
  {
    hide V.Read, V.Encode;
    var s2 := V.Encode(e.ecnce) + rest;
    var s1 := V.Encode(e.ect1) + s2;
    Assoc(V.Encode(e.ect0) + V.Encode(e.ect1), V.Encode(e.ecnce), rest);
    Assoc(V.Encode(e.ect0), V.Encode(e.ect1), s2);
    V.RoundTrip(e.ect0, s1);
    V.RoundTrip(e.ect1, s2);
    V.RoundTrip(e.ecnce, rest);
  }

  /**
    Parsing what was written, as its type says, gives back the ranges that were written, the ECN counts and
    the delay in units of eight microseconds, and consumes nothing else.
   */
  lemma RoundTrip(f: Frame, rest: seq<byte>)
    requires Writable(f)
    ensures var w := Write(f);
            && 1 <= Written(f) <= |f.ranges| && w[0] == TypeOf(f.ecn)
            && Parse(w[1..] + rest, w[0], ACK_DELAY_EXPONENT)
               == Parsed(Frame(f.ranges[..Written(f)], f.delayTime - f.delayTime % NANOS_PER_UNIT, f.ecn), rest)
  {
    hide ParseRanges, WriteRanges, Encodable, ReadECN, NumEncodable, DelayTime, EncodeDelay;
    WrittenBound(f);
    DelayRoundTrip(f.delayTime);
    var d := EncodeDelay(f.delayTime);
    var ranges := WriteRanges(f.ranges, Written(f), d);
    assert Write(f)[1..] == ranges + WriteECN(f.ecn);
    Assoc(ranges, WriteECN(f.ecn), rest);
    RangesRoundTrip(f.ranges, Written(f), d, WriteECN(f.ecn) + rest);
    if HasECN(f.ecn) {
      ECNRoundTrip(f.ecn, rest);
    } else {
      assert [] + rest == rest;
    }
  }

  /**
    From one endpoint to the other: the ranges that a receiver lists, written into a frame and parsed by the
    peer, acknowledge exactly the numbers in the receiver's list.
   */
  lemma AcksWhatWasReceived(h: RP.State, delayTime: int, ecn: ECN, rest: seq<byte>)
    requires RP.Valid(h) && h.ranges != [] && h.ranges[|h.ranges| - 1].end <= V.MAX8
    requires 0 <= delayTime <= INF_DURATION && CountsOk(ecn)
    ensures var f := Frame(RP.AckRangesOf(h.ranges), delayTime, ecn);
            && Writable(f)
            && var r := Parse(Write(f)[1..] + rest, Write(f)[0], ACK_DELAY_EXPONENT);
               && r.Parsed? && r.rest == rest && ValidRanges(r.value.ranges)
               && forall q: nat ::
                    Acks(r.value.ranges, q) <==> q in h.received && h.deletedBelow <= q && q !in h.dropped
  {
    hide V.Len, Parse, Write, ValidRanges, Acks, NumEncodable, EncodeDelay, CountsOk;
    var rs := RP.AckRangesOf(h.ranges);
    RP.SameNumbers(h.ranges);
    var f := Frame(rs, delayTime, ecn);
    WrittenBound(f);
    RoundTrip(f, rest);
    assert rs[..|rs|] == rs;
  }
}
