/** STREAM frames (section 19.8 of RFC 9000): how long they are, and how they are split. */
module StreamFrames {
  import opened Common
  import Varint

  const MIN_STREAM_FRAME_SIZE := 128
  const MAX_PACKET_BUFFER_SIZE := 1452

  /** A frame of one stream. While the stream holds it, its length field is always present. */
  datatype StreamFrame = StreamFrame(offset: int, data: seq<byte>, fin: bool)

  function End(f: StreamFrame): int {
    f.offset + |f.data|
  }

  predicate Encodable(id: int, offset: int) {
    0 <= id <= Varint.MAX8 && 0 <= offset <= Varint.MAX8
  }

  /** The bytes in front of the length field. */
  function HeaderLen(id: int, offset: int): (r: int)
    requires Encodable(id, offset)
    ensures 2 <= r <= 17
  {
    1 + Varint.Len(id) + (if offset != 0 then Varint.Len(offset) else 0)
  }

  /** The length of a frame with `n` bytes of data. */
  function Length(id: int, offset: int, n: int): int
    requires Encodable(id, offset) && 0 <= n <= Varint.MAX8
  {
    HeaderLen(id, offset) + Varint.Len(n) + n
  }

  /** The data that a frame of at most `maxSize` bytes can hold. */
  function MaxDataLen(id: int, offset: int, maxSize: int): int
    requires Encodable(id, offset) && maxSize <= Varint.MAX8
  {
    var headerLen := HeaderLen(id, offset) + 1;
    if headerLen > maxSize then 0
    else
      var n := maxSize - headerLen;
      if Varint.Len(n) != 1 then n - 1 else n
  }

  /** As long as the length field takes at most two bytes, a frame fits exactly with at most that much data. */
  lemma MaxDataLenFits(id: int, offset: int, maxSize: int, n: int)
    requires Encodable(id, offset) && maxSize <= Varint.MAX8 && 0 < n <= Varint.MAX8
    requires MaxDataLen(id, offset, maxSize) <= Varint.MAX2
    ensures Length(id, offset, n) <= maxSize <==> n <= MaxDataLen(id, offset, maxSize)
  {
  }

  /** MaxDataLen is exact if and only if its result has a length field of at most two bytes. */
  lemma MaxDataLenExact(id: int, offset: int, maxSize: int)
    requires Encodable(id, offset) && maxSize <= Varint.MAX8
    ensures (forall n :: 0 < n <= Varint.MAX8 ==>
               (Length(id, offset, n) <= maxSize <==> n <= MaxDataLen(id, offset, maxSize)))
       <==> MaxDataLen(id, offset, maxSize) <= Varint.MAX2
  {
    var m := MaxDataLen(id, offset, maxSize);
    if m <= Varint.MAX2 {
      forall n | 0 < n <= Varint.MAX8 ensures Length(id, offset, n) <= maxSize <==> n <= m {
        MaxDataLenFits(id, offset, maxSize, n);
      }
    } else {
      assert Length(id, offset, m) > maxSize;
    }
  }

  /**
    `Whole` if the frame fits; else the part split off, which is missing when not one byte fits. `OutOfRange`
    is the panic of slicing a buffer beyond its capacity.
   */
  datatype Split = Whole | Divided(prefix: StreamFrame, suffix: StreamFrame) | TooSmall | OutOfRange

  function MaybeSplitOffFrame(id: int, f: StreamFrame, maxSize: int): (r: Split)
    requires Encodable(id, f.offset) && maxSize <= Varint.MAX8 && |f.data| <= Varint.MAX8
    ensures r.Divided? ==> r.prefix.offset == f.offset && End(r.prefix) == r.suffix.offset && End(r.suffix) == End(f)
    ensures r.Divided? ==> r.prefix.data + r.suffix.data == f.data && r.prefix.data != []
    ensures r.Divided? ==> !r.prefix.fin && r.suffix.fin == f.fin
    ensures r.Divided? && MaxDataLen(id, f.offset, maxSize) <= Varint.MAX2 ==>
              r.suffix.data != [] && Length(id, f.offset, |r.prefix.data|) <= maxSize
    ensures r.Whole? <==> Length(id, f.offset, |f.data|) <= maxSize
    ensures |f.data| <= MAX_PACKET_BUFFER_SIZE && MaxDataLen(id, f.offset, maxSize) <= Varint.MAX2 ==> !r.OutOfRange?
  {
    if maxSize >= Length(id, f.offset, |f.data|) then Whole
    else
      var n := MaxDataLen(id, f.offset, maxSize);
      if n == 0 then TooSmall
      else if n > |f.data| || |f.data| - n > MAX_PACKET_BUFFER_SIZE then OutOfRange
      else Divided(StreamFrame(f.offset, f.data[..n], false), StreamFrame(f.offset + n, f.data[n..], f.fin))
  }
}
