/** The HTTP/3 SETTINGS frame (section 7.2.4 of RFC 9114): its writer against its parser. */
module Settings {
  import opened Common
  import Varint

  const SETTING_DATAGRAM := 0x33
  const MAX_SIZE := 8192

  /** `other` holds the settings that are not recognised. */
  datatype Frame = Frame(datagram: bool, other: map<nat, nat>)

  datatype Error =
    UnexpectedSize | EndOfStream | DuplicateSetting | InvalidDatagramValue | StreamHijacked | HandlerError

  /** What a handler for unknown frames does with one. */
  datatype Handled = NotHandled | Hijacked | HandlerFailed

  /** The handler, if any, gets the type of the frame, whether reading the type failed, and what follows it. */
  type Handler = Option<(int, bool, seq<byte>) -> Handled>

  /** The error that a call of the handler ends in, if any. */
  function Handle(handler: Handler, t: int, failed: bool, rest: seq<byte>): Option<Error> {
    if handler.None? then None
    else match handler.value(t, failed, rest)
      case NotHandled => None
      case Hijacked => Some(StreamHijacked)
      case HandlerFailed => Some(HandlerError)
  }

  /** What parsing ends in; `rest` is what the reader still holds. */
  datatype Result = Parsed(frame: Frame, rest: seq<byte>) | Failed(error: Error)

  // ---------------------------------------------------------------------------------------------
  // Parsing

  /** The frame read so far and whether it has the datagram setting, taken on by one setting. */
  function AddSetting(f: Frame, readDatagram: bool, id: nat, val: nat): (r: Result)
    ensures r.Parsed? && SETTING_DATAGRAM !in f.other ==> SETTING_DATAGRAM !in r.frame.other
  {
    if id == SETTING_DATAGRAM then
      if readDatagram then Failed(DuplicateSetting)
      else if val != 0 && val != 1 then Failed(InvalidDatagramValue)
      else Parsed(f.(datagram := val == 1), [])
    else if id in f.other then Failed(DuplicateSetting)
    else Parsed(f.(other := f.other[id := val]), [])
  }

  /** The settings in `buf`, added to `f`. */
  function ParseBody(buf: seq<byte>, f: Frame, readDatagram: bool): (r: Result)
    ensures r.Parsed? && SETTING_DATAGRAM !in f.other ==> SETTING_DATAGRAM !in r.frame.other
    decreases |buf|
  {
    if buf == [] then Parsed(f, [])
    else
      var id := Varint.Read(buf);
      if id.None? then Failed(EndOfStream)
      else
        var val := Varint.Read(id.value.1);
        if val.None? then Failed(EndOfStream)
        else
          var g := AddSetting(f, readDatagram, id.value.0, val.value.0);
          if g.Failed? then g
          else ParseBody(val.value.1, g.frame, readDatagram || id.value.0 == SETTING_DATAGRAM)
  }

  const EMPTY := Frame(false, map[])

  function ParseSettingsSpec(r: seq<byte>, l: int): Result
    requires 0 <= l
  {
    if l > MAX_SIZE then Failed(UnexpectedSize)
    else if |r| < l then Failed(EndOfStream)
    else match ParseBody(r[..l], EMPTY, false)
      case Parsed(f, _) => Parsed(f, r[l..])
      case Failed(e) => Failed(e)
  }

  /** Parses the body of a SETTINGS frame of `l` bytes off the reader. */
  method ParseSettings(r: seq<byte>, l: int) returns (res: Result)
    requires 0 <= l
    ensures res == ParseSettingsSpec(r, l)
  {
    hide Varint.Append, Varint.Encode, Varint.Read, Varint.Len;
    if l > MAX_SIZE {
      return Failed(UnexpectedSize);
    }
    if |r| < l {
      return Failed(EndOfStream);
    }
    var b, frame, readDatagram := r[..l], EMPTY, false;
    while |b| > 0
      invariant ParseBody(r[..l], EMPTY, false) == ParseBody(b, frame, readDatagram)
      decreases |b|
    {
      var id := Varint.Read(b);
      if id.None? {
        return Failed(EndOfStream);
      }
      var val := Varint.Read(id.value.1);
      if val.None? {
        return Failed(EndOfStream);
      }
      if id.value.0 == SETTING_DATAGRAM {
        if readDatagram {
          return Failed(DuplicateSetting);
        }
        readDatagram := true;
        if val.value.0 != 0 && val.value.0 != 1 {
          return Failed(InvalidDatagramValue);
        }
        frame := frame.(datagram := val.value.0 == 1);
      } else {
        if id.value.0 in frame.other {
          return Failed(DuplicateSetting);
        }
        frame := frame.(other := frame.other[id.value.0 := val.value.0]);
      }
      b := val.value.1;
    }
    return Parsed(frame, r[l..]);
  }

  datatype Next =
    | DataFrame(length: int, rest: seq<byte>)
    | HeadersFrame(length: int, rest: seq<byte>)
    | SettingsFrame(frame: Frame, rest: seq<byte>)
    | Error(error: Error)

  /** The next frame of a known type; unknown frames go to the handler and, unless it takes over, are skipped. */
  function ParseNext(r: seq<byte>, handler: Handler): Next
    decreases |r|
  {
    var t := Varint.Read(r);
    if t.None? then
      var e := Handle(handler, 0, true, r);
      Error(if e.Some? then e.value else EndOfStream)
    else if t.value.0 > 0xd && Handle(handler, t.value.0, false, t.value.1).Some? then
      Error(Handle(handler, t.value.0, false, t.value.1).value)
    else
      var l := Varint.Read(t.value.1);
      if l.None? then Error(EndOfStream)
      else if t.value.0 == 0x0 then DataFrame(l.value.0, l.value.1)
      else if t.value.0 == 0x1 then HeadersFrame(l.value.0, l.value.1)
      else if t.value.0 == 0x4 then
        match ParseSettingsSpec(l.value.1, l.value.0)
        case Parsed(f, rest) => SettingsFrame(f, rest)
        case Failed(e) => Error(e)
      else if |l.value.1| < l.value.0 then Error(EndOfStream)
      else ParseNext(l.value.1[l.value.0..], handler)
  }

  /** The loop that finds the next frame; ParseNext says what it finds. */
  method ParseNextFrame(r: seq<byte>, handler: Handler) returns (n: Next)
    ensures n == ParseNext(r, handler)
  {
    hide Varint.Read;
    var b := r;
    while true
      invariant ParseNext(r, handler) == ParseNext(b, handler)
      decreases |b|
    {
      var t := Varint.Read(b);
      if t.None? {
        if handler.Some? {
          match handler.value(0, true, b) {
            case HandlerFailed => return Error(HandlerError);
            case Hijacked => return Error(StreamHijacked);
            case NotHandled =>
          }
        }
        return Error(EndOfStream);
      }
      if t.value.0 > 0xd && handler.Some? {
        match handler.value(t.value.0, false, t.value.1) {
          case HandlerFailed => return Error(HandlerError);
          case Hijacked => return Error(StreamHijacked);
          case NotHandled =>
        }
      }
      var l := Varint.Read(t.value.1);
      if l.None? {
        return Error(EndOfStream);
      }
      if t.value.0 == 0x0 {
        return DataFrame(l.value.0, l.value.1);
      } else if t.value.0 == 0x1 {
        return HeadersFrame(l.value.0, l.value.1);
      } else if t.value.0 == 0x4 {
        var s := ParseSettings(l.value.1, l.value.0);
        return match s case Parsed(f, rest) => SettingsFrame(f, rest) case Failed(e) => Error(e);
      }
      if |l.value.1| < l.value.0 {
        return Error(EndOfStream);
      }
      b := l.value.1[l.value.0..];
    }
  }

  // ---------------------------------------------------------------------------------------------
  // Writing

  predicate Writable(f: Frame) {
    forall id :: id in f.other ==> 0 <= id <= Varint.MAX8 && 0 <= f.other[id] <= Varint.MAX8
  }

  function PairLen(f: Frame, id: nat): int
    requires Writable(f) && id in f.other
  {
    Varint.Len(id) + Varint.Len(f.other[id])
  }

  /** `order` lists the settings of `f.other`, each once: one order of iteration over the map. */
  ghost predicate IsOrder(order: seq<nat>, keys: set<nat>) {
    && (forall i :: 0 <= i < |order| ==> order[i] in keys)
    && (forall id :: id in keys ==> id in order)
    && (forall i, j :: 0 <= i < j < |order| ==> order[i] != order[j])
  }

  /** The settings in the given order, as bytes. */
  function Pairs(f: Frame, order: seq<nat>): seq<byte>
    requires Writable(f) && forall i :: 0 <= i < |order| ==> order[i] in f.other
  {
    if order == [] then []
    else Varint.Encode(order[0]) + Varint.Encode(f.other[order[0]]) + Pairs(f, order[1..])
  }

  lemma PairsAppend(f: Frame, order: seq<nat>, id: nat)
    requires Writable(f) && (forall i :: 0 <= i < |order| ==> order[i] in f.other) && id in f.other
    ensures Pairs(f, order + [id]) == Pairs(f, order) + Varint.Encode(id) + Varint.Encode(f.other[id])
    ensures |Pairs(f, order + [id])| == |Pairs(f, order)| + PairLen(f, id)
  {
    hide Varint.Append, Varint.Encode, Varint.Read, Varint.Len;
    Varint.AppendEncode([], id);
    Varint.AppendEncode([], f.other[id]);
    if order == [] {
      assert Pairs(f, [id]) == Varint.Encode(id) + Varint.Encode(f.other[id]) + Pairs(f, [id][1..]);
    } else {
      assert (order + [id])[1..] == order[1..] + [id];
      PairsAppend(f, order[1..], id);
    }
  }

  /** The length of the settings does not depend on the order. */
  lemma {:induction false} PairsLength(f: Frame, order: seq<nat>, order': seq<nat>, keys: set<nat>)
    requires Writable(f) && keys <= f.other.Keys && IsOrder(order, keys) && IsOrder(order', keys)
    ensures |Pairs(f, order)| == |Pairs(f, order')|
    decreases |order|
  {
    hide Varint.Append, Varint.Encode, Varint.Read, Varint.Len;
    if order == [] {
      assert keys == {};
    } else {
      var id := order[0];
      var k :| 0 <= k < |order'| && order'[k] == id;
      PairsRemove(f, order, 0);
      PairsRemove(f, order', k);
      OrderRemove(order, 0, keys);
      OrderRemove(order', k, keys);
      PairsLength(f, RemoveAt(order, 0), RemoveAt(order', k), keys - {id});
    }
  }

  lemma OrderRemove(order: seq<nat>, k: nat, keys: set<nat>)
    requires IsOrder(order, keys) && k < |order|
    ensures IsOrder(RemoveAt(order, k), keys - {order[k]})
  {
    var short := RemoveAt(order, k);
    forall x | x in keys - {order[k]} ensures x in short {
      var i :| 0 <= i < |order| && order[i] == x;
      assert short[if i < k then i else i - 1] == x;
    }
  }

  lemma {:induction false} PairsRemove(f: Frame, order: seq<nat>, k: nat)
    requires Writable(f) && (forall i :: 0 <= i < |order| ==> order[i] in f.other) && k < |order|
    ensures |Pairs(f, order)| == |Pairs(f, RemoveAt(order, k))| + PairLen(f, order[k])
    decreases |order|
  {
    hide Varint.Append, Varint.Encode, Varint.Read, Varint.Len;
    Varint.AppendEncode([], order[0]);
    Varint.AppendEncode([], f.other[order[0]]);
    var short := RemoveAt(order, k);
    if k == 0 {
      assert short == order[1..];
    } else {
      PairsRemove(f, order[1..], k - 1);
      assert short[1..] == RemoveAt(order[1..], k - 1);
      assert order[1..][k - 1] == order[k];
    }
  }

  /** The bytes behind the length of the frame, for one order of the map. */
  function Body(f: Frame, order: seq<nat>): seq<byte>
    requires Writable(f) && forall i :: 0 <= i < |order| ==> order[i] in f.other
  {
    (if f.datagram then Varint.Encode(SETTING_DATAGRAM) + Varint.Encode(1) else []) + Pairs(f, order)
  }

  /** A whole frame, for one order of the map. */
  function Written(f: Frame, order: seq<nat>): seq<byte>
    requires Writable(f) && forall i :: 0 <= i < |order| ==> order[i] in f.other
    requires |Body(f, order)| <= Varint.MAX8
  {
    Varint.Encode(0x4) + Varint.Encode(|Body(f, order)|) + Body(f, order)
  }

  /** An order of the map, as one iteration over it finds it. */
  lemma AnOrder(keys: set<nat>) returns (order: seq<nat>)
    ensures IsOrder(order, keys)
  {
    if keys == {} {
      order := [];
    } else {
      var id :| id in keys;
      var short := AnOrder(keys - {id});
      order := short + [id];
      assert forall x :: x in keys ==> x == id || x in short;
    }
  }

  /**
    Appends a frame. The map is iterated over twice, each time in an order of its own: once for the
    length, once for the settings.
   */
  method Append(b: seq<byte>, f: Frame) returns (r: seq<byte>)
    requires Writable(f)
    requires forall order :: IsOrder(order, f.other.Keys) ==> |Body(f, order)| <= Varint.MAX8
    ensures exists order :: IsOrder(order, f.other.Keys) && r == b + Written(f, order)
  {
    hide Varint.Append, Varint.Encode, Varint.Read, Varint.Len;
    var l := SettingsLength(f);
    ghost var someOrder := AnOrder(f.other.Keys);
    r := AppendPair(b, 0x4, l);
    if f.datagram {
      r := AppendPair(r, SETTING_DATAGRAM, 1);
    }
    ghost var order;
    r, order := AppendPairs(r, f);
    assert r == b + Written(f, order);
  }

  /** The first iteration. */
  method SettingsLength(f: Frame) returns (l: int)
    requires Writable(f)
    ensures forall order :: IsOrder(order, f.other.Keys) ==> l == |Body(f, order)|
  {
    hide Varint.Append, Varint.Encode, Varint.Read, Varint.Len;
    l := 0;
    var todo := f.other.Keys;
    ghost var order: seq<nat> := [];
    while todo != {}
      invariant todo <= f.other.Keys && IsOrder(order, f.other.Keys - todo)
      invariant l == |Pairs(f, order)|
    {
      var id :| id in todo;
      PairsAppend(f, order, id);
      OrderAppend(order, id, f.other.Keys - todo);
      l := l + Varint.Len(id) + Varint.Len(f.other[id]);
      order := order + [id];
      assert f.other.Keys - (todo - {id}) == (f.other.Keys - todo) + {id};
      todo := todo - {id};
    }
    assert f.other.Keys - {} == f.other.Keys;
    if f.datagram {
      l := l + Varint.Len(SETTING_DATAGRAM) + Varint.Len(1);
      Varint.AppendEncode([], SETTING_DATAGRAM);
      Varint.AppendEncode([], 1);
    }
    forall order' | IsOrder(order', f.other.Keys) ensures l == |Body(f, order')| {
      PairsLength(f, order, order', f.other.Keys);
    }
  }

  method AppendPair(b: seq<byte>, id: nat, value: nat) returns (r: seq<byte>)
    requires id <= Varint.MAX8 && value <= Varint.MAX8
    ensures r == b + (Varint.Encode(id) + Varint.Encode(value))
  {
    hide Varint.Append, Varint.Encode;
    Varint.AppendEncode(b, id);
    r := Varint.Append(b, id);
    Varint.AppendEncode(r, value);
    r := Varint.Append(r, value);
  }

  /** The second iteration. */
  method AppendPairs(b: seq<byte>, f: Frame) returns (r: seq<byte>, ghost order: seq<nat>)
    requires Writable(f)
    ensures IsOrder(order, f.other.Keys) && r == b + Pairs(f, order)
  {
    hide Varint.Append, Varint.Encode, Varint.Read, Varint.Len;
    r, order := b, [];
    var todo := f.other.Keys;
    while todo != {}
      invariant todo <= f.other.Keys && IsOrder(order, f.other.Keys - todo)
      invariant r == b + Pairs(f, order)
    {
      var id :| id in todo;
      PairsAppend(f, order, id);
      OrderAppend(order, id, f.other.Keys - todo);
      r := AppendPair(r, id, f.other[id]);
      order := order + [id];
      assert f.other.Keys - (todo - {id}) == (f.other.Keys - todo) + {id};
      todo := todo - {id};
    }
    assert f.other.Keys - {} == f.other.Keys;
  }

  lemma OrderAppend(order: seq<nat>, id: nat, keys: set<nat>)
    requires IsOrder(order, keys) && id !in keys
    ensures IsOrder(order + [id], keys + {id})
  {
    assert (order + [id])[|order|] == id;
  }

  // ---------------------------------------------------------------------------------------------
  // Round trip

  function Restrict(m: map<nat, nat>, keys: set<nat>): map<nat, nat> {
    map id | id in m && id in keys :: m[id]
  }

  /** Parsing settings that `g` does not have yet adds exactly them. */
  lemma {:induction false} ParsePairs(f: Frame, order: seq<nat>, keys: set<nat>, g: Frame, readDatagram: bool)
    requires Writable(f) && keys <= f.other.Keys && IsOrder(order, keys)
    requires SETTING_DATAGRAM !in keys && keys !! g.other.Keys
    ensures ParseBody(Pairs(f, order), g, readDatagram) == Parsed(g.(other := g.other + Restrict(f.other, keys)), [])
    decreases |order|
  {
    hide Varint.Encode, ParseBody;
    if order == [] {
      assert keys == {};
      assert g.other + Restrict(f.other, keys) == g.other;
      ParseNothing(g, readDatagram);
    } else {
      var id, val := order[0], f.other[order[0]];
      OrderRemove(order, 0, keys);
      assert RemoveAt(order, 0) == order[1..];
      ParsePair(id, val, Pairs(f, order[1..]), g, readDatagram);
      ParsePairs(f, order[1..], keys - {id}, g.(other := g.other[id := val]), readDatagram);
      RestrictAdd(g.other, f.other, keys, id);
    }
  }

  lemma ParseNothing(g: Frame, readDatagram: bool)
    ensures ParseBody([], g, readDatagram) == Parsed(g, [])
  {
  }

  lemma RestrictAdd(m: map<nat, nat>, n: map<nat, nat>, keys: set<nat>, id: nat)
    requires id in keys && keys <= n.Keys
    ensures m[id := n[id]] + Restrict(n, keys - {id}) == m + Restrict(n, keys)
  {
  }

  lemma ParsePair(id: nat, val: nat, rest: seq<byte>, g: Frame, readDatagram: bool)
    requires id <= Varint.MAX8 && val <= Varint.MAX8
    ensures ParseBody(Varint.Encode(id) + Varint.Encode(val) + rest, g, readDatagram)
         == match AddSetting(g, readDatagram, id, val)
            case Parsed(g', _) => ParseBody(rest, g', readDatagram || id == SETTING_DATAGRAM)
            case Failed(e) => Failed(e)
  {
    hide Varint.Append, Varint.Encode, Varint.Read, Varint.Len;
    assert Varint.Encode(id) + Varint.Encode(val) + rest == Varint.Encode(id) + (Varint.Encode(val) + rest);
    Varint.RoundTrip(id, Varint.Encode(val) + rest);
    Varint.RoundTrip(val, rest);
    Varint.AppendEncode([], id);
  }

  lemma ParseWrittenBody(f: Frame, order: seq<nat>)
    requires Writable(f) && IsOrder(order, f.other.Keys) && SETTING_DATAGRAM !in f.other
    ensures ParseBody(Body(f, order), EMPTY, false) == Parsed(f, [])
  {
    hide Varint.Append, Varint.Encode, Varint.Read, Varint.Len;
    var pairs := Pairs(f, order);
    assert map[] + Restrict(f.other, f.other.Keys) == f.other;
    if f.datagram {
      ParsePair(SETTING_DATAGRAM, 1, pairs, EMPTY, false);
      ParsePairs(f, order, f.other.Keys, Frame(true, map[]), true);
    } else {
      assert Body(f, order) == pairs;
      ParsePairs(f, order, f.other.Keys, EMPTY, false);
    }
  }

  /** The parser reads the header of a written frame and hands its body on. */
  lemma ParseNextWritten(f: Frame, order: seq<nat>, rest: seq<byte>, handler: Handler)
    requires Writable(f) && IsOrder(order, f.other.Keys) && |Body(f, order)| <= Varint.MAX8
    ensures ParseNext(Written(f, order) + rest, handler)
         == match ParseSettingsSpec(Body(f, order) + rest, |Body(f, order)|)
            case Parsed(g, rest') => SettingsFrame(g, rest')
            case Failed(e) => Error(e)
  {
    hide Varint.Append, Varint.Encode, Varint.Read, Varint.Len;
    var body := Body(f, order);
    assert Written(f, order) + rest == Varint.Encode(0x4) + (Varint.Encode(|body|) + (body + rest));
    Varint.RoundTrip(0x4, Varint.Encode(|body|) + (body + rest));
    Varint.RoundTrip(|body|, body + rest);
  }

  /**
    A written frame is read back as the same frame, and exactly its bytes are consumed, if and only
    if its other settings leave out the datagram setting and its body is within the size limit.
   */
  lemma RoundTrip(f: Frame, order: seq<nat>, rest: seq<byte>, handler: Handler)
    requires Writable(f) && IsOrder(order, f.other.Keys) && |Body(f, order)| <= Varint.MAX8
    ensures ParseNext(Written(f, order) + rest, handler) == SettingsFrame(f, rest)
       <==> SETTING_DATAGRAM !in f.other && |Body(f, order)| <= MAX_SIZE
  {
    hide Varint.Append, Varint.Encode, Varint.Read, Varint.Len;
    var body := Body(f, order);
    ParseNextWritten(f, order, rest, handler);
    assert (body + rest)[..|body|] == body && (body + rest)[|body|..] == rest;
    if SETTING_DATAGRAM !in f.other {
      ParseWrittenBody(f, order);
    }
  }

  const DATAGRAM_TWICE := Frame(true, map[SETTING_DATAGRAM := 1])

  /** With the datagram setting among the others, it is written twice, and the parser refuses that. */
  lemma NotReadBack(handler: Handler)
    ensures IsOrder([SETTING_DATAGRAM], DATAGRAM_TWICE.other.Keys)
    ensures |Body(DATAGRAM_TWICE, [SETTING_DATAGRAM])| == 4
    ensures ParseNext(Written(DATAGRAM_TWICE, [SETTING_DATAGRAM]), handler) == Error(DuplicateSetting)
  {
    hide Varint.Append, Varint.Encode, Varint.Read;
    var f, order := DATAGRAM_TWICE, [SETTING_DATAGRAM];
    var pair := Varint.Encode(SETTING_DATAGRAM) + Varint.Encode(1);
    Varint.AppendEncode([], SETTING_DATAGRAM);
    Varint.AppendEncode([], 1);
    assert Pairs(f, order) == pair + Pairs(f, order[1..]) == pair;
    assert Body(f, order) == pair + pair;
    ParsePair(SETTING_DATAGRAM, 1, pair, EMPTY, false);
    ParsePair(SETTING_DATAGRAM, 1, [], Frame(true, map[]), true);
    assert pair + [] == pair;
    ParseNextWritten(f, order, [], handler);
    assert Written(f, order) + [] == Written(f, order);
    assert (Body(f, order) + [])[..4] == Body(f, order);
  }

  // ---------------------------------------------------------------------------------------------
  // Any settings, and the other frames

  /** Settings as bytes, in order. */
  function PairBytes(ps: seq<(nat, nat)>): seq<byte>
    requires forall i :: 0 <= i < |ps| ==> ps[i].0 <= Varint.MAX8 && ps[i].1 <= Varint.MAX8
  {
    if ps == [] then [] else Varint.Encode(ps[0].0) + Varint.Encode(ps[0].1) + PairBytes(ps[1..])
  }

  /** No setting comes twice, and the datagram setting is 0 or 1. */
  ghost predicate Acceptable(ps: seq<(nat, nat)>) {
    && (forall i, j :: 0 <= i < j < |ps| ==> ps[i].0 != ps[j].0)
    && (forall i :: 0 <= i < |ps| && ps[i].0 == 0x33 ==> ps[i].1 <= 1)
  }

  /** The frame has exactly these settings, besides those of `g`. */
  ghost predicate Adds(g: Frame, ps: seq<(nat, nat)>, f: Frame) {
    && (f.datagram <==> (0x33, 1) in ps || (g.datagram && (0x33, 0) !in ps))
    && (forall id: nat :: id in f.other <==> id in g.other || (id != 0x33 && exists v: nat :: (id, v) in ps))
    && (forall i :: 0 <= i < |ps| && ps[i].0 != 0x33 ==> ps[i].0 in f.other && f.other[ps[i].0] == ps[i].1)
    && (forall id: nat :: id in g.other ==> id in f.other && f.other[id] == g.other[id])
  }

  /** None of the settings was seen before. */
  ghost predicate Unseen(g: Frame, readDatagram: bool, ps: seq<(nat, nat)>) {
    forall i :: 0 <= i < |ps| ==> if ps[i].0 == 0x33 then !readDatagram else ps[i].0 !in g.other
  }

  lemma {:induction false} ParsesOn(ps: seq<(nat, nat)>, g: Frame, readDatagram: bool)
    requires forall i :: 0 <= i < |ps| ==> ps[i].0 <= Varint.MAX8 && ps[i].1 <= Varint.MAX8
    requires readDatagram || !g.datagram
    ensures var r := ParseBody(PairBytes(ps), g, readDatagram);
            && (r.Parsed? <==> Acceptable(ps) && Unseen(g, readDatagram, ps))
            && (r.Parsed? ==> Adds(g, ps, r.frame))
    decreases |ps|
  {
    hide Varint.Encode, Varint.Read, ParseBody, Acceptable, Unseen, Adds;
    if ps == [] {
      ParseNothing(g, readDatagram);
      NothingAdded(g, readDatagram);
    } else {
      var (id, val) := ps[0];
      ParsePair(id, val, PairBytes(ps[1..]), g, readDatagram);
      var first := AddSetting(g, readDatagram, id, val);
      FirstRefused(ps, g, readDatagram);
      if first.Parsed? {
        ParsesOn(ps[1..], first.frame, readDatagram || id == SETTING_DATAGRAM);
        FirstAccepted(ps, g, readDatagram);
        var r := ParseBody(PairBytes(ps), g, readDatagram);
        if r.Parsed? {
          FirstAdded(ps, g, readDatagram, r.frame);
        }
      }
    }
  }

  lemma NothingAdded(g: Frame, readDatagram: bool)
    ensures Acceptable([]) && Unseen(g, readDatagram, []) && Adds(g, [], g)
  {
  }

  lemma FirstRefused(ps: seq<(nat, nat)>, g: Frame, readDatagram: bool)
    requires ps != []
    ensures AddSetting(g, readDatagram, ps[0].0, ps[0].1).Failed? ==> !(Acceptable(ps) && Unseen(g, readDatagram, ps))
  {
  }

  lemma FirstAccepted(ps: seq<(nat, nat)>, g: Frame, readDatagram: bool)
    requires ps != [] && AddSetting(g, readDatagram, ps[0].0, ps[0].1).Parsed?
    ensures var f := AddSetting(g, readDatagram, ps[0].0, ps[0].1).frame;
            Acceptable(ps) && Unseen(g, readDatagram, ps) <==>
            Acceptable(ps[1..]) && Unseen(f, readDatagram || ps[0].0 == SETTING_DATAGRAM, ps[1..])
  {
    var f, rest := AddSetting(g, readDatagram, ps[0].0, ps[0].1).frame, ps[1..];
    var seen := readDatagram || ps[0].0 == SETTING_DATAGRAM;
    assert forall i :: 0 < i < |ps| ==> ps[i] == rest[i - 1];
    if Acceptable(rest) && Unseen(f, seen, rest) {
      forall i | 0 <= i < |ps| ensures if ps[i].0 == 0x33 then !readDatagram else ps[i].0 !in g.other {
        assert i > 0 ==> ps[i] == rest[i - 1];
      }
    }
  }

  lemma FirstAdded(ps: seq<(nat, nat)>, g: Frame, readDatagram: bool, f: Frame)
    requires ps != [] && AddSetting(g, readDatagram, ps[0].0, ps[0].1).Parsed? && (readDatagram || !g.datagram)
    requires Adds(AddSetting(g, readDatagram, ps[0].0, ps[0].1).frame, ps[1..], f)
    requires Acceptable(ps) && Unseen(g, readDatagram, ps)
    ensures Adds(g, ps, f)
  {
    var g1, rest := AddSetting(g, readDatagram, ps[0].0, ps[0].1).frame, ps[1..];
    assert ps == [ps[0]] + rest;
    assert forall i :: 0 < i < |ps| ==> ps[i] == rest[i - 1];
    forall id: nat ensures id in f.other <==> id in g.other || (id != 0x33 && exists v: nat :: (id, v) in ps) {
      if id == ps[0].0 && id != 0x33 {
        assert (id, ps[0].1) in ps;
      }
      if v: nat :| (id, v) in rest {
        assert (id, v) in ps;
      }
    }
  }

  /**
    A body of any settings is accepted exactly if none comes twice and the datagram setting is 0 or 1; the frame
    has then exactly these settings.
   */
  lemma ParsesExactly(ps: seq<(nat, nat)>)
    requires forall i :: 0 <= i < |ps| ==> ps[i].0 <= Varint.MAX8 && ps[i].1 <= Varint.MAX8
    ensures var r := ParseBody(PairBytes(ps), EMPTY, false);
            && (r.Parsed? <==> Acceptable(ps))
            && (r.Parsed? ==> Adds(EMPTY, ps, r.frame))
  {
    hide ParseBody, Adds, Acceptable;
    ParsesOn(ps, EMPTY, false);
  }

  /** DATA and HEADERS frames are a type and a length; what follows is for the caller. */
  method AppendHeader(b: seq<byte>, headers: bool, length: nat) returns (r: seq<byte>)
    requires length <= Varint.MAX8
    ensures |r| >= |b| && r[..|b|] == b
    ensures forall rest, handler ::
              ParseNext(r[|b|..] + rest, handler) ==
              if headers then HeadersFrame(length, rest) else DataFrame(length, rest)
  {
    hide Varint.Append, Varint.Encode, Varint.Read, ParseNext;
    var t := if headers then 0x1 else 0x0;
    r := AppendPair(b, t, length);
    var header := Varint.Encode(t) + Varint.Encode(length);
    assert r[|b|..] == header;
    forall rest, handler ensures
        ParseNext(header + rest, handler) == if headers then HeadersFrame(length, rest) else DataFrame(length, rest) {
      ParseHeader(t, length, rest, handler);
    }
  }

  /** The header of a frame decides what it is; a frame of another type is skipped, unless the handler takes over. */
  lemma ParseHeader(t: nat, length: nat, rest: seq<byte>, handler: Handler)
    requires t <= Varint.MAX8 && length <= Varint.MAX8
    ensures var s := Varint.Encode(t) + Varint.Encode(length) + rest;
            && (t == 0x0 ==> ParseNext(s, handler) == DataFrame(length, rest))
            && (t == 0x1 ==> ParseNext(s, handler) == HeadersFrame(length, rest))
            && (t !in {0x0, 0x1, 0x4} && length <= |rest|
                  && (t > 0xd ==> Handle(handler, t, false, Varint.Encode(length) + rest).None?) ==>
                  ParseNext(s, handler) == ParseNext(rest[length..], handler))
            && (t > 0xd && Handle(handler, t, false, Varint.Encode(length) + rest).Some? ==>
                  ParseNext(s, handler) == Error(Handle(handler, t, false, Varint.Encode(length) + rest).value))
  {
    hide Varint.Append, Varint.Encode, Varint.Read, Varint.Len, Handle;
    var s := Varint.Encode(t) + Varint.Encode(length) + rest;
    assert s == Varint.Encode(t) + (Varint.Encode(length) + rest);
    Varint.RoundTrip(t, Varint.Encode(length) + rest);
    Varint.RoundTrip(length, rest);
  }
}
