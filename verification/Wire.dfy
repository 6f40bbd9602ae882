/** Values and messages of the buxton wire protocol as bytes: src/shared/serialize.c
    on mathematical sequences. Numbers are little-endian, as the daemon's host
    writes them. Floats and doubles are their bit patterns. */
module Wire {
  type byte = x: int | 0 <= x < 256
  type uint32 = x: int | 0 <= x < 0x1_0000_0000
  type uint64 = x: int | 0 <= x < 0x1_0000_0000_0000_0000
  type int32 = x: int | -0x8000_0000 <= x < 0x8000_0000
  type int64 = x: int | -0x8000_0000_0000_0000 <= x < 0x8000_0000_0000_0000

  // BuxtonDataType
  const TYPE_MIN := 0
  const TYPE_STRING := 1
  const TYPE_INT32 := 2
  const TYPE_UINT32 := 3
  const TYPE_INT64 := 4
  const TYPE_UINT64 := 5
  const TYPE_FLOAT := 6
  const TYPE_DOUBLE := 7
  const TYPE_BOOLEAN := 8
  const TYPE_UNSET := 9
  const TYPE_MAX := 10

  // BuxtonControlMessage
  const CONTROL_MIN := 0
  const CONTROL_SET := 1
  const CONTROL_SET_LABEL := 2
  const CONTROL_CREATE_GROUP := 3
  const CONTROL_REMOVE_GROUP := 4
  const CONTROL_GET := 5
  const CONTROL_UNSET := 6
  const CONTROL_LIST := 7
  const CONTROL_STATUS := 8
  const CONTROL_NOTIFY := 9
  const CONTROL_UNNOTIFY := 10
  const CONTROL_CHANGED := 11
  const CONTROL_GET_LABEL := 12
  const CONTROL_LIST_NAMES := 13
  const CONTROL_MAX := 14

  const CONTROL_CODE := 0x672
  const HEADER_LENGTH := 8
  const LENGTH_OFFSET := 4
  const MESSAGE_MAX_LENGTH := 32768
  const MESSAGE_MAX_PARAMS := 4096
  const TWO32 := 0x1_0000_0000
  const TWO64 := 0x1_0000_0000_0000_0000

  /** A typed value. A string is its bytes with the closing NUL; the empty
      sequence is the NULL string. `Untyped` is any other type tag. */
  datatype Data =
    | Str(s: seq<byte>)
    | Int32(i32: int32) | UInt32(u32: uint32) | Int64(i64: int64) | UInt64(u64: uint64)
    | Float(f32: uint32) | Double(f64: uint64) | Boolean(b: bool)
    | Untyped(tag: uint32)

  function TypeOf(d: Data): uint32 {
    match d
    case Str(_) => TYPE_STRING
    case Int32(_) => TYPE_INT32
    case UInt32(_) => TYPE_UINT32
    case Int64(_) => TYPE_INT64
    case UInt64(_) => TYPE_UINT64
    case Float(_) => TYPE_FLOAT
    case Double(_) => TYPE_DOUBLE
    case Boolean(_) => TYPE_BOOLEAN
    case Untyped(t) => t
  }

  // ---- numbers ----

  function LE(n: nat, w: nat): (s: seq<byte>)
    ensures |s| == w
  {
    if w == 0 then [] else [n % 256] + LE(n / 256, w - 1)
  }

  function UnLE(s: seq<byte>): nat {
    if s == [] then 0 else s[0] + 256 * UnLE(s[1..])
  }

  function Range(w: nat): (r: nat)
    ensures r > 0
  {
    if w == 0 then 1 else 256 * Range(w - 1)
  }

  lemma {:induction false} UnLE_LE(n: nat, w: nat)
    requires n < Range(w)
    ensures UnLE(LE(n, w)) == n
  {
    if w > 0 {
      UnLE_LE(n / 256, w - 1);
      assert LE(n, w)[1..] == LE(n / 256, w - 1);
    }
  }

  lemma {:induction false} UnLE_Range(s: seq<byte>)
    ensures UnLE(s) < Range(|s|)
  {
    if s != [] {
      UnLE_Range(s[1..]);
    }
  }

  lemma Ranges()
    ensures Range(1) == 0x100 && Range(2) == 0x1_0000 && Range(4) == TWO32 && Range(8) == TWO64
  {
    assert Range(3) == 0x100_0000 && Range(5) == 0x100_0000_0000;
    assert Range(6) == 0x1_0000_0000_0000 && Range(7) == 0x100_0000_0000_0000;
  }

  /** Two's complement. */
  function Bits(i: int, m: nat): nat
    requires i + m >= 0 && i < m
  {
    if i < 0 then i + m else i
  }

  function Signed(n: nat, m: nat): int {
    if n < m / 2 then n else n - m
  }

  // ---- parameters ----

  /** The size of a fixed-width value. */
  function Width(t: nat): nat {
    if t == TYPE_INT32 || t == TYPE_UINT32 || t == TYPE_FLOAT then 4
    else if t == TYPE_INT64 || t == TYPE_UINT64 || t == TYPE_DOUBLE then 8
    else if t == TYPE_BOOLEAN then 1
    else 0
  }

  function Payload(d: Data): seq<byte> {
    match d
    case Str(s) => s
    case Int32(i) => LE(Bits(i, TWO32), 4)
    case UInt32(u) => LE(u, 4)
    case Int64(i) => LE(Bits(i, TWO64), 8)
    case UInt64(u) => LE(u, 8)
    case Float(f) => LE(f, 4)
    case Double(f) => LE(f, 8)
    case Boolean(b) => [if b then 1 else 0]
    case Untyped(_) => []
  }

  /** The value of type `t` whose bytes are `p`. */
  function Scalar(t: nat, p: seq<byte>): Data
    requires Width(t) > 0 && |p| == Width(t)
  {
    UnLE_Range(p);
    Ranges();
    if t == TYPE_INT32 then Int32(Signed(UnLE(p), TWO32))
    else if t == TYPE_UINT32 then UInt32(UnLE(p))
    else if t == TYPE_INT64 then Int64(Signed(UnLE(p), TWO64))
    else if t == TYPE_UINT64 then UInt64(UnLE(p))
    else if t == TYPE_FLOAT then Float(UnLE(p))
    else if t == TYPE_DOUBLE then Double(UnLE(p))
    else Boolean(p[0] != 0)
  }

  lemma ScalarPayload(d: Data)
    requires !d.Str? && !d.Untyped?
    ensures Width(TypeOf(d)) == |Payload(d)| > 0 && Scalar(TypeOf(d), Payload(d)) == d
  {
    Ranges();
    match d
    case Int32(i) => UnLE_LE(Bits(i, TWO32), 4);
    case UInt32(u) => UnLE_LE(u, 4);
    case Int64(i) => UnLE_LE(Bits(i, TWO64), 8);
    case UInt64(u) => UnLE_LE(u, 8);
    case Float(f) => UnLE_LE(f, 4);
    case Double(f) => UnLE_LE(f, 8);
    case Boolean(b) =>
  }

  function Param(d: Data): seq<byte> {
    LE(TypeOf(d), 2) + LE(|Payload(d)| % TWO32, 4) + Payload(d)
  }

  function Params(list: seq<Data>): seq<byte> {
    if list == [] then [] else Param(list[0]) + Params(list[1..])
  }

  // ---- messages ----

  function Header(msg: nat, msgid: uint32, count: nat, total: nat): (h: seq<byte>)
    ensures |h| == 16
  {
    LE(CONTROL_CODE, 2) + LE(msg, 2) + LE(total % TWO32, 4) + LE(msgid, 4) + LE(count, 4)
  }

  /** The bytes of a message; the size field holds the low 32 bits of the size. */
  function Encode(msg: nat, msgid: uint32, list: seq<Data>): (s: seq<byte>)
    ensures |s| == 16 + |Params(list)|
  {
    Header(msg, msgid, |list|, 16 + |Params(list)|) + Params(list)
  }

  /** What buxton_serialize_message accepts. */
  predicate Encodable(msg: int, list: seq<Data>) {
    && CONTROL_SET <= msg < CONTROL_MAX && |list| <= MESSAGE_MAX_PARAMS
    && forall i :: 0 <= i < |list| ==> !list[i].Untyped?
  }

  /** A string the parser gives back as sent: NULL, or closed by a NUL, its length
      a 32-bit number. */
  predicate Closed(s: seq<byte>) {
    |s| < TWO32 && (s != [] ==> s[|s| - 1] == 0)
  }

  predicate Portable(list: seq<Data>) {
    forall i :: 0 <= i < |list| ==> list[i].Str? ==> Closed(list[i].s)
  }

  // ---- parsing ----

  /** `Short`: the parser reads past the frame, which this model does not follow. */
  datatype Parse<T> = Parsed(value: T) | Invalid | Short
  datatype Message = Message(msg: nat, msgid: uint32, list: seq<Data>)

  /** One parameter at the front of `t`, and the bytes it takes. */
  function DecodeParam(t: seq<byte>): (r: Parse<(Data, nat)>)
    ensures r.Parsed? ==> 6 <= r.value.1 <= |t|
  {
    if |t| < 6 then Invalid
    else
      var tag := UnLE(t[..2]);
      var len := UnLE(t[2..6]);
      if tag >= TYPE_MAX || tag <= TYPE_MIN then Invalid
      else if len == 0 && tag != TYPE_STRING then Invalid
      else if 6 + len > |t| then Invalid
      else if tag == TYPE_STRING then
        var s := t[6..6 + len];
        if len > 0 && s[len - 1] != 0 then Invalid else Parsed((Str(s), 6 + len))
      else if Width(tag) == 0 then Invalid
      else if 6 + Width(tag) > |t| then Short
      else Parsed((Scalar(tag, t[6..6 + Width(tag)]), 6 + len))
  }

  function DecodeParams(t: seq<byte>, n: nat): Parse<seq<Data>> {
    if n == 0 then Parsed([])
    else
      match DecodeParam(t)
      case Invalid => Invalid
      case Short => Short
      case Parsed((d, size)) =>
        match DecodeParams(t[size..], n - 1)
        case Invalid => Invalid
        case Short => Short
        case Parsed(rest) => Parsed([d] + rest)
  }

  function Decode(s: seq<byte>): Parse<Message> {
    if |s| < HEADER_LENGTH then Invalid
    else if UnLE(s[..2]) != CONTROL_CODE then Invalid
    else
      var msg := UnLE(s[2..4]);
      if msg <= CONTROL_MIN || msg >= CONTROL_MAX then Invalid
      else if |s| < 16 then Short
      else if UnLE(s[12..16]) > MESSAGE_MAX_PARAMS then Invalid
      else
        match DecodeParams(s[16..], UnLE(s[12..16]))
        case Invalid => Invalid
        case Short => Short
        case Parsed(list) =>
          UnLE_Range(s[8..12]);
          Ranges();
          Parsed(Message(msg, UnLE(s[8..12]), list))
  }

  /** buxton_get_message_size: 0 when there is no usable size field. */
  function MessageSize(s: seq<byte>): nat {
    if |s| < HEADER_LENGTH then 0
    else if UnLE(s[4..8]) < HEADER_LENGTH then 0
    else UnLE(s[4..8])
  }

  // ---- round trip ----

  lemma DecodeOne(d: Data, rest: seq<byte>)
    requires !d.Untyped? && (d.Str? ==> Closed(d.s))
    ensures DecodeParam(Param(d) + rest) == Parsed((d, |Param(d)|))
  {
    hide LE, UnLE, Range, Scalar;
    var t, p := Param(d) + rest, Payload(d);
    ParamFields(TypeOf(d), |p| % TWO32, p + rest);
    assert t == LE(TypeOf(d), 2) + LE(|p| % TWO32, 4) + (p + rest);
    assert t[6..6 + |p|] == p;
    if !d.Str? {
      ScalarPayload(d);
    }
  }

  /** A string that is not closed is refused. */
  lemma UnclosedRefused(s: seq<byte>, rest: seq<byte>)
    requires 0 < |s| < TWO32 && s[|s| - 1] != 0
    ensures DecodeParam(Param(Str(s)) + rest) == Invalid
  {
    hide LE, UnLE, Range, Scalar;
    var t := Param(Str(s)) + rest;
    ParamFields(TYPE_STRING, |s|, s + rest);
    assert t == LE(TYPE_STRING, 2) + LE(|s|, 4) + (s + rest);
    assert t[6..6 + |s|] == s;
  }

  lemma ParamFields(tag: nat, len: nat, rest: seq<byte>)
    requires tag < 0x1_0000 && len < TWO32
    ensures var t := LE(tag, 2) + LE(len, 4) + rest;
      UnLE(t[..2]) == tag && UnLE(t[2..6]) == len && t[6..] == rest
  {
    var t := LE(tag, 2) + LE(len, 4) + rest;
    Ranges();
    UnLE_LE(tag, 2);
    UnLE_LE(len, 4);
    assert t[..2] == LE(tag, 2);
    assert t[2..6] == LE(len, 4);
  }

  lemma {:induction false} DecodeAll(list: seq<Data>, rest: seq<byte>)
    requires Portable(list) && forall i :: 0 <= i < |list| ==> !list[i].Untyped?
    ensures DecodeParams(Params(list) + rest, |list|) == Parsed(list)
  {
    hide DecodeParam, Param;
    if list != [] {
      var tail, n := Params(list[1..]) + rest, |Param(list[0])|;
      var t := Param(list[0]) + tail;
      assert Params(list) + rest == t;
      DecodeOne(list[0], tail);
      DecodeAll(list[1..], rest);
      assert t[n..] == tail && list == [list[0]] + list[1..];
    }
  }

  /** And so is a list with such a string. */
  lemma {:induction false} ListRefused(list: seq<Data>, rest: seq<byte>)
    requires forall i :: 0 <= i < |list| ==> !list[i].Untyped? && (list[i].Str? ==> |list[i].s| < TWO32)
    requires !Portable(list)
    ensures DecodeParams(Params(list) + rest, |list|) == Invalid
  {
    hide DecodeParam, Param;
    var tail, n := Params(list[1..]) + rest, |Param(list[0])|;
    var t, d := Param(list[0]) + tail, list[0];
    assert Params(list) + rest == t;
    if d.Str? && !Closed(d.s) {
      UnclosedRefused(d.s, tail);
    } else {
      DecodeOne(d, tail);
      assert list == [d] + list[1..];
      assert t[n..] == tail;
      ListRefused(list[1..], rest);
    }
  }

  /** Of messages whose strings have 32-bit lengths, just those with closed strings
      are parsed again. */
  lemma ParsedExact(msg: nat, msgid: uint32, list: seq<Data>, rest: seq<byte>)
    requires Encodable(msg, list) && forall i :: 0 <= i < |list| && list[i].Str? ==> |list[i].s| < TWO32
    ensures Decode(Encode(msg, msgid, list) + rest) ==
      if forall i :: 0 <= i < |list| && list[i].Str? && list[i].s != [] ==> list[i].s[|list[i].s| - 1] == 0
      then Parsed(Message(msg, msgid, list)) else Invalid
  {
    hide LE, UnLE, Header, Params, DecodeParams;
    if Portable(list) {
      RoundTrip(msg, msgid, list, rest);
    } else {
      var s := Encode(msg, msgid, list) + rest;
      HeaderFields(msg, msgid, |list|, 16 + |Params(list)|, Params(list) + rest);
      assert s == Header(msg, msgid, |list|, 16 + |Params(list)|) + (Params(list) + rest);
      ListRefused(list, rest);
    }
  }

  /** The first byte of a number is its lowest. */
  lemma LEBytes(n: nat)
    ensures LE(n, 2) == [n % 256, n / 256 % 256]
    ensures LE(n, 4) == [n % 256, n / 256 % 256, n / 256 / 256 % 256, n / 256 / 256 / 256 % 256]
  {
    var m := n / 256 / 256;
    assert LE(m / 256, 1) == [m / 256 % 256];
    assert LE(m, 2) == [m % 256, m / 256 % 256];
    assert LE(n / 256, 3) == [n / 256 % 256] + LE(m, 2);
  }

  /** The bytes of an empty message. */
  lemma HeaderBytes()
    ensures Encode(CONTROL_SET, 7, []) == [0x72, 6, 1, 0, 16, 0, 0, 0, 7, 0, 0, 0, 0, 0, 0, 0]
  {
    hide LE;
    LEBytes(CONTROL_CODE);
    LEBytes(CONTROL_SET);
    LEBytes(16);
    LEBytes(7);
    LEBytes(0);
  }

  /** The bytes of a string, a number and a truth value. */
  lemma ParamBytes()
    ensures Param(Str([97, 0])) == [1, 0, 2, 0, 0, 0, 97, 0]
    ensures Param(Int32(-2)) == [2, 0, 4, 0, 0, 0, 254, 255, 255, 255]
    ensures Param(Boolean(true)) == [8, 0, 1, 0, 0, 0, 1]
  {
    hide LE;
    LEBytes(1);
    LEBytes(2);
    LEBytes(4);
    LEBytes(8);
    LEBytes(0xFFFF_FFFE);
  }

  /** Deserializing undoes serializing, also with further bytes behind the message. */
  lemma RoundTrip(msg: nat, msgid: uint32, list: seq<Data>, rest: seq<byte>)
    requires Encodable(msg, list) && Portable(list)
    ensures Decode(Encode(msg, msgid, list) + rest) == Parsed(Message(msg, msgid, list))
  {
    hide LE, UnLE, Header, Params, DecodeParams;
    var s := Encode(msg, msgid, list) + rest;
    HeaderFields(msg, msgid, |list|, 16 + |Params(list)|, Params(list) + rest);
    assert s == Header(msg, msgid, |list|, 16 + |Params(list)|) + (Params(list) + rest);
    DecodeAll(list, rest);
  }

  lemma HeaderFields(msg: nat, msgid: uint32, count: nat, total: nat, rest: seq<byte>)
    requires msg < 0x1_0000 && count < TWO32
    ensures var s := Header(msg, msgid, count, total) + rest;
      && UnLE(s[..2]) == CONTROL_CODE && UnLE(s[2..4]) == msg && UnLE(s[4..8]) == total % TWO32
      && UnLE(s[8..12]) == msgid && UnLE(s[12..16]) == count && s[16..] == rest
  {
    var s := Header(msg, msgid, count, total) + rest;
    Ranges();
    UnLE_LE(CONTROL_CODE, 2);
    UnLE_LE(msg, 2);
    UnLE_LE(total % TWO32, 4);
    UnLE_LE(msgid, 4);
    UnLE_LE(count, 4);
    assert s[..2] == LE(CONTROL_CODE, 2);
    assert s[2..4] == LE(msg, 2);
    assert s[4..8] == LE(total % TWO32, 4);
    assert s[8..12] == LE(msgid, 4);
    assert s[12..16] == LE(count, 4);
  }

  /** The size field tells the length of the message exactly when that length is
      a 32-bit number. */
  lemma SizeField(msg: nat, msgid: uint32, list: seq<Data>, rest: seq<byte>)
    requires Encodable(msg, list)
    ensures var s := Encode(msg, msgid, list);
      MessageSize(s + rest) == |s| <==> |s| < TWO32
  {
    hide LE, UnLE, Header, Params;
    HeaderFields(msg, msgid, |list|, 16 + |Params(list)|, Params(list) + rest);
    var s := Encode(msg, msgid, list);
    assert s + rest == Header(msg, msgid, |list|, |s|) + (Params(list) + rest);
  }

  /** A string of 2^32 - 1 bytes is accepted, and its message has a size field that
      does not tell its length. */
  lemma SizeFieldWraps()
    ensures var list := [Str(seq(TWO32 - 1, _ => 0))];
      var s := Encode(1, 0, list);
      Encodable(1, list) && Portable(list) && MessageSize(s) != |s|
  {
    hide LE;
    var list := [Str(seq(TWO32 - 1, _ => 0))];
    var s := Encode(1, 0, list);
    assert |Param(list[0])| >= TWO32 - 1;
    assert s + [] == s;
    SizeField(1, 0, list, []);
  }
}
