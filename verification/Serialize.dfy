/** The serializer and parser of src/shared/serialize.c, over buffers. */
module Serialize {
  import opened Wire

  /** memcpy of `bytes` to `data + offset`. */
  method Write(data: array<byte>, offset: nat, bytes: seq<byte>)
    requires offset + |bytes| <= data.Length
    modifies data
    ensures data[..] == old(data[..offset]) + bytes + old(data[offset + |bytes|..])
  {
    forall i | 0 <= i < |bytes| {
      data[offset + i] := bytes[i];
    }
  }

  /** Grows a buffer to at least `need` bytes; what lies beyond the old contents
      is not defined. */
  method GreedyRealloc(p: array<byte>, cap: nat, need: nat) returns (q: array<byte>, cap': nat)
    requires cap <= p.Length
    ensures need <= cap' <= q.Length
    ensures cap >= need ==> q == p && cap' == cap
    ensures cap < need ==> fresh(q) && cap' == q.Length == if need * 2 > 64 then need * 2 else 64
    ensures forall i :: 0 <= i < p.Length && i < q.Length ==> q[i] == p[i]
  {
    if cap >= need {
      return p, cap;
    }
    cap' := if need * 2 > 64 then need * 2 else 64;
    q := new byte[cap'];
    forall i | 0 <= i < p.Length && i < q.Length {
      q[i] := p[i];
    }
  }

  lemma {:induction false} ParamsSnoc(list: seq<Data>, d: Data)
    ensures Params(list + [d]) == Params(list) + Param(d)
  {
    if list == [] {
      assert [] + [d] == [d];
      assert Params([d]) == Param(d);
    } else {
      assert (list + [d])[1..] == list[1..] + [d];
      ParamsSnoc(list[1..], d);
    }
  }

  method SerializeMessage(message: int, msgid: uint32, list: seq<Data>) returns (ret: nat, dest: array<byte>)
    requires |list| < 0x1_0000
    requires forall i :: 0 <= i < |list| && list[i].Str? ==> |list[i].s| < TWO32
    ensures ret == 0 <==> !Encodable(message, list)
    ensures ret > 0 ==> ret <= dest.Length && dest[..ret] == Encode(message, msgid, list)
  {
    hide LE, Header, Param, Params;
    dest := new byte[0];
    if |list| > MESSAGE_MAX_PARAMS {
      return 0, dest;
    }
    if message >= CONTROL_MAX || message < CONTROL_SET {
      return 0, dest;
    }
    var data := new byte[16](_ => 0);
    WriteHeader(data, message, msgid, |list|);
    var offset: nat, curSize: nat, i: nat := 16, 0, 0;
    NoParams(list);
    while i < |list|
      invariant 0 <= i <= |list| && fresh(data)
      invariant offset == 16 + |Params(list[..i])| <= data.Length && curSize <= data.Length
      invariant data[..offset] == Header(message, msgid, |list|, 0) + Params(list[..i])
      invariant forall j :: 0 <= j < i ==> !list[j].Untyped?
    {
      var param := list[i];
      if param.Untyped? {
        return 0, dest;
      }
      data, curSize, offset := AppendParam(data, curSize, offset, param);
      ParamsSnoc(list[..i], param);
      assert list[..i + 1] == list[..i] + [param];
      i := i + 1;
    }
    assert list[..i] == list;
    CloseHeader(data, message, msgid, list, offset);
    ret, dest := offset, data;
  }

  lemma NoParams(list: seq<Data>)
    ensures Params(list[..0]) == []
  {
  }

  /** Room for one more parameter, then the parameter. `offset` is also the size
      used so far. */
  method AppendParam(data: array<byte>, curSize: nat, offset: nat, param: Data)
    returns (q: array<byte>, curSize': nat, end: nat)
    requires offset <= data.Length && curSize <= data.Length && !param.Untyped? && |Payload(param)| < TWO32
    modifies data
    ensures end == offset + |Param(param)| <= q.Length && curSize' <= q.Length
    ensures q[..end] == old(data[..offset]) + Param(param)
    ensures q == data || fresh(q)
  {
    hide LE;
    var size := offset + 2 + 4 + |Payload(param)|;
    q, curSize' := data, curSize;
    if curSize < size {
      q, curSize' := GreedyRealloc(data, curSize, size);
      assert q[..offset] == data[..offset];
    }
    end := WriteParam(q, offset, param);
  }

  /** Stores the final size. */
  method CloseHeader(data: array<byte>, message: nat, msgid: uint32, ghost list: seq<Data>, offset: nat)
    requires offset == 16 + |Params(list)| <= data.Length
    requires data[..offset] == Header(message, msgid, |list|, 0) + Params(list)
    modifies data
    ensures data[..offset] == Encode(message, msgid, list)
  {
    hide LE, Params;
    ghost var d := data[..offset];
    Write(data, LENGTH_OFFSET, LE(offset % TWO32, 4));
    assert data[..offset] == d[..4] + LE(offset % TWO32, 4) + d[8..];
    assert d[..4] == LE(CONTROL_CODE, 2) + LE(message, 2);
    assert d[8..] == LE(msgid, 4) + LE(|list|, 4) + Params(list);
  }

  method WriteHeader(data: array<byte>, message: nat, msgid: uint32, count: nat)
    requires data.Length == 16 && forall i :: 0 <= i < 16 ==> data[i] == 0
    modifies data
    ensures data[..] == Header(message, msgid, count, 0)
  {
    var offset := 0;
    Write(data, offset, LE(CONTROL_CODE, 2));
    offset := offset + 2;
    Write(data, offset, LE(message, 2));
    offset := offset + 2;
    offset := offset + 4;
    Write(data, offset, LE(msgid, 4));
    offset := offset + 4;
    Write(data, offset, LE(count, 4));
  }

  /** One parameter: type, length, value. */
  method WriteParam(data: array<byte>, offset: nat, param: Data) returns (end: nat)
    requires offset + |Param(param)| <= data.Length && !param.Untyped? && |Payload(param)| < TWO32
    modifies data
    ensures end == offset + |Param(param)|
    ensures data[..end] == old(data[..offset]) + Param(param)
  {
    hide LE, Payload, TypeOf;
    end := offset;
    Write(data, end, LE(TypeOf(param), 2));
    end := end + 2;
    Write(data, end, LE(|Payload(param)|, 4));
    end := end + 4;
    Write(data, end, Payload(param));
    end := end + |Payload(param)|;
  }

  // ---- parsing ----

  /** A number read from the buffer. */
  function ReadLE(data: array<byte>, offset: nat, w: nat): nat
    requires offset + w <= data.Length
    reads data
  {
    UnLE(data[offset..offset + w])
  }

  ghost function Prepend(front: seq<Data>, r: Parse<seq<Data>>): Parse<seq<Data>> {
    match r
    case Invalid => Invalid
    case Short => Short
    case Parsed(list) => Parsed(front + list)
  }

  method DeserializeMessage(data: array<byte>, size: nat) returns (r: Parse<Message>)
    requires size <= data.Length
    ensures r == Decode(data[..size])
  {
    var offset := 0;
    if size < HEADER_LENGTH {
      return Invalid;
    }
    ghost var s := data[..size];
    assert s[..2] == data[0..2] && s[2..4] == data[2..4];
    var control := ReadLE(data, offset, 2);
    offset := offset + 2;
    if control != CONTROL_CODE {
      return Invalid;
    }
    var message := ReadLE(data, offset, 2);
    offset := offset + 2;
    if message <= CONTROL_MIN || message >= CONTROL_MAX {
      return Invalid;
    }
    if size < 16 {
      return Short;
    }
    offset := offset + 4;
    assert s[8..12] == data[8..12] && s[12..16] == data[12..16];
    var msgid := ReadLE(data, offset, 4);
    UnLE_Range(s[8..12]);
    Ranges();
    offset := offset + 4;
    var n := ReadLE(data, offset, 4);
    offset := offset + 4;
    if n > MESSAGE_MAX_PARAMS {
      return Invalid;
    }
    var list := DeserializeParams(data, size, offset, n);
    assert s[16..] == data[16..size];
    r := match list
      case Invalid => Invalid
      case Short => Short
      case Parsed(k) => Parsed(Message(message, msgid, k));
  }

  /** The parameter loop: fills the list from `offset` on. */
  method DeserializeParams(data: array<byte>, size: nat, start: nat, n: nat) returns (r: Parse<seq<Data>>)
    requires start <= size <= data.Length
    ensures r == DecodeParams(data[start..size], n)
  {
    hide DecodeParam;
    var kList := new Data[n](_ => Untyped(TYPE_MIN));
    var offset, c := start, 0;
    PrependEnds([], DecodeParams(data[start..size], n));
    while c < n
      invariant 0 <= c <= n && start <= offset <= size
      invariant DecodeParams(data[start..size], n) ==
        Prepend(kList[..c], DecodeParams(data[offset..size], n - c))
    {
      var p := DeserializeParam(data, size, offset);
      if p.Invalid? {
        return Invalid;
      }
      if p.Short? {
        return Short;
      }
      ghost var front, t := kList[..c], data[offset..size];
      kList[c] := p.value.0;
      offset := offset + p.value.1;
      assert t[p.value.1..] == data[offset..size];
      assert kList[..c + 1] == front + [p.value.0];
      PrependStep(front, p.value.0, DecodeParams(data[offset..size], n - c - 1));
      c := c + 1;
    }
    assert kList[..n] == kList[..];
    PrependEnds(kList[..], Invalid);
    return Parsed(kList[..]);
  }

  lemma PrependEnds(front: seq<Data>, r: Parse<seq<Data>>)
    ensures Prepend([], r) == r && Prepend(front, Parsed([])) == Parsed(front)
  {
    if r.Parsed? {
      assert [] + r.value == r.value;
    }
    assert front + [] == front;
  }

  /** A part of a part of the buffer. */
  lemma Part(data: array<byte>, start: nat, size: nat, a: nat, b: nat)
    requires start + b <= size <= data.Length && a <= b
    ensures data[start..size][a..b] == data[start + a..start + b]
  {
    var s, t := data[start..size][a..b], data[start + a..start + b];
    assert |s| == |t| && forall i :: 0 <= i < |s| ==> s[i] == t[i];
  }

  lemma PrependStep(front: seq<Data>, d: Data, r: Parse<seq<Data>>)
    ensures Prepend(front + [d], r) == Prepend(front, Prepend([d], r))
  {
    if r.Parsed? {
      assert front + [d] + r.value == front + ([d] + r.value);
    }
  }

  /** One turn of the parameter loop. */
  method DeserializeParam(data: array<byte>, size: nat, start: nat) returns (r: Parse<(Data, nat)>)
    requires start <= size <= data.Length
    ensures r == DecodeParam(data[start..size])
  {
    ghost var t := data[start..size];
    var offset := start;
    if offset + 2 + 4 > size {
      return Invalid;
    }
    Part(data, start, size, 0, 2);
    Part(data, start, size, 2, 6);
    var tag := ReadLE(data, offset, 2);
    offset := offset + 2;
    if tag >= TYPE_MAX || tag <= TYPE_MIN {
      return Invalid;
    }
    var length := ReadLE(data, offset, 4);
    if length == 0 && tag != TYPE_STRING {
      return Invalid;
    }
    offset := offset + 4;
    if offset + length > size {
      return Invalid;
    }
    Part(data, start, size, 6, 6 + length);
    if tag == TYPE_STRING {
      var s := data[offset..offset + length];
      if length > 0 {
        if s[length - 1] != 0 {
          return Invalid;
        }
      }
      return Parsed((Str(s), 6 + length));
    }
    if Width(tag) == 0 {
      return Invalid;
    }
    if offset + Width(tag) > size {
      return Short;
    }
    Part(data, start, size, 6, 6 + Width(tag));
    return Parsed((Scalar(tag, data[offset..offset + Width(tag)]), 6 + length));
  }

  /** buxton_get_message_size. */
  method GetMessageSize(data: array<byte>, size: nat) returns (r: nat)
    requires size <= data.Length
    ensures r == MessageSize(data[..size])
  {
    if size < HEADER_LENGTH {
      return 0;
    }
    assert data[..size][4..8] == data[4..8];
    r := ReadLE(data, LENGTH_OFFSET, 4);
    if r < HEADER_LENGTH {
      return 0;
    }
  }
}
