/** The storage format of a labelled value: buxton_serialize and
    buxton_deserialize of src/shared/serialize.c. */
module Records {
  import opened Wire
  import opened Serialize

  const STORE_SIZE := 16  // sizeof(BuxtonDataStore)
  const MINIMUM_SIZE := 14

  ghost function Zeros(n: nat): (z: seq<byte>)
    ensures |z| == n
  {
    seq(n, _ => 0)
  }

  /** The length written for the value: a scalar takes the whole union. */
  function StoredLength(d: Data): nat {
    if d.Str? then |d.s| else STORE_SIZE
  }

  ghost function Record(d: Data, smack: seq<byte>): (r: seq<byte>)
    requires !d.Untyped?
    ensures |r| == 12 + |smack| + StoredLength(d)
  {
    LE(TypeOf(d), 4) + LE(|smack| % TWO32, 4) + LE(StoredLength(d) % TWO32, 4) + smack + Payload(d)
      + Zeros(StoredLength(d) - |Payload(d)|)
  }

  method SerializeRecord(source: Data, smack: seq<byte>) returns (target: array<byte>)
    requires !source.Untyped? && |smack| < TWO32
    requires 12 + |smack| + StoredLength(source) >= MINIMUM_SIZE  // asserted by the source
    ensures target[..] == Record(source, smack)
  {
    hide LE, Payload, StoredLength, TypeOf;
    PayloadFits(source);
    var length := StoredLength(source);
    var size := 4 + 4 * 2 + |smack| + length;
    target := new byte[size](_ => 0);
    var offset := WriteNext(target, 0, LE(TypeOf(source), 4));
    offset := WriteNext(target, offset, LE(|smack| % TWO32, 4));
    offset := WriteNext(target, offset, LE(length % TWO32, 4));
    offset := WriteNext(target, offset, smack);
    offset := WriteNext(target, offset, Payload(source));
    assert target[..] == target[..offset] + target[offset..];
    assert target[offset..] == Zeros(size - offset);
  }

  lemma PayloadFits(d: Data)
    requires !d.Untyped?
    ensures |Payload(d)| <= StoredLength(d)
  {
  }

  /** memcpy to the next free place of a zeroed buffer. */
  method WriteNext(target: array<byte>, offset: nat, bytes: seq<byte>) returns (end: nat)
    requires offset + |bytes| <= target.Length
    requires forall i :: offset <= i < target.Length ==> target[i] == 0
    modifies target
    ensures end == offset + |bytes| && target[..end] == old(target[..offset]) + bytes
    ensures forall i :: end <= i < target.Length ==> target[i] == 0
  {
    Write(target, offset, bytes);
    end := offset + |bytes|;
    assert forall i :: end <= i < target.Length ==> target[..][i] == old(target[i]);
  }

  /** Reads a record back; `Invalid` stands for the abort on an unknown type. */
  method DeserializeRecord(source: array<byte>) returns (r: Parse<(Data, seq<byte>)>)
    ensures r == Unrecord(source[..])
  {
    if source.Length < 12 {
      return Short;
    }
    Part(source, 0, source.Length, 0, 4);
    Part(source, 0, source.Length, 4, 8);
    Part(source, 0, source.Length, 8, 12);
    var tag := ReadLE(source, 0, 4);
    var smackLength := ReadLE(source, 4, 4);
    var length := ReadLE(source, 8, 4);
    var offset := 12;
    if offset + smackLength > source.Length {
      return Short;
    }
    var smack := source[offset..offset + smackLength];
    offset := offset + smackLength;
    if tag == TYPE_STRING {
      if offset + length > source.Length {
        return Short;
      }
      return Parsed((Str(source[offset..offset + length]), smack));
    }
    if Width(tag) == 0 {
      return Invalid;
    }
    if offset + Width(tag) > source.Length {
      return Short;
    }
    return Parsed((Scalar(tag, source[offset..offset + Width(tag)]), smack));
  }

  function Unrecord(s: seq<byte>): Parse<(Data, seq<byte>)> {
    if |s| < 12 then Short
    else
      var tag, end, length := UnLE(s[..4]), 12 + UnLE(s[4..8]), UnLE(s[8..12]);
      if end > |s| then Short
      else if tag == TYPE_STRING then
        if end + length > |s| then Short else Parsed((Str(s[end..end + length]), s[12..end]))
      else if Width(tag) == 0 then Invalid
      else if end + Width(tag) > |s| then Short
      else Parsed((Scalar(tag, s[end..end + Width(tag)]), s[12..end]))
  }

  /** A stored value and its label come back as they were. */
  lemma RecordRoundTrip(d: Data, smack: seq<byte>)
    requires !d.Untyped? && |smack| < TWO32 && StoredLength(d) < TWO32
    ensures Unrecord(Record(d, smack)) == Parsed((d, smack))
  {
    hide LE, UnLE, Scalar;
    var s, p := Record(d, smack), Payload(d);
    var tag, l, n := LE(TypeOf(d), 4), LE(|smack|, 4), LE(StoredLength(d), 4);
    Ranges();
    UnLE_LE(TypeOf(d), 4);
    UnLE_LE(|smack|, 4);
    UnLE_LE(StoredLength(d), 4);
    assert s[..4] == tag && s[4..8] == l && s[8..12] == n;
    assert s[12..12 + |smack|] == smack;
    assert s[12 + |smack|..12 + |smack| + |p|] == p;
    if !d.Str? {
      ScalarPayload(d);
    }
  }
}
