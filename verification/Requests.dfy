/** Requests from the client's builders (src/shared/protocol.c) to the daemon's
    parse_list (src/core/daemon.c). A string is its bytes with the closing NUL;
    the empty sequence is a string that is not there. */
module Requests {
  import opened Basics
  import opened Wire
  import opened Framing

  /** _BuxtonKey; `kind` is its type tag. */
  datatype Key = Key(layer: seq<byte>, group: seq<byte>, name: seq<byte>, kind: uint32)

  datatype Request =
    | Set(key: Key, value: Data)
    | SetLabel(key: Key, smack: seq<byte>)
    | CreateGroup(key: Key)
    | RemoveGroup(key: Key)
    | Get(key: Key)
    | GetLabel(key: Key)
    | Unset(key: Key)
    | ListNames(layer: seq<byte>, group: seq<byte>, prefix: seq<byte>)
    | Notify(key: Key)
    | Unnotify(key: Key)

  function Code(r: Request): nat {
    match r
    case Set(_, _) => CONTROL_SET
    case SetLabel(_, _) => CONTROL_SET_LABEL
    case CreateGroup(_) => CONTROL_CREATE_GROUP
    case RemoveGroup(_) => CONTROL_REMOVE_GROUP
    case Get(_) => CONTROL_GET
    case GetLabel(_) => CONTROL_GET_LABEL
    case Unset(_) => CONTROL_UNSET
    case ListNames(_, _, _) => CONTROL_LIST_NAMES
    case Notify(_) => CONTROL_NOTIFY
    case Unnotify(_) => CONTROL_UNNOTIFY
  }

  /** The parameter list each buxton_wire function puts together. */
  function Build(r: Request): seq<Data> {
    match r
    case Set(k, v) => [Str(k.layer), Str(k.group), Str(k.name), v]
    case SetLabel(k, l) =>
      [Str(k.layer), Str(k.group)] + (if k.name == [] then [] else [Str(k.name)]) + [Str(l)]
    case CreateGroup(k) => [Str(k.layer), Str(k.group)]
    case RemoveGroup(k) => [Str(k.layer), Str(k.group)]
    case Get(k) =>
      (if k.layer == [] then [] else [Str(k.layer)]) + [Str(k.group), Str(k.name), UInt32(k.kind)]
    case GetLabel(k) => [Str(k.layer), Str(k.group)] + if k.name == [] then [] else [Str(k.name)]
    case Unset(k) => [Str(k.layer), Str(k.group), Str(k.name), UInt32(k.kind)]
    case ListNames(layer, group, prefix) => [Str(layer), Str(group), Str(prefix)]
    case Notify(k) => [Str(k.group), Str(k.name), UInt32(k.kind)]
    case Unnotify(k) => [Str(k.group), Str(k.name), UInt32(k.kind)]
  }

  predicate Strings(list: seq<Data>, n: nat)
    requires n <= |list|
  {
    forall i :: 0 <= i < n ==> list[i].Str?
  }

  /** parse_list: the key and the value a message carries, or nothing when the
      parameters do not fit the message. */
  function ParseList(msg: nat, list: seq<Data>): Option<(Key, Option<Data>)> {
    if msg == CONTROL_SET then
      if |list| != 4 || !Strings(list, 3) || TypeOf(list[3]) == TYPE_MIN || TypeOf(list[3]) == TYPE_MAX then None
      else Some((Key(list[0].s, list[1].s, list[2].s, TypeOf(list[3])), Some(list[3])))
    else if msg == CONTROL_SET_LABEL then
      if |list| == 3 then
        if !Strings(list, 3) then None
        else Some((Key(list[0].s, list[1].s, [], TYPE_UNSET), Some(list[2])))
      else if |list| == 4 then
        if !Strings(list, 4) then None
        else Some((Key(list[0].s, list[1].s, list[2].s, TYPE_UNSET), Some(list[3])))
      else None
    else if msg == CONTROL_CREATE_GROUP || msg == CONTROL_REMOVE_GROUP then
      if |list| != 2 || !Strings(list, 2) then None
      else Some((Key(list[0].s, list[1].s, [], TYPE_STRING), None))
    else if msg == CONTROL_GET then
      if |list| == 4 then
        if !Strings(list, 3) || !list[3].UInt32? then None
        else Some((Key(list[0].s, list[1].s, list[2].s, list[3].u32), None))
      else if |list| == 3 then
        if !Strings(list, 2) || !list[2].UInt32? then None
        else Some((Key([], list[0].s, list[1].s, list[2].u32), None))
      else None
    else if msg == CONTROL_GET_LABEL then
      if |list| == 3 then
        if !Strings(list, 3) then None
        else Some((Key(list[0].s, list[1].s, list[2].s, TYPE_UNSET), None))
      else if |list| == 2 then
        if !Strings(list, 2) then None
        else Some((Key(list[0].s, list[1].s, [], TYPE_UNSET), None))
      else None
    else if msg == CONTROL_LIST_NAMES then
      if |list| != 3 || !Strings(list, 3) then None
      else Some((Key(list[0].s, list[1].s, list[2].s, TYPE_MIN), None))
    else if msg == CONTROL_UNSET then
      if |list| != 4 || !Strings(list, 3) || !list[3].UInt32? then None
      else Some((Key(list[0].s, list[1].s, list[2].s, list[3].u32), None))
    else if msg == CONTROL_NOTIFY || msg == CONTROL_UNNOTIFY then
      if |list| != 3 || !Strings(list, 2) || !list[2].UInt32? then None
      else Some((Key([], list[0].s, list[1].s, list[2].u32), None))
    else None
  }

  /** The switch of handle_message: the operation the daemon performs, for the key and
      value of the message. */
  function Dispatch(msg: nat, k: Key, v: Option<Data>): Option<Request> {
    if msg == CONTROL_SET then (if v.Some? then Some(Set(k, v.value)) else None)
    else if msg == CONTROL_SET_LABEL then (if v.Some? && v.value.Str? then Some(SetLabel(k, v.value.s)) else None)
    else if msg == CONTROL_CREATE_GROUP then Some(CreateGroup(k))
    else if msg == CONTROL_REMOVE_GROUP then Some(RemoveGroup(k))
    else if msg == CONTROL_GET then Some(Get(k))
    else if msg == CONTROL_GET_LABEL then Some(GetLabel(k))
    else if msg == CONTROL_UNSET then Some(Unset(k))
    else if msg == CONTROL_LIST_NAMES then Some(ListNames(k.layer, k.group, k.name))
    else if msg == CONTROL_NOTIFY then Some(Notify(k))
    else if msg == CONTROL_UNNOTIFY then Some(Unnotify(k))
    else None
  }

  /** What of a request is sent. Fields the operation does not carry come out absent;
      the type tag of a label or group operation is fixed. */
  function Carried(r: Request): Request {
    match r
    case Set(k, v) => Set(k.(kind := TypeOf(v)), v)
    case SetLabel(k, l) => SetLabel(k.(kind := TYPE_UNSET), l)
    case CreateGroup(k) => CreateGroup(k.(name := [], kind := TYPE_STRING))
    case RemoveGroup(k) => RemoveGroup(k.(name := [], kind := TYPE_STRING))
    case Get(_) => r
    case GetLabel(k) => GetLabel(k.(kind := TYPE_UNSET))
    case Unset(_) => r
    case ListNames(_, _, _) => r
    case Notify(k) => Notify(k.(layer := []))
    case Unnotify(k) => Unnotify(k.(layer := []))
  }

  /** The fields that are not sent are as they come out. */
  predicate Canonical(r: Request) {
    && (r.Set? ==> r.key.kind == TypeOf(r.value))
    && (r.SetLabel? || r.GetLabel? ==> r.key.kind == TYPE_UNSET)
    && (r.CreateGroup? || r.RemoveGroup? ==> r.key.name == [] && r.key.kind == TYPE_STRING)
    && (r.Notify? || r.Unnotify? ==> r.key.layer == [])
  }

  /** Strings are absent or closed by a NUL, and a value has a type. */
  predicate WellFormed(r: Request) {
    && Portable(Build(r))
    && (r.Set? ==> !r.value.Untyped?)
  }

  /** What the daemon makes of a message and its parameters. */
  function Handle(msg: nat, list: seq<Data>): Option<Request> {
    match ParseList(msg, list)
    case None => None
    case Some((k, v)) => Dispatch(msg, k, v)
  }

  /** The daemon performs the operation the client called, on just what the client put
      into the parameters; that is the request itself exactly when it is canonical. */
  lemma ParseBuild(r: Request)
    requires WellFormed(r)
    ensures Encodable(Code(r), Build(r))
    ensures Handle(Code(r), Build(r)) == Some(Carried(r))
    ensures Handle(Code(r), Build(r)) == Some(r) <==> Canonical(r)
  {
  }

  /** The message of a frame, as the daemon acts on it. */
  function Understand(frame: seq<byte>): Option<(uint32, Request)> {
    match Decode(frame)
    case Invalid => None
    case Short => None
    case Parsed(m) =>
      match Handle(m.msg, m.list)
      case None => None
      case Some(r) => Some((m.msgid, r))
  }

  predicate Understood(frame: seq<byte>) {
    Understand(frame) != None
  }

  function Frame(r: Request, msgid: uint32): seq<byte> {
    Encode(Code(r), msgid, Build(r))
  }

  /** The number of the operation in its frame. */
  lemma FrameNumber(r: Request, msgid: uint32)
    requires WellFormed(r)
    ensures UnLE(Frame(r, msgid)[2..4]) ==
      match r
      case Set(_, _) => 1
      case SetLabel(_, _) => 2
      case CreateGroup(_) => 3
      case RemoveGroup(_) => 4
      case Get(_) => 5
      case Unset(_) => 6
      case Notify(_) => 9
      case Unnotify(_) => 10
      case GetLabel(_) => 12
      case ListNames(_, _, _) => 13
  {
    hide LE, UnLE, Header, Build;
    var rest := Params(Build(r));
    ParseBuild(r);
    HeaderFields(Code(r), msgid, |Build(r)|, 16 + |rest|, rest);
  }

  /** A request comes back from the bytes of its frame. */
  lemma OneRequest(r: Request, msgid: uint32)
    requires WellFormed(r)
    ensures Understand(Frame(r, msgid)) == Some((msgid, Carried(r)))
    ensures Understand(Frame(r, msgid)) == Some((msgid, r)) <==> Canonical(r)
    ensures |Frame(r, msgid)| <= MESSAGE_MAX_LENGTH ==> Sized(Frame(r, msgid))
  {
    hide Encode, Decode, Handle, Build, MessageSize, Encodable, Portable;
    ParseBuild(r);
    RoundTrip(Code(r), msgid, Build(r), []);
    SizeField(Code(r), msgid, Build(r), []);
    assert Frame(r, msgid) + [] == Frame(r, msgid);
  }

  function Frames(rs: seq<Request>, ids: seq<uint32>): (f: seq<seq<byte>>)
    requires |rs| == |ids|
    ensures |f| == |rs| && forall i :: 0 <= i < |rs| ==> f[i] == Frame(rs[i], ids[i])
  {
    seq(|rs|, i requires 0 <= i < |rs| => Frame(rs[i], ids[i]))
  }

  lemma AllSized(rs: seq<Request>, ids: seq<uint32>)
    requires |rs| == |ids|
    requires forall i :: 0 <= i < |rs| ==> WellFormed(rs[i]) && |Frame(rs[i], ids[i])| <= MESSAGE_MAX_LENGTH
    ensures forall f :: f in Frames(rs, ids) ==> Sized(f) && Understood(f)
  {
    hide Frame, Sized, Understand, WellFormed, Carried;
    var fs := Frames(rs, ids);
    forall f | f in fs ensures Sized(f) && Understood(f) {
      var i :| 0 <= i < |fs| && fs[i] == f;
      OneRequest(rs[i], ids[i]);
    }
  }

  /** Of any 32 requests or fewer, one call's frames are exactly these, in order: each is
      the operation it was, with the key, value and message id it was sent with. */
  lemma EndToEnd(rs: seq<Request>, ids: seq<uint32>)
    requires |rs| == |ids| <= MESSAGE_LIMIT
    requires forall i :: 0 <= i < |rs| ==> WellFormed(rs[i]) && |Frame(rs[i], ids[i])| <= MESSAGE_MAX_LENGTH
    ensures var r := Serve(Concat(Frames(rs, ids)), MESSAGE_LIMIT, Understood);
      && |r.frames| == |rs| && r.rest == [] && !r.terminated
      && forall i :: 0 <= i < |rs| ==>
        Understand(r.frames[i]) == Some((ids[i], Carried(rs[i])))
  {
    hide Serve, Frame, Sized, Understand, WellFormed, Carried;
    var fs := Frames(rs, ids);
    AllSized(rs, ids);
    ServeExactly(fs, [], Understood);
    forall i | 0 <= i < |rs|
      ensures Understand(fs[i]) == Some((ids[i], Carried(rs[i])))
    {
      OneRequest(rs[i], ids[i]);
    }
  }

  /** The daemon's main loop, on one client: handle_client is called again as long as it
      leaves something unread. From the client's calls to the daemon's handlers: however
      many requests are sent, and however the reads cut them, the daemon handles exactly
      these operations, in order, each with the key, value and message id it was sent with. */
  method ServeClient(rs: seq<Request>, ids: seq<uint32>, events: seq<ReadEvent>) returns (client: Connection)
    requires |rs| == |ids|
    requires forall i :: 0 <= i < |rs| ==> WellFormed(rs[i]) && |Frame(rs[i], ids[i])| <= MESSAGE_MAX_LENGTH
    requires Steady(events, |Concat(Frames(rs, ids))|)
    ensures client.input == [] && client.handled == Frames(rs, ids)
    ensures forall i :: 0 <= i < |rs| ==>
      Understand(client.handled[i]) == Some((ids[i], Carried(rs[i])))
  {
    hide Serve, Frame, Frames, Sized, Understand, WellFormed, Carried, Steady, Concat, Understood;
    var fs := Frames(rs, ids);
    AllSized(rs, ids);
    client := new Connection(Concat(fs), events);
    ghost var k := 0;
    assert fs[0..] == fs && fs[..0] == [];
    LeftOver(fs);
    var more := client.input != [];
    while more
      invariant 0 <= k <= |fs| && client.handled == fs[..k] && client.input == Concat(fs[k..])
      invariant fresh(client) && client.offset == 0 && client.size == HEADER_LENGTH
      invariant more <==> k < |fs|
      invariant more ==> Steady(client.events, |client.input|)
      decreases |fs| - k
    {
      ghost var left := fs[k..];
      ghost var n := if |left| < MESSAGE_LIMIT then |left| else MESSAGE_LIMIT;
      LeftOver(left);
      OneCall(left, n);
      ghost var frames, interrupted;
      var terminated;
      terminated, more, frames, interrupted := client.HandleClient(Understood);
      assert fs[..k] + left[..n] == fs[..k + n] && left[n..] == fs[k + n..];
      LeftOver(left[n..]);
      k := k + n;
    }
    assert fs[..k] == fs && fs[k..] == [];
    LeftOver(fs[k..]);
    forall i | 0 <= i < |rs|
      ensures Understand(fs[i]) == Some((ids[i], Carried(rs[i])))
    {
      OneRequest(rs[i], ids[i]);
    }
  }

  /** What one call of handle_client makes of whole frames. */
  lemma OneCall(fs: seq<seq<byte>>, n: nat)
    requires forall f :: f in fs ==> Sized(f) && Understood(f)
    requires n == if |fs| < MESSAGE_LIMIT then |fs| else MESSAGE_LIMIT
    ensures Serve(Concat(fs), MESSAGE_LIMIT, Understood) == Served(fs[..n], Concat(fs[n..]), false)
  {
    hide Serve, Sized, Understand, Understood, Concat;
    ConcatSplit(fs, n);
    assert forall f :: f in fs[..n] ==> f in fs;
    ServeExactly(fs[..n], Concat(fs[n..]), Understood);
    LeftOver(fs[n..]);
    if n < MESSAGE_LIMIT {
      assert fs[..n] == fs;
    }
  }

  lemma {:induction false} ConcatSplit(fs: seq<seq<byte>>, n: nat)
    requires n <= |fs|
    ensures Concat(fs) == Concat(fs[..n]) + Concat(fs[n..])
  {
    if n > 0 {
      ConcatSplit(fs[1..], n - 1);
      assert fs[..n][1..] == fs[1..][..n - 1] && fs[n..] == fs[1..][n - 1..];
    } else {
      assert fs[n..] == fs;
    }
  }

  /** Nothing is left exactly when no frame is. */
  lemma LeftOver(fs: seq<seq<byte>>)
    requires forall f :: f in fs ==> Sized(f)
    ensures Concat(fs) == [] <==> fs == []
  {
    if fs != [] {
      assert Sized(fs[0]);
    }
  }
}
