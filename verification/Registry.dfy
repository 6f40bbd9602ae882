/** The daemon's notification registry (src/core/daemon.c): who is told about
    which key, and, per connection, which keys a client is registered for. A
    client is its list item's address; its connection is a descriptor number,
    which a later client may get again. */
module Registry {
  import opened Basics
  import opened Wire

  type ClientId = nat
  type Fd = nat

  datatype Notification = Notification(client: ClientId, oldData: Option<Data>, msgid: uint32)

  datatype State = State(
    clients: map<ClientId, Fd>,
    notify: map<string, seq<Notification>>,
    keys: map<Fd, seq<string>>)

  /** notify_key_name: nothing when a part is empty. Of each part the C string counts. */
  function NotifyKeyName(group: string, name: string): Option<string> {
    var g, n := Basics.CString(group), Basics.CString(name);
    if g == "" || n == "" then None else Some(g + "\n" + n)
  }

  /** There is none exactly when a C string is empty. */
  lemma KeyNameNone(g: string, n: string)
    ensures NotifyKeyName(g, n) == None <==> g == "" || g[0] == '\0' || n == "" || n[0] == '\0'
  {
  }

  /** Group `b` is group `a` and, behind a line feed, the beginning of name `x`, of which
      `y` is the rest. */
  ghost predicate SplitLater(a: string, x: string, b: string, y: string) {
    exists t: string :: b == a + "\n" + t && x == t + "\n" + y
  }

  /** Two keys share a name exactly when their parts are the same C strings, or one's
      group goes on, behind a line feed, with the beginning of the other's name. */
  lemma KeyNamesShared(g: string, n: string, h: string, m: string)
    requires NotifyKeyName(g, n) != None && NotifyKeyName(h, m) != None
    ensures var a, x, b, y := Basics.CString(g), Basics.CString(n), Basics.CString(h), Basics.CString(m);
      NotifyKeyName(g, n) == NotifyKeyName(h, m) <==>
        (a == b && x == y) || SplitLater(a, x, b, y) || SplitLater(b, y, a, x)
  {
    hide Basics.CString, SplitLater;
    SplitsTwice(Basics.CString(g), Basics.CString(n), Basics.CString(h), Basics.CString(m));
  }

  lemma SplitsTwice(a: string, x: string, b: string, y: string)
    ensures a + "\n" + x == b + "\n" + y <==>
      (a == b && x == y) || SplitLater(a, x, b, y) || SplitLater(b, y, a, x)
  {
    if a + "\n" + x == b + "\n" + y {
      if |a| <= |b| {
        Splits(a, x, b, y);
      } else {
        Splits(b, y, a, x);
      }
    }
    if t: string :| b == a + "\n" + t && x == t + "\n" + y {
      Rejoin(a, t, y);
    }
    if t: string :| a == b + "\n" + t && y == t + "\n" + x {
      Rejoin(b, t, x);
    }
  }

  lemma Rejoin(a: string, t: string, y: string)
    ensures a + "\n" + (t + "\n" + y) == (a + "\n" + t) + "\n" + y
  {
  }

  lemma Splits(a: string, x: string, b: string, y: string)
    requires a + "\n" + x == b + "\n" + y && |a| <= |b|
    ensures (a == b && x == y) || SplitLater(a, x, b, y)
  {
    var s := a + "\n" + x;
    assert s[|a| + 1..] == x && s[|b| + 1..] == y && s[..|a|] == a && s[..|b|] == b;
    if |a| < |b| {
      var t := b[|a| + 1..];
      assert b[..|a|] == a && b[|a|] == s[|a|] == '\n';
      assert b == a + "\n" + t;
      assert x == t + "\n" + y;
    }
  }

  // ---- lists ----

  /** The first item of client `c`, or -1. */
  function FirstItem(l: seq<Notification>, c: ClientId): (r: int)
    ensures -1 <= r < |l| && (r >= 0 ==> l[r].client == c)
    ensures forall j :: 0 <= j < |l| && (r < 0 || j < r) ==> l[j].client != c
  {
    if l == [] then -1 else if l[0].client == c then 0
    else
      var r := FirstItem(l[1..], c);
      if r < 0 then -1 else r + 1
  }

  /** How many items of the list are `c`'s. */
  function Items(l: seq<Notification>, c: ClientId): nat {
    if l == [] then 0 else (if l[0].client == c then 1 else 0) + Items(l[1..], c)
  }

  function Occurs(l: seq<string>, k: string): nat {
    if l == [] then 0 else (if l[0] == k then 1 else 0) + Occurs(l[1..], k)
  }

  /** The items of the other clients, in their order. */
  function Others(l: seq<Notification>, c: ClientId): seq<Notification> {
    if l == [] then [] else (if l[0].client == c then [] else [l[0]]) + Others(l[1..], c)
  }

  function Subscribers(s: State, k: string): seq<Notification> {
    if k in s.notify then s.notify[k] else []
  }

  function KeysOf(s: State, fd: Fd): seq<string> {
    if fd in s.keys then s.keys[fd] else []
  }

  // ---- the invariant ----

  /** The two indexes mirror each other: client `c` stands in the list of key `k`
      as often as `k` stands in the list of `c`'s descriptor. */
  ghost predicate Mirrored(s: State, c: ClientId, k: string)
    requires c in s.clients
  {
    Items(Subscribers(s, k), c) == Occurs(KeysOf(s, s.clients[c]), k)
  }

  ghost predicate Live(s: State, k: string)
    requires k in s.notify
  {
    s.notify[k] != [] && forall i :: 0 <= i < |s.notify[k]| ==> s.notify[k][i].client in s.clients
  }

  ghost predicate Inverse(s: State) {
    && (forall c, d :: c in s.clients && d in s.clients && s.clients[c] == s.clients[d] ==> c == d)
    && (forall k :: k in s.notify ==> Live(s, k))
    && (forall fd :: fd in s.keys ==> s.keys[fd] != [] && exists c :: c in s.clients && s.clients[c] == fd)
    && (forall c, k :: c in s.clients ==> Mirrored(s, c, k))
  }

  // ---- the operations ----

  function Connect(s: State, c: ClientId, fd: Fd): State {
    s.(clients := s.clients[c := fd])
  }

  function Register(s: State, c: ClientId, k: string, item: Notification): State
    requires c in s.clients
  {
    var fd := s.clients[c];
    s.(notify := s.notify[k := Subscribers(s, k) + [item]], keys := s.keys[fd := KeysOf(s, fd) + [k]])
  }

  /** Takes back the oldest registration of `c` on `k`; `None` when there is none. */
  function Unregister(s: State, c: ClientId, k: string): Option<(State, uint32)>
    requires c in s.clients
  {
    var l, fd := Subscribers(s, k), s.clients[c];
    var i := FirstItem(l, c);
    if i < 0 || fd !in s.keys then None
    else
      var j := FirstOf(s.keys[fd], k);
      var keys := if j < 0 then s.keys else PutList(s.keys, fd, Drop(s.keys[fd], j));
      Some((s.(notify := PutList(s.notify, k, Drop(l, i)), keys := keys), l[i].msgid))
  }

  /** What is left when a client is gone: the items of all others, and no list of
      its descriptor. */
  function Terminate(s: State, c: ClientId): State
    requires c in s.clients
  {
    State(s.clients - {c},
          map k | k in s.notify && Others(s.notify[k], c) != [] :: Others(s.notify[k], c),
          s.keys - {s.clients[c]})
  }

  // ---- counting ----

  lemma {:induction false} ItemsSnoc(l: seq<Notification>, n: Notification, c: ClientId)
    ensures Items(l + [n], c) == Items(l, c) + if n.client == c then 1 else 0
    ensures Others(l + [n], c) == Others(l, c) + if n.client == c then [] else [n]
  {
    if l == [] {
      assert [] + [n] == [n];
    } else {
      assert (l + [n])[1..] == l[1..] + [n];
      ItemsSnoc(l[1..], n, c);
    }
  }

  lemma {:induction false} OccursSnoc(l: seq<string>, x: string, k: string)
    ensures Occurs(l + [x], k) == Occurs(l, k) + if x == k then 1 else 0
  {
    if l == [] {
      assert [] + [x] == [x];
    } else {
      assert (l + [x])[1..] == l[1..] + [x];
      OccursSnoc(l[1..], x, k);
    }
  }

  lemma {:induction false} ItemsDrop(l: seq<Notification>, i: nat, c: ClientId)
    requires i < |l|
    ensures Items(Drop(l, i), c) == Items(l, c) - if l[i].client == c then 1 else 0
    ensures l[i].client == c ==> Others(Drop(l, i), c) == Others(l, c)
  {
    if i == 0 {
      assert Drop(l, 0) == l[1..];
    } else {
      assert Drop(l, i) == [l[0]] + Drop(l[1..], i - 1);
      ItemsDrop(l[1..], i - 1, c);
    }
  }

  lemma {:induction false} OccursDrop(l: seq<string>, j: nat, k: string)
    requires j < |l|
    ensures Occurs(Drop(l, j), k) == Occurs(l, k) - if l[j] == k then 1 else 0
  {
    if j == 0 {
      assert Drop(l, 0) == l[1..];
    } else {
      assert Drop(l, j) == [l[0]] + Drop(l[1..], j - 1);
      OccursDrop(l[1..], j - 1, k);
    }
  }

  lemma {:induction false} ItemsPositive(l: seq<Notification>, c: ClientId)
    ensures Items(l, c) > 0 <==> FirstItem(l, c) >= 0
    ensures Items(l, c) == 0 ==> Others(l, c) == l
  {
    if l != [] {
      ItemsPositive(l[1..], c);
      assert l == [l[0]] + l[1..];
    }
  }

  lemma {:induction false} OccursPositive(l: seq<string>, k: string)
    ensures Occurs(l, k) > 0 <==> FirstOf(l, k) >= 0
  {
    if l != [] {
      OccursPositive(l[1..], k);
    }
  }

  /** Another client's items are not affected by whose items are left out. */
  lemma {:induction false} ItemsOthers(l: seq<Notification>, c: ClientId, d: ClientId)
    ensures Items(Others(l, c), d) == if c == d then 0 else Items(l, d)
    ensures forall i :: 0 <= i < |Others(l, c)| ==> Others(l, c)[i] in l && Others(l, c)[i].client != c
  {
    if l != [] {
      var rest := Others(l[1..], c);
      ItemsOthers(l[1..], c, d);
      assert ([l[0]] + rest)[1..] == rest && [] + rest == rest;
    }
  }

  // ---- the invariant is kept ----

  lemma ConnectKeeps(s: State, c: ClientId, fd: Fd)
    requires Inverse(s) && c !in s.clients && fd !in s.clients.Values
    ensures Inverse(Connect(s, c, fd))
  {
    var t := Connect(s, c, fd);
    assert fd !in s.keys;
    forall k ensures Mirrored(t, c, k) {
      ItemsPositive(Subscribers(s, k), c);
    }
    forall d, k | d in s.clients ensures Mirrored(t, d, k) {
      assert Mirrored(s, d, k);
    }
    forall k | k in t.notify ensures Live(t, k) {
      assert Live(s, k);
    }
    forall f | f in t.keys ensures exists d :: d in t.clients && t.clients[d] == f {
      var d :| d in s.clients && s.clients[d] == f;
      assert d in t.clients;
    }
  }

  lemma RegisterKeeps(s: State, c: ClientId, k: string, item: Notification)
    requires Inverse(s) && c in s.clients && item.client == c
    ensures Inverse(Register(s, c, k, item))
  {
    var t := Register(s, c, k, item);
    forall d, x | d in t.clients ensures Mirrored(t, d, x) {
      assert Mirrored(s, d, x);
      ItemsSnoc(Subscribers(s, k), item, d);
      OccursSnoc(KeysOf(s, s.clients[c]), k, x);
    }
    forall x | x in t.notify ensures Live(t, x) {
      assert x in s.notify ==> Live(s, x);
    }
  }

  /** A registered client can always be unregistered. */
  lemma UnregisterFinds(s: State, c: ClientId, k: string)
    requires Inverse(s) && c in s.clients && FirstItem(Subscribers(s, k), c) >= 0
    ensures s.clients[c] in s.keys && FirstOf(s.keys[s.clients[c]], k) >= 0
  {
    assert Mirrored(s, c, k);
    ItemsPositive(Subscribers(s, k), c);
    OccursPositive(KeysOf(s, s.clients[c]), k);
  }

  lemma UnregisterKeeps(s: State, c: ClientId, k: string)
    requires Inverse(s) && c in s.clients && Unregister(s, c, k) != None
    ensures Inverse(Unregister(s, c, k).value.0)
  {
    hide Items, Occurs, FirstItem, FirstOf;
    UnregisterFinds(s, c, k);
    var t, fd := Unregister(s, c, k).value.0, s.clients[c];
    var l, i, j := Subscribers(s, k), FirstItem(Subscribers(s, k), c), FirstOf(s.keys[fd], k);
    assert Live(s, k);
    forall d, x | d in t.clients ensures Mirrored(t, d, x) {
      assert Mirrored(s, d, x);
      ItemsDrop(l, i, d);
      OccursDrop(s.keys[fd], j, x);
    }
    forall x | x in t.notify ensures Live(t, x) {
      assert Live(s, x);
    }
  }

  lemma TerminateKeeps(s: State, c: ClientId)
    requires Inverse(s) && c in s.clients
    ensures Inverse(Terminate(s, c))
  {
    var t := Terminate(s, c);
    forall d, x | d in t.clients ensures Mirrored(t, d, x) {
      assert Mirrored(s, d, x);
      ItemsOthers(Subscribers(s, x), c, d);
    }
    forall x | x in t.notify ensures Live(t, x) {
      assert Live(s, x);
      ItemsOthers(s.notify[x], c, c);
    }
    forall f | f in t.keys ensures exists d :: d in t.clients && t.clients[d] == f {
      var d :| d in s.clients && s.clients[d] == f;
      assert d in t.clients;
    }
  }

  /** A terminated client has no item left, its descriptor no key list, so that a
      later client on the same descriptor starts with none; what the others have
      registered, in which order and with which message ids, is as before. */
  lemma TerminateForgets(s: State, c: ClientId, d: ClientId, k: string)
    requires Inverse(s) && c in s.clients && d !in Terminate(s, c).clients
    ensures Items(Subscribers(Terminate(s, c), k), c) == 0
    ensures Others(Subscribers(s, k), c) == Subscribers(Terminate(s, c), k)
    ensures var t := Connect(Terminate(s, c), d, s.clients[c]);
      KeysOf(t, s.clients[c]) == [] && Items(Subscribers(t, k), d) == 0
  {
    TerminateKeeps(s, c);
    var t := Terminate(s, c);
    ItemsOthers(Subscribers(s, k), c, c);
    if k in t.notify {
      assert Live(t, k);
    }
    ItemsPositive(Subscribers(t, k), d);
  }

  /** Unregistering undoes a first registration completely. */
  lemma UnregisterUndoesRegister(s: State, c: ClientId, k: string, item: Notification)
    requires Inverse(s) && c in s.clients && item.client == c && Items(Subscribers(s, k), c) == 0
    ensures Unregister(Register(s, c, k, item), c, k) == Some((s, item.msgid))
  {
    var l, fd := Subscribers(s, k), s.clients[c];
    var x := KeysOf(s, fd);
    assert Mirrored(s, c, k);
    ItemsPositive(l, c);
    OccursPositive(x, k);
    LastItem(l, item, c);
    LastKey(x, k);
    if k in s.notify {
      assert Live(s, k);
    }
    hide FirstItem, FirstOf, Drop, PutList, Items, Occurs;
    PutBack(s.notify, k, l, item);
    PutBack(s.keys, fd, x, k);
  }

  lemma LastItem(l: seq<Notification>, item: Notification, c: ClientId)
    requires FirstItem(l, c) < 0 && item.client == c
    ensures FirstItem(l + [item], c) == |l| && Drop(l + [item], |l|) == l
  {
    assert (l + [item])[|l|] == item;
  }

  lemma LastKey(l: seq<string>, k: string)
    requires FirstOf(l, k) < 0
    ensures FirstOf(l + [k], k) == |l| && Drop(l + [k], |l|) == l
  {
    assert (l + [k])[|l|] == k;
  }

  lemma PutBack<K, V>(m: map<K, seq<V>>, k: K, l: seq<V>, v: V)
    requires if k in m then m[k] == l != [] else l == []
    ensures PutList(m[k := l + [v]], k, l) == m
  {
  }

  // ---- the loop of terminate_client ----

  /** Part of the way through: the keys in `rest` are still to be done. */
  ghost predicate Clearing(s0: State, s: State, c: ClientId, rest: seq<string>) {
    && (forall k {:trigger Subscribers(s, k)} ::
      && Others(Subscribers(s, k), c) == Others(Subscribers(s0, k), c)
      && Items(Subscribers(s, k), c) == Occurs(rest, k))
    && (forall k :: k in s.notify ==> s.notify[k] != [])
  }

  lemma ClearStart(s: State, c: ClientId)
    requires Inverse(s) && c in s.clients
    ensures Clearing(s, s, c, KeysOf(s, s.clients[c]))
  {
    forall k ensures Items(Subscribers(s, k), c) == Occurs(KeysOf(s, s.clients[c]), k) {
      assert Mirrored(s, c, k);
    }
    forall k | k in s.notify ensures s.notify[k] != [] {
      assert Live(s, k);
    }
  }

  /** The next key is in the index and has an item of the client: neither abort of
      terminate_client can happen. Taking the item out makes one step. */
  lemma ClearStep(s0: State, s: State, c: ClientId, rest: seq<string>)
    requires Clearing(s0, s, c, rest) && rest != []
    ensures rest[0] in s.notify && FirstItem(s.notify[rest[0]], c) >= 0
    ensures var l := s.notify[rest[0]];
      Clearing(s0, s.(notify := PutList(s.notify, rest[0], Drop(l, FirstItem(l, c)))), c, rest[1..])
  {
    var l := Subscribers(s, rest[0]);
    ItemsPositive(l, c);
    ItemsDrop(l, FirstItem(l, c), c);
    var t := s.(notify := PutList(s.notify, rest[0], Drop(l, FirstItem(l, c))));
    forall k
      ensures Others(Subscribers(t, k), c) == Others(Subscribers(s0, k), c)
      ensures Items(Subscribers(t, k), c) == Occurs(rest[1..], k)
    {
      assert k != rest[0] ==> Subscribers(t, k) == Subscribers(s, k);
      assert Others(Subscribers(s, k), c) == Others(Subscribers(s0, k), c);
    }
  }

  lemma ClearDone(s0: State, s: State, c: ClientId)
    requires Clearing(s0, s, c, []) && c in s0.clients && (forall k :: k in s0.notify ==> s0.notify[k] != [])
    ensures s.notify == Terminate(s0, c).notify
  {
    var t := Terminate(s0, c);
    forall k
      ensures k in s.notify <==> k in t.notify
      ensures k in s.notify ==> s.notify[k] == t.notify[k]
    {
      ItemsPositive(Subscribers(s, k), c);
    }
  }

  // ---- notifying ----

  datatype Sent = Sent(fd: Fd, msgid: uint32, value: Option<Data>)

  /** What a memcmp finds. `Beyond`: as far as the cache reaches nothing differs, and the
      bytes that decide lie behind it; what happens then is not the program's to say. */
  datatype Verdict = Same | Different | Beyond

  function Compare(held: seq<byte>, bytes: seq<byte>): Verdict {
    if bytes <= held then Same else if held < bytes then Beyond else Different
  }

  /** The union of a BuxtonData, zeroed. */
  const ZERO_STORE: seq<byte> := [0, 0, 0, 0, 0, 0, 0, 0, 0, 0, 0, 0, 0, 0, 0, 0]

  /** The bytes of the cache that a value of the new one's type is compared with: those
      behind the string pointer, or those of the union as far as they were written. */
  function Held(cached: Data, value: Data): seq<byte> {
    if value.Str? then if cached.Str? then cached.s else []
    else if cached.Str? then []
    else if cached.Untyped? then ZERO_STORE
    else Payload(cached)
  }

  /** Whether a subscriber is passed over. On a value of no type the program aborts,
      which is not followed either. */
  function Judge(n: Notification, value: Option<Data>): Verdict {
    if value.Some? && value.value.Untyped? then Beyond
    else if n.oldData.None? || value.None? then Different
    else Compare(Held(n.oldData.value, value.value), Payload(value.value))
  }

  ghost predicate Followed(l: seq<Notification>, value: Option<Data>) {
    forall i :: 0 <= i < |l| ==> Judge(l[i], value) != Beyond
  }

  /** The cache after a notification; an unset leaves a zeroed datum. */
  function Cached(value: Option<Data>): Option<Data> {
    Some(if value.Some? then value.value else Untyped(TYPE_MIN))
  }

  /** The caches after a notification, which is followed up to the first comparison
      that goes beyond a cache. */
  function Told(l: seq<Notification>, value: Option<Data>): (r: seq<Notification>)
    ensures |r| == |l|
    ensures forall i :: 0 <= i < |l| ==> r[i] == l[i] || r[i] == l[i].(oldData := Cached(value))
  {
    if l == [] then []
    else
      match Judge(l[0], value)
      case Beyond => l
      case Same => [l[0]] + Told(l[1..], value)
      case Different => [l[0].(oldData := Cached(value))] + Told(l[1..], value)
  }

  /** One message, in list order, for each item that is not passed over. */
  function Messages(clients: map<ClientId, Fd>, l: seq<Notification>, value: Option<Data>): seq<Sent>
    requires forall i :: 0 <= i < |l| ==> l[i].client in clients
  {
    if l == [] then []
    else
      match Judge(l[0], value)
      case Beyond => []
      case Same => Messages(clients, l[1..], value)
      case Different => [Sent(clients[l[0].client], l[0].msgid, value)] + Messages(clients, l[1..], value)
  }

  function Notify(s: State, k: string, value: Option<Data>): State {
    if k in s.notify then s.(notify := s.notify[k := Told(s.notify[k], value)]) else s
  }

  lemma {:induction false} ToldItems(l: seq<Notification>, value: Option<Data>, c: ClientId)
    ensures Items(Told(l, value), c) == Items(l, c)
  {
    if l != [] {
      ToldItems(l[1..], value, c);
      assert Judge(l[0], value) != Beyond ==> Told(l, value)[1..] == Told(l[1..], value);
    }
  }

  lemma NotifyKeeps(s: State, k: string, value: Option<Data>)
    requires Inverse(s)
    ensures Inverse(Notify(s, k, value))
  {
    var t := Notify(s, k, value);
    forall c, x | c in t.clients ensures Mirrored(t, c, x) {
      assert Mirrored(s, c, x);
      if x == k && k in s.notify {
        ToldItems(s.notify[k], value, c);
      }
    }
    forall x | x in t.notify ensures Live(t, x) {
      assert Live(s, x);
    }
  }

  /** An unset is told to every registration, whatever its cache, in list order; each
      cache is the zeroed datum then. */
  lemma {:induction false} UnsetTells(clients: map<ClientId, Fd>, l: seq<Notification>)
    requires forall i :: 0 <= i < |l| ==> l[i].client in clients
    ensures Followed(l, None)
    ensures |Messages(clients, l, None)| == |l|
    ensures forall i :: 0 <= i < |l| ==> Messages(clients, l, None)[i] == Sent(clients[l[i].client], l[i].msgid, None)
    ensures forall i :: 0 <= i < |l| ==> Told(l, None)[i] == Notification(l[i].client, Some(Untyped(0)), l[i].msgid)
  {
    if l != [] {
      UnsetTells(clients, l[1..]);
      var m, t := Messages(clients, l, None), Told(l, None);
      assert m == [m[0]] + Messages(clients, l[1..], None) && t == [t[0]] + Told(l[1..], None);
      assert forall i :: 1 <= i < |l| ==> l[i] == l[1..][i - 1];
      assert forall i :: 1 <= i < |l| ==> m[i] == Messages(clients, l[1..], None)[i - 1] && t[i] == Told(l[1..], None)[i - 1];
    }
  }

  lemma UnsetFollowed(l: seq<Notification>)
    ensures Followed(l, None)
  {
  }

  ghost predicate CString(s: seq<byte>) {
    s != [] && s[|s| - 1] == 0 && forall i :: 0 <= i < |s| - 1 ==> s[i] != 0
  }

  /** Comparing as many bytes as the new string has decides equality of C strings. */
  lemma CStringCompare(cached: seq<byte>, value: seq<byte>)
    requires CString(cached) && CString(value)
    ensures Compare(cached, value) == if cached == value then Same else Different
  {
    if value <= cached {
      assert cached[|value| - 1] == 0;
    } else if cached <= value {
      assert value[|cached| - 1] == 0;
    }
  }

  /** Of strings that are merely closed by a NUL, the comparison decides equality
      exactly when neither is a proper beginning of the other. A shorter new one is
      taken for the same; for a longer one the cache is read beyond its end. */
  lemma ClosedCompare(cached: seq<byte>, value: seq<byte>)
    requires Closed(cached) && Closed(value)
    ensures Compare(cached, value) == (if cached == value then Same else Different)
        <==> !(value < cached) && !(cached < value)
    ensures value < cached ==> Compare(cached, value) == Same
    ensures cached < value ==> Compare(cached, value) == Beyond
  {
    if value <= cached && cached <= value {
      assert cached == value;
    }
  }

  /** "a" and "a\0b", as bytes that the parser lets through. */
  lemma MissedChange()
    ensures var cached, value := [97, 0, 98, 0], [97, 0];
      Closed(cached) && Closed(value) && cached != value && Compare(cached, value) == Same
  {
    var cached: seq<byte> := [97, 0, 98, 0];
    assert [97, 0] == cached[..2];
  }

  lemma ReadsBeyond()
    ensures Closed([97, 0]) && Closed([97, 0, 98, 0]) && Compare([97, 0], [97, 0, 98, 0]) == Beyond
    ensures Closed([]) && Compare([], [97, 0]) == Beyond
  {
    var value: seq<byte> := [97, 0, 98, 0];
    assert [97, 0] == value[..2];
  }

  /** Values of one fixed-width type are compared in full. */
  lemma ScalarCompare(cached: Data, value: Data)
    requires TypeOf(cached) == TypeOf(value) && !value.Str? && !value.Untyped? && !cached.Untyped?
    ensures Compare(Held(cached, value), Payload(value)) == if cached == value then Same else Different
  {
    hide Payload, Scalar;
    ScalarPayload(cached);
    ScalarPayload(value);
    var p, q := Payload(cached), Payload(value);
    if q <= p {
      assert p == q;
    }
  }

  /** Whoever is compared with the zeroed datum that an unset leaves: a number is the
      same exactly when it is zero, and a string's comparison goes beyond the cache
      unless it is NULL. */
  lemma UnsetCompare(value: Data)
    requires !value.Untyped?
    ensures Compare(Held(Untyped(TYPE_MIN), value), Payload(value)) ==
      if value.Str? then (if value.s == [] then Same else Beyond)
      else if forall i :: 0 <= i < |Payload(value)| ==> Payload(value)[i] == 0 then Same else Different
  {
    var p := Payload(value);
    if !value.Str? {
      assert |p| <= 8;
      if forall i :: 0 <= i < |p| ==> p[i] == 0 {
        assert p == ZERO_STORE[..|p|];
      }
    }
  }

  /** A value of type `t`; strings are C strings. */
  ghost predicate OfType(v: Data, t: uint32) {
    TypeOf(v) == t && !v.Untyped? && (v.Str? ==> CString(v.s))
  }

  ghost predicate Comparable(l: seq<Notification>, t: uint32) {
    forall i :: 0 <= i < |l| ==> l[i].oldData.Some? && OfType(l[i].oldData.value, t)
  }

  lemma Judged(n: Notification, value: Data)
    requires n.oldData.Some? && OfType(n.oldData.value, TypeOf(value)) && OfType(value, TypeOf(value))
    ensures Judge(n, Some(value)) == if n.oldData == Some(value) then Same else Different
  {
    if value.Str? {
      assert n.oldData.value.Str?;
      CStringCompare(n.oldData.value.s, value.s);
    } else {
      ScalarCompare(n.oldData.value, value);
    }
  }

  /** The registrations whose cached value differs, as messages in list order. */
  function Differing(clients: map<ClientId, Fd>, l: seq<Notification>, value: Data): seq<Sent>
    requires forall i :: 0 <= i < |l| ==> l[i].client in clients
  {
    if l == [] then []
    else
      (if l[0].oldData != Some(value) then [Sent(clients[l[0].client], l[0].msgid, Some(value))] else [])
        + Differing(clients, l[1..], value)
  }

  /** A set sends one message to each registration whose cached value differs, and
      to no other; all caches hold the value afterwards, so that doing it again
      sends nothing. */
  lemma {:induction false} NotifyExactly(clients: map<ClientId, Fd>, l: seq<Notification>, value: Data)
    requires forall i :: 0 <= i < |l| ==> l[i].client in clients
    requires Comparable(l, TypeOf(value)) && OfType(value, TypeOf(value))
    ensures Followed(l, Some(value))
    ensures Messages(clients, l, Some(value)) == Differing(clients, l, value)
    ensures forall i :: 0 <= i < |l| ==> Told(l, Some(value))[i] == l[i].(oldData := Some(value))
    ensures Messages(clients, Told(l, Some(value)), Some(value)) == []
  {
    hide Judge, OfType;
    if l != [] {
      NotifyExactly(clients, l[1..], value);
      var n, t := l[0], Told(l, Some(value));
      Judged(n, value);
      Judged(n.(oldData := Some(value)), value);
      assert forall i :: 1 <= i < |l| ==> l[i] == l[1..][i - 1];
      assert t[0] == n.(oldData := Some(value)) && t[1..] == Told(l[1..], Some(value));
      forall i | 1 <= i < |l| ensures t[i] == l[i].(oldData := Some(value)) {
        assert t[i] == t[1..][i - 1];
      }
    }
  }

  /** One value is a string and a proper beginning of the other. */
  ghost predicate Nested(n: Notification, value: Data) {
    && n.oldData.Some? && n.oldData.value.Str? && value.Str?
    && (n.oldData.value.s < value.s || value.s < n.oldData.value.s)
  }

  /** A value of type `t` as the parser lets it through. */
  ghost predicate PortableOf(v: Data, t: uint32) {
    TypeOf(v) == t && !v.Untyped? && (v.Str? ==> Closed(v.s))
  }

  lemma JudgedPortable(n: Notification, value: Data)
    requires n.oldData.Some? && PortableOf(n.oldData.value, TypeOf(value)) && PortableOf(value, TypeOf(value))
    ensures Judge(n, Some(value)) == (if n.oldData == Some(value) then Same else Different) <==> !Nested(n, value)
    ensures Nested(n, value) ==> n.oldData != Some(value) && Judge(n, Some(value)) != Different
  {
    if value.Str? {
      assert n.oldData.value.Str?;
      ClosedCompare(n.oldData.value.s, value.s);
    } else {
      ScalarCompare(n.oldData.value, value);
    }
  }

  /** Of messages there are never more than of differing caches, and fewer when a
      comparison that is followed goes wrong. */
  lemma {:induction false} MessagesCount(clients: map<ClientId, Fd>, l: seq<Notification>, value: Data)
    requires forall i :: 0 <= i < |l| ==> l[i].client in clients
    requires PortableOf(value, TypeOf(value))
    requires forall i :: 0 <= i < |l| ==> l[i].oldData.Some? && PortableOf(l[i].oldData.value, TypeOf(value))
    ensures |Messages(clients, l, Some(value))| <= |Differing(clients, l, value)|
    ensures (Followed(l, Some(value)) && |Messages(clients, l, Some(value))| == |Differing(clients, l, value)|)
        ==> forall i :: 0 <= i < |l| ==> !Nested(l[i], value)
    ensures (forall i :: 0 <= i < |l| ==> !Nested(l[i], value))
        ==> Followed(l, Some(value)) && Messages(clients, l, Some(value)) == Differing(clients, l, value)
  {
    hide Judge, PortableOf, Nested;
    if l != [] {
      JudgedPortable(l[0], value);
      MessagesCount(clients, l[1..], value);
      assert forall i :: 1 <= i < |l| ==> l[i] == l[1..][i - 1];
      assert Followed(l, Some(value)) ==> Followed(l[1..], Some(value));
    }
  }

  /** A set that the parser let through is followed to the end and sends just the
      messages due exactly when it and no cached string are proper beginnings of
      each other. */
  lemma PortableNotify(clients: map<ClientId, Fd>, l: seq<Notification>, value: Data)
    requires forall i :: 0 <= i < |l| ==> l[i].client in clients
    requires PortableOf(value, TypeOf(value))
    requires forall i :: 0 <= i < |l| ==> l[i].oldData.Some? && PortableOf(l[i].oldData.value, TypeOf(value))
    ensures Followed(l, Some(value)) && Messages(clients, l, Some(value)) == Differing(clients, l, value)
        <==> forall i :: 0 <= i < |l| ==> !Nested(l[i], value)
  {
    MessagesCount(clients, l, value);
  }

  // ---- the daemon ----

  class BuxtonDaemon {
    var clients: map<ClientId, Fd>
    var notifyMapping: map<string, seq<Notification>>
    var clientKeyMapping: map<Fd, seq<string>>
    var sent: seq<Sent>

    constructor ()
      ensures S() == State(map[], map[], map[]) && sent == []
    {
      clients, notifyMapping, clientKeyMapping, sent := map[], map[], map[], [];
    }

    ghost function S(): State
      reads this
    {
      State(clients, notifyMapping, clientKeyMapping)
    }

    /** A new client on a descriptor nobody uses. */
    method AddClient(c: ClientId, fd: Fd)
      requires Inverse(S()) && c !in clients && fd !in clients.Values
      modifies this`clients
      ensures Inverse(S()) && S() == Connect(old(S()), c, fd)
    {
      ConnectKeeps(S(), c, fd);
      clients := clients[c := fd];
    }

    /** `value` is what get_value finds for the key, if it finds something. */
    method RegisterNotification(c: ClientId, group: string, name: string, value: Option<Data>, msgid: uint32)
      returns (status: int)
      requires Inverse(S()) && c in clients
      modifies this`notifyMapping, this`clientKeyMapping
      ensures Inverse(S())
      ensures status == if value == None || NotifyKeyName(group, name) == None then -1 else 0
      ensures status == 0 ==>
        S() == Register(old(S()), c, NotifyKeyName(group, name).value, Notification(c, value, msgid))
      ensures status != 0 ==> S() == old(S())
    {
      if value == None {
        return -1;
      }
      var nitem := Notification(c, value, msgid);
      var keyName := NotifyKeyName(group, name);
      if keyName == None {
        return -1;
      }
      var k, fd := keyName.value, clients[c];
      RegisterKeeps(S(), c, k, nitem);
      hide Inverse;
      if k in notifyMapping {
        notifyMapping := notifyMapping[k := notifyMapping[k] + [nitem]];
      } else {
        notifyMapping := notifyMapping[k := [nitem]];
      }
      if fd in clientKeyMapping {
        clientKeyMapping := clientKeyMapping[fd := clientKeyMapping[fd] + [k]];
      } else {
        clientKeyMapping := clientKeyMapping[fd := [k]];
      }
      assert [] + [nitem] == [nitem] && [] + [k] == [k];
      return 0;
    }

    method FindItem(l: seq<Notification>, c: ClientId) returns (i: int)
      ensures i == FirstItem(l, c)
    {
      i := 0;
      while i < |l|
        invariant 0 <= i <= |l| && forall j :: 0 <= j < i ==> l[j].client != c
      {
        if l[i].client == c {
          return;
        }
        i := i + 1;
      }
      i := -1;
    }

    method FindKey(l: seq<string>, k: string) returns (i: int)
      ensures i == FirstOf(l, k)
    {
      i := 0;
      while i < |l|
        invariant 0 <= i <= |l| && forall j :: 0 <= j < i ==> l[j] != k
      {
        if l[i] == k {
          return;
        }
        i := i + 1;
      }
      i := -1;
    }

    /** Succeeds exactly for a registered client, and then tells the message id of
        its oldest registration. */
    method UnregisterNotification(c: ClientId, group: string, name: string) returns (status: int, msgid: uint32)
      requires Inverse(S()) && c in clients
      modifies this`notifyMapping, this`clientKeyMapping
      ensures Inverse(S())
      ensures var k := NotifyKeyName(group, name);
        if k == None || Items(Subscribers(old(S()), k.value), c) == 0
        then status == -1 && msgid == 0 && S() == old(S())
        else status == 0 && Unregister(old(S()), c, k.value) == Some((S(), msgid))
    {
      status, msgid := -1, 0;
      var keyName := NotifyKeyName(group, name);
      if keyName == None {
        return;
      }
      var k := keyName.value;
      ItemsPositive(Subscribers(S(), k), c);
      if k !in notifyMapping {
        return;
      }
      var nList := notifyMapping[k];
      var i := FindItem(nList, c);
      if i < 0 {
        return;
      }
      var fd := clients[c];
      UnregisterFinds(S(), c, k);
      UnregisterKeeps(S(), c, k);
      hide Inverse;
      if fd !in clientKeyMapping {
        return;
      }
      var j := FindKey(clientKeyMapping[fd], k);
      if j >= 0 {
        clientKeyMapping := PutList(clientKeyMapping, fd, Drop(clientKeyMapping[fd], j));
      }
      msgid := nList[i].msgid;
      notifyMapping := PutList(notifyMapping, k, Drop(nList, i));
      status := 0;
    }

    /** Drops a client: all its registrations, and nothing else. */
    method TerminateClient(c: ClientId)
      requires Inverse(S()) && c in clients
      modifies this`clients, this`notifyMapping, this`clientKeyMapping
      ensures Inverse(S()) && S() == Terminate(old(S()), c)
    {
      ghost var s0 := S();
      TerminateKeeps(s0, c);
      ClearStart(s0, c);
      AllLive(s0);
      hide Inverse, Clearing, Others, Items, Occurs;
      var fd := clients[c];
      var keyList := if fd in clientKeyMapping then clientKeyMapping[fd] else [];
      var i := 0;
      assert keyList[0..] == keyList;
      while i < |keyList|
        invariant 0 <= i <= |keyList| && clients == s0.clients && clientKeyMapping == s0.keys
        invariant Clearing(s0, S(), c, keyList[i..])
      {
        var k := keyList[i];
        ClearStep(s0, S(), c, keyList[i..]);
        assert keyList[i..][1..] == keyList[i + 1..];
        if k !in notifyMapping {
          assert false;  // the first abort
        }
        var nList := notifyMapping[k];
        var j := FindItem(nList, c);
        if j < 0 {
          assert false;  // the second abort
        }
        notifyMapping := PutList(notifyMapping, k, Drop(nList, j));
        i := i + 1;
      }
      assert keyList[i..] == [];
      ClearDone(s0, S(), c);
      clientKeyMapping := clientKeyMapping - {fd};
      clients := clients - {c};
    }

    /** Sends CHANGED to the subscribers of a key; `None` is an unset. It is followed to
        the end unless a comparison goes beyond a cache. */
    method NotifyClients(group: string, name: string, value: Option<Data>) returns (followed: bool)
      requires Inverse(S())
      modifies this`notifyMapping, this`sent
      ensures Inverse(S())
      ensures var k := NotifyKeyName(group, name);
        if k == None || k.value !in old(notifyMapping) then followed && S() == old(S()) && sent == old(sent)
        else
          var l := old(notifyMapping)[k.value];
          && (followed <==> Followed(l, value))
          && S() == Notify(old(S()), k.value, value)
          && (forall i :: 0 <= i < |l| ==> l[i].client in clients)
          && sent == old(sent) + Messages(clients, l, value)
          && (value == None ==>
                && followed && |sent| == |old(sent)| + |l|
                && forall i :: 0 <= i < |l| ==> sent[|old(sent)| + i] == Sent(clients[l[i].client], l[i].msgid, None))
    {
      var keyName := NotifyKeyName(group, name);
      if keyName == None || keyName.value !in notifyMapping {
        return true;
      }
      var k := keyName.value;
      NotifyKeeps(S(), k, value);
      assert Live(S(), k);
      hide Inverse, Followed;
      var l;
      l, followed := TellAll(notifyMapping[k], value);
      notifyMapping := notifyMapping[k := l];
    }

    /** The loop over a key's subscribers. */
    method TellAll(l: seq<Notification>, value: Option<Data>) returns (r: seq<Notification>, followed: bool)
      requires forall i :: 0 <= i < |l| ==> l[i].client in clients
      modifies this`sent
      ensures followed <==> Followed(l, value)
      ensures r == Told(l, value) && sent == old(sent) + Messages(clients, l, value)
      ensures value == None ==> followed && |sent| == |old(sent)| + |l|
      ensures value == None ==> forall i :: 0 <= i < |l| ==>
        && sent[|old(sent)| + i] == Sent(clients[l[i].client], l[i].msgid, None)
        && r[i] == Notification(l[i].client, Some(Untyped(0)), l[i].msgid)
    {
      hide Messages, Judge, Cached, Told, Telling, Followed;
      if value == None {
        UnsetFollowed(l);
      }
      r := [];
      var i := 0;
      ghost var sent0 := sent;
      TellingStart(clients, l, value, sent);
      while i < |l|
        invariant 0 <= i <= |l| && Telling(clients, l, value, i, r, sent0, sent)
      {
        var nitem := l[i];
        TellingStep(clients, l, value, i, r, sent0, sent);
        match Judge(nitem, value) {
          case Beyond =>
            return r + l[i..], false;
          case Same =>
            r := r + [nitem];
          case Different =>
            r := r + [nitem.(oldData := Cached(value))];
            sent := sent + [Sent(clients[nitem.client], nitem.msgid, value)];
        }
        i := i + 1;
      }
      TellingDone(clients, l, value, r, sent0, sent);
      followed := true;
      if value == None {
        UnsetTells(clients, l);
      }
    }
  }

  lemma AllLive(s: State)
    requires Inverse(s)
    ensures forall k :: k in s.notify ==> s.notify[k] != []
  {
    forall k | k in s.notify ensures s.notify[k] != [] {
      assert Live(s, k);
    }
  }

  // ---- runs ----

  datatype Event =
    | Connected(c: ClientId, fd: Fd)
    | Registered(c: ClientId, k: string, value: Data, msgid: uint32)
    | Unregistered(c: ClientId, k: string)
    | Changed(k: string, newValue: Option<Data>)
    | Disconnected(c: ClientId)

  ghost predicate Enabled(s: State, e: Event) {
    match e
    case Connected(c, fd) => c !in s.clients && fd !in s.clients.Values
    case Registered(c, _, _, _) => c in s.clients
    case Unregistered(c, _) => c in s.clients
    case Changed(_, _) => true
    case Disconnected(c) => c in s.clients
  }

  ghost function Next(s: State, e: Event): State
    requires Enabled(s, e)
  {
    match e
    case Connected(c, fd) => Connect(s, c, fd)
    case Registered(c, k, v, m) => Register(s, c, k, Notification(c, Some(v), m))
    case Unregistered(c, k) => (match Unregister(s, c, k) case None => s case Some((t, _)) => t)
    case Changed(k, v) => Notify(s, k, v)
    case Disconnected(c) => Terminate(s, c)
  }

  /** The state after a run from the start, if each event was possible. */
  ghost function Run(es: seq<Event>): Option<State> {
    if es == [] then Some(State(map[], map[], map[]))
    else
      match Run(es[..|es| - 1])
      case None => None
      case Some(s) => if Enabled(s, es[|es| - 1]) then Some(Next(s, es[|es| - 1])) else None
  }

  /** In every run, with descriptors used again or not, the indexes stay inverse. */
  lemma {:induction false} AlwaysInverse(es: seq<Event>)
    ensures Run(es).Some? ==> Inverse(Run(es).value)
  {
    if es != [] && Run(es).Some? {
      var s, e := Run(es[..|es| - 1]).value, es[|es| - 1];
      AlwaysInverse(es[..|es| - 1]);
      hide Inverse;
      match e {
        case Connected(c, fd) => ConnectKeeps(s, c, fd);
        case Registered(c, k, v, m) => RegisterKeeps(s, c, k, Notification(c, Some(v), m));
        case Unregistered(c, k) =>
          if Unregister(s, c, k) != None {
            UnregisterKeeps(s, c, k);
          }
        case Changed(k, v) => NotifyKeeps(s, k, v);
        case Disconnected(c) => TerminateKeeps(s, c);
      }
    }
  }

  /** The loop over the subscribers has told the first `i` of them. */
  ghost predicate Telling(clients: map<ClientId, Fd>, l: seq<Notification>, value: Option<Data>, i: nat,
      r: seq<Notification>, sent0: seq<Sent>, sent: seq<Sent>)
  {
    && i <= |l| && (forall j :: 0 <= j < |l| ==> l[j].client in clients)
    && (forall j :: 0 <= j < i ==> Judge(l[j], value) != Beyond)
    && Told(l, value) == r + Told(l[i..], value)
    && sent0 + Messages(clients, l, value) == sent + Messages(clients, l[i..], value)
  }

  lemma TellingStart(clients: map<ClientId, Fd>, l: seq<Notification>, value: Option<Data>, sent: seq<Sent>)
    requires forall j :: 0 <= j < |l| ==> l[j].client in clients
    ensures Telling(clients, l, value, 0, [], sent, sent)
  {
    hide Judge;
    assert l[0..] == l;
  }

  lemma TellingStep(clients: map<ClientId, Fd>, l: seq<Notification>, value: Option<Data>, i: nat,
      r: seq<Notification>, sent0: seq<Sent>, sent: seq<Sent>)
    requires Telling(clients, l, value, i, r, sent0, sent) && i < |l|
    ensures l[i].client in clients
    ensures match Judge(l[i], value)
      case Beyond =>
        !Followed(l, value) && r + l[i..] == Told(l, value) && sent == sent0 + Messages(clients, l, value)
      case Same => Telling(clients, l, value, i + 1, r + [l[i]], sent0, sent)
      case Different => Telling(clients, l, value, i + 1, r + [l[i].(oldData := Cached(value))], sent0,
        sent + [Sent(clients[l[i].client], l[i].msgid, value)])
  {
    hide Judge, Cached, Told, Messages;
    TellingFirst(clients, l, value, i);
    var n, rest := l[i], Told(l[i + 1..], value);
    assert r + ([n] + rest) == r + [n] + rest;
    var n' := n.(oldData := Cached(value));
    assert r + ([n'] + rest) == r + [n'] + rest;
    var m, later := Sent(clients[n.client], n.msgid, value), Messages(clients, l[i + 1..], value);
    assert sent + ([m] + later) == sent + [m] + later && sent + [] == sent;
  }

  lemma TellingFirst(clients: map<ClientId, Fd>, l: seq<Notification>, value: Option<Data>, i: nat)
    requires i < |l| && forall j :: 0 <= j < |l| ==> l[j].client in clients
    ensures match Judge(l[i], value)
      case Beyond => Told(l[i..], value) == l[i..] && Messages(clients, l[i..], value) == []
      case Same =>
        && Told(l[i..], value) == [l[i]] + Told(l[i + 1..], value)
        && Messages(clients, l[i..], value) == Messages(clients, l[i + 1..], value)
      case Different =>
        && Told(l[i..], value) == [l[i].(oldData := Cached(value))] + Told(l[i + 1..], value)
        && Messages(clients, l[i..], value)
           == [Sent(clients[l[i].client], l[i].msgid, value)] + Messages(clients, l[i + 1..], value)
  {
    hide Judge, Cached;
    assert l[i..][1..] == l[i + 1..];
  }

  lemma TellingDone(clients: map<ClientId, Fd>, l: seq<Notification>, value: Option<Data>,
      r: seq<Notification>, sent0: seq<Sent>, sent: seq<Sent>)
    requires Telling(clients, l, value, |l|, r, sent0, sent)
    ensures Followed(l, value) && r == Told(l, value) && sent == sent0 + Messages(clients, l, value)
  {
    hide Judge, Cached;
  }

  // ---- notifications in a run ----

  /** All values registered and set for the key are of one type. */
  ghost predicate TypedRun(es: seq<Event>, k: string, t: uint32) {
    forall i :: 0 <= i < |es| ==> TypedEvent(es[i], k, t)
  }

  ghost predicate TypedEvent(e: Event, k: string, t: uint32) {
    match e
    case Registered(_, x, v, _) => x == k ==> OfType(v, t)
    case Changed(x, v) => x == k ==> v.Some? && OfType(v.value, t)
    case _ => true
  }

  /** The messages of one event. */
  ghost function Sends(s: State, e: Event): seq<Sent>
    requires Inverse(s)
  {
    if e.Changed? && e.k in s.notify then
      assert Live(s, e.k);
      Messages(s.clients, s.notify[e.k], e.newValue)
    else []
  }

  lemma {:induction false} RunPrefix(es: seq<Event>, i: nat)
    requires i <= |es| && Run(es).Some?
    ensures Run(es[..i]).Some?
    decreases |es|
  {
    if i == |es| {
      assert es[..i] == es;
    } else {
      RunPrefix(es[..|es| - 1], i);
      assert es[..|es| - 1][..i] == es[..i];
    }
  }

  lemma {:induction false} OthersIn(l: seq<Notification>, c: ClientId)
    ensures forall n :: n in Others(l, c) ==> n in l
  {
    if l != [] {
      OthersIn(l[1..], c);
    }
  }

  /** What one event makes of a key's list, item by item. */
  lemma NextItems(s: State, e: Event, k: string, n: Notification)
    requires Enabled(s, e) && n in Subscribers(Next(s, e), k)
    ensures match e
      case Registered(c, x, v, m) => n in Subscribers(s, k) || (x == k && n == Notification(c, Some(v), m))
      case Changed(x, v) => n in Subscribers(s, k) || (x == k && n.oldData == Cached(v))
      case _ => n in Subscribers(s, k)
  {
    hide Told, Items, Occurs, FirstItem, FirstOf;
    match e {
      case Registered(_, _, _, _) =>
      case Connected(_, _) =>
      case Unregistered(_, _) =>
      case Changed(x, v) =>
        if x == k && k in s.notify {
          var i :| 0 <= i < |Told(s.notify[k], v)| && Told(s.notify[k], v)[i] == n;
          assert s.notify[k][i] in s.notify[k];
        }
      case Disconnected(c) =>
        OthersIn(Subscribers(s, k), c);
    }
  }

  /** Then all caches are of that type at any time. */
  lemma {:induction false} TypedCaches(es: seq<Event>, k: string, t: uint32)
    requires Run(es).Some? && TypedRun(es, k, t)
    ensures Comparable(Subscribers(Run(es).value, k), t)
  {
    hide OfType, Next, Enabled;
    if es != [] {
      var before, e := es[..|es| - 1], es[|es| - 1];
      TypedCaches(before, k, t);
      assert TypedEvent(e, k, t);
      var s := Run(before).value;
      var l := Subscribers(Next(s, e), k);
      forall i | 0 <= i < |l| ensures l[i].oldData.Some? && OfType(l[i].oldData.value, t) {
        NextItems(s, e, k, l[i]);
      }
    }
  }

  /** In every run each unset of a key tells all its registrations. */
  lemma RunUnsets(es: seq<Event>, i: nat, k: string)
    requires Run(es).Some? && i < |es| && es[i] == Changed(k, None)
    ensures Run(es[..i]).Some? && Inverse(Run(es[..i]).value)
    ensures Run(es[..i + 1]).Some?
    ensures var s := Run(es[..i]).value;
      var l, l', sent := Subscribers(s, k), Subscribers(Run(es[..i + 1]).value, k), Sends(s, es[i]);
      && Followed(l, None) && |l'| == |sent| == |l|
      && (forall j :: 0 <= j < |l| ==> l[j].client in s.clients)
      && (forall j :: 0 <= j < |l| ==> sent[j] == Sent(s.clients[l[j].client], l[j].msgid, None))
      && (forall j :: 0 <= j < |l| ==> l'[j] == Notification(l[j].client, Some(Untyped(0)), l[j].msgid))
  {
    RunPrefix(es, i);
    RunPrefix(es, i + 1);
    assert es[..i + 1][..i] == es[..i] && es[..i + 1][i] == es[i];
    AlwaysInverse(es[..i]);
    hide Judge;
    var s := Run(es[..i]).value;
    if k in s.notify {
      assert Live(s, k);
      UnsetTells(s.clients, s.notify[k]);
    }
  }

  // ---- who is registered ----

  type Standing = seq<(ClientId, uint32)>

  function Ids(l: seq<Notification>): (r: Standing)
    ensures |r| == |l| && forall i :: 0 <= i < |l| ==> r[i] == (l[i].client, l[i].msgid)
  {
    seq(|l|, i requires 0 <= i < |l| => (l[i].client, l[i].msgid))
  }

  function FirstOfClient(l: Standing, c: ClientId): (r: int)
    ensures -1 <= r < |l| && (r >= 0 ==> l[r].0 == c)
    ensures forall j :: 0 <= j < |l| && (r < 0 || j < r) ==> l[j].0 != c
  {
    if l == [] then -1 else if l[0].0 == c then 0
    else
      var r := FirstOfClient(l[1..], c);
      if r < 0 then -1 else r + 1
  }

  function NotOf(l: Standing, c: ClientId): Standing {
    if l == [] then [] else (if l[0].0 == c then [] else [l[0]]) + NotOf(l[1..], c)
  }

  /** The registrations for a key that stand after a run: each is added behind the
      others, an unregistration takes back the client's oldest, and a client that goes
      takes all of its own. */
  function Registrations(es: seq<Event>, k: string): Standing {
    if es == [] then []
    else
      var before := Registrations(es[..|es| - 1], k);
      match es[|es| - 1]
      case Registered(c, x, _, m) => if x == k then before + [(c, m)] else before
      case Unregistered(c, x) =>
        var i := FirstOfClient(before, c);
        if x == k && i >= 0 then before[..i] + before[i + 1..] else before
      case Disconnected(c) => NotOf(before, c)
      case _ => before
  }

  lemma {:induction false} IdsOf(l: seq<Notification>, c: ClientId)
    ensures FirstOfClient(Ids(l), c) == FirstItem(l, c) && Ids(Others(l, c)) == NotOf(Ids(l), c)
  {
    if l != [] {
      IdsOf(l[1..], c);
      assert Ids(l) == [(l[0].client, l[0].msgid)] + Ids(l[1..]) && Ids(l)[1..] == Ids(l[1..]);
      assert Ids([l[0]] + Others(l[1..], c)) == [Ids(l)[0]] + Ids(Others(l[1..], c));
      assert [] + Others(l[1..], c) == Others(l[1..], c) && [] + NotOf(Ids(l)[1..], c) == NotOf(Ids(l)[1..], c);
    }
  }

  lemma ToldIds(l: seq<Notification>, value: Option<Data>)
    ensures Ids(Told(l, value)) == Ids(l)
  {
  }

  /** In every run a key's subscribers are the registrations that stand, in the order
      in which they were made. */
  lemma {:induction false} RunRegistrations(es: seq<Event>, k: string)
    requires Run(es).Some?
    ensures Ids(Subscribers(Run(es).value, k)) == Registrations(es, k)
  {
    if es != [] {
      var before, e := es[..|es| - 1], es[|es| - 1];
      RunRegistrations(before, k);
      AlwaysInverse(before);
      StandingStep(Run(before).value, e, k);
    }
  }

  lemma SubscribersLess(s: State, c: ClientId, x: string, k: string)
    requires Inverse(s) && c in s.clients
    ensures var l, i := Subscribers(s, k), FirstItem(Subscribers(s, k), c);
      var t := match Unregister(s, c, x) case None => s case Some((t, _)) => t;
      Subscribers(t, k) == if x == k && i >= 0 then Drop(l, i) else l
  {
    hide Items, Occurs, FirstItem, FirstOf, Inverse, Drop;
    if FirstItem(Subscribers(s, x), c) >= 0 {
      UnregisterFinds(s, c, x);
    }
  }

  lemma StandingLess(s: State, c: ClientId, x: string, k: string)
    requires Inverse(s) && c in s.clients
    ensures var l, i := Subscribers(s, k), FirstOfClient(Ids(Subscribers(s, k)), c);
      var t := match Unregister(s, c, x) case None => s case Some((t, _)) => t;
      Ids(Subscribers(t, k)) == if x == k && i >= 0 then Ids(l)[..i] + Ids(l)[i + 1..] else Ids(l)
  {
    hide FirstItem, FirstOfClient, Inverse, Subscribers, Unregister, Ids, Drop;
    var l := Subscribers(s, k);
    SubscribersLess(s, c, x, k);
    IdsOf(l, c);
    var i := FirstItem(l, c);
    if i >= 0 {
      IdsDrop(l, i);
    }
  }

  lemma IdsDrop(l: seq<Notification>, i: nat)
    requires i < |l|
    ensures Ids(Drop(l, i)) == Ids(l)[..i] + Ids(l)[i + 1..]
  {
  }

  lemma IdsSnoc(l: seq<Notification>, n: Notification)
    ensures Ids(l + [n]) == Ids(l) + [(n.client, n.msgid)]
  {
  }

  lemma SubscribersAdded(s: State, c: ClientId, fd: Fd, k: string)
    ensures Subscribers(Connect(s, c, fd), k) == Subscribers(s, k)
  {
  }

  lemma SubscribersMore(s: State, c: ClientId, x: string, item: Notification, k: string)
    requires c in s.clients
    ensures Subscribers(Register(s, c, x, item), k) == Subscribers(s, k) + if x == k then [item] else []
  {
  }

  lemma SubscribersTold(s: State, x: string, value: Option<Data>, k: string)
    ensures Subscribers(Notify(s, x, value), k) == if x == k then Told(Subscribers(s, k), value) else Subscribers(s, k)
  {
  }

  lemma SubscribersLeft(s: State, c: ClientId, k: string)
    requires c in s.clients
    ensures Subscribers(Terminate(s, c), k) == Others(Subscribers(s, k), c)
  {
  }

  /** One event, with `before` the registrations so far. */
  lemma StandingStep(s: State, e: Event, k: string)
    requires Inverse(s) && Enabled(s, e)
    ensures var l, ids := Subscribers(s, k), Ids(Subscribers(Next(s, e), k));
      match e
      case Registered(c, x, _, m) => ids == if x == k then Ids(l) + [(c, m)] else Ids(l)
      case Unregistered(c, x) =>
        var i := FirstOfClient(Ids(l), c);
        ids == if x == k && i >= 0 then Ids(l)[..i] + Ids(l)[i + 1..] else Ids(l)
      case Disconnected(c) => ids == NotOf(Ids(l), c)
      case _ => ids == Ids(l)
  {
    hide FirstItem, FirstOf, FirstOfClient, Told, Others, NotOf, Inverse, Ids, Register, Unregister, Terminate, Notify, Subscribers;
    var l := Subscribers(s, k);
    match e {
      case Connected(c, fd) =>
        SubscribersAdded(s, c, fd, k);
      case Registered(c, x, v, m) =>
        SubscribersMore(s, c, x, Notification(c, Some(v), m), k);
        IdsSnoc(l, Notification(c, Some(v), m));
      case Changed(x, v) =>
        SubscribersTold(s, x, v, k);
        ToldIds(l, v);
      case Unregistered(c, x) =>
        StandingLess(s, c, x, k);
      case Disconnected(c) =>
        IdsOf(l, c);
        SubscribersLeft(s, c, k);
    }
  }

  /** Unregistering succeeds exactly when a registration of the client stands, and tells
      the message id of the oldest. */
  lemma OldestFirst(es: seq<Event>, c: ClientId, k: string)
    requires Run(es).Some? && c in Run(es).value.clients
    ensures var r := Unregister(Run(es).value, c, k);
      if r == None then forall i :: 0 <= i < |Registrations(es, k)| ==> Registrations(es, k)[i].0 != c
      else exists i :: 0 <= i < |Registrations(es, k)| && Registrations(es, k)[i] == (c, r.value.1)
             && forall j :: 0 <= j < i ==> Registrations(es, k)[j].0 != c
  {
    RunRegistrations(es, k);
    AlwaysInverse(es);
    hide Run, Registrations, Inverse;
    OldestItem(Run(es).value, c, k);
  }

  lemma OldestItem(s: State, c: ClientId, k: string)
    requires Inverse(s) && c in s.clients
    ensures var l, r := Ids(Subscribers(s, k)), Unregister(s, c, k);
      if r == None then forall i :: 0 <= i < |l| ==> l[i].0 != c
      else exists i :: 0 <= i < |l| && l[i] == (c, r.value.1) && forall j :: 0 <= j < i ==> l[j].0 != c
  {
    hide Inverse, FirstOf, FirstItem, Drop, PutList;
    var l := Subscribers(s, k);
    var i := FirstItem(l, c);
    if i >= 0 {
      UnregisterFinds(s, c, k);
      assert Ids(l)[i] == (c, l[i].msgid);
    }
  }

  /** In every run with a key of one type, each set of it is followed to the end. It
      sends one message, in registration order, to exactly the registrations whose
      cache differs; then all caches hold the value, and the same set again would
      send nothing. */
  lemma RunNotifies(es: seq<Event>, i: nat, k: string, t: uint32, value: Data)
    requires Run(es).Some? && TypedRun(es, k, t)
    requires i < |es| && es[i] == Changed(k, Some(value))
    ensures Run(es[..i]).Some? && Inverse(Run(es[..i]).value)
    ensures Run(es[..i + 1]).Some? && Inverse(Run(es[..i + 1]).value)
    ensures var s, s' := Run(es[..i]).value, Run(es[..i + 1]).value;
      var l, l' := Subscribers(s, k), Subscribers(s', k);
      && Followed(l, Some(value))
      && (forall j :: 0 <= j < |l| ==> l[j].client in s.clients)
      && Sends(s, es[i]) == Differing(s.clients, l, value)
      && |l'| == |l| && (forall j :: 0 <= j < |l| ==> l'[j] == l[j].(oldData := Some(value)))
      && Sends(s', es[i]) == []
  {
    RunPrefix(es, i);
    RunPrefix(es, i + 1);
    var before := es[..i];
    assert es[..i + 1][..i] == before && es[..i + 1][i] == es[i];
    AlwaysInverse(before);
    AlwaysInverse(es[..i + 1]);
    TypedCaches(before, k, t);
    assert TypedEvent(es[i], k, t);
    hide OfType, Judge;
    var s := Run(before).value;
    if k in s.notify {
      assert Live(s, k);
      NotifyExactly(s.clients, s.notify[k], value);
    }
  }

  /** And they keep holding it, as long as nothing else is set and those that register
      see it. */
  lemma {:induction false} CachesStay(es: seq<Event>, i: nat, k: string, t: uint32, value: Data)
    requires Run(es).Some? && TypedRun(es, k, t)
    requires i < |es| && es[i] == Changed(k, Some(value))
    requires forall j :: i < j < |es| ==>
      match es[j]
      case Registered(_, x, v, _) => x == k ==> v == value
      case Changed(x, v) => x == k ==> v == Some(value)
      case _ => true
    ensures var l := Subscribers(Run(es).value, k); forall j :: 0 <= j < |l| ==> l[j].oldData == Some(value)
    decreases |es|
  {
    hide OfType, Next, Enabled, Inverse, Followed;
    var last := |es| - 1;
    if i == last {
      RunNotifies(es, i, k, t, value);
      assert es[..i + 1] == es;
    } else {
      var before, e := es[..last], es[last];
      assert TypedRun(before, k, t);
      CachesStay(before, i, k, t, value);
      var s := Run(before).value;
      var l := Subscribers(Next(s, e), k);
      forall j | 0 <= j < |l| ensures l[j].oldData == Some(value) {
        NextItems(s, e, k, l[j]);
      }
    }
  }
}
