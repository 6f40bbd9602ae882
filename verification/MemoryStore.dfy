/** The memory backend (src/db/memory.c): one insertion-ordered map of records per
    store. A record's key is the group and, for a key proper, the name, each closed
    by a NUL. Strings stand here without the NUL that closes them; what a client sends
    may have others inside. A value's bytes keep theirs. */
module MemoryStore {
  import opened Basics
  import opened OrderedMap
  import opened Wire

  datatype Kind = System | User
  datatype Layer = Layer(name: Text, kind: Kind, priority: nat, readonly: bool)

  /** A string and whether its length counts the NUL behind it. */
  datatype LayerName = LayerName(name: string, closed: bool)
  datatype Key = Key(layer: Option<LayerName>, group: string, name: Option<string>, kind: nat)
  datatype Valrec = Valrec(data: Data, tag: string)

  type Db = seq<Item<string, string, Valrec>>

  const EPERM := 1
  const ENOENT := 2
  const EINVAL := 22

  // ---- record keys ----

  function KeyRec(group: string, name: Option<string>): string {
    group + "\0" + if name.Some? then name.value + "\0" else ""
  }

  lemma CStringIs(s: string)
    ensures CString(s) == s <==> NulFree(s)
  {
  }

  lemma {:induction false} CStringAt(t: string, rest: string)
    ensures CString(t + "\0" + rest) == CString(t)
  {
    var s := t + "\0" + rest;
    if t == "" {
      assert s[0] == '\0';
    } else {
      assert s[0] == t[0] && s[1..] == t[1..] + "\0" + rest;
      CStringAt(t[1..], rest);
    }
  }

  /** The name a record key holds, if any: what is left after the group. */
  function Name(rec: string): (r: Option<string>)
    ensures r.Some? ==> NulFree(r.value)
  {
    var n := |CString(rec)| + 1;
    if n >= |rec| then None else Some(CString(rec[n..]))
  }

  predicate Plain(group: string, name: Option<string>) {
    NulFree(group) && (name.Some? ==> NulFree(name.value))
  }

  /** Group and name can be read off a record key again exactly when neither has a NUL
      inside. What strcmp sees of it is the group as strcmp sees it. */
  lemma KeyRecParts(group: string, name: Option<string>)
    ensures CString(KeyRec(group, name)) == CString(group)
    ensures CString(KeyRec(group, name)) == group && Name(KeyRec(group, name)) == name <==> Plain(group, name)
  {
    var rec := KeyRec(group, name);
    CStringIs(group);
    match name {
      case None =>
        assert rec == group + "\0" + "";
        CStringAt(group, "");
      case Some(n) =>
        assert rec == group + "\0" + (n + "\0");
        CStringAt(group, n + "\0");
        CStringIs(n);
        if NulFree(group) {
          assert rec[|group| + 1..] == n + "\0" + "";
          CStringAt(n, "");
        }
    }
  }

  /** So keys without such NULs have different record keys. */
  lemma KeyRecInjective(g: string, n: Option<string>, h: string, m: Option<string>)
    requires KeyRec(g, n) == KeyRec(h, m) && Plain(g, n) && Plain(h, m)
    ensures g == h && n == m
  {
    KeyRecParts(g, n);
    KeyRecParts(h, m);
  }

  /** A group with a NUL inside has the record key of another group's key. */
  lemma KeyRecClash()
    ensures KeyRec("g\0n", None) == KeyRec("g", Some("n"))
  {
  }

  /** The record key of a group or key without such NULs. */
  ghost predicate IsKeyRec(rec: string) {
    rec == KeyRec(CString(rec), Name(rec))
  }

  lemma IsRec(group: string, name: Option<string>)
    requires Plain(group, name)
    ensures IsKeyRec(KeyRec(group, name))
  {
    KeyRecParts(group, name);
  }

  ghost predicate Good(db: Db) {
    && Distinct(db)
    && forall i :: 0 <= i < |db| ==> db[i].id == db[i].key && !db[i].value.data.Untyped?
  }

  /** No group or name in the store has a NUL inside. */
  ghost predicate Canonical(db: Db) {
    forall i :: 0 <= i < |db| ==> IsKeyRec(db[i].key)
  }

  /** The record of a key, as the other modules see the store. */
  function Record(db: Db, group: string, name: Option<string>): Option<Valrec> {
    Value(db, KeyRec(group, name))
  }

  // ---- the operations on one store ----

  /** set_value: `data` is missing when only the label is set. */
  function Written(db: Db, rec: string, data: Option<Data>, tag: string): Db {
    match Value(db, rec)
    case Some(v) => Update(db, rec, Valrec(if data.Some? then data.value else v.data, tag))
    case None => if data.Some? then Put(db, Item(rec, rec, Valrec(data.value, tag))) else db
  }

  /** strcmp tells the record key from the group. */
  function Outside(group: string): Item<string, string, Valrec> -> bool {
    (x: Item<string, string, Valrec>) => CString(x.key) != CString(group)
  }

  /** strncmp finds the prefix in front of the value. */
  predicate Begins(value: string, prefix: string) {
    if NulFree(prefix) then prefix <= value else value == CString(prefix)
  }

  /** What list_names keeps of an entry. The group's length and its C string must fit,
      so that a group with a NUL inside has no names. */
  function Listed(rec: string, group: Option<string>, prefix: Option<string>): Option<string> {
    var value: Option<string> :=
      match (Name(rec), group)
      case (Some(n), Some(g)) => if CString(rec) == g then Some(n) else None
      case (None, None) => Some(CString(rec))
      case _ => None;
    if value.Some? && (prefix.None? || Begins(value.value, prefix.value)) then value else None
  }

  function AsSeq(v: Option<string>): seq<string> {
    if v.Some? then [v.value] else []
  }

  function Names(db: Db, group: Option<string>, prefix: Option<string>): seq<string> {
    if db == [] then []
    else AsSeq(Listed(db[0].key, group, prefix)) + Names(db[1..], group, prefix)
  }

  // ---- what they mean ----

  lemma WrittenLaw(db: Db, rec: string, data: Option<Data>, tag: string, other: string)
    requires Good(db) && (data.Some? ==> !data.value.Untyped?)
    ensures Good(Written(db, rec, data, tag))
    ensures other != rec ==> Value(Written(db, rec, data, tag), other) == Value(db, other)
    ensures Value(Written(db, rec, data, tag), rec) ==
      match (data, Value(db, rec))
      case (Some(d), _) => Some(Valrec(d, tag))
      case (None, Some(v)) => Some(Valrec(v.data, tag))
      case (None, None) => None
  {
    match Value(db, rec) {
      case Some(v) =>
        var v' := Valrec(if data.Some? then data.value else v.data, tag);
        UpdateLaw(db, rec, v', rec);
        UpdateLaw(db, rec, v', other);
      case None =>
        if data.Some? {
          PutLaw(db, Item(rec, rec, Valrec(data.value, tag)), rec);
          PutLaw(db, Item(rec, rec, Valrec(data.value, tag)), other);
        }
    }
  }

  lemma RemoveGood(db: Db, rec: string)
    requires Good(db)
    ensures Good(Remove(db, rec))
  {
    RemoveLaw(db, rec, rec);
  }

  lemma {:induction false} FilterValue(p: Item<string, string, Valrec> -> bool, db: Db, id: string)
    requires Distinct(db)
    ensures Value(Filter(p, db), id) ==
      var i := Find(db, id);
      if i >= 0 && p(db[i]) then Some(db[i].value) else None
  {
    var f, i := Filter(p, db), Find(db, id);
    FilterDistinct(p, db);
    var j := Find(f, id);
    if j >= 0 {
      assert f[j] in db && p(f[j]);
      var k :| 0 <= k < |db| && db[k] == f[j];
      FindAt(db, k);
    }
  }

  /** Unsetting a group removes the records whose group strcmp takes for it. */
  lemma GroupGone(db: Db, group: string, rec: string)
    requires Good(db)
    ensures Good(Filter(Outside(group), db))
    ensures Value(Filter(Outside(group), db), rec) == if CString(rec) == CString(group) then None else Value(db, rec)
  {
    hide CString;
    FilterDistinct(Outside(group), db);
    FilterValue(Outside(group), db, rec);
    var f := Filter(Outside(group), db);
    forall i | 0 <= i < |f| ensures f[i].id == f[i].key && !f[i].value.data.Untyped? {
      assert f[i] in db;
    }
  }

  /** Where no NUL is inside, these are the group's record and all its keys, and nothing
      else. */
  lemma GroupKeysGone(db: Db, group: string, g: string, n: Option<string>)
    requires Good(db) && NulFree(group) && NulFree(g)
    ensures Record(Filter(Outside(group), db), g, n) == if g == group then None else Record(db, g, n)
  {
    hide KeyRec;
    GroupGone(db, group, KeyRec(g, n));
    KeyRecParts(g, n);
    CStringIs(group);
    CStringIs(g);
  }

  /** Otherwise others go with it. */
  lemma OtherGroupGone(db: Db)
    requires Good(db)
    ensures Record(Filter(Outside("g"), db), "g\0x", None).None?
  {
    hide KeyRec;
    GroupGone(db, "g", KeyRec("g\0x", None));
    KeyRecParts("g\0x", None);
    CStringAt("g", "x");
    assert "g" + "\0" + "x" == "g\0x";
  }

  lemma {:induction false} NamesIn(db: Db, group: Option<string>, prefix: Option<string>, v: string)
    ensures v in Names(db, group, prefix) <==>
      exists i :: 0 <= i < |db| && Listed(db[i].key, group, prefix) == Some(v)
  {
    hide Listed;
    if db != [] {
      NamesIn(db[1..], group, prefix, v);
      assert forall i :: 1 <= i < |db| ==> db[i] == db[1..][i - 1];
      if v in Names(db[1..], group, prefix) {
        var i :| 0 <= i < |db[1..]| && Listed(db[1..][i].key, group, prefix) == Some(v);
        assert db[i + 1] == db[1..][i];
      }
      if i :| 0 <= i < |db| && Listed(db[i].key, group, prefix) == Some(v) {
        assert i > 0 ==> db[1..][i - 1] == db[i];
      }
    }
  }

  lemma ListedFree(rec: string, group: Option<string>, prefix: Option<string>)
    ensures Listed(rec, group, prefix).Some? ==> NulFree(Listed(rec, group, prefix).value)
  {
  }

  lemma ListedIs(rec: string, group: Option<string>, prefix: Option<string>, v: string)
    requires IsKeyRec(rec) && NulFree(v)
    ensures Listed(rec, group, prefix) == Some(v) <==>
      && rec == (if group.Some? then KeyRec(group.value, Some(v)) else KeyRec(v, None))
      && (group.Some? ==> NulFree(group.value)) && (prefix.Some? ==> Begins(v, prefix.value))
  {
    hide KeyRec, CString, Name, Begins;
    if group.Some? {
      KeyRecParts(group.value, Some(v));
      CStringIs(group.value);
    } else {
      KeyRecParts(v, None);
    }
  }

  /** list_names returns the names of the group's keys, or without a group the group
      names, that begin with the prefix; of a prefix with a NUL inside, those that are
      just what stands before it. */
  lemma NamesExact(db: Db, group: Option<string>, prefix: Option<string>, v: string)
    requires Good(db) && Canonical(db)
    ensures v in Names(db, group, prefix) <==>
      && NulFree(v)
      && (prefix.Some? ==> if NulFree(prefix.value) then prefix.value <= v else v == CString(prefix.value))
      && if group.Some? then NulFree(group.value) && Record(db, group.value, Some(v)).Some?
         else Record(db, v, None).Some?
  {
    hide KeyRec, CString, Name, Listed, IsKeyRec, NulFree;
    NamesIn(db, group, prefix, v);
    if i :| 0 <= i < |db| && Listed(db[i].key, group, prefix) == Some(v) {
      ListedFree(db[i].key, group, prefix);
    }
    if !NulFree(v) {
      return;
    }
    var rec := if group.Some? then KeyRec(group.value, Some(v)) else KeyRec(v, None);
    if i :| 0 <= i < |db| && Listed(db[i].key, group, prefix) == Some(v) {
      ListedIs(db[i].key, group, prefix, v);
      FindAt(db, i);
    }
    var j := Find(db, rec);
    if j >= 0 {
      ListedIs(db[j].key, group, prefix, v);
    }
  }

  lemma ListedOnce(db: Db, group: Option<string>, prefix: Option<string>, v: string)
    requires Good(db) && Canonical(db) && db != [] && Listed(db[0].key, group, prefix) == Some(v)
    ensures v !in Names(db[1..], group, prefix)
  {
    ListedFree(db[0].key, group, prefix);
    hide Listed, Names;
    var rest := db[1..];
    NamesIn(rest, group, prefix, v);
    if i :| 0 <= i < |rest| && Listed(rest[i].key, group, prefix) == Some(v) {
      ListedIs(db[0].key, group, prefix, v);
      ListedIs(db[i + 1].key, group, prefix, v);
      assert false;
    }
  }

  ghost predicate Once(s: seq<string>) {
    forall i, j :: 0 <= i < j < |s| ==> s[i] != s[j]
  }

  lemma OnceNone()
    ensures Once([])
  {
  }

  lemma OncePush(v: string, s: seq<string>)
    requires Once(s) && v !in s
    ensures Once([v] + s)
  {
  }

  lemma {:induction false} NamesOnce(db: Db, group: Option<string>, prefix: Option<string>)
    requires Good(db) && Canonical(db)
    ensures Once(Names(db, group, prefix))
  {
    hide Listed, IsKeyRec, Once;
    if db == [] {
      OnceNone();
    } else {
      NamesOnce(db[1..], group, prefix);
      var v := Listed(db[0].key, group, prefix);
      if v.Some? {
        ListedOnce(db, group, prefix, v.value);
        OncePush(v.value, Names(db[1..], group, prefix));
      } else {
        assert Names(db, group, prefix) == Names(db[1..], group, prefix);
      }
    }
  }

  lemma {:induction false} NamesSnoc(db: Db, x: Item<string, string, Valrec>, group: Option<string>, prefix: Option<string>)
    ensures Names(db + [x], group, prefix) ==
      Names(db, group, prefix) + AsSeq(Listed(x.key, group, prefix))
  {
    hide Listed;
    if db == [] {
      assert db + [x] == [x] && [x][1..] == [];
    } else {
      assert (db + [x])[1..] == db[1..] + [x];
      NamesSnoc(db[1..], x, group, prefix);
      assert (db + [x])[0] == db[0];
    }
  }

  lemma {:induction false} NamesPrefix(db: Db, i: nat, group: Option<string>, prefix: Option<string>)
    requires i <= |db|
    ensures |Names(db[..i], group, prefix)| <= |Names(db, group, prefix)|
    decreases |db| - i
  {
    if i == |db| {
      assert db[..i] == db;
    } else {
      assert db[..i + 1] == db[..i] + [db[i]];
      NamesSnoc(db[..i], db[i], group, prefix);
      NamesPrefix(db, i + 1, group, prefix);
    }
  }

  ghost predicate Met(all: Db, group: string, k: nat)
    requires k <= |all|
  {
    exists j :: 0 <= j < k && CString(all[j].key) == CString(group)
  }

  /** Some record's group is taken for this one. */
  ghost predicate GroupStored(db: Db, group: string) {
    exists rec: string :: Value(db, rec).Some? && CString(rec) == CString(group)
  }

  lemma GroupFound(db: Db, group: string)
    requires Good(db)
    ensures GroupStored(db, group) <==> Met(db, group, |db|)
    ensures !Met(db, group, 0)
  {
    hide CString;
    if rec :| Value(db, rec).Some? && CString(rec) == CString(group) {
      var j := Find(db, rec);
      assert CString(db[j].key) == CString(group);
    }
    if j :| 0 <= j < |db| && CString(db[j].key) == CString(group) {
      FindAt(db, j);
      assert Value(db, db[j].key).Some?;
    }
  }

  // ---- stores ----

  function Digit(n: nat): char
    requires n < 10
  {
    "0123456789"[n]
  }

  function Digits(n: nat): (r: string)
    ensures r != [] && '-' !in r && '\0' !in r
  {
    if n < 10 then [Digit(n)] else Digits(n / 10) + [Digit(n % 10)]
  }

  /** printf's %d of a user id: from 2^31 on it comes out negative. */
  function Uid(uid: uint32): string {
    if uid < TWO32 / 2 then Digits(uid) else "-" + Digits(TWO32 - uid)
  }

  /** The store a layer lives in; a user layer has one per user. */
  function ResourceName(layer: Layer, uid: uint32): string {
    if layer.kind == User then layer.name + "-" + Uid(uid) else layer.name
  }

  lemma {:induction false} DigitsInjective(m: nat, n: nat)
    requires Digits(m) == Digits(n)
    ensures m == n
  {
    var s, t := Digits(m), Digits(n);
    assert Digit(m % 10) == s[|s| - 1] && Digit(n % 10) == t[|t| - 1];
    assert (|s| == 1 <==> m < 10) && (|t| == 1 <==> n < 10);
    if m >= 10 {
      assert Digits(m / 10) == s[..|s| - 1] && Digits(n / 10) == t[..|t| - 1];
      DigitsInjective(m / 10, n / 10);
    }
  }

  lemma DashInjective(s: string, m: nat, t: string, n: nat)
    requires s + "-" + Digits(m) == t + "-" + Digits(n)
    ensures s == t && m == n
  {
    hide Digits;
    var d, e, x := Digits(m), Digits(n), s + "-" + Digits(m);
    assert x[|s|] == '-' && x[|t|] == '-';
    assert forall i :: |s| < i < |x| ==> x[i] == d[i - |s| - 1] && x[i] != '-';
    assert forall i :: |t| < i < |x| ==> x[i] == e[i - |t| - 1] && x[i] != '-';
    assert s == x[..|s|] && t == x[..|t|] && d == x[|s| + 1..] && e == x[|t| + 1..];
    DigitsInjective(m, n);
  }

  /** A user store's name up to its last dash, and the number behind it. */
  function Parts(l: Layer, u: uint32): (string, nat) {
    if u < TWO32 / 2 then (l.name, u) else (l.name + "-", TWO32 - u)
  }

  lemma PartsOf(l: Layer, u: uint32)
    requires l.kind == User
    ensures ResourceName(l, u) == Parts(l, u).0 + "-" + Digits(Parts(l, u).1)
  {
    hide Digits;
    assert l.name + "-" + ("-" + Digits(if u < TWO32 / 2 then 0 else TWO32 - u))
        == l.name + "-" + "-" + Digits(if u < TWO32 / 2 then 0 else TWO32 - u);
  }

  /** Layer `l` for user `u` and layer `m` for user `v` are kept in one store: they are
      the same, or one is a system layer named like the other's store, or the sign of
      one user id is taken for the end of the other's name. */
  predicate Shares(l: Layer, u: uint32, m: Layer, v: uint32) {
    match (l.kind, m.kind)
    case (System, System) => l.name == m.name
    case (System, User) => l.name == m.name + "-" + Uid(v)
    case (User, System) => m.name == l.name + "-" + Uid(u)
    case (User, User) =>
      || (l.name == m.name && u == v)
      || (u > TWO32 / 2 && v == TWO32 - u && m.name == l.name + "-")
      || (v > TWO32 / 2 && u == TWO32 - v && l.name == m.name + "-")
  }

  lemma StoresShared(l: Layer, u: uint32, m: Layer, v: uint32)
    ensures ResourceName(l, u) == ResourceName(m, v) <==> Shares(l, u, m, v)
  {
    if l.kind == User && m.kind == User {
      UserStores(l, u, m, v);
    }
  }

  lemma UserStores(l: Layer, u: uint32, m: Layer, v: uint32)
    requires l.kind == User && m.kind == User
    ensures ResourceName(l, u) == ResourceName(m, v) <==> Shares(l, u, m, v)
  {
    hide ResourceName, Digits, Uid;
    var (s, a) := Parts(l, u);
    var (t, b) := Parts(m, v);
    PartsOf(l, u);
    PartsOf(m, v);
    if ResourceName(l, u) == ResourceName(m, v) {
      DashInjective(s, a, t, b);
      assert u >= TWO32 / 2 && v >= TWO32 / 2 ==> l.name == s[..|s| - 1] && m.name == t[..|t| - 1];
    }
  }

  /** A system layer and a user's layer in one store. */
  lemma SharedAcrossKinds(p: nat, r: bool)
    ensures ResourceName(Layer("base-1000", System, p, r), 0) == ResourceName(Layer("base", User, p, r), 1000)
    ensures ResourceName(Layer("a-", User, p, r), 5) == ResourceName(Layer("a", User, p, r), 4294967291)
  {
    assert Digits(10) == "10" && Digits(100) == "100" && Digits(1000) == "1000";
    assert "base-1000" == "base" + "-" + "1000";
    StoresShared(Layer("a-", User, p, r), 5, Layer("a", User, p, r), 4294967291);
  }

  /** Where no layer's name has a dash, a store belongs to one layer, and to one user
      unless it is a system layer's. */
  lemma DashlessStores(l: Layer, u: uint32, m: Layer, v: uint32)
    requires '-' !in l.name && '-' !in m.name
    ensures Shares(l, u, m, v) <==> l.kind == m.kind && l.name == m.name && (l.kind == System || u == v)
  {
    var a, b := m.name + "-" + Uid(v), l.name + "-" + Uid(u);
    assert a[|m.name|] == '-' && b[|l.name|] == '-';
    assert (m.name + "-")[|m.name|] == '-' && (l.name + "-")[|l.name|] == '-';
  }

  type Stores = map<string, Db>

  /** A store that does not exist is an empty one. */
  function Contents(stores: Stores, r: string): Db {
    if r in stores then stores[r] else []
  }

  ghost predicate Same(a: Stores, b: Stores) {
    forall r :: Contents(a, r) == Contents(b, r)
  }

  ghost predicate AllGood(stores: Stores) {
    forall r :: Good(Contents(stores, r))
  }

  lemma StoreInto(before: Stores, now: Stores, name: string, db: Db)
    requires Same(now, before) && AllGood(before) && Good(db)
    ensures Same(now[name := db], before[name := db]) && AllGood(now[name := db])
  {
    var a, b := now[name := db], before[name := db];
    forall r ensures Contents(a, r) == Contents(b, r) && Good(Contents(a, r)) {
      assert Contents(now, r) == Contents(before, r);
    }
  }

  lemma StoreSame(before: Stores, now: Stores, name: string)
    requires Same(now, before)
    ensures Same(now, before[name := Contents(before, name)])
  {
    forall r ensures Contents(now, r) == Contents(before[name := Contents(before, name)], r) {
      assert Contents(now, r) == Contents(before, r);
    }
  }

  datatype Answer = Found(rec: Valrec) | Failed(code: int)

  /** get_value on a store: the key's type must be the value's, or unset. */
  function Got(db: Db, key: Key): Answer {
    match Record(db, key.group, key.name)
    case None => Failed(ENOENT)
    case Some(v) => if TypeOf(v.data) != key.kind && key.kind != TYPE_UNSET then Failed(EINVAL) else Found(v)
  }

  /** unset_value on a store: one key, or a group with all its keys. */
  function Unset(db: Db, key: Key): Db {
    if key.name.Some? then Remove(db, KeyRec(key.group, key.name)) else Filter(Outside(key.group), db)
  }

  ghost predicate Unsettable(db: Db, key: Key) {
    if key.name.Some? then Record(db, key.group, key.name).Some?
    else GroupStored(db, key.group)
  }

  lemma UnsetGood(db: Db, key: Key)
    requires Good(db)
    ensures Good(Unset(db, key))
  {
    if key.name.Some? {
      RemoveGood(db, KeyRec(key.group, key.name));
    } else {
      GroupGone(db, key.group, "");
    }
  }

  /** One entry further: `kept` is what is left of the entries passed. */
  lemma RemoveStep(all: Db, group: string, kept: Db, k: nat, db: Db)
    requires k < |all| && kept == Filter(Outside(group), all[..k]) && db == kept + all[k..]
    ensures db[|kept|] == all[k]
    ensures Met(all, group, k + 1) <==> Met(all, group, k) || CString(all[k].key) == CString(group)
    ensures var kept' := Filter(Outside(group), all[..k + 1]);
      if CString(all[k].key) == CString(group) then kept' == kept && Drop(db, |kept|) == kept' + all[k + 1..]
      else kept' == kept + [all[k]] && db == kept' + all[k + 1..]
  {
    hide CString, Filter, Met;
    MetStep(all, group, k);
    var rest := all[k + 1..];
    assert all[..k + 1] == all[..k] + [all[k]];
    FilterSnoc(Outside(group), all[..k], all[k]);
    assert db == kept + ([all[k]] + rest) by { assert all[k..] == [all[k]] + rest; }
    assert Drop(db, |kept|) == kept + rest && db == kept + [all[k]] + rest;
  }

  lemma MetStep(all: Db, group: string, k: nat)
    requires k < |all|
    ensures Met(all, group, k + 1) <==> Met(all, group, k) || CString(all[k].key) == CString(group)
  {
    hide CString;
  }

  lemma UnsetNothing(db: Db, key: Key)
    requires Good(db) && !Unsettable(db, key)
    ensures Unset(db, key) == db
  {
    if key.name.None? {
      GroupFound(db, key.group);
      FilterAll(Outside(key.group), db);
    }
  }

  /** The loop of unset_group. Removing the current entry leaves the iteration at the
      one after it. */
  method RemoveGroup(all: Db, group: string) returns (db: Db, found: bool)
    requires Good(all)
    ensures db == Filter(Outside(group), all)
    ensures found <==> GroupStored(all, group)
  {
    hide Good, CString, Met;
    db, found := all, false;
    var i := 0;
    ghost var k, kept := 0, Filter(Outside(group), all[..0]);
    GroupFound(all, group);
    while i < |db|
      invariant 0 <= k <= |all| && i == |kept|
      invariant kept == Filter(Outside(group), all[..k]) && db == kept + all[k..]
      invariant found <==> Met(all, group, k)
      decreases |all| - k
    {
      RemoveStep(all, group, kept, k, db);
      if CString(db[i].key) == CString(group) {
        db := Drop(db, i);
        found := true;
      } else {
        kept := kept + [all[k]];
        i := i + 1;
      }
      k := k + 1;
    }
    assert all[..k] == all;
  }

  /** What the loop of list_names takes from one record key. */
  method ListedName(rec: string, group: Option<string>, prefix: Option<string>) returns (value: Option<string>)
    requires IsKeyRec(rec)  // asserted by the source
    ensures value == Listed(rec, group, prefix)
  {
    value := None;
    var gname := CString(rec);
    var glen := |gname| + 1;
    if |rec| > glen {
      if group.Some? && glen == |group.value| + 1 && gname == CString(group.value) {
        CStringIs(group.value);
        value := Some(CString(rec[glen..]));
      }
    } else if group.None? {
      value := Some(gname);
    }
    if group.Some? {
      CStringIs(group.value);
    }
    if value.Some? && prefix.Some? && !Begins(value.value, prefix.value) {
      value := None;
    }
  }

  class MemoryBackend {
    var resources: Stores

    constructor ()
      ensures resources == map[]
    {
      resources := map[];
    }

    /** _db_for_resource: a store is made when first asked for. */
    method DbForResource(layer: Layer, uid: uint32) returns (name: string, db: Db)
      requires AllGood(resources)
      modifies this
      ensures AllGood(resources) && Same(resources, old(resources))
      ensures name == ResourceName(layer, uid) && name in resources
      ensures db == resources[name] == Contents(old(resources), name) && Good(db)
    {
      hide Good, ResourceName;
      name := ResourceName(layer, uid);
      if name !in resources {
        resources := resources[name := []];
      }
      db := resources[name];
      assert Good(Contents(old(resources), name));
      assert forall r :: Contents(resources, r) == Contents(old(resources), r);
    }

    method SetValue(layer: Layer, uid: uint32, key: Key, data: Option<Data>, tag: string) returns (ret: int)
      requires AllGood(resources) && (data.Some? ==> !data.value.Untyped?)
      modifies this
      ensures AllGood(resources) && (ret != 0 ==> Same(resources, old(resources)))
      ensures var r, rec := ResourceName(layer, uid), KeyRec(key.group, key.name);
        var db := Contents(old(resources), r);
        && ret == (if data.None? && Value(db, rec).None? then ENOENT else 0)
        && Same(resources, old(resources)[r := Written(db, rec, data, tag)])
    {
      hide Good, AllGood, Same, ResourceName;
      var name, db := DbForResource(layer, uid);
      var keyrec := KeyRec(key.group, key.name);
      WrittenLaw(db, keyrec, data, tag, keyrec);
      StoreInto(old(resources), resources, name, Written(db, keyrec, data, tag));
      StoreSame(old(resources), resources, name);
      var i := Find(db, keyrec);
      if i >= 0 {
        var valrec := db[i].value;
        if data.Some? {
          valrec := valrec.(data := data.value);
        }
        valrec := valrec.(tag := tag);
        resources := resources[name := db[i := db[i].(value := valrec)]];
      } else {
        if data.None? {
          return ENOENT;
        }
        resources := resources[name := db + [Item(keyrec, keyrec, Valrec(data.value, tag))]];
      }
      ret := 0;
    }

    method GetValue(layer: Layer, uid: uint32, key: Key) returns (answer: Answer)
      requires AllGood(resources)
      modifies this
      ensures AllGood(resources) && Same(resources, old(resources))
      ensures answer == Got(Contents(old(resources), ResourceName(layer, uid)), key)
    {
      var name, db := DbForResource(layer, uid);
      var i := Find(db, KeyRec(key.group, key.name));
      if i < 0 {
        return Failed(ENOENT);
      }
      var valrec := db[i].value;
      if TypeOf(valrec.data) != key.kind && key.kind != TYPE_UNSET {
        return Failed(EINVAL);
      }
      answer := Found(valrec);
    }

    method UnsetKey(layer: Layer, uid: uint32, key: Key) returns (ret: int)
      requires AllGood(resources) && key.name.Some?
      modifies this
      ensures AllGood(resources) && (ret != 0 ==> Same(resources, old(resources)))
      ensures var r := ResourceName(layer, uid);
        var db := Contents(old(resources), r);
        && ret == (if Unsettable(db, key) then 0 else ENOENT)
        && Same(resources, old(resources)[r := Unset(db, key)])
    {
      hide Good, AllGood, Same, ResourceName;
      var name, db := DbForResource(layer, uid);
      UnsetGood(db, key);
      StoreInto(old(resources), resources, name, Unset(db, key));
      StoreSame(old(resources), resources, name);
      var i := Find(db, KeyRec(key.group, key.name));
      if i < 0 {
        return ENOENT;
      }
      resources := resources[name := Drop(db, i)];
      ret := 0;
    }

    method UnsetGroup(layer: Layer, uid: uint32, key: Key) returns (ret: int)
      requires AllGood(resources) && key.name.None?
      modifies this
      ensures AllGood(resources) && (ret != 0 ==> Same(resources, old(resources)))
      ensures var r := ResourceName(layer, uid);
        var db := Contents(old(resources), r);
        && ret == (if Unsettable(db, key) then 0 else ENOENT)
        && Same(resources, old(resources)[r := Unset(db, key)])
    {
      hide Good, AllGood, Same, ResourceName, CString, KeyRec;
      var name, all := DbForResource(layer, uid);
      UnsetGood(all, key);
      StoreInto(old(resources), resources, name, Unset(all, key));
      var db, found := RemoveGroup(all, key.group);
      if !found {
        UnsetNothing(all, key);
        assert resources[name := db] == resources;
      }
      resources := resources[name := db];
      ret := if found then 0 else ENOENT;
    }

    method UnsetValue(layer: Layer, uid: uint32, key: Key) returns (ret: int)
      requires AllGood(resources)
      modifies this
      ensures AllGood(resources) && (ret != 0 ==> Same(resources, old(resources)))
      ensures var r := ResourceName(layer, uid);
        var db := Contents(old(resources), r);
        && ret == (if Unsettable(db, key) then 0 else ENOENT)
        && Same(resources, old(resources)[r := Unset(db, key)])
    {
      if key.name.Some? {
        ret := UnsetKey(layer, uid, key);
      } else {
        ret := UnsetGroup(layer, uid, key);
      }
    }

    /** Fails exactly when there are more names than an array can hold. */
    method ListNames(layer: Layer, uid: uint32, group: Option<string>, prefix: Option<string>)
      returns (ok: bool, list: seq<string>)
      requires AllGood(resources)
      requires Canonical(Contents(resources, ResourceName(layer, uid)))  // asserted by the source
      modifies this
      ensures AllGood(resources) && Same(resources, old(resources))
      ensures var names := Names(Contents(old(resources), ResourceName(layer, uid)), group, prefix);
        && (ok <==> |names| < 0x1_0000)
        && (ok ==> list == names)
    {
      hide Good, AllGood, Same, ResourceName, Listed, IsKeyRec;
      var _, db := DbForResource(layer, uid);
      ok, list := false, [];
      assert db[..0] == [] && Names(db[..0], group, prefix) == [];
      var i := 0;
      while i < |db|
        modifies {}
        invariant 0 <= i <= |db| && list == Names(db[..i], group, prefix) && |list| < 0x1_0000
      {
        var rec := db[i].key;
        assert db[..i + 1] == db[..i] + [db[i]];
        NamesSnoc(db[..i], db[i], group, prefix);
        NamesPrefix(db, i + 1, group, prefix);
        var value := ListedName(rec, group, prefix);
        if value.Some? {
          if |list| + 1 == 0x1_0000 {
            return;
          }
          list := list + [value.value];
        }
        i := i + 1;
      }
      assert db[..i] == db;
      ok := true;
    }
  }
}
