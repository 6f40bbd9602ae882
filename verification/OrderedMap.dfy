/** The abstract value of a buxton hash map (src/shared/hashmap.c): its entries
    in insertion order. `id` is the comparison class of the key, so two keys
    compare equal exactly when their ids are the same; `key` is the key pointer
    the entry stores. Each function is one map operation on that value; the
    lemmas say what the operations mean for look-ups and for the order. */
module OrderedMap {
  import opened Basics

  datatype Item<C, K, V> = Item(id: C, key: K, value: V)

  ghost predicate Distinct<C, K, V>(m: seq<Item<C, K, V>>) {
    forall i, j :: 0 <= i < j < |m| ==> m[i].id != m[j].id
  }

  /** The position of `id`, or -1. */
  function Find<C(==), K, V>(m: seq<Item<C, K, V>>, id: C): (r: int)
    ensures -1 <= r < |m|
    ensures r >= 0 ==> m[r].id == id
    ensures forall j :: 0 <= j < |m| && m[j].id == id ==> 0 <= r <= j
  {
    if m == [] then -1
    else if m[0].id == id then 0
    else
      var r := Find(m[1..], id);
      assert forall j :: 1 <= j < |m| ==> m[j] == m[1..][j - 1];
      if r < 0 then -1 else r + 1
  }

  function Value<C(==), K, V>(m: seq<Item<C, K, V>>, id: C): Option<V> {
    var i := Find(m, id);
    if i < 0 then None else Some(m[i].value)
  }

  /** The whole entry, with the key pointer it stores. */
  function Entry<C(==), K, V>(m: seq<Item<C, K, V>>, id: C): Option<Item<C, K, V>> {
    var i := Find(m, id);
    if i < 0 then None else Some(m[i])
  }

  function Put<C(==), K, V>(m: seq<Item<C, K, V>>, item: Item<C, K, V>): seq<Item<C, K, V>> {
    if Find(m, item.id) >= 0 then m else m + [item]
  }

  function Replace<C(==), K, V>(m: seq<Item<C, K, V>>, item: Item<C, K, V>): seq<Item<C, K, V>> {
    var i := Find(m, item.id);
    if i >= 0 then m[i := item] else m + [item]
  }

  function Update<C(==), K, V>(m: seq<Item<C, K, V>>, id: C, value: V): seq<Item<C, K, V>> {
    var i := Find(m, id);
    if i >= 0 then m[i := m[i].(value := value)] else m
  }

  function Remove<C(==), K, V>(m: seq<Item<C, K, V>>, id: C): seq<Item<C, K, V>> {
    var i := Find(m, id);
    if i >= 0 then Drop(m, i) else m
  }

  function RemoveAndPut<C(==), K, V>(m: seq<Item<C, K, V>>, oldId: C, item: Item<C, K, V>): seq<Item<C, K, V>> {
    if Find(m, oldId) < 0 || Find(m, item.id) >= 0 then m else Remove(m, oldId) + [item]
  }

  function RemoveAndReplace<C(==), K, V>(m: seq<Item<C, K, V>>, oldId: C, item: Item<C, K, V>): seq<Item<C, K, V>> {
    if Find(m, oldId) < 0 then m else Remove(Remove(m, item.id), oldId) + [item]
  }

  function Filter<C, K, V>(p: Item<C, K, V> -> bool, m: seq<Item<C, K, V>>): (r: seq<Item<C, K, V>>)
    ensures |r| <= |m|
    ensures forall i :: 0 <= i < |r| ==> r[i] in m && p(r[i])
    ensures forall i :: 0 <= i < |m| && p(m[i]) ==> m[i] in r
  {
    if m == [] then []
    else if p(m[0]) then [m[0]] + Filter(p, m[1..])
    else Filter(p, m[1..])
  }

  /** What hashmap_move and hashmap_merge bring over from `other`: its entries
      whose key `m` lacks, in their order. */
  function Missing<C(==), K, V>(m: seq<Item<C, K, V>>, other: seq<Item<C, K, V>>): seq<Item<C, K, V>> {
    Filter((x: Item<C, K, V>) => Find(m, x.id) < 0, other)
  }

  function Shared<C(==), K, V>(m: seq<Item<C, K, V>>, other: seq<Item<C, K, V>>): seq<Item<C, K, V>> {
    Filter((x: Item<C, K, V>) => Find(m, x.id) >= 0, other)
  }

  // ---- laws ----

  lemma FindAt<C, K, V>(m: seq<Item<C, K, V>>, i: nat)
    requires Distinct(m) && i < |m|
    ensures Find(m, m[i].id) == i
  {
    var r := Find(m, m[i].id);
    assert m[r].id == m[i].id;
  }

  lemma FindWithout<C, K, V>(m: seq<Item<C, K, V>>, i: nat, id: C)
    requires Distinct(m) && i < |m|
    ensures Distinct(Drop(m, i))
    ensures Find(Drop(m, i), id) ==
      var r := Find(m, id);
      if r == i then -1 else if r < i then r else r - 1
  {
    hide Find;
    var w, r := Drop(m, i), Find(m, id);
    forall j | 0 <= j < |w| ensures w[j] == m[if j < i then j else j + 1] {}
    if r >= 0 && r != i {
      FindAt(w, if r < i then r else r - 1);
    }
  }

  lemma FindAppend<C, K, V>(m: seq<Item<C, K, V>>, f: seq<Item<C, K, V>>, id: C)
    ensures Find(m + f, id) ==
      if Find(m, id) >= 0 then Find(m, id) else if Find(f, id) >= 0 then |m| + Find(f, id) else -1
  {
    var s, i, j, r := m + f, Find(m, id), Find(f, id), Find(m + f, id);
    if i >= 0 {
      assert s[i] == m[i];
    } else if j >= 0 {
      assert s[|m| + j] == f[j];
    }
    if r >= |m| {
      assert s[r] == f[r - |m|];
    } else if r >= 0 {
      assert s[r] == m[r];
    }
  }

  lemma FindSnoc<C, K, V>(m: seq<Item<C, K, V>>, item: Item<C, K, V>, id: C)
    ensures Find(m + [item], id) ==
      if Find(m, id) >= 0 then Find(m, id) else if id == item.id then |m| else -1
  {
    FindAppend(m, [item], id);
  }

  /** put adds a missing key at the end and leaves an existing one alone. */
  lemma PutLaw<C, K, V>(m: seq<Item<C, K, V>>, item: Item<C, K, V>, id: C)
    requires Distinct(m)
    ensures Distinct(Put(m, item)) && m <= Put(m, item)
    ensures Value(Put(m, item), id) ==
      if id == item.id && Value(m, id) == None then Some(item.value) else Value(m, id)
    ensures Entry(Put(m, item), id) == if id == item.id && Value(m, id) == None then Some(item) else Entry(m, id)
  {
    FindSnoc(m, item, id);
  }

  /** replace makes the key hold the value, wherever it stood, and moves nothing. */
  lemma ReplaceLaw<C, K, V>(m: seq<Item<C, K, V>>, item: Item<C, K, V>, id: C)
    requires Distinct(m)
    ensures Distinct(Replace(m, item))
    ensures Value(Replace(m, item), id) == if id == item.id then Some(item.value) else Value(m, id)
    ensures Entry(Replace(m, item), id) == if id == item.id then Some(item) else Entry(m, id)
    ensures forall j :: 0 <= j < |m| ==> Replace(m, item)[j].id == m[j].id
  {
    var i, m' := Find(m, item.id), Replace(m, item);
    if i < 0 {
      FindSnoc(m, item, id);
    } else {
      FindSameIds(m, m', id);
    }
  }

  lemma FindSameIds<C, K, V>(m: seq<Item<C, K, V>>, n: seq<Item<C, K, V>>, id: C)
    requires |m| == |n| && forall j :: 0 <= j < |m| ==> m[j].id == n[j].id
    ensures Find(m, id) == Find(n, id)
  {
    var r, s := Find(m, id), Find(n, id);
    if r >= 0 { assert n[r].id == id; }
    if s >= 0 { assert m[s].id == id; }
  }

  lemma UpdateLaw<C, K, V>(m: seq<Item<C, K, V>>, key: C, value: V, id: C)
    requires Distinct(m)
    ensures Distinct(Update(m, key, value)) && |Update(m, key, value)| == |m|
    ensures Value(Update(m, key, value), id) ==
      if id == key && Value(m, id) != None then Some(value) else Value(m, id)
    ensures Entry(Update(m, key, value), id) ==
      match Entry(m, id)
      case Some(x) => Some(if id == key then Item(x.id, x.key, value) else x)
      case None => None
  {
    if Find(m, key) >= 0 {
      FindSameIds(m, Update(m, key, value), id);
    }
  }

  lemma RemoveLaw<C, K, V>(m: seq<Item<C, K, V>>, key: C, id: C)
    requires Distinct(m)
    ensures Distinct(Remove(m, key))
    ensures Value(Remove(m, key), id) == if id == key then None else Value(m, id)
    ensures Entry(Remove(m, key), id) == if id == key then None else Entry(m, id)
  {
    var i := Find(m, key);
    if i >= 0 {
      FindWithout(m, i, id);
      if Find(m, id) == i {
        assert m[i].id == id;
      }
    }
  }

  function NotOf<C(==), K, V>(key: C): Item<C, K, V> -> bool {
    (x: Item<C, K, V>) => x.id != key
  }

  /** remove takes out that entry and keeps the order of the others. */
  lemma {:induction false} RemoveOrder<C, K, V>(m: seq<Item<C, K, V>>, key: C)
    requires Distinct(m)
    ensures Remove(m, key) == Filter(NotOf(key), m)
  {
    if m == [] {
    } else if m[0].id == key {
      FilterAll(NotOf(key), m[1..]);
    } else {
      var i, rest := Find(m, key), m[1..];
      RemoveOrder(rest, key);
      assert i == if Find(rest, key) < 0 then -1 else Find(rest, key) + 1;
      assert Filter(NotOf(key), m) == [m[0]] + Filter(NotOf(key), rest);
      if i >= 0 {
        DropRest(m, i);
      } else {
        assert m == [m[0]] + rest;
      }
    }
  }

  lemma DropRest<T>(m: seq<T>, i: nat)
    requires 0 < i < |m|
    ensures Drop(m, i) == [m[0]] + Drop(m[1..], i - 1)
  {
  }

  lemma {:induction false} FilterAll<C, K, V>(p: Item<C, K, V> -> bool, m: seq<Item<C, K, V>>)
    requires forall i :: 0 <= i < |m| ==> p(m[i])
    ensures Filter(p, m) == m
  {
    if m != [] {
      FilterAll(p, m[1..]);
      assert m == [m[0]] + m[1..];
    }
  }

  /** remove_and_put renames an entry; it is the last one afterwards. */
  lemma RemoveAndPutLaw<C, K, V>(m: seq<Item<C, K, V>>, oldId: C, item: Item<C, K, V>, id: C)
    requires Distinct(m) && Value(m, oldId) != None && Value(m, item.id) == None
    ensures Distinct(RemoveAndPut(m, oldId, item))
    ensures Value(RemoveAndPut(m, oldId, item), id) ==
      if id == item.id then Some(item.value) else if id == oldId then None else Value(m, id)
    ensures Entry(RemoveAndPut(m, oldId, item), id) ==
      if id == item.id then Some(item) else if id == oldId then None else Entry(m, id)
  {
    RemoveLaw(m, oldId, id);
    RemoveLaw(m, oldId, item.id);
    FindSnoc(Remove(m, oldId), item, id);
  }

  /** remove_and_replace does so even when the new key is taken: the victim goes. */
  lemma RemoveAndReplaceLaw<C, K, V>(m: seq<Item<C, K, V>>, oldId: C, item: Item<C, K, V>, id: C)
    requires Distinct(m) && Value(m, oldId) != None
    ensures Distinct(RemoveAndReplace(m, oldId, item))
    ensures Value(RemoveAndReplace(m, oldId, item), id) ==
      if id == item.id then Some(item.value) else if id == oldId then None else Value(m, id)
    ensures Entry(RemoveAndReplace(m, oldId, item), id) ==
      if id == item.id then Some(item) else if id == oldId then None else Entry(m, id)
    ensures |RemoveAndReplace(m, oldId, item)| ==
      |m| - if item.id != oldId && Value(m, item.id) != None then 1 else 0
  {
    var w := Remove(m, item.id);
    RemoveLaw(m, item.id, id);
    RemoveLaw(m, item.id, oldId);
    RemoveLaw(w, oldId, id);
    RemoveLaw(m, item.id, item.id);
    RemoveLaw(w, oldId, item.id);
    FindSnoc(Remove(w, oldId), item, id);
  }

  /** The two steps of remove_and_replace: drop the victim if it is another
      entry, then move the entry to the tail under its new key. */
  lemma ReplaceSteps<C, K, V>(m: seq<Item<C, K, V>>, oldId: C, item: Item<C, K, V>)
    requires Distinct(m) && Find(m, oldId) >= 0
    ensures var i, j := Find(m, oldId), Find(m, item.id);
      if j >= 0 && j != i then
        var i' := if i < j then i else i - 1;
        && Find(Drop(Drop(m, j), i'), item.id) < 0
        && RemoveAndReplace(m, oldId, item) == Drop(Drop(m, j), i') + [item]
      else
        && Find(Drop(m, i), item.id) < 0
        && RemoveAndReplace(m, oldId, item) == Drop(m, i) + [item]
  {
    var i, j := Find(m, oldId), Find(m, item.id);
    FindWithout(m, i, item.id);
    if j >= 0 {
      FindWithout(m, j, oldId);
      FindWithout(m, j, item.id);
      if j != i {
        FindWithout(Drop(m, j), if i < j then i else i - 1, item.id);
      }
    }
  }

  lemma {:induction false} FilterSnoc<C, K, V>(p: Item<C, K, V> -> bool, m: seq<Item<C, K, V>>, x: Item<C, K, V>)
    ensures Filter(p, m + [x]) == Filter(p, m) + if p(x) then [x] else []
  {
    if m != [] {
      assert (m + [x])[1..] == m[1..] + [x];
      FilterSnoc(p, m[1..], x);
    }
  }

  lemma {:induction false} FilterDistinct<C, K, V>(p: Item<C, K, V> -> bool, m: seq<Item<C, K, V>>)
    requires Distinct(m)
    ensures Distinct(Filter(p, m))
  {
    if m != [] {
      FilterDistinct(p, m[1..]);
      var r := Filter(p, m[1..]);
      forall j | 0 <= j < |r| ensures r[j].id != m[0].id {
        assert r[j] in m[1..];
      }
    }
  }

  /** Merging keeps every entry of `m` and takes the others from `other`. */
  lemma MergeLaw<C, K, V>(m: seq<Item<C, K, V>>, other: seq<Item<C, K, V>>, id: C)
    requires Distinct(m) && Distinct(other)
    ensures Distinct(m + Missing(m, other))
    ensures Value(m + Missing(m, other), id) == if Value(m, id) != None then Value(m, id) else Value(other, id)
    ensures Entry(m + Missing(m, other), id) == if Value(m, id) != None then Entry(m, id) else Entry(other, id)
  {
    var p := (x: Item<C, K, V>) => Find(m, x.id) < 0;
    var f := Filter(p, other);
    FilterDistinct(p, other);
    FindAppend(m, f, id);
    forall i, j | 0 <= i < |m| && 0 <= j < |f| ensures m[i].id != f[j].id {
      assert p(f[j]);
    }
    var j, k := Find(f, id), Find(other, id);
    if j >= 0 {
      assert f[j] in other;
    }
    if k >= 0 && Find(m, id) < 0 {
      assert p(other[k]) && other[k] in f;
    }
  }
}
