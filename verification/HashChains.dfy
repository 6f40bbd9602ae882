/** The pointer structure of a buxton hash map (src/shared/hashmap.c): the entries,
    the doubly linked chains of the bucket table, and the doubly linked iteration
    list. Ghost sequences say which entries stand where. */
module HashChains {
  import opened Basics
  import opened OrderedMap

  type Ptr = nat

  /** The map's compare and hash functions: keys compare equal when they are of one
      class, and the hash depends on the class only. */
  datatype KeyOps = KeyOps(cls: Ptr -> nat, hash: nat -> nat)
  type Entries = seq<Item<nat, Ptr, Ptr>>

  /** The bucket of a key. */
  function SlotOf(ops: KeyOps, id: nat, n: nat): (r: nat)
    requires n > 0
    ensures r < n
  {
    ops.hash(id) % n
  }

  const INITIAL_N_BUCKETS: nat := 31

  class Entry {
    var key: Ptr
    var value: Ptr
    var bucketNext: Entry?
    var bucketPrevious: Entry?
    var iterateNext: Entry?
    var iteratePrevious: Entry?
    ghost var slot: nat  // its bucket

    constructor (k: Ptr, v: Ptr)
      ensures key == k && value == v
    {
      key, value := k, v;
    }
  }

  ghost function At(c: seq<Entry>, i: int): Entry? {
    if 0 <= i < |c| then c[i] else null
  }

  ghost predicate NoDup(c: seq<Entry>) {
    forall i, j :: 0 <= i < j < |c| ==> c[i] != c[j]
  }

  ghost function Members(c: seq<Entry>): set<Entry> {
    set i | 0 <= i < |c| :: c[i]
  }

  // ---- bucket chains ----

  /** Entry `i` of a chain in bucket `b` points to its neighbours. */
  ghost predicate Node(c: seq<Entry>, i: nat, b: nat)
    requires i < |c|
    reads c`slot, c`bucketNext, c`bucketPrevious
  {
    c[i].slot == b && c[i].bucketNext == At(c, i + 1) && c[i].bucketPrevious == At(c, i - 1)
  }

  /** The doubly linked list that starts in a bucket's slot. */
  ghost predicate Chain(c: seq<Entry>, b: nat, head: Entry?)
    reads c`slot, c`bucketNext, c`bucketPrevious
  {
    && head == At(c, 0)
    && NoDup(c)
    && forall i {:trigger Node(c, i, b)} :: 0 <= i < |c| ==> Node(c, i, b)
  }

  ghost predicate Within(cs: seq<seq<Entry>>, es: set<Entry>) {
    forall b, i :: 0 <= b < |cs| && 0 <= i < |cs[b]| ==> cs[b][i] in es
  }

  /** Every bucket of the table `t` starts a chain of entries from `es`. */
  ghost predicate Chained(cs: seq<seq<Entry>>, t: array<Entry?>, es: set<Entry>)
    reads t, es`slot, es`bucketNext, es`bucketPrevious
  {
    && |cs| == t.Length
    && Within(cs, es)
    && forall b {:trigger Chain(cs[b], b, t[b])} :: 0 <= b < |cs| ==> Chain(cs[b], b, t[b])
  }

  lemma DropWithin(cs: seq<seq<Entry>>, x: nat, k: nat, es: set<Entry>, e: Entry)
    requires Within(cs, es) && x < |cs| && k < |cs[x]| && cs[x][k] == e && NoDup(cs[x])
    requires forall b, i :: 0 <= b < |cs| && b != x && 0 <= i < |cs[b]| ==> cs[b][i] != e
    ensures Within(cs[x := Drop(cs[x], k)], es - {e})
  {
    var cs' := cs[x := Drop(cs[x], k)];
    forall b, i | 0 <= b < |cs'| && 0 <= i < |cs'[b]| ensures cs'[b][i] in es - {e} {
      if b == x {
        assert cs'[x][i] == cs[x][if i < k then i else i + 1];
      }
    }
  }

  method DropBucket(t: array<Entry?>, e: Entry, x: nat, ghost cs: seq<seq<Entry>>, ghost k: nat, ghost es: set<Entry>)
    requires Chained(cs, t, es) && x < t.Length && k < |cs[x]| && cs[x][k] == e
    modifies t, es`bucketPrevious, es`bucketNext
    ensures e.bucketNext == old(e.bucketNext)
    ensures Chained(cs[x := Drop(cs[x], k)], t, es - {e})
  {
    ghost var c := cs[x];
    assert Chain(c, x, t[x]);
    assert Node(c, k, x);
    assert k > 0 ==> Node(c, k - 1, x);
    assert k + 1 < |c| ==> Node(c, k + 1, x);
    if e.bucketNext != null {
      e.bucketNext.bucketPrevious := e.bucketPrevious;
    }
    if e.bucketPrevious != null {
      e.bucketPrevious.bucketNext := e.bucketNext;
    } else {
      t[x] := e.bucketNext;
    }
    ghost var c' := Drop(c, k);
    forall b, i | 0 <= b < |cs| && b != x && 0 <= i < |cs[b]| ensures cs[b][i] != e {
      assert old(Chain(cs[b], b, t[b]));
      assert old(Node(cs[b], i, b));
    }
    DropWithin(cs, x, k, es, e);
    forall i | 0 <= i < |c'| ensures Node(c', i, x) {
      var j := if i < k then i else i + 1;
      assert c'[i] == c[j];
      assert old(Node(c, j, x));
    }
    forall b | 0 <= b < |cs| && b != x ensures Chain(cs[b], b, t[b]) {
      assert old(Chain(cs[b], b, t[b]));
      forall i | 0 <= i < |cs[b]| ensures Node(cs[b], i, b) {
        assert old(Node(cs[b], i, b));
      }
    }
  }

  method PushBucket(t: array<Entry?>, e: Entry, x: nat, ghost cs: seq<seq<Entry>>, ghost es: set<Entry>)
    requires Chained(cs, t, es) && x < t.Length && e !in es
    modifies t, e`bucketNext, e`bucketPrevious, e`slot, es`bucketPrevious
    ensures Chained(cs[x := [e] + cs[x]], t, es + {e}) && e.slot == x
  {
    ghost var c := cs[x];
    assert Chain(c, x, t[x]);
    assert |c| > 0 ==> Node(c, 0, x) && cs[x][0] in es;
    e.bucketNext := t[x];
    e.bucketPrevious := null;
    if t[x] != null {
      t[x].bucketPrevious := e;
    }
    t[x] := e;
    e.slot := x;
    ghost var c' := [e] + c;
    forall i | 0 <= i < |c'| ensures Node(c', i, x) {
      assert i > 0 ==> old(Node(c, i - 1, x)) && c'[i] == c[i - 1];
    }
    forall b | 0 <= b < |cs| && b != x ensures Chain(cs[b], b, t[b]) {
      assert old(Chain(cs[b], b, t[b]));
      forall i | 0 <= i < |cs[b]| ensures Node(cs[b], i, b) {
        assert old(Node(cs[b], i, b));
      }
    }
  }

  // ---- the iteration list ----
  /** Entry `i` of the iteration list points to its neighbours. */
  ghost predicate Seated(c: seq<Entry>, i: nat)
    requires i < |c|
    reads c`iterateNext, c`iteratePrevious
  {
    c[i].iterateNext == At(c, i + 1) && c[i].iteratePrevious == At(c, i - 1)
  }

  /** The iteration list from head to tail. */
  ghost predicate Listed(c: seq<Entry>, head: Entry?, tail: Entry?)
    reads c`iterateNext, c`iteratePrevious
  {
    && head == At(c, 0)
    && tail == At(c, |c| - 1)
    && NoDup(c)
    && forall i {:trigger Seated(c, i)} :: 0 <= i < |c| ==> Seated(c, i)
  }

  /** Every entry of `os` carries its bucket number and sits in that bucket's chain. */
  ghost predicate FiledAt(os: seq<Entry>, es: set<Entry>, cs: seq<seq<Entry>>, ops: KeyOps, n: nat, i: nat)
    requires 0 < n && i < |os|
    reads es`slot, es`key
  {
    var e := os[i];
    && e in es
    && e.slot == SlotOf(ops, ops.cls(e.key), n)
    && e.slot < |cs| && e in cs[e.slot]
  }

  ghost predicate Filed(os: seq<Entry>, es: set<Entry>, cs: seq<seq<Entry>>, ops: KeyOps, n: nat)
    requires 0 < n
    reads es`slot, es`key
  {
    forall i {:trigger FiledAt(os, es, cs, ops, n, i)} :: 0 <= i < |os| ==> FiledAt(os, es, cs, ops, n, i)
  }

  lemma FiledPush(os: seq<Entry>, es: set<Entry>, cs: seq<seq<Entry>>, ops: KeyOps, n: nat, e: Entry, x: nat)
    requires 0 < n && Filed(os, es, cs, ops, n)
    requires x == e.slot == SlotOf(ops, ops.cls(e.key), n) && x < |cs|
    ensures Filed(os + [e], es + {e}, cs[x := [e] + cs[x]], ops, n)
  {
    var os', es', cs' := os + [e], es + {e}, cs[x := [e] + cs[x]];
    forall i | 0 <= i < |os'| ensures FiledAt(os', es', cs', ops, n, i) {
      assert i < |os| ==> FiledAt(os, es, cs, ops, n, i);
    }
  }

  lemma FiledDrop(os: seq<Entry>, es: set<Entry>, cs: seq<seq<Entry>>, ops: KeyOps, n: nat, i: nat, x: nat, k: nat)
    requires 0 < n && Filed(os, es, cs, ops, n) && NoDup(os)
    requires i < |os| && x < |cs| && k < |cs[x]| && cs[x][k] == os[i]
    ensures Filed(Drop(os, i), es - {os[i]}, cs[x := Drop(cs[x], k)], ops, n)
  {
    var os', es', cs' := Drop(os, i), es - {os[i]}, cs[x := Drop(cs[x], k)];
    forall j | 0 <= j < |os'| ensures FiledAt(os', es', cs', ops, n, j) {
      var j0 := if j < i then j else j + 1;
      assert FiledAt(os, es, cs, ops, n, j0);
      var e := os[j0];
      assert os'[j] == e && e != os[i];
      var p :| 0 <= p < |cs[e.slot]| && cs[e.slot][p] == e;
      if e.slot == x {
        assert cs'[x][if p < k then p else p - 1] == e;
      }
    }
  }

  /** The entries hold exactly the abstract contents. */
  ghost predicate Recorded(os: seq<Entry>, es: set<Entry>, m: Entries, ops: KeyOps)
    reads es`key, es`value
  {
    && |m| == |os|
    && forall i :: 0 <= i < |os| ==>
      os[i] in es && m[i] == Item(ops.cls(os[i].key), os[i].key, os[i].value)
  }

  /** The abstract value of a map: its entries in iteration order, as a set and as the
      table's chains, and the ordered map they hold. */
  datatype View = View(order: seq<Entry>, entries: set<Entry>, chains: seq<seq<Entry>>, contents: Entries)

  /** What the pointers say of the abstract value. */
  ghost predicate WellFormed(v: View, ops: KeyOps, head: Entry?, tail: Entry?, t: array<Entry?>)
    reads v.entries, t
  {
    && |v.chains| == t.Length > 0
    && |v.contents| == |v.order|
    && v.entries == Members(v.order)
    && Listed(v.order, head, tail)
    && Chained(v.chains, t, v.entries)
    && Recorded(v.order, v.entries, v.contents, ops)
    && Filed(v.order, v.entries, v.chains, ops, t.Length)
    && Distinct(v.contents)
  }

  ghost function Linked(v: View, e: Entry, item: Item<nat, Ptr, Ptr>, x: nat): View
    requires x < |v.chains|
  {
    View(v.order + [e], v.entries + {e}, v.chains[x := [e] + v.chains[x]], v.contents + [item])
  }

  lemma LinkedView(v: View, ops: KeyOps, e: Entry, x: nat)
    requires x < |v.chains| && Find(v.contents, ops.cls(e.key)) < 0
    requires v.entries == Members(v.order) && Distinct(v.contents) && Recorded(v.order, v.entries, v.contents, ops)
    ensures var v' := Linked(v, e, Item(ops.cls(e.key), e.key, e.value), x);
      Members(v'.order) == v'.entries && Distinct(v'.contents) && Recorded(v'.order, v'.entries, v'.contents, ops)
  {
    var o := v.order + [e];
    assert forall i :: 0 <= i < |v.order| ==> o[i] == v.order[i];
    assert o[|v.order|] == e;
  }

  ghost function Unlinked(v: View, i: nat, x: nat, k: nat): View
    requires i < |v.order| == |v.contents| && x < |v.chains| && k < |v.chains[x]|
  {
    View(Drop(v.order, i), v.entries - {v.order[i]}, v.chains[x := Drop(v.chains[x], k)], Drop(v.contents, i))
  }

  lemma UnlinkedView(v: View, i: nat, x: nat, k: nat)
    requires i < |v.order| == |v.contents| && x < |v.chains| && k < |v.chains[x]|
    requires v.entries == Members(v.order) && Distinct(v.contents) && NoDup(v.order)
    ensures Members(Unlinked(v, i, x, k).order) == Unlinked(v, i, x, k).entries
    ensures Distinct(Unlinked(v, i, x, k).contents)
  {
    var o := Drop(v.order, i);
    forall j | 0 <= j < |v.order| && j != i ensures v.order[j] in Members(o) {
      assert v.order[j] == o[if j < i then j else j - 1];
    }
  }

  /** `e->key = key; e->value = value` for a key of the same class. */
  method StorePair(e: Entry, key: Ptr, value: Ptr, ghost v: View, ghost i: nat, ghost ops: KeyOps, ghost n: nat)
    requires 0 < n && i < |v.order| && v.order[i] == e && NoDup(v.order) && ops.cls(key) == ops.cls(e.key)
    requires Recorded(v.order, v.entries, v.contents, ops) && Filed(v.order, v.entries, v.chains, ops, n)
    modifies e`key, e`value
    ensures Recorded(v.order, v.entries, v.contents[i := Item(ops.cls(key), key, value)], ops)
    ensures Filed(v.order, v.entries, v.chains, ops, n)
  {
    e.key := key;
    e.value := value;
    forall j | 0 <= j < |v.order| ensures FiledAt(v.order, v.entries, v.chains, ops, n, j) {
      assert old(FiledAt(v.order, v.entries, v.chains, ops, n, j));
    }
  }
}
