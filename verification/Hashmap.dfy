/** The hash map of src/shared/hashmap.c on the heap. `view` is its abstract value:
    the entries in insertion order, the chains of the table, and the ordered map they
    stand for. Every operation is proved against the one of OrderedMap. */
module Hashmaps {
  import opened Basics
  import opened OrderedMap
  import opened HashChains

  datatype Iterator = First | Last | AtEntry(e: Entry)

  /** The number of entries before the first one whose value is NULL. */
  ghost function NonNull(m: Entries): (n: nat)
    ensures n <= |m| && (n < |m| ==> m[n].value == 0)
    ensures forall i :: 0 <= i < n ==> m[i].value != 0
  {
    if m == [] || m[0].value == 0 then 0 else 1 + NonNull(m[1..])
  }

  const EEXIST := 17
  const ENOENT := 2

  class Hashmap {
    var ops: KeyOps
    var iterateListHead: Entry?
    var iterateListTail: Entry?
    var buckets: array<Entry?>
    var nBuckets: nat
    var nEntries: nat
    const embedded: array<Entry?>
    ghost var view: View
    ghost var inserted: nat  // entries added by put
    ghost var relinked: nat  // entries moved by resize_buckets

    /** hashmap_new on memory fresh from calloc: the slots inside the tile are NULL. */
    constructor (ops: KeyOps)
      ensures Valid() && fresh(view.entries) && fresh(buckets) && fresh(embedded)
      ensures this.ops == ops && view.contents == [] && Counts() == After([])
    {
      var table := new Entry?[INITIAL_N_BUCKETS](_ => null);
      this.ops, embedded, buckets := ops, table, table;
      nBuckets, nEntries := INITIAL_N_BUCKETS, 0;
      iterateListHead, iterateListTail := null, null;
      view := View([], {}, seq(INITIAL_N_BUCKETS, _ => []), []);
      inserted, relinked := 0, 0;
    }

    /** What a tile must be like to be handed out: its own bucket slots are NULL. */
    ghost predicate Blank()
      reads embedded
    {
      embedded.Length == INITIAL_N_BUCKETS && forall b :: 0 <= b < embedded.Length ==> embedded[b] == null
    }

    /** A tile of a pool chunk: zeroed, not yet a map. */
    constructor Tile()
      ensures Blank() && fresh(embedded)
    {
      embedded := new Entry?[INITIAL_N_BUCKETS](_ => null);
      ops := KeyOps(p => p, c => c);
      nBuckets, nEntries := 0, 0;
      iterateListHead, iterateListTail := null, null;
      new;
      buckets := embedded;
    }

    /** hashmap_new on a tile. The bucket slots are not written: they must be NULL already. */
    method New(ops: KeyOps)
      requires Blank()
      modifies this
      ensures Valid() && this.ops == ops && view.contents == [] && view.entries == {} && buckets == embedded
      ensures Counts() == After([])
    {
      this.ops := ops;
      nBuckets, nEntries := INITIAL_N_BUCKETS, 0;
      iterateListHead, iterateListTail := null, null;
      buckets := embedded;
      view := View([], {}, seq(INITIAL_N_BUCKETS, _ => []), []);
      inserted, relinked := 0, 0;
    }

    /** hashmap_free, up to giving the tile back. */
    method Free()
      requires Valid()
      modifies this, buckets, view.entries
      ensures Blank()
    {
      Clear();
    }

    /** The pointers are those of the abstract value, and the counters count it. */
    ghost predicate Valid()
      reads this, view.entries, buckets, embedded
    {
      && nBuckets == buckets.Length > 0
      && nEntries == |view.order| == |view.contents|
      && WellFormed(view, ops, iterateListHead, iterateListTail, buckets)
      && embedded.Length == INITIAL_N_BUCKETS
      && (buckets == embedded || forall b :: 0 <= b < embedded.Length ==> embedded[b] == null)
    }

    function Slot(key: Ptr): (r: nat)
      requires nBuckets > 0
      reads this
    {
      SlotOf(ops, ops.cls(key), nBuckets)
    }

    /** hash_scan: walks the chain of bucket `hash`. */
    method HashScan(hash: nat, key: Ptr) returns (e: Entry?)
      requires Valid() && hash == Slot(key)
      ensures Valid()
      ensures e == null <==> Index(key) < 0
      ensures e != null ==> e == view.order[Index(key)] && e in view.entries
      ensures e != null ==> view.contents[Index(key)] == Item(ops.cls(key), e.key, e.value) && hash == Slot(e.key)
      ensures e != null ==> ops.cls(e.key) == ops.cls(key)
    {
      e := buckets[hash];
      ghost var c, j := view.chains[hash], 0;
      assert Chain(c, hash, buckets[hash]);
      while e != null
        invariant 0 <= j <= |c| && e == At(c, j)
        invariant forall m :: 0 <= m < j ==> ops.cls(c[m].key) != ops.cls(key)
        decreases |c| - j
      {
        assert Node(c, j, hash);
        if ops.cls(e.key) == ops.cls(key) {
          assert e in view.entries;
          ghost var i :| 0 <= i < |view.order| && view.order[i] == e;
          assert FiledAt(view.order, view.entries, view.chains, ops, nBuckets, i);
          return;
        }
        e := e.bucketNext;
        j := j + 1;
      }
      forall m | 0 <= m < |view.contents| ensures view.contents[m].id != ops.cls(key) {
        assert FiledAt(view.order, view.entries, view.chains, ops, nBuckets, m);
      }
    }

    /** The place of a key in the order, or -1. */
    ghost function Index(key: Ptr): (i: int)
      reads this
      ensures -1 <= i < |view.contents|
    {
      Find(view.contents, ops.cls(key))
    }

    /** link_entry: head of its bucket, tail of the iteration list. */
    method LinkEntry(e: Entry, hash: nat)
      requires Valid() && e !in view.entries && hash == Slot(e.key)
      requires Find(view.contents, ops.cls(e.key)) < 0
      modifies this`iterateListHead, this`iterateListTail, this`nEntries, this`view, buckets, view.entries
      modifies e`bucketNext, e`bucketPrevious, e`iterateNext, e`iteratePrevious, e`slot
      ensures Valid()
      ensures ops == old(ops) && buckets == old(buckets) && nBuckets == old(nBuckets)
      ensures view.entries == old(view.entries) + {e}
      ensures view.order == old(view.order) + [e]
      ensures view.contents == old(view.contents) + [Item(ops.cls(e.key), e.key, e.value)]
    {
      hide SlotOf, Chained, Listed, Recorded, Filed, Distinct, Members, Find, NoDup, Within;
      ghost var item := Item(ops.cls(e.key), e.key, e.value);
      ghost var v := Linked(view, e, item, hash);
      LinkedView(view, ops, e, hash);
      LinkPointers(e, hash, view);
      assert WellFormed(v, ops, iterateListHead, iterateListTail, buckets);
      hide WellFormed;
      nEntries := nEntries + 1;
      view := v;
    }

    /** The pointers of link_entry. */
    method LinkPointers(e: Entry, hash: nat, ghost v: View)
      requires e !in v.entries && v.entries == Members(v.order)
      requires Listed(v.order, iterateListHead, iterateListTail)
      requires Chained(v.chains, buckets, v.entries)
      requires hash < |v.chains| == buckets.Length && hash == SlotOf(ops, ops.cls(e.key), buckets.Length)
      requires Filed(v.order, v.entries, v.chains, ops, buckets.Length)
      modifies this`iterateListHead, this`iterateListTail, buckets
      modifies e`bucketNext, e`bucketPrevious, e`iterateNext, e`iteratePrevious, e`slot
      modifies v.entries`bucketPrevious, v.entries`iterateNext
      ensures Listed(v.order + [e], iterateListHead, iterateListTail)
      ensures Chained(v.chains[hash := [e] + v.chains[hash]], buckets, v.entries + {e})
      ensures Filed(v.order + [e], v.entries + {e}, v.chains[hash := [e] + v.chains[hash]], ops, buckets.Length)
    {
      assert e !in v.order;
      hide Chained, Listed, Members, NoDup, Within, Filed, SlotOf;
      PushBucket(buckets, e, hash, v.chains, v.entries);
      FiledPush(v.order, v.entries, v.chains, ops, buckets.Length, e, hash);
      AppendIterate(e, v.order);
    }

    lemma PlanUnlink(i: nat, hash: nat) returns (k: nat)
      requires Valid() && i < |view.order| && hash == Slot(view.order[i].key)
      ensures hash < |view.chains| && k < |view.chains[hash]| && view.chains[hash][k] == view.order[i]
      ensures var v := Unlinked(view, i, hash, k);
        && v.entries == Members(v.order) && Distinct(v.contents) && Recorded(v.order, v.entries, v.contents, ops)
        && Filed(v.order, v.entries, v.chains, ops, nBuckets)
    {
      assert FiledAt(view.order, view.entries, view.chains, ops, nBuckets, i);
      k :| 0 <= k < |view.chains[hash]| && view.chains[hash][k] == view.order[i];
      UnlinkedView(view, i, hash, k);
      FiledDrop(view.order, view.entries, view.chains, ops, nBuckets, i, hash, k);
    }

    /** unlink_entry, for the entry at place `i` of the order. */
    method UnlinkEntry(e: Entry, hash: nat, ghost i: nat)
      requires Valid() && i < |view.order| && view.order[i] == e && hash == Slot(e.key)
      modifies this`iterateListHead, this`iterateListTail, this`nEntries, this`view, buckets
      modifies view.entries`iterateNext, view.entries`iteratePrevious
      modifies view.entries`bucketNext, view.entries`bucketPrevious
      ensures Valid()
      ensures ops == old(ops) && buckets == old(buckets) && nBuckets == old(nBuckets)
      ensures view.entries == old(view.entries) - {e}
      ensures view.order == Drop(old(view.order), i)
      ensures view.contents == Drop(old(view.contents), i)
    {
      hide SlotOf, Chained, Listed, Recorded, Filed, Distinct, Members, Find, NoDup, Within, Drop;
      ghost var k := PlanUnlink(i, hash);
      ghost var v := Unlinked(view, i, hash, k);
      UnlinkPointers(e, hash, view, i, k);
      assert WellFormed(v, ops, iterateListHead, iterateListTail, buckets);
      hide WellFormed;
      nEntries := nEntries - 1;
      view := v;
    }

    /** The pointers of unlink_entry. */
    method UnlinkPointers(e: Entry, hash: nat, ghost v: View, ghost i: nat, ghost k: nat)
      requires i < |v.order| == |v.contents| && v.order[i] == e && v.entries == Members(v.order)
      requires Listed(v.order, iterateListHead, iterateListTail)
      requires Chained(v.chains, buckets, v.entries)
      requires hash < |v.chains| == buckets.Length && k < |v.chains[hash]| && v.chains[hash][k] == e
      modifies this`iterateListHead, this`iterateListTail, buckets
      modifies v.entries`iterateNext, v.entries`iteratePrevious, v.entries`bucketNext, v.entries`bucketPrevious
      ensures Listed(Unlinked(v, i, hash, k).order, iterateListHead, iterateListTail)
      ensures Chained(Unlinked(v, i, hash, k).chains, buckets, Unlinked(v, i, hash, k).entries)
    {
      hide Chained, Listed, Members, NoDup, Within;
      DropIterate(e, v.order, i);
      DropBucket(buckets, e, hash, v.chains, k, v.entries);
    }

    /** Takes an entry out of the iteration list. */
    method DropIterate(e: Entry, ghost o: seq<Entry>, ghost i: nat)
      requires i < |o| && o[i] == e && Listed(o, iterateListHead, iterateListTail)
      modifies this`iterateListHead, this`iterateListTail, Members(o)`iterateNext, Members(o)`iteratePrevious
      ensures Listed(Drop(o, i), iterateListHead, iterateListTail)
    {
      assert Seated(o, i);
      assert i > 0 ==> Seated(o, i - 1);
      assert i + 1 < |o| ==> Seated(o, i + 1);
      if e.iterateNext != null {
        e.iterateNext.iteratePrevious := e.iteratePrevious;
      } else {
        iterateListTail := e.iteratePrevious;
      }
      if e.iteratePrevious != null {
        e.iteratePrevious.iterateNext := e.iterateNext;
      } else {
        iterateListHead := e.iterateNext;
      }
      ghost var c := Drop(o, i);
      forall j | 0 <= j < |c| ensures Seated(c, j) {
        var m := if j < i then j else j + 1;
        assert c[j] == o[m];
        assert old(Seated(o, m));
      }
    }

    /** Puts an entry at the end of the iteration list. */
    method AppendIterate(e: Entry, ghost o: seq<Entry>)
      requires Listed(o, iterateListHead, iterateListTail) && e !in o
      modifies this`iterateListHead, this`iterateListTail, e`iterateNext, e`iteratePrevious, Members(o)`iterateNext
      ensures Listed(o + [e], iterateListHead, iterateListTail)
    {
      ghost var n := |o|;
      assert n > 0 ==> Seated(o, n - 1);
      e.iteratePrevious := iterateListTail;
      e.iterateNext := null;
      if iterateListTail != null {
        iterateListTail.iterateNext := e;
      } else {
        iterateListHead := e;
      }
      iterateListTail := e;
      ghost var c := o + [e];
      forall i | 0 <= i < |c| ensures Seated(c, i) {
        assert i < n ==> old(Seated(o, i));
      }
    }

    /** Grows the table when it is three quarters full. Unsigned products wrap. */
    method ResizeBuckets() returns (grew: bool)
      requires Valid()
      modifies this`buckets, this`nBuckets, this`view, this`relinked, buckets
      modifies view.entries`bucketNext, view.entries`bucketPrevious, view.entries`slot
      ensures Valid()
      ensures view.contents == old(view.contents) && view.order == old(view.order) && view.entries == old(view.entries)
      ensures grew == (Wrap(nEntries * 4) >= Wrap(old(nBuckets) * 3))
      ensures relinked == old(relinked) + if grew then nEntries else 0
      ensures !grew ==> buckets == old(buckets) && nBuckets == old(nBuckets)
      ensures grew ==> fresh(buckets) && nBuckets == Wrap(nEntries * 4 + 3)
      ensures grew ==> forall b :: 0 <= b < old(buckets).Length ==> old(buckets)[b] == null
    {
      hide Chained, Listed, Recorded, Filed, Distinct, Members, NoDup, Within, Wrap, At;
      if Wrap(nEntries * 4) < Wrap(nBuckets * 3) {
        return false;
      }
      var m := Wrap((nEntries + 1) * 4 - 1);
      WrapGrowth(nEntries);
      var n := new Entry?[m](_ => null);
      ghost var ns := seq(m, _ => []);
      NewTable(n, ns, ops);
      ns := RehomeAll(buckets, n, view.order, view.chains, ns);
      buckets, nBuckets := n, m;
      view := view.(chains := ns);
      return true;
    }

    /** The loop of resize_buckets: the visited entries are in the new table, in
        the order of the visit; the others are still in the old one. */
    method RehomeAll(t: array<Entry?>, n: array<Entry?>, ghost o: seq<Entry>,
                     ghost cs0: seq<seq<Entry>>, ghost ns0: seq<seq<Entry>>)
      returns (ghost ns: seq<seq<Entry>>)
      requires t != n && t.Length > 0 && n.Length > 0 && Listed(o, iterateListHead, iterateListTail)
      requires Chained(cs0, t, Members(o)) && Filed(o, Members(o), cs0, ops, t.Length)
      requires Chained(ns0, n, Members([])) && Filed([], Members([]), ns0, ops, n.Length)
      modifies this`relinked, t, n, Members(o)`bucketNext, Members(o)`bucketPrevious, Members(o)`slot
      ensures |ns| == n.Length && Chained(ns, n, Members(o)) && Filed(o, Members(o), ns, ops, n.Length)
      ensures forall b :: 0 <= b < t.Length ==> t[b] == null
      ensures relinked == old(relinked) + |o|
    {
      hide Chained, Filed, Within, Members;
      var i := iterateListHead;
      ghost var p, cs := 0, cs0;
      ns := ns0;
      assert o[0..] == o && o[..0] == [];
      while i != null
        invariant 0 <= p <= |o| && i == At(o, p) && relinked == old(relinked) + p
        invariant Chained(cs, t, Members(o[p..])) && Filed(o[p..], Members(o[p..]), cs, ops, t.Length)
        invariant Chained(ns, n, Members(o[..p])) && Filed(o[..p], Members(o[..p]), ns, ops, n.Length)
        decreases |o| - p
      {
        assert Seated(o, p);
        assert o[..p] + o[p..] == o && o[p..][1..] == o[p + 1..] && o[..p] + [i] == o[..p + 1];
        cs, ns := Rehome(i, t, n, o[p..], o[..p], cs, ns);
        p, relinked := p + 1, relinked + 1;
        i := i.iterateNext;
      }
      assert o[..p] == o && o[p..] == [];
      ChainCount(ns, n, Members(o));
      Emptied(cs, t);
    }

    /** One turn of the loop in resize_buckets: `i` leaves the old table `t` and
        becomes the head of its bucket in the new table `n`. */
    method Rehome(i: Entry, t: array<Entry?>, n: array<Entry?>, ghost u: seq<Entry>, ghost w: seq<Entry>,
                  ghost cs: seq<seq<Entry>>, ghost ns: seq<seq<Entry>>)
      returns (ghost cs': seq<seq<Entry>>, ghost ns': seq<seq<Entry>>)
      requires t != n && t.Length > 0 && n.Length > 0 && NoDup(w + u) && u != [] && u[0] == i
      requires Chained(cs, t, Members(u)) && Filed(u, Members(u), cs, ops, t.Length)
      requires Chained(ns, n, Members(w)) && Filed(w, Members(w), ns, ops, n.Length)
      modifies t, n, Members(w + u)`bucketNext, Members(w + u)`bucketPrevious, Members(w + u)`slot
      ensures Chained(cs', t, Members(u[1..])) && Filed(u[1..], Members(u[1..]), cs', ops, t.Length)
      ensures Chained(ns', n, Members(w + [i])) && Filed(w + [i], Members(w + [i]), ns', ops, n.Length)
    {
      var hash := ops.hash(ops.cls(i.key));
      var x0, x := hash % t.Length, hash % n.Length;
      ghost var k := RehomePlan(i, u, w, cs, t.Length);
      hide Chained, Filed, NoDup, Within, Members, Drop;
      DropBucket(t, i, x0, cs, k, Members(u));
      cs' := cs[x0 := Drop(cs[x0], k)];
      PushBucket(n, i, x, ns, Members(w));
      ns' := ns[x := [i] + ns[x]];
      FiledPush(w, Members(w), ns, ops, n.Length, i, x);
    }

    lemma RehomePlan(i: Entry, u: seq<Entry>, w: seq<Entry>, cs: seq<seq<Entry>>, n: nat) returns (k: nat)
      requires n > 0 && NoDup(w + u) && u != [] && u[0] == i
      requires Filed(u, Members(u), cs, ops, n)
      ensures Members(u) !! Members(w) && Members(u) <= Members(w + u) && Members(w) <= Members(w + u)
      ensures var x := SlotOf(ops, ops.cls(i.key), n);
        && i.slot == x < |cs| && k < |cs[x]| && cs[x][k] == i
        && Filed(u[1..], Members(u[1..]), cs[x := Drop(cs[x], k)], ops, n)
      ensures i in Members(w + u) && i !in Members(w)
      ensures Members(u[1..]) == Members(u) - {i} && Members(w + [i]) == Members(w) + {i}
    {
      assert FiledAt(u, Members(u), cs, ops, n, 0);
      k :| 0 <= k < |cs[i.slot]| && cs[i.slot][k] == i;
      assert Drop(u, 0) == u[1..];
      SplitMembers(u, w);
      assert NoDup(u) by { assert forall j :: 0 <= j < |u| ==> u[j] == (w + u)[|w| + j]; }
      FiledDrop(u, Members(u), cs, ops, n, 0, i.slot, k);
    }

    // ---- the operations ----

    ghost function Counts(): Counters
      reads this
    {
      Counters(nEntries, nBuckets, inserted, relinked)
    }

    method Put(key: Ptr, value: Ptr) returns (r: int)
      requires Valid() && |view.contents| < 0xFFFF_FFFF
      modifies this, buckets, view.entries
      ensures Valid() && ops == old(ops) && (buckets == old(buckets) || fresh(buckets))
      ensures old(view.entries) <= view.entries && fresh(view.entries - old(view.entries))
      ensures view.contents == OrderedMap.Put(old(view.contents), Item(ops.cls(key), key, value))
      ensures r == if old(Index(key)) < 0 then 1
                   else if old(view.contents[Index(key)].value) == value then 0 else -EEXIST
      ensures Counts() == if r == 1 then Grown(old(Counts())) else old(Counts())
    {
      hide WellFormed, Wrap, Find;
      var hash := Slot(key);
      var e := HashScan(hash, key);
      if e != null {
        if e.value == value {
          return 0;
        }
        return -EEXIST;
      }
      var grew := ResizeBuckets();
      if grew {
        hash := Slot(key);
      }
      e := new Entry(key, value);
      LinkEntry(e, hash);
      inserted := inserted + 1;
      return 1;
    }

    method Replace(key: Ptr, value: Ptr) returns (r: int)
      requires Valid() && |view.contents| < 0xFFFF_FFFF
      modifies this, buckets, view.entries
      ensures Valid() && ops == old(ops) && (buckets == old(buckets) || fresh(buckets))
      ensures old(view.entries) <= view.entries && fresh(view.entries - old(view.entries))
      ensures view.contents == OrderedMap.Replace(old(view.contents), Item(ops.cls(key), key, value))
      ensures r == if old(Index(key)) < 0 then 1 else 0
      ensures Counts() == if r == 1 then Grown(old(Counts())) else old(Counts())
    {
      hide WellFormed;
      var e := HashScan(Slot(key), key);
      if e != null {
        Overwrite(e, key, value, Index(key));
        return 0;
      }
      r := Put(key, value);
    }

    method Update(key: Ptr, value: Ptr) returns (r: int)
      requires Valid()
      modifies this`view, view.entries`key, view.entries`value
      ensures Valid() && view.entries == old(view.entries) && view.order == old(view.order)
      ensures view.contents == OrderedMap.Update(old(view.contents), ops.cls(key), value)
      ensures r == if old(Index(key)) < 0 then -ENOENT else 0
    {
      hide WellFormed;
      var e := HashScan(Slot(key), key);
      if e == null {
        return -ENOENT;
      }
      Overwrite(e, e.key, value, Index(key));
      return 0;
    }

    /** `e->key = key; e->value = value`, for an equal key. */
    method Overwrite(e: Entry, key: Ptr, value: Ptr, ghost i: nat)
      requires Valid() && i < |view.order| && view.order[i] == e && e in view.entries
      requires ops.cls(key) == ops.cls(e.key) == view.contents[i].id
      modifies this`view, view.entries`key, view.entries`value
      ensures Valid() && view.entries == old(view.entries) && view.order == old(view.order)
      ensures view.contents == old(view.contents)[i := Item(ops.cls(key), key, value)]
    {
      hide Chained, Recorded, Filed, Members;
      ghost var v := view.(contents := view.contents[i := Item(ops.cls(key), key, value)]);
      StorePair(e, key, value, view, i, ops, nBuckets);
      view := v;
    }

    method Get(key: Ptr) returns (value: Ptr)
      requires Valid()
      ensures value == match Value(view.contents, ops.cls(key)) case None => 0 case Some(v) => v
    {
      hide WellFormed;
      var e := HashScan(Slot(key), key);
      value := if e == null then 0 else e.value;
    }

    method Contains(key: Ptr) returns (r: bool)
      requires Valid()
      ensures r <==> Value(view.contents, ops.cls(key)) != None
    {
      hide WellFormed;
      var e := HashScan(Slot(key), key);
      r := e != null;
    }

    /** remove_entry: unlinks the entry and gives it up. */
    method RemoveEntry(e: Entry, ghost i: nat)
      requires Valid() && i < |view.order| && view.order[i] == e
      modifies this`iterateListHead, this`iterateListTail, this`nEntries, this`view, buckets
      modifies view.entries`iterateNext, view.entries`iteratePrevious
      modifies view.entries`bucketNext, view.entries`bucketPrevious
      ensures Valid() && ops == old(ops) && buckets == old(buckets) && nBuckets == old(nBuckets)
      ensures view.entries == old(view.entries) - {e}
      ensures view.order == Drop(old(view.order), i)
      ensures view.contents == Drop(old(view.contents), i)
    {
      var hash := Slot(e.key);
      UnlinkEntry(e, hash, i);
    }

    method Remove(key: Ptr) returns (data: Ptr)
      requires Valid()
      modifies this, buckets, view.entries
      ensures Valid() && ops == old(ops) && buckets == old(buckets) && view.entries <= old(view.entries)
      ensures view.contents == OrderedMap.Remove(old(view.contents), ops.cls(key))
      ensures old(Index(key)) >= 0 ==> view.order == Drop(old(view.order), old(Index(key)))
      ensures Counts() == old(Counts()).(n := |view.contents|)
      ensures data == match Value(old(view.contents), ops.cls(key)) case None => 0 case Some(v) => v
    {
      hide WellFormed;
      var e := HashScan(Slot(key), key);
      if e == null {
        return 0;
      }
      data := e.value;
      RemoveEntry(e, Index(key));
    }

    method RemoveValue(key: Ptr, value: Ptr) returns (r: Ptr)
      requires Valid()
      modifies this, buckets, view.entries
      ensures Valid() && ops == old(ops) && buckets == old(buckets) && view.entries <= old(view.entries)
      ensures var hit := Value(old(view.contents), ops.cls(key)) == Some(value);
        && view.contents == (if hit then OrderedMap.Remove(old(view.contents), ops.cls(key)) else old(view.contents))
        && r == if hit then value else 0
    {
      hide WellFormed;
      var e := HashScan(Slot(key), key);
      if e == null {
        return 0;
      }
      if e.value != value {
        return 0;
      }
      RemoveEntry(e, Index(key));
      return value;
    }

    method RemoveAndPut(oldKey: Ptr, newKey: Ptr, value: Ptr) returns (r: int)
      requires Valid()
      modifies this, buckets, view.entries
      ensures Valid() && ops == old(ops) && buckets == old(buckets) && view.entries == old(view.entries)
      ensures view.contents ==
        OrderedMap.RemoveAndPut(old(view.contents), ops.cls(oldKey), Item(ops.cls(newKey), newKey, value))
      ensures r == if old(Index(oldKey)) < 0 then -ENOENT else if old(Index(newKey)) >= 0 then -EEXIST else 0
    {
      hide WellFormed;
      var oldHash, newHash := Slot(oldKey), Slot(newKey);
      var e := HashScan(oldHash, oldKey);
      if e == null {
        return -ENOENT;
      }
      var k := HashScan(newHash, newKey);
      if k != null {
        return -EEXIST;
      }
      Relocate(e, oldHash, newKey, newHash, value, Index(oldKey));
      return 0;
    }

    method RemoveAndReplace(oldKey: Ptr, newKey: Ptr, value: Ptr) returns (r: int)
      requires Valid()
      modifies this, buckets, view.entries
      ensures Valid() && ops == old(ops) && buckets == old(buckets) && view.entries <= old(view.entries)
      ensures view.contents ==
        OrderedMap.RemoveAndReplace(old(view.contents), ops.cls(oldKey), Item(ops.cls(newKey), newKey, value))
      ensures r == if old(Index(oldKey)) < 0 then -ENOENT else 0
    {
      hide WellFormed, Find, Drop, Distinct;
      var oldHash, newHash := Slot(oldKey), Slot(newKey);
      var e := HashScan(oldHash, oldKey);
      if e == null {
        return -ENOENT;
      }
      ghost var i, j := Index(oldKey), Index(newKey);
      var k := HashScan(newHash, newKey);
      DistinctContents();
      ReplaceSteps(view.contents, ops.cls(oldKey), Item(ops.cls(newKey), newKey, value));
      if k != null && e != k {
        OtherEntry(i, j);
        RemoveEntry(k, j);
        i := if i < j then i else i - 1;
      }
      Relocate(e, oldHash, newKey, newHash, value, i);
      return 0;
    }

    lemma OtherEntry(i: nat, j: nat)
      requires Valid() && i < |view.order| && j < |view.order| && i != j
      ensures var w := Drop(view.order, j); w[if i < j then i else i - 1] == view.order[i]
      ensures view.order[i] in view.entries - {view.order[j]}
    {
    }

    lemma DistinctContents()
      requires Valid()
      ensures Distinct(view.contents)
    {
    }

    method StealFirst() returns (data: Ptr, key: Ptr)
      requires Valid()
      modifies this, buckets, view.entries
      ensures Valid() && ops == old(ops) && buckets == old(buckets) && view.entries <= old(view.entries)
      ensures old(view.contents) == [] ==> data == key == 0 && view.contents == []
      ensures old(view.contents) != [] ==>
        view.contents == old(view.contents)[1..] && data == old(view.contents[0].value) && key == old(view.contents[0].key)
    {
      if iterateListHead == null {
        return 0, 0;
      }
      data, key := iterateListHead.value, iterateListHead.key;
      RemoveEntry(iterateListHead, 0);
    }

    /** Every bucket ends up empty, which is what lets the tile be used again. */
    method Clear()
      requires Valid()
      modifies this, buckets, view.entries
      ensures Valid() && ops == old(ops) && buckets == old(buckets) && view.contents == []
      ensures Counts() == old(Counts()).(n := 0)
      ensures forall b :: 0 <= b < buckets.Length ==> buckets[b] == null
      ensures forall b :: 0 <= b < embedded.Length ==> embedded[b] == null
    {
      hide WellFormed;
      while iterateListHead != null
        invariant Valid() && ops == old(ops) && buckets == old(buckets)
        invariant view.entries <= old(view.entries) && Counts() == old(Counts()).(n := nEntries)
        decreases |view.contents|
      {
        HeadIsFirst();
        RemoveEntry(iterateListHead, 0);
      }
      HeadIsFirst();
      NothingLinked();
    }

    lemma HeadIsFirst()
      requires Valid()
      ensures iterateListHead == At(view.order, 0)
      ensures iterateListHead != null ==> iterateListHead in view.entries && |view.contents| > 0
    {
    }

    lemma NothingLinked()
      requires Valid() && view.order == []
      ensures forall b :: 0 <= b < buckets.Length ==> buckets[b] == null
    {
      Emptied(view.chains, buckets);
    }

    /** The iterator stands before place `p` of the order. */
    ghost predicate Points(it: Iterator, p: nat)
      reads this
    {
      match it
      case First => p == 0
      case Last => p == |view.order|
      case AtEntry(e) => p < |view.order| && view.order[p] == e
    }

    method Iterate(it: Iterator, ghost p: nat) returns (value: Ptr, key: Ptr, next: Iterator)
      requires Valid() && Points(it, p)
      ensures Valid()
      ensures p < |view.contents| ==>
        value == view.contents[p].value && key == view.contents[p].key && next != First && Points(next, p + 1)
      ensures p == |view.contents| ==> value == 0 && key == 0 && next == Last
    {
      if it == Last || (it == First && iterateListHead == null) {
        return 0, 0, Last;
      }
      var e := if it == First then iterateListHead else it.e;
      assert Seated(view.order, p);
      next := if e.iterateNext != null then AtEntry(e.iterateNext) else Last;
      key := e.key;
      value := e.value;
    }

    /** HASHMAP_FOREACH_KEY whose body removes the current entry or leaves it. */
    method ForeachRemove(doomed: Ptr -> bool) returns (ghost visited: Entries)
      requires Valid()
      modifies this, buckets, view.entries
      ensures Valid() && ops == old(ops) && buckets == old(buckets)
      ensures var m := old(view.contents); var n := NonNull(m);
        && visited == m[..n]
        && view.contents == Filter((x: Item<nat, Ptr, Ptr>) => !doomed(x.key), m[..n]) + m[n..]
    {
      hide WellFormed, Find, Distinct, Drop, Filter, Swept;
      ghost var m, q, i := view.contents, (x: Item<nat, Ptr, Ptr>) => !doomed(x.key), 0;
      ghost var kept: Entries := [];
      visited := [];
      SweepStart(q, m);
      var value, key, it := Iterate(First, 0);
      while value != 0
        invariant Valid() && ops == old(ops) && buckets == old(buckets) && view.entries <= old(view.entries)
        invariant Swept(q, m, i, kept, visited, view.contents) && |kept| <= |view.contents|
        invariant |kept| < |view.contents| ==>
          value == view.contents[|kept|].value && key == view.contents[|kept|].key && Points(it, |kept| + 1)
        invariant |kept| == |view.contents| ==> value == 0
        decreases |view.contents| - |kept|
      {
        SweepStep(q, m, i, kept, visited, view.contents);
        visited := visited + [m[i]];
        i := i + 1;
        if doomed(key) {
          RemoveCurrent(key, it, |kept|);
        } else {
          kept := kept + [m[i - 1]];
        }
        value, key, it := Iterate(it, |kept|);
      }
      SweepDone(q, m, i, kept, visited, view.contents);
    }

    method RemoveCurrent(key: Ptr, it: Iterator, ghost c: nat)
      requires Valid() && c < |view.contents| && key == view.contents[c].key && Points(it, c + 1)
      modifies this, buckets, view.entries
      ensures Valid() && ops == old(ops) && buckets == old(buckets) && view.entries <= old(view.entries)
      ensures view.contents == Drop(old(view.contents), c) && Points(it, c)
    {
      hide WellFormed, Distinct, Drop;
      CurrentEntry(c, it);
      var _ := Remove(key);
    }

    /** The current entry is the one its key finds; removing it leaves the
        iterator on the entry that now stands in its place. */
    lemma CurrentEntry(c: nat, it: Iterator)
      requires Valid() && c < |view.contents| && Points(it, c + 1)
      ensures ops.cls(view.contents[c].key) == view.contents[c].id && Find(view.contents, view.contents[c].id) == c
      ensures it.AtEntry? ==> c < |Drop(view.order, c)| && Drop(view.order, c)[c] == it.e
      ensures it != First
    {
      FindAt(view.contents, c);
    }

    /** Two maps share no memory, and compare and hash alike. */
    ghost predicate Apart(other: Hashmap)
      reads this, other
    {
      && this != other && ops == other.ops && view.entries !! other.view.entries
      && buckets != other.buckets && buckets != other.embedded
      && embedded != other.buckets && embedded != other.embedded
    }

    /** Moves one entry; the entry itself changes hands. */
    method MoveOne(other: Hashmap, key: Ptr) returns (r: int)
      requires Valid() && other.Valid() && Apart(other)
      modifies this, buckets, view.entries, other, other.buckets, other.view.entries
      ensures Valid() && other.Valid() && Apart(other)
      ensures buckets == old(buckets) && other.buckets == old(other.buckets) && ops == old(ops)
      ensures var id := ops.cls(key); var i := Find(old(other.view.contents), id);
        if old(Index(key)) >= 0 then
          r == -EEXIST && view.contents == old(view.contents) && other.view.contents == old(other.view.contents)
        else if i < 0 then
          r == -ENOENT && view.contents == old(view.contents) && other.view.contents == old(other.view.contents)
        else
          && r == 0
          && view.contents == old(view.contents) + [old(other.view.contents)[i]]
          && other.view.contents == Drop(old(other.view.contents), i)
    {
      hide WellFormed;
      var hHash := Slot(key);
      var k := HashScan(hHash, key);
      if k != null {
        return -EEXIST;
      }
      var otherHash := other.Slot(key);
      var e := other.HashScan(otherHash, key);
      if e == null {
        return -ENOENT;
      }
      Adopt(other, e, hHash, otherHash, other.Index(key));
      return 0;
    }

    /** unlink_entry from one map, link_entry into the other. */
    method Adopt(other: Hashmap, e: Entry, hHash: nat, otherHash: nat, ghost i: nat)
      requires Valid() && other.Valid() && Apart(other)
      requires i < |other.view.order| && other.view.order[i] == e && e in other.view.entries
      requires other.view.contents[i] == Item(ops.cls(e.key), e.key, e.value)
      requires hHash == Slot(e.key) && otherHash == other.Slot(e.key) && Index(e.key) < 0
      modifies this, buckets, view.entries, other, other.buckets
      modifies other.view.entries`iterateNext, other.view.entries`iteratePrevious
      modifies other.view.entries`bucketNext, other.view.entries`bucketPrevious, other.view.entries`slot
      ensures Valid() && other.Valid() && Apart(other)
      ensures buckets == old(buckets) && other.buckets == old(other.buckets) && ops == old(ops)
      ensures view.contents == old(view.contents) + [old(other.view.contents)[i]]
      ensures view.entries == old(view.entries) + {e}
      ensures other.view.contents == Drop(old(other.view.contents), i)
      ensures other.view.order == Drop(old(other.view.order), i)
      ensures other.view.entries == old(other.view.entries) - {e}
    {
      hide WellFormed, Find, Drop;
      other.UnlinkEntry(e, otherHash, i);
      LinkEntry(e, hHash);
    }

    /** Every entry of `other` whose key is not here changes hands, in order. */
    method Move(other: Hashmap)
      requires Valid() && other.Valid() && Apart(other)
      modifies this, buckets, view.entries, other, other.buckets, other.view.entries
      ensures Valid() && other.Valid() && Apart(other)
      ensures view.contents == old(view.contents) + Missing(old(view.contents), old(other.view.contents))
      ensures other.view.contents == Shared(old(view.contents), old(other.view.contents))
    {
      hide WellFormed, Find, Distinct, Drop, Moved;
      ghost var m0, o0, es, p, q := view.contents, other.view.contents, other.view.order, 0, 0;
      other.DistinctContents();
      MoveStart(m0, o0);
      other.HeadIsFirst();
      var e := other.iterateListHead;
      while e != null
        invariant Valid() && other.Valid() && Apart(other)
        invariant ops == old(ops) && buckets == old(buckets) && other.buckets == old(other.buckets)
        invariant view.entries <= old(view.entries) + old(other.view.entries)
        invariant other.view.entries <= old(other.view.entries)
        invariant Moved(m0, o0, p, q, view.contents, other.view.contents)
        invariant e == At(other.view.order, q)
        decreases |o0| - p
      {
        MoveStep(m0, o0, p, q, view.contents, other.view.contents);
        other.EntryAt(q);
        var n := e.iterateNext;
        var hHash := Slot(e.key);
        var k := HashScan(hHash, e.key);
        if k != null {
          q := q + 1;
        } else {
          var otherHash := other.Slot(e.key);
          DropAt(other.view.order, q);
          Adopt(other, e, hHash, otherHash, q);
        }
        p := p + 1;
        e := n;
      }
      MoveDone(m0, o0, p, q, view.contents, other.view.contents);
    }

    lemma EntryAt(i: nat)
      requires Valid() && i < |view.order|
      ensures i < |view.contents|
      ensures var e := view.order[i];
        && e in view.entries && view.contents[i] == Item(ops.cls(e.key), e.key, e.value)
        && e.iterateNext == At(view.order, i + 1)
    {
      assert Seated(view.order, i);
    }

    /** Like Move, but `other` keeps its entries. */
    method Merge(other: Hashmap)
      requires Valid() && other.Valid() && Apart(other)
      requires |view.contents| + |other.view.contents| < 0xFFFF_FFFF
      modifies this, buckets, view.entries
      ensures Valid() && other.Valid() && ops == old(ops) && (buckets == old(buckets) || fresh(buckets))
      ensures old(view.entries) <= view.entries && fresh(view.entries - old(view.entries))
      ensures view.contents == old(view.contents) + Missing(old(view.contents), other.view.contents)
    {
      hide WellFormed, Find, Distinct, Merged, Missing, Drop, Counts, OrderedMap.Put;
      ghost var m0, o0, p := view.contents, other.view.contents, 0;
      other.DistinctContents();
      MergeStart(m0, o0);
      other.HeadIsFirst();
      var e := other.iterateListHead;
      while e != null
        invariant Valid() && other.Valid() && ops == old(ops)
        invariant buckets == old(buckets) || fresh(buckets)
        invariant old(view.entries) <= view.entries && fresh(view.entries - old(view.entries))
        invariant 0 <= p <= |o0| == |other.view.order| && e == At(other.view.order, p)
        invariant Merged(m0, o0, p, view.contents) && |view.contents| <= |m0| + p
        decreases |o0| - p
      {
        other.EntryAt(p);
        MergeStep(m0, o0, p, view.contents);
        var _ := Put(e.key, e.value);
        p := p + 1;
        e := e.iterateNext;
      }
      MergeDone(m0, o0, view.contents);
    }

    /** hashmap_copy. */
    static method Copy(h: Hashmap) returns (copy: Hashmap)
      requires h.Valid() && |h.view.contents| < 0xFFFF_FFFF
      ensures copy.Valid() && fresh(copy) && copy.ops == h.ops && copy.view.contents == h.view.contents
    {
      copy := new Hashmap(h.ops);
      copy.Merge(h);
      AllMissing(h.view.contents);
    }

    /** unlink_entry, new key and value, link_entry. */
    method Relocate(e: Entry, oldHash: nat, newKey: Ptr, newHash: nat, value: Ptr, ghost i: nat)
      requires Valid() && i < |view.order| && view.order[i] == e && e in view.entries
      requires oldHash == Slot(e.key) && newHash == Slot(newKey)
      requires Find(Drop(view.contents, i), ops.cls(newKey)) < 0
      modifies this, buckets, view.entries
      ensures Valid() && ops == old(ops) && buckets == old(buckets) && view.entries == old(view.entries)
      ensures view.contents == Drop(old(view.contents), i) + [Item(ops.cls(newKey), newKey, value)]
    {
      hide WellFormed;
      UnlinkEntry(e, oldHash, i);
      e.key := newKey;
      e.value := value;
      LinkEntry(e, newHash);
    }
  }

  // ---- growth ----

  datatype Counters = Counters(n: nat, b: nat, inserted: nat, relinked: nat)
  datatype Step = Insertion | Removal | Clearing

  /** The counters after a put that adds an entry. */
  ghost function Grown(c: Counters): Counters {
    if Wrap(c.n * 4) >= Wrap(c.b * 3)
    then Counters(c.n + 1, Wrap(c.n * 4 + 3), c.inserted + 1, c.relinked + c.n)
    else Counters(c.n + 1, c.b, c.inserted + 1, c.relinked)
  }

  ghost function After(steps: seq<Step>): (c: Counters) {
    if steps == [] then Counters(0, INITIAL_N_BUCKETS, 0, 0)
    else
      var c := After(steps[..|steps| - 1]);
      match steps[|steps| - 1]
      case Insertion => Grown(c)
      case Removal => if c.n == 0 then c else c.(n := c.n - 1)
      case Clearing => c.(n := 0)
  }

  ghost predicate Load(c: Counters) {
    4 * c.n <= 3 * c.b + 3
  }

  ghost predicate Resizes(c: Counters) {
    Wrap(c.n * 4) >= Wrap(c.b * 3)
  }

  /** The product with the table's size wraps, and the table is taken for full. */
  ghost predicate Early(c: Counters) {
    c.b * 3 >= 0x1_0000_0000 && Resizes(c)
  }

  lemma WrapSmall(x: nat)
    requires x < 0x1_0000_0000
    ensures Wrap(x) == x
  {
  }

  lemma WrapLess(x: nat)
    ensures Wrap(x) <= x
  {
  }

  /** Below 2^30 entries the load bound is kept by every put, and a resize takes `b`
      buckets to at least 3b + 3 exactly when it is not an early one. */
  lemma GrowthExact(c: Counters)
    requires c.n < 0x4000_0000 && Load(c)
    ensures Load(Grown(c))
    ensures (Resizes(c) ==> Grown(c).b >= 3 * c.b + 3) <==> !Early(c)
  {
    hide Wrap;
    WrapSmall(c.n * 4);
    WrapSmall(c.n * 4 + 3);
    WrapLess(c.b * 3);
    if c.b * 3 < 0x1_0000_0000 {
      WrapSmall(c.b * 3);
    }
  }

  /** What the resizes so far have cost is covered by the table they made, and that by
      the inserts. */
  ghost predicate Paid(c: Counters) {
    && Load(c) && c.b >= INITIAL_N_BUCKETS && c.n <= c.inserted
    && 8 * c.relinked <= 3 * (c.b - 3) && (c.relinked == 0 || c.b - 3 <= 4 * c.inserted)
  }

  lemma GrownPaid(c: Counters)
    requires c.n < 0x4000_0000 && Paid(c) && !Early(c)
    ensures Paid(Grown(c))
  {
    hide Wrap;
    GrowthExact(c);
    WrapSmall(c.n * 4 + 3);
  }

  lemma AfterPrefix(steps: seq<Step>, i: nat)
    requires i < |steps|
    ensures steps[..|steps| - 1][..i] == steps[..i]
  {
  }

  /** In every run below 2^30 entries the load bound holds, whatever wraps. */
  lemma {:induction false} RunLoad(steps: seq<Step>)
    requires forall i :: 0 <= i < |steps| && steps[i] == Insertion ==> After(steps[..i]).n < 0x4000_0000
    ensures Load(After(steps))
  {
    hide Grown;
    if steps != [] {
      var s := steps[..|steps| - 1];
      forall i | 0 <= i < |s| ensures s[..i] == steps[..i] {
        AfterPrefix(steps, i);
      }
      RunLoad(s);
      if steps[|s|] == Insertion {
        GrowthExact(After(s));
      }
    }
  }

  /** In every run without early resizes, at most three entries are re-linked by
      resizes for every two successful inserts. */
  lemma {:induction false} RunCost(steps: seq<Step>)
    requires forall i :: 0 <= i < |steps| && steps[i] == Insertion ==>
      After(steps[..i]).n < 0x4000_0000 && !Early(After(steps[..i]))
    ensures Paid(After(steps))
    ensures 2 * After(steps).relinked <= 3 * After(steps).inserted
  {
    hide Grown, Early;
    if steps != [] {
      var s := steps[..|steps| - 1];
      forall i | 0 <= i < |s| ensures s[..i] == steps[..i] {
        AfterPrefix(steps, i);
      }
      RunCost(s);
      if steps[|s|] == Insertion {
        GrownPaid(After(s));
      }
    }
  }

  // ---- when the first early resize comes ----

  /** The last entry count at which a put that adds an entry is safe. */
  const LAST_SAFE: nat := 365_897_127
  const LARGEST: nat := 1_463_588_511

  /** The sizes a table goes through. */
  ghost predicate OnLadder(b: nat) {
    b in {31, 99, 303, 915, 2751, 8259, 24783, 74355, 223071, 669219, 2007663, 6022995, 18068991, 54206979,
          162620943, 487862835, LARGEST}
  }

  /** The highest entry count a run has seen. */
  ghost function Peak(steps: seq<Step>): nat {
    if steps == [] then 0
    else
      var p, n := Peak(steps[..|steps| - 1]), After(steps).n;
      if n > p then n else p
  }

  /** No entry is added once there have been more than LAST_SAFE of them. */
  ghost predicate Modest(steps: seq<Step>) {
    forall i :: 0 <= i < |steps| && steps[i] == Insertion ==> Peak(steps[..i]) <= LAST_SAFE
  }

  lemma NextRung(c: Counters)
    requires OnLadder(c.b) && c.b < LARGEST && Load(c)
    ensures !Early(c) && OnLadder(Grown(c).b)
    ensures Grown(c).b == LARGEST ==> c.n == LAST_SAFE
  {
    hide Wrap;
    WrapSmall(c.n * 4);
    WrapSmall(c.b * 3);
    WrapSmall(c.n * 4 + 3);
  }

  lemma {:induction false} ModestLadder(steps: seq<Step>)
    requires Modest(steps)
    ensures Load(After(steps)) && OnLadder(After(steps).b) && After(steps).n <= Peak(steps)
    ensures After(steps).b == LARGEST ==> Peak(steps) > LAST_SAFE
    ensures forall i :: 0 <= i < |steps| && steps[i] == Insertion ==>
      After(steps[..i]).n < 0x4000_0000 && !Early(After(steps[..i]))
  {
    hide OnLadder, Early, Grown;
    if steps == [] {
      FirstRung();
    } else {
      var s := steps[..|steps| - 1];
      forall i | 0 <= i < |s| ensures s[..i] == steps[..i] {
        AfterPrefix(steps, i);
      }
      assert Modest(s);
      ModestLadder(s);
      hide Modest;
      if steps[|s|] == Insertion {
        assert Peak(steps[..|s|]) <= LAST_SAFE by { ModestNow(steps); }
        ModestStep(After(s));
      }
    }
  }

  lemma ModestNow(steps: seq<Step>)
    requires Modest(steps) && steps != [] && steps[|steps| - 1] == Insertion
    ensures Peak(steps[..|steps| - 1]) <= LAST_SAFE
  {
  }

  lemma ModestStep(c: Counters)
    requires OnLadder(c.b) && c.b != LARGEST && Load(c)
    ensures c.n < 0x4000_0000 && !Early(c)
    ensures Load(Grown(c)) && OnLadder(Grown(c).b) && Grown(c).n == c.n + 1
    ensures Grown(c).b == LARGEST ==> Grown(c).n > LAST_SAFE
  {
    hide OnLadder, Early, Grown;
    LadderEnds(c.b);
    NextRung(c);
    GrowthExact(c);
    OneMore(c);
  }

  lemma FirstRung()
    ensures OnLadder(INITIAL_N_BUCKETS)
  {
  }

  lemma LadderEnds(b: nat)
    requires OnLadder(b)
    ensures b == LARGEST || b <= 487_862_835
  {
  }

  lemma OneMore(c: Counters)
    ensures Grown(c).n == c.n + 1 && Grown(c).inserted == c.inserted + 1
  {
  }

  /** A caller that adds no entry once there have been more than 365 897 127 pays at
      most three re-links for two inserts, and never for an early resize. */
  lemma ModestCost(steps: seq<Step>)
    requires Modest(steps)
    ensures 4 * After(steps).n <= 3 * After(steps).b + 3
    ensures 2 * After(steps).relinked <= 3 * After(steps).inserted
    ensures forall i :: 0 <= i < |steps| && steps[i] == Insertion && Resizes(After(steps[..i])) ==>
      Grown(After(steps[..i])).b >= 3 * After(steps[..i]).b + 3
  {
    hide Early, Grown, Resizes, OnLadder;
    ModestLadder(steps);
    RunCost(steps);
    forall i | 0 <= i < |steps| && steps[i] == Insertion && Resizes(After(steps[..i]))
      ensures Grown(After(steps[..i])).b >= 3 * After(steps[..i]).b + 3
    {
      forall j | 0 <= j < i ensures steps[..i][..j] == steps[..j] {}
      RunLoad(steps[..i]);
      GrowthExact(After(steps[..i]));
    }
  }

  ghost function Inserts(n: nat): seq<Step> {
    seq(n, i => Insertion)
  }

  lemma InsertsOne(n: nat)
    ensures Inserts(n + 1)[..n] == Inserts(n)
    ensures After(Inserts(n + 1)) == Grown(After(Inserts(n)))
  {
    var s := Inserts(n + 1);
    assert s[..n] == Inserts(n);
    assert After(s) == Grown(After(s[..|s| - 1]));
  }

  /** From `m` entries to one more than `t`, where the next resize comes. */
  lemma {:induction false} Rung(m: nat, t: nat, b: nat, r: nat)
    requires After(Inserts(m)) == Counters(m, b, m, r)
    requires m <= t < 0x4000_0000 && 4 * t < 3 * b + 4 && 3 * b < 0x1_0000_0000
    ensures After(Inserts(t)) == Counters(t, b, t, r)
    ensures 3 * b <= 4 * t ==> After(Inserts(t + 1)) == Counters(t + 1, 4 * t + 3, t + 1, r + t)
    decreases t
  {
    hide Wrap, Inserts, After;
    if m < t {
      Rung(m, t - 1, b, r);
      InsertsOne(t - 1);
      WrapSmall((t - 1) * 4);
      WrapSmall(b * 3);
    }
    InsertsOne(t);
    WrapSmall(t * 4);
    WrapSmall(t * 4 + 3);
    WrapSmall(b * 3);
  }

  lemma LowerRungs()
    ensures After(Inserts(55768)) == Counters(55768, 223071, 55768, 83628)
  {
    hide Inserts, After, Grown;
    NoInserts();
    Rung(0, 24, 31, 0);
    Rung(25, 75, 99, 24);
    Rung(76, 228, 303, 99);
    Rung(229, 687, 915, 327);
    Rung(688, 2064, 2751, 1014);
    Rung(2065, 6195, 8259, 3078);
    Rung(6196, 18588, 24783, 9273);
    Rung(18589, 55767, 74355, 27861);
  }

  lemma UpperRungs()
    ensures After(Inserts(365_897_128)) == Counters(365_897_128, LARGEST, 365_897_128, 548_845_656)
  {
    hide Inserts, After, Grown;
    LowerRungs();
    Rung(55768, 167304, 223071, 83628);
    Rung(167305, 501915, 669219, 250932);
    Rung(501916, 1505748, 2007663, 752847);
    Rung(1505749, 4517247, 6022995, 2258595);
    Rung(4517248, 13551744, 18068991, 6775842);
    Rung(13551745, 40655235, 54206979, 20327586);
    Rung(40655236, 121965708, 162620943, 60982821);
    Rung(121965709, 365897127, 487862835, 182948529);
  }

  /** The 365 897 129th insert resizes to only four buckets more, and breaks the bound. */
  lemma FirstOverrun()
    ensures After(Inserts(365_897_128)) == Counters(365_897_128, LARGEST, 365_897_128, 548_845_656)
    ensures Early(After(Inserts(365_897_128)))
    ensures var c := After(Inserts(365_897_129));
      c == Counters(365_897_129, LARGEST + 4, 365_897_129, 914_742_784) && 2 * c.relinked > 3 * c.inserted
  {
    hide Inserts, After;
    UpperRungs();
    InsertsOne(365_897_128);
  }

  lemma NoInserts()
    ensures After(Inserts(0)) == Counters(0, 31, 0, 0)
  {
  }

  /** Nor is it enough that the count is not above that when a put comes: an entry
      removed and added again does as much. */
  lemma OverrunAgain()
    ensures var s := Inserts(365_897_128) + [Removal];
      After(s).n == LAST_SAFE && 2 * After(s + [Insertion]).relinked > 3 * After(s + [Insertion]).inserted
  {
    FirstOverrun();
    hide Inserts;
    var i := Inserts(365_897_128);
    var s := i + [Removal];
    var t := s + [Insertion];
    assert s[..|s| - 1] == i && t[..|t| - 1] == s;
    assert After(s) == After(i).(n := LAST_SAFE);
    assert After(t) == Grown(After(s));
  }

  lemma {:induction false} AllMissing(o: Entries)
    ensures Missing([], o) == o
  {
    if o != [] {
      AllMissing(o[1..]);
    }
  }

  lemma DropAt(c: seq<Entry>, q: nat)
    requires q < |c|
    ensures At(Drop(c, q), q) == At(c, q + 1)
  {
  }

  /** hashmap_move has passed `p` entries of `o0`, of which `q` stayed. */
  ghost predicate Moved(m0: Entries, o0: Entries, p: nat, q: nat, m: Entries, o: Entries) {
    && p <= |o0| && Distinct(o0)
    && m == m0 + Missing(m0, o0[..p])
    && o == Shared(m0, o0[..p]) + o0[p..]
    && q == |Shared(m0, o0[..p])|
  }

  lemma MoveStart(m0: Entries, o0: Entries)
    requires Distinct(o0)
    ensures Moved(m0, o0, 0, 0, m0, o0)
  {
  }

  lemma MoveStep(m0: Entries, o0: Entries, p: nat, q: nat, m: Entries, o: Entries)
    requires Moved(m0, o0, p, q, m, o) && q < |o|
    ensures p < |o0| && o[q] == o0[p]
    ensures Find(m, o[q].id) >= 0 ==> Moved(m0, o0, p + 1, q + 1, m, o)
    ensures Find(m, o[q].id) < 0 ==> Moved(m0, o0, p + 1, q, m + [o[q]], Drop(o, q))
  {
    hide Find, Missing, Shared;
    var x, d := o0[p], o0[..p];
    MissingSnoc(m0, d, x);
    MissingFind(m0, o0, p);
    assert o0[..p + 1] == d + [x] && o0[p..] == [x] + o0[p + 1..];
  }

  lemma MissingSnoc(m: Entries, d: Entries, x: Item<nat, Ptr, Ptr>)
    ensures Missing(m, d + [x]) == Missing(m, d) + if Find(m, x.id) < 0 then [x] else []
    ensures Shared(m, d + [x]) == Shared(m, d) + if Find(m, x.id) >= 0 then [x] else []
  {
    FilterSnoc((x: Item<nat, Ptr, Ptr>) => Find(m, x.id) < 0, d, x);
    FilterSnoc((x: Item<nat, Ptr, Ptr>) => Find(m, x.id) >= 0, d, x);
  }

  /** An entry not yet visited is found in the growing map only if it was there. */
  lemma MissingFind(m0: Entries, o0: Entries, p: nat)
    requires p < |o0| && Distinct(o0)
    ensures Find(m0 + Missing(m0, o0[..p]), o0[p].id) >= 0 <==> Find(m0, o0[p].id) >= 0
  {
    var f := Missing(m0, o0[..p]);
    FindAppend(m0, f, o0[p].id);
    forall j | 0 <= j < |f| ensures f[j].id != o0[p].id {
      assert f[j] in o0[..p];
    }
  }

  /** hashmap_merge has passed `p` entries of `o0`. */
  ghost predicate Merged(m0: Entries, o0: Entries, p: nat, m: Entries) {
    p <= |o0| && Distinct(o0) && m == m0 + Missing(m0, o0[..p])
  }

  lemma MergeStart(m0: Entries, o0: Entries)
    requires Distinct(o0)
    ensures Merged(m0, o0, 0, m0)
  {
  }

  lemma MergeStep(m0: Entries, o0: Entries, p: nat, m: Entries)
    requires Merged(m0, o0, p, m) && p < |o0|
    ensures Merged(m0, o0, p + 1, OrderedMap.Put(m, o0[p]))
    ensures |OrderedMap.Put(m, o0[p])| <= |m| + 1
  {
    hide Find, Missing, Shared;
    MissingSnoc(m0, o0[..p], o0[p]);
    MissingFind(m0, o0, p);
    assert o0[..p + 1] == o0[..p] + [o0[p]];
  }

  lemma MergeDone(m0: Entries, o0: Entries, m: Entries)
    requires Merged(m0, o0, |o0|, m)
    ensures m == m0 + Missing(m0, o0)
  {
    assert o0[..|o0|] == o0;
  }

  lemma MoveDone(m0: Entries, o0: Entries, p: nat, q: nat, m: Entries, o: Entries)
    requires Moved(m0, o0, p, q, m, o) && q >= |o|
    ensures m == m0 + Missing(m0, o0) && o == Shared(m0, o0)
  {
    assert o0[..p] == o0;
  }

  /** A removing iteration over `m` has passed `i` entries and kept those with `q`. */
  ghost predicate Swept(q: Item<nat, Ptr, Ptr> -> bool, m: Entries, i: nat, kept: Entries, visited: Entries, now: Entries) {
    && i <= |m| && visited == m[..i] && kept == Filter(q, m[..i])
    && now == kept + m[i..]
    && forall j :: 0 <= j < i ==> m[j].value != 0
  }

  lemma SweepStart(q: Item<nat, Ptr, Ptr> -> bool, m: Entries)
    ensures Swept(q, m, 0, [], [], m)
  {
  }

  lemma SweepStep(q: Item<nat, Ptr, Ptr> -> bool, m: Entries, i: nat, kept: Entries, visited: Entries, now: Entries)
    requires Swept(q, m, i, kept, visited, now)
    requires |kept| < |now| && now[|kept|].value != 0
    ensures i < |m| && now[|kept|] == m[i]
    ensures q(m[i]) ==> Swept(q, m, i + 1, kept + [m[i]], visited + [m[i]], now)
    ensures !q(m[i]) ==> Swept(q, m, i + 1, kept, visited + [m[i]], Drop(now, |kept|))
  {
    assert m[..i + 1] == m[..i] + [m[i]] && m[i..] == [m[i]] + m[i + 1..];
    FilterSnoc(q, m[..i], m[i]);
  }

  lemma SweepDone(q: Item<nat, Ptr, Ptr> -> bool, m: Entries, i: nat, kept: Entries, visited: Entries, now: Entries)
    requires Swept(q, m, i, kept, visited, now)
    requires |kept| < |now| ==> now[|kept|].value == 0
    ensures var n := NonNull(m); visited == m[..n] && now == Filter(q, m[..n]) + m[n..]
  {
    NonNullIs(m, i);
  }

  lemma {:induction false} NonNullIs(m: Entries, i: nat)
    requires i <= |m| && (i < |m| ==> m[i].value == 0)
    requires forall j :: 0 <= j < i ==> m[j].value != 0
    ensures NonNull(m) == i
  {
  }

  lemma NewTable(n: array<Entry?>, ns: seq<seq<Entry>>, ops: KeyOps)
    requires |ns| == n.Length > 0
    requires forall b :: 0 <= b < n.Length ==> n[b] == null && ns[b] == []
    ensures Chained(ns, n, Members([])) && Filed([], Members([]), ns, ops, n.Length)
  {
  }

  lemma ChainCount(ns: seq<seq<Entry>>, n: array<Entry?>, es: set<Entry>)
    requires Chained(ns, n, es)
    ensures |ns| == n.Length
  {
  }

  /** When no entry is left over, every bucket of the old table is empty. */
  lemma Emptied(cs: seq<seq<Entry>>, t: array<Entry?>)
    requires Chained(cs, t, Members([]))
    ensures forall b :: 0 <= b < t.Length ==> t[b] == null
  {
    forall b | 0 <= b < t.Length ensures t[b] == null {
      assert Chain(cs[b], b, t[b]);
    }
  }

  /** The value of an unsigned 32-bit expression. */
  function Wrap(x: nat): nat {
    x % 0x1_0000_0000
  }

  lemma WrapGrowth(n: nat)
    ensures Wrap((n + 1) * 4 - 1) == Wrap(n * 4 + 3) >= 3
  {
  }

  lemma SplitMembers(u: seq<Entry>, w: seq<Entry>)
    requires NoDup(w + u) && u != []
    ensures Members(u) !! Members(w) && Members(u) <= Members(w + u) && Members(w) <= Members(w + u)
    ensures Members(u[1..]) == Members(u) - {u[0]} && Members(w + [u[0]]) == Members(w) + {u[0]}
  {
    var s := w + u;
    assert forall j :: 0 <= j < |w| ==> s[j] == w[j];
    assert forall j :: 0 <= j < |u| ==> s[|w| + j] == u[j];
    var t := u[1..];
    assert forall j :: 0 <= j < |t| ==> t[j] == u[j + 1];
    assert forall j :: 1 <= j < |u| ==> u[j] == t[j - 1];
    var v := w + [u[0]];
    assert forall j :: 0 <= j < |w| ==> v[j] == w[j];
    assert v[|w|] == u[0];
  }
}
