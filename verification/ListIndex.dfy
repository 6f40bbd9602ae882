/** The maps of lists of src/core/daemon.c, notify_mapping and client_key_mapping: the
    map holds a pointer to the head node of each list, which must be stored again
    whenever the head changes. A list's data are pointers. */
module ListIndexes {
  import opened Basics
  import opened BuxtonLists

  /** The nodes `c` are all of the list kept under `k`. */
  ghost predicate Owned(c: seq<Node>, owner: map<Node, string>, k: string) {
    forall i :: 0 <= i < |c| ==> c[i] in owner && owner[c[i]] == k
  }

  /** `head` is the head of the list as it now is, which is not empty. */
  ghost predicate Headed(head: Node, c: seq<Node>, l: seq<Ptr>)
    reads c`next, c`tail, c`size, c`data
  {
    c != [] && IsList(head, c) && l == Data(c)
  }

  /** Every pointer in the map is the head of its list, and no list is empty or shares a
      node with another. `chains` and `lists` are the lists' nodes and data; `owner` is
      the key of the list a node belongs to. */
  ghost predicate Indexed(heads: map<string, Node>, chains: map<string, seq<Node>>, lists: map<string, seq<Ptr>>,
      owner: map<Node, string>)
    reads owner.Keys
  {
    && chains.Keys == heads.Keys == lists.Keys
    && (forall k :: k in heads ==> Owned(chains[k], owner, k))
    && forall k :: k in heads ==> Headed(heads[k], chains[k], lists[k])
  }

  /** The nodes of the other lists. */
  ghost function Rest(owner: map<Node, string>, k: string): set<Node> {
    set n | n in owner && owner[n] != k
  }

  /** The same but for one key; it depends on the other lists' nodes only. */
  ghost predicate IndexedElse(heads: map<string, Node>, chains: map<string, seq<Node>>, lists: map<string, seq<Ptr>>,
      owner: map<Node, string>, k: string)
    reads Rest(owner, k)
  {
    && chains.Keys == heads.Keys == lists.Keys
    && (forall m :: m in heads && m != k ==> Owned(chains[m], owner, m))
    && forall m :: m in heads && m != k ==> Headed(heads[m], chains[m], lists[m])
  }

  lemma Stored(heads: map<string, Node>, chains: map<string, seq<Node>>, lists: map<string, seq<Ptr>>,
      owner: map<Node, string>, k: string, head: Node, c: seq<Node>, l: seq<Ptr>, owner': map<Node, string>)
    requires IndexedElse(heads, chains, lists, owner, k)
    requires owner.Keys <= owner'.Keys && forall n :: n in owner ==> owner'[n] == owner[n]
    requires Owned(c, owner', k) && Headed(head, c, l)
    ensures Indexed(heads[k := head], chains[k := c], lists[k := l], owner')
  {
    hide Headed;
    var heads', chains' := heads[k := head], chains[k := c];
    forall m | m in heads' ensures Owned(chains'[m], owner', m) {
      assert m != k ==> Owned(chains[m], owner, m);
    }
  }

  lemma Unstored(heads: map<string, Node>, chains: map<string, seq<Node>>, lists: map<string, seq<Ptr>>,
      owner: map<Node, string>, k: string)
    requires IndexedElse(heads, chains, lists, owner, k)
    ensures Indexed(heads - {k}, chains - {k}, lists - {k}, owner)
  {
    hide Headed, Owned;
  }

  function ListAt(lists: map<string, seq<Ptr>>, k: string): seq<Ptr> {
    if k in lists then lists[k] else []
  }

  /** What is known of one list, and of the others. */
  lemma OneList(heads: map<string, Node>, chains: map<string, seq<Node>>, lists: map<string, seq<Ptr>>,
      owner: map<Node, string>, k: string)
    requires Indexed(heads, chains, lists, owner)
    ensures chains.Keys == heads.Keys == lists.Keys && IndexedElse(heads, chains, lists, owner, k)
    ensures k in heads ==>
      && Owned(chains[k], owner, k) && Headed(heads[k], chains[k], lists[k])
      && forall n :: n in chains[k] ==> n in owner && n !in Rest(owner, k)
  {
  }

  lemma OwnedSnoc(c: seq<Node>, n: Node, owner: map<Node, string>, k: string)
    requires Owned(c, owner, k)
    ensures n !in owner ==> Owned(c + [n], owner[n := k], k)
  {
  }

  lemma OwnedDrop(c: seq<Node>, owner: map<Node, string>, k: string, i: nat)
    requires Owned(c, owner, k) && i < |c|
    ensures Owned(Drop(c, i), owner, k)
  {
  }

  /** An item is appended to a list, or makes one. */
  method AppendOwned(head: Node?, data: Ptr, ghost c: seq<Node>, ghost k: string, ghost owner: map<Node, string>)
    returns (list: Node, ghost c': seq<Node>, ghost owner': map<Node, string>)
    requires IsList(head, c) && Owned(c, owner, k) && forall n :: n in c ==> n in owner
    modifies c`next, c`tail, c`size
    ensures Headed(list, c', old(Data(c)) + [data]) && Owned(c', owner', k) && (head != null ==> list == head)
    ensures owner.Keys <= owner'.Keys && fresh(owner'.Keys - owner.Keys) && forall n :: n in owner ==> owner'[n] == owner[n]
  {
    hide IsList, Data, Owned;
    var l;
    l, c' := Append(head, data, c);
    HeadOf(l, c');
    list := l;
    ghost var n := c'[|c|];
    assert c' == c + [n];
    OwnedSnoc(c, n, owner, k);
    owner' := owner[n := k];
  }

  /** A new list's head is stored. */
  method AddNew(heads: map<string, Node>, k: string, data: Ptr,
      ghost chains: map<string, seq<Node>>, ghost lists: map<string, seq<Ptr>>, ghost owner: map<Node, string>)
    returns (heads': map<string, Node>,
      ghost chains': map<string, seq<Node>>, ghost lists': map<string, seq<Ptr>>, ghost owner': map<Node, string>)
    requires Indexed(heads, chains, lists, owner) && k !in heads
    ensures Indexed(heads', chains', lists', owner') && fresh(owner'.Keys - owner.Keys)
    ensures lists' == lists[k := [data]]
  {
    hide IsList, Data, Indexed, Owned;
    ghost var c' := [];
    var list;
    EmptyList(owner, k);
    OneList(heads, chains, lists, owner, k);
    list, c', owner' := AppendOwned(null, data, [], k, owner);
    assert [] + [data] == [data];
    Stored(heads, chains, lists, owner, k, list, c', [data], owner');
    heads', chains', lists' := heads[k := list], chains[k := c'], lists[k := [data]];
  }

  /** An old list's head stays. */
  method AddOld(heads: map<string, Node>, k: string, data: Ptr,
      ghost chains: map<string, seq<Node>>, ghost lists: map<string, seq<Ptr>>, ghost owner: map<Node, string>)
    returns (heads': map<string, Node>,
      ghost chains': map<string, seq<Node>>, ghost lists': map<string, seq<Ptr>>, ghost owner': map<Node, string>)
    requires Indexed(heads, chains, lists, owner) && k in heads && k in lists
    modifies owner.Keys`next, owner.Keys`tail, owner.Keys`size
    ensures Indexed(heads', chains', lists', owner') && fresh(owner'.Keys - owner.Keys)
    ensures lists' == lists[k := lists[k] + [data]]
  {
    hide IsList, Data, Indexed, Owned;
    OneList(heads, chains, lists, owner, k);
    ghost var c, c', l' := chains[k], [], lists[k] + [data];
    var list;
    list, c', owner' := AppendOwned(heads[k], data, c, k, owner);
    Stored(heads, chains, lists, owner, k, list, c', l', owner');
    heads', chains', lists' := heads, chains[k := c'], lists[k := l'];
    assert heads == heads[k := list];
  }

  method AddTo(heads: map<string, Node>, k: string, data: Ptr,
      ghost chains: map<string, seq<Node>>, ghost lists: map<string, seq<Ptr>>, ghost owner: map<Node, string>)
    returns (heads': map<string, Node>,
      ghost chains': map<string, seq<Node>>, ghost lists': map<string, seq<Ptr>>, ghost owner': map<Node, string>)
    requires Indexed(heads, chains, lists, owner)
    modifies owner.Keys`next, owner.Keys`tail, owner.Keys`size
    ensures Indexed(heads', chains', lists', owner') && fresh(owner'.Keys - owner.Keys)
    ensures lists' == lists[k := ListAt(lists, k) + [data]]
  {
    hide Indexed, IndexedElse, Headed, Owned;
    OneList(heads, chains, lists, owner, k);
    if k in heads {
      heads', chains', lists', owner' := AddOld(heads, k, data, chains, lists, owner);
    } else {
      heads', chains', lists', owner' := AddNew(heads, k, data, chains, lists, owner);
      assert [] + [data] == [data];
    }
  }

  /** The first item with the data is taken off its list. A head that changed is stored
      again, and an empty list goes. */
  method TakeFrom(heads: map<string, Node>, k: string, data: Ptr,
      ghost chains: map<string, seq<Node>>, ghost lists: map<string, seq<Ptr>>, ghost owner: map<Node, string>)
    returns (heads': map<string, Node>, ghost chains': map<string, seq<Node>>, ghost lists': map<string, seq<Ptr>>)
    requires Indexed(heads, chains, lists, owner) && k in heads && k in lists
    modifies owner.Keys`next, owner.Keys`tail, owner.Keys`size
    ensures Indexed(heads', chains', lists', owner)
    ensures var i := FirstOf(lists[k], data);
      lists' == if i < 0 then lists else PutList(lists, k, Drop(lists[k], i))
  {
    hide IsList, Data, FirstOf, Indexed, Drop, Owned;
    OneList(heads, chains, lists, owner, k);
    ghost var c, i := chains[k], FirstOf(lists[k], data);
    var plist := heads[k];
    var list, found;
    ghost var c';
    list, found, c' := Remove(plist, data, c);
    HeadOf(list, c');
    if list == null {
      Unstored(heads, chains, lists, owner, k);
      heads', chains', lists' := heads - {k}, chains - {k}, lists - {k};
    } else {
      if i >= 0 {
        OwnedDrop(c, owner, k, i);
      }
      Stored(heads, chains, lists, owner, k, list, c', Data(c'), owner);
      heads' := if list != plist then heads[k := list] else heads;
      chains', lists' := chains[k := c'], lists[k := Data(c')];
      assert heads' == heads[k := list];
    }
  }

  class ListIndex {
    var heads: map<string, Node>
    ghost var chains: map<string, seq<Node>>
    ghost var lists: map<string, seq<Ptr>>
    ghost var owner: map<Node, string>

    ghost predicate Valid()
      reads this, owner.Keys
    {
      Indexed(heads, chains, lists, owner)
    }

    constructor ()
      ensures Valid() && lists == map[]
    {
      heads, chains, lists, owner := map[], map[], map[], map[];
    }

    method Add(k: string, data: Ptr)
      requires Valid()
      modifies this, owner.Keys`next, owner.Keys`tail, owner.Keys`size
      ensures Valid() && fresh(owner.Keys - old(owner.Keys))
      ensures lists == old(lists)[k := ListAt(old(lists), k) + [data]]
    {
      hide Indexed, ListAt;
      heads, chains, lists, owner := AddTo(heads, k, data, chains, lists, owner);
    }

    method Take(k: string, data: Ptr)
      requires Valid() && k in heads
      modifies this`heads, this`chains, this`lists, owner.Keys`next, owner.Keys`tail, owner.Keys`size
      ensures Valid() && k in old(lists)
      ensures var l := old(lists)[k];
        var i := FirstOf(l, data);
        lists == if i < 0 then old(lists) else PutList(old(lists), k, Drop(l, i))
    {
      hide Indexed, IndexedElse, Owned, Headed, Rest, IsList, Data, FirstOf, Drop;
      OneList(heads, chains, lists, owner, k);
      heads, chains, lists := TakeFrom(heads, k, data, chains, lists, owner);
    }
  }

  lemma EmptyList(owner: map<Node, string>, k: string)
    ensures IsList(null, []) && Data([]) == [] && Owned([], owner, k)
  {
  }

  lemma HeadOf(head: Node?, c: seq<Node>)
    requires IsList(head, c)
    ensures head == null <==> c == []
    ensures Data(c) == [] <==> c == []
  {
  }
}
