/** The singly linked list of src/shared/buxtonlist.c. Only the head node's
    `size` and `tail` mean anything; the other nodes' are stale. */
module BuxtonLists {
  import opened Basics

  type Ptr = nat

  class Node {
    var data: Ptr
    var next: Node?
    var tail: Node?
    var size: nat

    constructor (data: Ptr)
      ensures this.data == data && next == null && tail == null && size == 0
    {
      this.data, next, tail, size := data, null, null, 0;
    }
  }

  ghost function At(c: seq<Node>, i: int): Node? {
    if 0 <= i < |c| then c[i] else null
  }

  ghost predicate Follows(c: seq<Node>, i: nat)
    requires i < |c|
    reads c`next
  {
    c[i].next == At(c, i + 1)
  }

  /** The nodes of the list that starts at `head`, and what its head says of it. */
  ghost predicate IsList(head: Node?, c: seq<Node>)
    reads c`next, c`tail, c`size
  {
    && head == At(c, 0)
    && (forall i, j :: 0 <= i < j < |c| ==> c[i] != c[j])
    && (forall i {:trigger Follows(c, i)} :: 0 <= i < |c| ==> Follows(c, i))
    && (c != [] ==> c[0].size == |c| && c[0].tail == c[|c| - 1])
  }

  ghost function Data(c: seq<Node>): (s: seq<Ptr>)
    reads c`data
    ensures |s| == |c| && forall i :: 0 <= i < |c| ==> s[i] == c[i].data
  {
    if c == [] then [] else [c[0].data] + Data(c[1..])
  }

  method Append(head: Node?, data: Ptr, ghost c: seq<Node>) returns (list: Node?, ghost c': seq<Node>)
    requires IsList(head, c)
    modifies c`next, c`tail, c`size
    ensures IsList(list, c') && Data(c') == old(Data(c)) + [data]
    ensures |c'| == |c| + 1 && c'[..|c|] == c && fresh(c'[|c|])
    ensures head != null ==> list == head
  {
    hide Data;
    var node := new Node(data);
    c' := c + [node];
    if head == null {
      node.size := 1;
      node.tail := node;
      list := node;
    } else {
      head.size := head.size + 1;
      var parent := head.tail;
      parent.next := node;
      head.tail := node;
      list := head;
    }
    forall i | 0 <= i < |c'| ensures Follows(c', i) {
      assert i < |c| ==> old(Follows(c, i));
    }
    assert Data(c') == old(Data(c)) + [data];
  }

  method Prepend(head: Node?, data: Ptr, ghost c: seq<Node>) returns (list: Node?, ghost c': seq<Node>)
    requires IsList(head, c)
    modifies c`tail, c`size
    ensures IsList(list, c') && Data(c') == [data] + old(Data(c))
    ensures |c'| == |c| + 1 && c'[1..] == c && fresh(c'[0])
  {
    hide Data;
    var node := new Node(data);
    c' := [node] + c;
    if head == null {
      node.size := 1;
      node.tail := node;
    } else {
      node.size := head.size + 1;
      head.size := 0;
      node.next := head;
      node.tail := head.tail;
      head.tail := null;
    }
    list := node;
    forall i | 0 <= i < |c'| ensures Follows(c', i) {
      assert i > 0 ==> old(Follows(c, i - 1));
    }
  }

  method Remove(head: Node?, data: Ptr, ghost c: seq<Node>) returns (list: Node?, found: bool, ghost c': seq<Node>)
    requires IsList(head, c)
    modifies c`next, c`tail, c`size
    ensures IsList(list, c')
    ensures var k := FirstOf(old(Data(c)), data);
      if k < 0 then !found && list == head && c' == c
      else found && c' == Drop(c, k) && Data(c') == Drop(old(Data(c)), k)
  {
    hide IsList, FirstOf, Data, Drop;
    var current, prev;
    ghost var k;
    current, prev, k := Locate(head, data, c);
    if current == null {
      return head, false, c;
    }
    list := UnlinkNode(head, current, prev, c, k);
    found, c' := true, Drop(c, k);
    DataDrop(c, k);
  }

  /** The search loop of remove. */
  method Locate(head: Node?, data: Ptr, ghost c: seq<Node>) returns (current: Node?, prev: Node?, ghost k: nat)
    requires IsList(head, c)
    ensures IsList(head, c)
    ensures current == null <==> FirstOf(Data(c), data) < 0
    ensures current != null ==> k == FirstOf(Data(c), data) < |c| && head != null
    ensures current != null ==> current == c[k] && prev == c[if k == 0 then 0 else k - 1]
  {
    current, prev, k := head, head, 0;
    while current != null && current.data != data
      invariant 0 <= k <= |c| && current == At(c, k) && prev == At(c, if k == 0 then 0 else k - 1)
      invariant forall j :: 0 <= j < k ==> c[j].data != data
      decreases |c| - k
    {
      assert Follows(c, k);
      prev := current;
      current := current.next;
      k := k + 1;
    }
  }

  /** The part of remove that unlinks `current`, the node at position `k`. */
  method UnlinkNode(head: Node, current: Node, prev: Node, ghost c: seq<Node>, ghost k: nat) returns (list: Node?)
    requires IsList(head, c) && k < |c| && current == c[k] && prev == c[if k == 0 then 0 else k - 1]
    modifies c`next, c`tail, c`size
    ensures IsList(list, Drop(c, k))
  {
    assert Follows(c, k);
    list := head;
    if current == head {
      if head.next != null {
        head.next.size := head.size - 1;
        head.next.tail := head.tail;
      }
      list := head.next;
    } else {
      prev.next := current.next;
      head.size := head.size - 1;
    }
    if list != null && list.tail == current {
      list.tail := prev;
    }
    ghost var c' := Drop(c, k);
    forall i | 0 <= i < |c'| ensures Follows(c', i) {
      assert old(Follows(c, if i < k then i else i + 1));
    }
  }

  lemma DataDrop(c: seq<Node>, k: nat)
    requires k < |c|
    ensures Data(Drop(c, k)) == Drop(Data(c), k)
  {
    hide Data;
    var d, e := Drop(c, k), Drop(Data(c), k);
    forall i | 0 <= i < |d| ensures Data(d)[i] == e[i] {
      assert d[i] == c[if i < k then i else i + 1];
    }
  }
}
