/** src/drv/safe_list.h: a circular doubly linked list with a sentinel and a counter.  Each
    method body is one lock region; the LIST_ENTRY macros of wdm.h are spelled out. */
module SafeLists {
  import opened Common

  /** A LIST_ENTRY, with the buffer of the node it is embedded in (none for a list head). */
  class Entry<T> {
    var flink: Entry<T>
    var blink: Entry<T>
    const buffer: Option<T>
    ghost var deleted: bool

    constructor (buffer: Option<T>)
      ensures flink == this && blink == this && this.buffer == buffer && !deleted
    {
      flink, blink, this.buffer, deleted := this, this, buffer, false;
    }
  }

  ghost predicate Distinct<T>(head: Entry<T>, nodes: seq<Entry<T>>) {
    && head !in nodes
    && forall i, j :: 0 <= i < j < |nodes| ==> nodes[i] != nodes[j]
  }

  ghost predicate Forward<T>(head: Entry<T>, nodes: seq<Entry<T>>)
    reads head`flink, nodes`flink
  {
    && head.flink == (if nodes == [] then head else nodes[0])
    && (forall i {:trigger nodes[i].flink} :: 0 <= i < |nodes| - 1 ==> nodes[i].flink == nodes[i + 1])
    && (nodes != [] ==> nodes[|nodes| - 1].flink == head)
  }

  ghost predicate Backward<T>(head: Entry<T>, nodes: seq<Entry<T>>)
    reads head`blink, nodes`blink
  {
    && head.blink == (if nodes == [] then head else nodes[|nodes| - 1])
    && (forall i {:trigger nodes[i].blink} :: 1 <= i < |nodes| ==> nodes[i].blink == nodes[i - 1])
    && (nodes != [] ==> nodes[0].blink == head)
  }

  /** The ring runs from head through nodes and back, in both directions. */
  ghost predicate Ring<T>(head: Entry<T>, nodes: seq<Entry<T>>)
    reads head`flink, head`blink, nodes`flink, nodes`blink
  {
    Distinct(head, nodes) && Forward(head, nodes) && Backward(head, nodes)
  }

  predicate HaveBuffers<T>(nodes: seq<Entry<T>>) {
    forall i :: 0 <= i < |nodes| ==> nodes[i].buffer.Some?
  }

  ghost predicate NoneDeleted<T>(nodes: seq<Entry<T>>)
    reads nodes`deleted
  {
    forall i :: 0 <= i < |nodes| ==> !nodes[i].deleted
  }

  function Buffers<T>(nodes: seq<Entry<T>>): seq<T>
    requires HaveBuffers(nodes)
  {
    seq(|nodes|, i requires 0 <= i < |nodes| && nodes[i].buffer.Some? => nodes[i].buffer.value)
  }

  lemma BuffersCons<T>(nodes: seq<Entry<T>>)
    requires HaveBuffers(nodes) && nodes != []
    ensures Buffers(nodes) == [nodes[0].buffer.value] + Buffers(nodes[1..])
    ensures forall n :: n in nodes <==> n == nodes[0] || n in nodes[1..]
  {
  }

  lemma BuffersWithout<T>(nodes: seq<Entry<T>>, k: nat)
    requires HaveBuffers(nodes) && k < |nodes|
    ensures HaveBuffers(nodes[..k] + nodes[k + 1..])
    ensures Buffers(nodes[..k] + nodes[k + 1..]) == Buffers(nodes)[..k] + Buffers(nodes)[k + 1..]
  {
  }

  lemma BuffersSnoc<T>(nodes: seq<Entry<T>>, node: Entry<T>)
    requires HaveBuffers(nodes) && node.buffer.Some?
    ensures HaveBuffers(nodes + [node]) && Buffers(nodes + [node]) == Buffers(nodes) + [node.buffer.value]
  {
  }

  // ---- the macros of wdm.h

  /** InsertTailList. */
  method InsertTailList<T>(head: Entry<T>, node: Entry<T>, ghost nodes: seq<Entry<T>>)
    requires Ring(head, nodes) && node != head && node !in nodes
    modifies {head, node} + set n | n in nodes
    ensures forall n :: n == node || n in nodes ==> n.deleted == old(n.deleted)
    ensures Ring(head, nodes + [node])
  {
    var last := head.blink;
    node.flink := head;
    node.blink := last;
    last.flink := node;
    head.blink := node;
  }

  /** RemoveEntryList. */
  method RemoveEntryList<T>(entry: Entry<T>, ghost head: Entry<T>, ghost nodes: seq<Entry<T>>, ghost k: nat)
    requires Ring(head, nodes) && k < |nodes| && entry == nodes[k]
    modifies {head} + set n | n in nodes
    ensures forall n :: n in nodes ==> n.deleted == old(n.deleted)
    ensures Ring(head, nodes[..k] + nodes[k + 1..])
  {
    var next, prev := entry.flink, entry.blink;
    prev.flink := next;
    next.blink := prev;
    ghost var rest := nodes[..k] + nodes[k + 1..];
    assert forall i :: 0 <= i < |rest| ==> rest[i] == if i < k then nodes[i] else nodes[i + 1];
  }

  /** The splice in Clear: the whole ring moves from head to the fresh head list. */
  method Splice<T>(head: Entry<T>, list: Entry<T>, ghost nodes: seq<Entry<T>>)
    requires Ring(head, nodes) && Ring(list, []) && list != head && list !in nodes
    modifies {head, list} + set n | n in nodes
    ensures forall n :: n in nodes ==> n.deleted == old(n.deleted)
    ensures Ring(list, nodes) && Ring(head, [])
  {
    if head.flink != head {
      assert head.flink in nodes && head.blink in nodes;
      list.flink := head.flink;
      list.blink := head.blink;
      head.flink.blink := list;
      head.blink.flink := list;
      // InitializeListHead
      head.flink := head;
      head.blink := head;
    }
  }

  /** RemoveHeadList. */
  method RemoveHeadList<T>(list: Entry<T>, ghost rest: seq<Entry<T>>) returns (entry: Entry<T>)
    requires Ring(list, rest) && rest != []
    modifies {list} + set n | n in rest
    ensures forall n :: n in rest ==> n.deleted == old(n.deleted)
    ensures Ring(list, rest[1..]) && entry == rest[0]
  {
    entry := list.flink;
    var next := entry.flink;
    list.flink := next;
    next.blink := list;
    assert forall i :: 0 <= i < |rest| - 1 ==> rest[1..][i] == rest[i + 1];
  }

  method TakeHead<T>(list: Entry<T>, ghost rest: seq<Entry<T>>) returns (r: Option<T>)
    requires Ring(list, rest) && NoneDeleted(rest) && rest != []
    modifies {list} + set n | n in rest
    ensures Ring(list, rest[1..]) && NoneDeleted(rest[1..])
    ensures r == rest[0].buffer && rest[0].deleted
  {
    var entry := RemoveHeadList(list, rest);
    r := DeleteNode(entry);
  }

  /** The loop in Clear: each node is removed and deleted, and its buffer cleaned. */
  method CleanRing<T>(list: Entry<T>, ghost moved: seq<Entry<T>>) returns (cleaned: seq<T>)
    requires Ring(list, moved) && HaveBuffers(moved) && NoneDeleted(moved)
    modifies {list} + set n | n in moved
    ensures cleaned == Buffers(moved)
    ensures forall n :: n in moved ==> n.deleted
  {
    cleaned := [];
    ghost var rest := moved;
    while list.flink != list
      invariant HaveBuffers(rest) && cleaned + Buffers(rest) == Buffers(moved)
      invariant Ring(list, rest) && NoneDeleted(rest)
      invariant forall n :: n in rest ==> n in moved
      invariant forall n :: n in moved ==> n in rest || n.deleted
      decreases |rest|
    {
      BuffersCons(rest);
      var buffer := TakeHead(list, rest);
      cleaned := cleaned + [buffer.value];
      rest := rest[1..];
    }
  }

  method DeleteNode<T>(node: Entry<T>) returns (r: Option<T>)
    requires !node.deleted
    modifies node`deleted
    ensures r == node.buffer && node.deleted
  {
    r := node.buffer;
    node.deleted := true;
  }

  class SafeList<T(==)> {
    const head: Entry<T>
    var size: int
    ghost var nodes: seq<Entry<T>>
    ghost var dangling: set<T>          // the buffers of nodes deleted while they were linked

    /** The links are in order and the counter is right, but a node may have been deleted. */
    ghost predicate Linked()
      reads this, head, nodes
    {
      Ring(head, nodes) && HaveBuffers(nodes) && size == |nodes|
    }

    ghost predicate Valid()
      reads this, head, nodes
    {
      Linked() && NoneDeleted(nodes) && dangling == {}
    }

    ghost function Contents(): seq<T>
      reads this
      requires HaveBuffers(nodes)
    {
      Buffers(nodes)
    }

    ghost function Repr(): set<object>
      reads this
    {
      {this, head} + set n | n in nodes :: n as object
    }

    constructor ()
      ensures Valid() && Contents() == [] && fresh(Repr())
    {
      head := new Entry(None);
      size := 0;
      nodes := [];
      dangling := {};
    }

    /** Push; `allocOk` tells whether the node can be allocated. */
    method Push(buffer: T, allocOk: bool) returns (ok: bool)
      requires Valid()
      modifies Repr()
      ensures Valid() && fresh(Repr() - old(Repr()))
      ensures ok == allocOk
      ensures Contents() == if ok then old(Contents()) + [buffer] else old(Contents())
    {
      if !allocOk { return false; }
      var node := new Entry(Some(buffer));
      BuffersSnoc(nodes, node);
      InsertTailList(head, node, nodes);
      nodes := nodes + [node];
      size := size + 1;
      return true;
    }

    /** Take node k out of the ring. */
    method Unlink(entry: Entry<T>, ghost k: nat)
      requires Valid() && k < |nodes| && entry == nodes[k]
      modifies Repr()
      ensures Valid() && nodes == old(nodes)[..k] + old(nodes)[k + 1..] && Repr() <= old(Repr())
      ensures Contents() == old(Contents())[..k] + old(Contents())[k + 1..]
      ensures entry !in nodes && !entry.deleted
    {
      BuffersWithout(nodes, k);
      RemoveEntryList(entry, head, nodes, k);
      nodes := nodes[..k] + nodes[k + 1..];
      size := size - 1;
      assert forall n :: n in nodes ==> n in old(nodes);
    }

    /** Pop of the oldest buffer. */
    method Pop() returns (r: Option<T>)
      requires Valid()
      modifies Repr()
      ensures Valid() && Repr() <= old(Repr())
      ensures if old(Contents()) == [] then r == None && Contents() == []
              else r == Some(old(Contents())[0]) && Contents() == old(Contents())[1..]
    {
      r := None;
      if head.flink != head {
        var entry := head.flink;
        assert entry in nodes;
        Unlink(entry, 0);
        r := DeleteNode(entry);
      }
    }

    /** The loop of Pop(buffer): a node with the buffer is unlinked; without one the search ends with
        the last node in hand, still linked. */
    method Search(buffer: T) returns (node: Entry?<T>)
      requires Valid()
      modifies Repr()
      ensures Valid() && Repr() <= old(Repr())
      ensures node == null <==> old(Contents()) == []
      ensures node != null ==> node in old(Repr()) && node != head && !node.deleted
      ensures buffer in old(Contents()) ==>
                && node.buffer == Some(buffer) && node !in nodes
                && Contents() == Without(old(Contents()), buffer)
      ensures buffer !in old(Contents()) ==>
                && nodes == old(nodes)
                && (nodes != [] ==> node == nodes[|nodes| - 1])
    {
      node := null;
      var entry := head.flink;
      ghost var k := 0;
      while entry != head
        invariant 0 <= k <= |nodes|
        invariant entry == if k < |nodes| then nodes[k] else head
        invariant node == if k == 0 then null else nodes[k - 1]
        invariant forall i :: 0 <= i < k ==> Contents()[i] != buffer
        invariant Valid() && nodes == old(nodes)
        invariant node != null ==> node in old(Repr())
        decreases |nodes| - k
      {
        assert entry in nodes;
        node := entry;
        if node.buffer == Some(buffer) {
          WithoutAt(Contents(), buffer, k);
          Unlink(entry, k);
          return;
        }
        entry := entry.flink;
        k := k + 1;
      }
    }

    /** The literal Pop(buffer).  When the buffer is not found in a list that is not empty, the
        last node is deleted although it stays linked, and its buffer is returned. */
    method PopBuffer(buffer: T) returns (r: Option<T>)
      requires Valid()
      modifies Repr()
      ensures Linked() && Repr() <= old(Repr())
      ensures Contents() == if buffer in old(Contents()) then Without(old(Contents()), buffer) else old(Contents())
      ensures r == if buffer in old(Contents()) then Some(buffer)
                   else if old(Contents()) == [] then None
                   else Some(old(Contents())[|old(Contents())| - 1])
      ensures dangling == if buffer in old(Contents()) || old(Contents()) == [] then {}
                          else {old(Contents())[|old(Contents())| - 1]}
      ensures buffer !in old(Contents()) && nodes != [] ==> nodes == old(nodes) && nodes[|nodes| - 1].deleted
      ensures Valid() <==> dangling == {}
    {
      var node := Search(buffer);
      r := None;
      if node != null {
        r := DeleteNode(node);
        if node in nodes { dangling := {node.buffer.value}; }
      }
    }

    /** Clear.  The ring is spliced onto a local head, and each buffer is cleaned in turn. */
    method Clear() returns (cleaned: seq<T>)
      requires Valid()
      modifies Repr()
      ensures Valid() && Repr() <= old(Repr())
      ensures Contents() == [] && cleaned == old(Contents())
      ensures forall n :: n in old(nodes) ==> n.deleted
    {
      var list := new Entry<T>(None);
      ghost var moved := nodes;
      Splice(head, list, nodes);
      nodes := [];
      size := 0;
      cleaned := CleanRing(list, moved);
    }

    method Size() returns (n: int)
      requires Linked()
      ensures n == |Contents()|
    {
      n := size;
    }
  }

  // ---- what the ring means: following the links

  ghost function Ahead<T>(ring: set<Entry<T>>, e: Entry<T>, n: nat): Entry<T>
    reads ring
  {
    if n == 0 || e !in ring then e else Ahead(ring, e.flink, n - 1)
  }

  ghost function Back<T>(ring: set<Entry<T>>, e: Entry<T>, n: nat): Entry<T>
    reads ring
  {
    if n == 0 || e !in ring then e else Back(ring, e.blink, n - 1)
  }

  ghost function RingSet<T>(head: Entry<T>, nodes: seq<Entry<T>>): set<Entry<T>> {
    {head} + set n | n in nodes
  }

  lemma {:induction false} WalkAhead<T>(head: Entry<T>, nodes: seq<Entry<T>>, i: nat, n: nat)
    requires Ring(head, nodes) && i + n <= |nodes| && i < |nodes|
    ensures Ahead(RingSet(head, nodes), nodes[i], n) == if i + n < |nodes| then nodes[i + n] else head
    decreases n
  {
    assert nodes[i] in RingSet(head, nodes);
    if n > 0 && i + 1 < |nodes| {
      WalkAhead(head, nodes, i + 1, n - 1);
    }
  }

  lemma {:induction false} WalkBack<T>(head: Entry<T>, nodes: seq<Entry<T>>, i: nat, n: nat)
    requires Ring(head, nodes) && i < |nodes| && n <= i + 1
    ensures Back(RingSet(head, nodes), nodes[i], n) == if n <= i then nodes[i - n] else head
    decreases n
  {
    assert nodes[i] in RingSet(head, nodes);
    if n > 0 && i > 0 {
      WalkBack(head, nodes, i - 1, n - 1);
    }
  }

  /** From the sentinel, n + 1 steps forward reach node n and n + 1 steps backward the n-th from
      the end, and one step past the last node either walk is back at the sentinel. */
  lemma Reachable<T>(head: Entry<T>, nodes: seq<Entry<T>>, n: nat)
    requires Ring(head, nodes) && n <= |nodes|
    ensures Ahead(RingSet(head, nodes), head, n + 1) == if n < |nodes| then nodes[n] else head
    ensures Back(RingSet(head, nodes), head, n + 1) == if n < |nodes| then nodes[|nodes| - 1 - n] else head
  {
    if nodes != [] {
      WalkAhead(head, nodes, 0, n);
      WalkBack(head, nodes, |nodes| - 1, n);
    }
  }
}
