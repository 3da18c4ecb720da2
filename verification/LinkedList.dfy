/** Kernel/linkedList.c: the doubly linked deque with an element count. */
module LinkedList {
  import opened Options
  import opened Sequences

  class Node<T> {
    var data: T
    var next: Node?<T>
    var prev: Node?<T>

    constructor (data: T)
      ensures this.data == data && next == null && prev == null
    {
      this.data := data;
      next := null;
      prev := null;
    }
  }

  class List<T(==)> {
    var first: Node?<T>
    var last: Node?<T>
    var count: int
    ghost var nodes: seq<Node<T>>   // the chain from first to last
    ghost var contents: seq<T>      // what its nodes hold

    ghost function Footprint(): set<object>
      reads this
    {
      set n | n in nodes
    }

    ghost predicate Valid()
      reads this, Footprint()
    {
      && count == |nodes| == |contents|
      && (nodes == [] ==> first == null && last == null)
      && (nodes != [] ==> first == nodes[0] && last == nodes[|nodes| - 1])
      && (forall i :: 0 <= i < |nodes| ==> nodes[i].data == contents[i])
      && (forall i {:trigger nodes[i].next} :: 0 <= i < |nodes| ==>
            nodes[i].next == if i + 1 < |nodes| then nodes[i + 1] else null)
      && (forall i {:trigger nodes[i].prev} :: 0 <= i < |nodes| ==>
            nodes[i].prev == if i > 0 then nodes[i - 1] else null)
      && NoDuplicates(nodes)
    }

    constructor ()
      ensures Valid() && contents == [] && nodes == []
    {
      first, last, count := null, null, 0;
      nodes, contents := [], [];
    }

    method Offer(data: T)
      requires Valid()
      modifies this, Footprint()
      ensures Valid() && contents == old(contents) + [data]
      ensures |nodes| > 0 && nodes[..|nodes| - 1] == old(nodes) && fresh(nodes[|nodes| - 1])
    {
      var n := new Node(data);
      n.next := null;
      n.prev := last;
      if last != null {
        last.next := n;
      }
      last := n;
      if first == null {
        first := n;
      }
      count := count + 1;
      NoDuplicatesEnds(nodes, n);
      nodes, contents := nodes + [n], contents + [data];
    }

    method Push(data: T)
      requires Valid()
      modifies this, Footprint()
      ensures Valid() && contents == [data] + old(contents)
      ensures |nodes| > 0 && nodes[1..] == old(nodes) && fresh(nodes[0])
    {
      var n := new Node(data);
      n.next := first;
      n.prev := null;
      if first != null {
        first.prev := n;
      }
      first := n;
      if last == null {
        last := n;
      }
      count := count + 1;
      NoDuplicatesEnds(nodes, n);
      assert forall j :: 0 < j < |nodes| ==> nodes[j] != nodes[0];
      hide NoDuplicates;
      nodes, contents := [n] + nodes, [data] + contents;
    }

    method Poll() returns (r: Option<T>)
      requires Valid()
      modifies this, Footprint()
      ensures Valid()
      ensures old(contents) == [] ==> r == None && contents == [] && nodes == []
      ensures old(contents) != [] ==>
                r == Some(old(contents)[0]) && contents == old(contents)[1..] && nodes == old(nodes)[1..]
    {
      if first == null {
        return None;
      }
      var aux := first;
      r := Some(aux.data);
      if first.next != null {
        first.next.prev := null;
      }
      first := first.next;
      if last == aux {
        last := null;
      }
      count := count - 1;
      nodes, contents := nodes[1..], contents[1..];
    }

    method Pop() returns (r: Option<T>)
      requires Valid()
      modifies this, Footprint()
      ensures Valid()
      ensures old(contents) == [] ==> r == None && contents == [] && nodes == []
      ensures old(contents) != [] ==>
                && var k := |old(contents)| - 1;
                && r == Some(old(contents)[k])
                && contents == old(contents)[..k] && nodes == old(nodes)[..k]
    {
      if first == null {
        return None;
      }
      var aux := last;
      r := Some(aux.data);
      if last.prev != null {
        last.prev.next := null;
      }
      last := last.prev;
      if first == aux {
        first := null;
      }
      count := count - 1;
      nodes, contents := nodes[..|nodes| - 1], contents[..|contents| - 1];
    }

    method RemoveByValue(value: T, limit: int) returns (deleted: int)
      requires Valid()
      modifies this, Footprint()
      ensures Valid() && contents == RemoveUpTo(old(contents), value, limit)
      ensures deleted == |old(contents)| - |contents|
      ensures Footprint() <= old(Footprint())
    {
      hide RemoveUpTo, NoDuplicates;
      deleted := 0;
      RemoveUpToDone(contents, |contents|, value, limit);
      if first == null {
        return;
      }
      var aux := first;
      ghost var k := 0;
      ghost var goal := RemoveUpTo(contents, value, limit);
      while aux != null && deleted < limit
        invariant Valid() && 0 <= k <= |nodes|
        invariant aux == if k < |nodes| then nodes[k] else null
        invariant deleted == |old(contents)| - |contents|
        invariant goal == contents[..k] + RemoveUpTo(contents[k..], value, limit - deleted)
        invariant Footprint() <= old(Footprint())
        decreases |nodes| - k
      {
        RemoveUpToStep(contents, k, value, limit - deleted);
        if aux.data == value {
          ghost var was := contents;
          Unlink(aux, k);
          DropIsConcat(was, k, contents);
          aux := aux.next;
          deleted := deleted + 1;
        } else {
          aux := aux.next;
          k := k + 1;
        }
      }
      RemoveUpToDone(contents, k, value, limit - deleted);
    }

    /** The relinking that removeByValue does around the node it deletes. */
    method Unlink(aux: Node<T>, ghost k: nat)
      requires Valid() && k < |nodes| && aux == nodes[k]
      modifies this, Footprint()
      ensures Valid()
      ensures IsDrop(old(nodes), k, nodes) && IsDrop(old(contents), k, contents)
      ensures aux.next == if k < |nodes| then nodes[k] else null
      ensures Footprint() <= old(Footprint())
    {
      hide NoDuplicates;
      ghost var was := nodes;
      var after := aux.next;
      RelinkBefore(aux, k);
      RelinkAfter(aux, k);
      assert aux.next == after;
      count := count - 1;
      ghost var rest := DropAt(was, k);
      ghost var kept := DropAt(contents, k);
      forall i | 0 <= i < |rest|
        ensures rest[i].data == kept[i]
        ensures rest[i].next == if i + 1 < |rest| then rest[i + 1] else null
        ensures rest[i].prev == if i > 0 then rest[i - 1] else null
      {
        var j := if i < k then i else i + 1;
        assert rest[i] == was[j] && was[j].data == contents[j];
      }
      nodes, contents := rest, kept;
    }

    method RelinkBefore(aux: Node<T>, ghost k: nat)
      requires k < |nodes| && aux == nodes[k] && NoDuplicates(nodes)
      requires first == nodes[0] && aux.prev == if k > 0 then nodes[k - 1] else null
      modifies `first, (set n | n in nodes)`next
      ensures first == if k == 0 then aux.next else old(first)
      ensures forall i {:trigger nodes[i].next} :: 0 <= i < |nodes| ==>
                nodes[i].next == if i + 1 == k then aux.next else old(nodes[i].next)
    {
      if aux != first {
        aux.prev.next := aux.next;
      } else {
        first := aux.next;
      }
    }

    method RelinkAfter(aux: Node<T>, ghost k: nat)
      requires k < |nodes| && aux == nodes[k] && NoDuplicates(nodes)
      requires last == nodes[|nodes| - 1] && aux.next == if k + 1 < |nodes| then nodes[k + 1] else null
      modifies `last, (set n | n in nodes)`prev
      ensures last == if k == |nodes| - 1 then aux.prev else old(last)
      ensures forall i {:trigger nodes[i].prev} :: 0 <= i < |nodes| ==>
                nodes[i].prev == if i == k + 1 then aux.prev else old(nodes[i].prev)
    {
      if aux != last {
        aux.next.prev := aux.prev;
      } else {
        last := aux.prev;
      }
    }
  }
}
