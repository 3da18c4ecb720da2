/** Kernel/circularList.c: the ring that is reached through its tail. */
module CircularList {
  import opened Options
  import opened Sequences

  class RingNode<T> {
    var data: T
    var next: RingNode?<T>

    constructor (data: T)
      ensures this.data == data
    {
      this.data := data;
      next := null;
    }
  }

  class Ring<T(==)> {
    var tail: RingNode?<T>
    ghost var nodes: seq<RingNode<T>>  // from the head, tail.next, round to the tail
    ghost var contents: seq<T>

    ghost function Footprint(): set<object>
      reads this
    {
      set n | n in nodes
    }

    ghost predicate Valid()
      reads this, Footprint()
    {
      && |nodes| == |contents|
      && tail == (if nodes == [] then null else nodes[|nodes| - 1])
      && (forall i :: 0 <= i < |nodes| ==> nodes[i].data == contents[i])
      && (forall i {:trigger nodes[i].next} :: 0 <= i < |nodes| ==>
            nodes[i].next == nodes[if i + 1 < |nodes| then i + 1 else 0])
      && NoDuplicates(nodes)
    }

    constructor ()
      ensures Valid() && contents == []
    {
      tail := null;
      nodes, contents := [], [];
    }

    /** tail = next(tail): the head becomes the tail. */
    method Next()
      requires Valid()
      modifies this
      ensures Valid()
      ensures contents == if old(contents) == [] then [] else Rotate(old(contents))
      ensures Footprint() == old(Footprint())
    {
      if tail != null {
        tail := tail.next;
        assert nodes == [nodes[0]] + nodes[1..];
        nodes, contents := Rotate(nodes), Rotate(contents);
        assert multiset(nodes) == multiset(old(nodes));
      }
    }

    method InsertAtHead(data: T)
      requires Valid()
      modifies this, Footprint()
      ensures Valid() && contents == [data] + old(contents)
      ensures |nodes| > 0 && nodes[1..] == old(nodes) && fresh(nodes[0])
    {
      var n := new RingNode(data);
      if tail == null {
        tail := n;
        n.next := n;
      } else {
        n.next := tail.next;
        tail.next := n;
      }
      nodes, contents := [n] + nodes, [data] + contents;
    }

    method InsertAtEnd(data: T)
      requires Valid()
      modifies this, Footprint()
      ensures Valid() && contents == old(contents) + [data]
      ensures forall n :: n in Footprint() ==> n in old(Footprint()) || fresh(n)
    {
      InsertAtHead(data);
      Next();
    }

    method GetFirst() returns (data: Option<T>)
      requires Valid()
      ensures data == if contents == [] then None else Some(contents[0])
    {
      if tail == null {
        return None;
      }
      data := Some(tail.next.data);
    }

    method Length() returns (i: int)
      requires Valid()
      ensures i == |contents|
    {
      if tail == null {
        return 0;
      }
      i := 1;
      var current := tail.next;
      while current != tail
        invariant 1 <= i <= |nodes| && current == nodes[i - 1]
        decreases |nodes| - i
      {
        i := i + 1;
        current := current.next;
      }
    }

    /** Takes the node after `previous`, which stands at position k, out of the ring. */
    method Unlink(previous: RingNode<T>, current: RingNode<T>, ghost k: nat)
      requires Valid() && k < |nodes| && |nodes| > 1
      requires current == nodes[k] && previous == nodes[if k > 0 then k - 1 else |nodes| - 1]
      modifies this, Footprint()
      ensures Valid() && IsDrop(old(nodes), k, nodes) && IsDrop(old(contents), k, contents)
      ensures Footprint() <= old(Footprint())
    {
      ghost var b := if k > 0 then k - 1 else |nodes| - 1;
      assert forall j :: 0 <= j < |nodes| && j != b ==> nodes[j] != previous;
      hide NoDuplicates;
      previous.next := current.next;
      if current == tail {
        tail := previous;
      }
      ghost var was := nodes;
      ghost var rest := DropAt(was, k);
      ghost var kept := DropAt(contents, k);
      forall i | 0 <= i < |rest|
        ensures rest[i].data == kept[i]
        ensures rest[i].next == rest[if i + 1 < |rest| then i + 1 else 0]
      {
        var j := if i < k then i else i + 1;
        assert rest[i] == was[j] && was[j].data == contents[j];
      }
      nodes, contents := rest, kept;
    }

    method DeleteByLocation(location: int)
      requires Valid()
      modifies this, Footprint()
      ensures Valid() && Footprint() <= old(Footprint())
      ensures !(1 <= location <= |old(contents)|) ==> contents == old(contents)
      ensures 1 <= location <= |old(contents)| ==>
                contents == old(contents)[..location - 1] + old(contents)[location..]
    {
      var len := Length();
      if location < 1 || location > len {
        return;
      } else if len == 1 {
        tail := null;
        nodes, contents := [], [];
      } else {
        var previous, current := tail, tail.next;
        var i := 1;
        while i < location
          invariant 1 <= i <= location
          invariant current == nodes[i - 1] && previous == nodes[if i > 1 then i - 2 else |nodes| - 1]
        {
          previous := current;
          current := current.next;
          i := i + 1;
        }
        ghost var was := contents;
        Unlink(previous, current, location - 1);
        DropIsConcat(was, location - 1, contents);
      }
    }

    method DeleteHead()
      requires Valid()
      modifies this, Footprint()
      ensures Valid() && Footprint() <= old(Footprint())
      ensures contents == if old(contents) == [] then [] else old(contents)[1..]
    {
      DeleteByLocation(1);
    }

    /** deleteByValue with its limit at 1, the only limit the kernel passes. */
    method DeleteFirstByValue(data: T) returns (deleted: int)
      requires Valid()
      modifies this, Footprint()
      ensures Valid() && contents == RemoveFirst(old(contents), data)
      ensures deleted == |old(contents)| - |contents|
      ensures Footprint() <= old(Footprint())
    {
      deleted := 0;
      if tail == null {
        return;
      } else if tail == tail.next {
        if tail.data == data {
          tail := null;
          RemoveFirstAt(contents, data, 0);
          nodes, contents := [], [];
          return 1;
        }
      }
      var current := tail;
      var previous := tail;
      ghost var k := 0;
      while true
        invariant 0 <= k < |nodes| && nodes == old(nodes) && Valid() && contents == old(contents)
        invariant current == nodes[if k > 0 then k - 1 else |nodes| - 1]
        invariant data !in contents[..k]
        invariant |nodes| == 1 ==> contents[0] != data
        decreases |nodes| - k
      {
        previous := current;
        current := current.next;
        if current.data == data {
          ghost var was := contents;
          Unlink(previous, current, k);
          DropIsConcat(was, k, contents);
          RemoveFirstAt(was, data, k);
          return 1;
        }
        assert contents[..k + 1] == contents[..k] + [contents[k]];
        k := k + 1;
        if current == tail {
          break;
        }
      }
      assert contents[..|contents|] == contents;
      RemoveFirstAbsent(contents, data, 1);
    }
  }
}
