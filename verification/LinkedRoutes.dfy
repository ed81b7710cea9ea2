/**
 The doubly linked list both caches of ax25rtd are kept in, relinked in place.
 */
module LinkedRoutes {

  class Node<D> {
    var prev: Node?<D>
    var next: Node?<D>
    var data: D

    constructor (d: D)
      ensures data == d && prev == null && next == null
    {
      data, prev, next := d, null, null;
    }
  }

  /** Element i moved to the front with a new value. */
  function ToFront<T>(s: seq<T>, i: nat, x: T): seq<T>
    requires i < |s|
  {
    [x] + s[..i] + s[i + 1..]
  }

  function Without<T>(s: seq<T>, i: nat): seq<T>
    requires i < |s|
  {
    s[..i] + s[i + 1..]
  }

  function Keep<T>(s: seq<T>, gone: T -> bool): seq<T> {
    if s == [] then []
    else Keep(s[..|s| - 1], gone) + (if gone(s[|s| - 1]) then [] else [s[|s| - 1]])
  }

  lemma KeepStart<T>(s: seq<T>, gone: T -> bool)
    ensures Keep(s[..0], gone) == []
  {
  }

  lemma KeepStep<T>(s: seq<T>, p: nat, gone: T -> bool)
    requires p < |s|
    ensures Keep(s[..p + 1], gone) == if gone(s[p]) then Keep(s[..p], gone) else Keep(s[..p], gone) + [s[p]]
  {
    assert s[..p + 1][..p] == s[..p];
  }

  lemma {:induction false} KeepTakes<T(!new)>(s: seq<T>, gone: T -> bool)
    ensures forall r :: r in Keep(s, gone) <==> r in s && !gone(r)
  {
    if s != [] {
      KeepTakes(s[..|s| - 1], gone);
      assert s == s[..|s| - 1] + [s[|s| - 1]];
    }
  }

  lemma WithoutMiddle<T>(a: seq<T>, b: seq<T>, p: nat)
    requires p < |b|
    ensures Without(a + b[p..], |a|) == a + b[p + 1..] && (a + b[p..])[|a|] == b[p]
    ensures a + b[p..] == (a + [b[p]]) + b[p + 1..]
  {
  }

  lemma ToFrontOfUpdate<T>(s: seq<T>, i: nat, x: T)
    requires i < |s|
    ensures ToFront(s[i := x], i, x) == ToFront(s, i, x)
  {
    assert s[i := x][..i] == s[..i] && s[i := x][i + 1..] == s[i + 1..];
  }

  class List<D> {
    var head: Node?<D>
    var count: nat
    ghost var nodes: seq<Node<D>>

    /** head, next and prev describe exactly the sequence of nodes. */
    ghost predicate Linked()
      reads this, nodes
    {
      && head == (if nodes == [] then null else nodes[0])
      && (forall i, k | 0 <= i < k < |nodes| :: nodes[i] != nodes[k])
      && (forall i {:trigger nodes[i].prev} | 0 <= i < |nodes| ::
            nodes[i].prev == if i == 0 then null else nodes[i - 1])
      && (forall i {:trigger nodes[i].next} | 0 <= i < |nodes| ::
            nodes[i].next == if i + 1 == |nodes| then null else nodes[i + 1])
    }

    ghost predicate Valid()
      reads this, nodes
    {
      Linked() && count == |nodes|
    }

    ghost function Contents(): (s: seq<D>)
      reads this, nodes
      ensures |s| == |nodes|
    {
      seq(|nodes|, i requires 0 <= i < |nodes| reads this, nodes => nodes[i].data)
    }

    /** The cursor bp of a traversal stands at position i, or behind the end. */
    ghost predicate At(i: nat, bp: Node?<D>)
      reads this
    {
      i <= |nodes| && bp == if i == |nodes| then null else nodes[i]
    }

    constructor ()
      ensures Valid() && nodes == []
    {
      head, count, nodes := null, 0, [];
    }

    /** Overwrite the value of an entry where it is. */
    method Store(bp: Node<D>, ghost i: nat, d: D)
      requires Valid() && i < |nodes| && nodes[i] == bp
      modifies bp`data
      ensures Valid() && bp.data == d && Contents() == old(Contents())[i := d]
    {
      bp.data := d;
    }

    /** Unlink bp and put it in front, unless it is there already. */
    method MoveToFront(bp: Node<D>, ghost i: nat)
      requires Valid() && i < |nodes| && nodes[i] == bp
      modifies this, nodes
      ensures Valid() && nodes == ToFront(old(nodes), i, bp)
      ensures Contents() == ToFront(old(Contents()), i, bp.data)
      ensures forall n <- nodes :: n.data == old(n.data)
    {
      ghost var order, values := nodes, Contents();
      if bp != head {
        Detach(bp, i);
        Prepend(bp);
        assert nodes == [bp] + Without(order, i) == ToFront(order, i, bp);
      } else {
        assert ToFront(order, 0, bp) == order;
      }
      assert Contents() == ToFront(values, i, bp.data);
    }

    /** Unlink a node that is not the head. */
    method Detach(bp: Node<D>, ghost i: nat)
      requires Linked() && 0 < i < |nodes| && nodes[i] == bp
      modifies this`nodes, nodes
      ensures Linked() && nodes == Without(old(nodes), i) && bp !in nodes
      ensures forall n <- old(nodes) :: n.data == old(n.data)
    {
      if bp.next != null { bp.next.prev := bp.prev; }
      if bp.prev != null { bp.prev.next := bp.next; }
      nodes := Without(nodes, i);
    }

    method Prepend(bp: Node<D>)
      requires Linked() && bp !in nodes
      modifies this`head, this`nodes, nodes, bp
      ensures Linked() && nodes == [bp] + old(nodes)
      ensures bp.data == old(bp.data) && forall n <- old(nodes) :: n.data == old(n.data)
    {
      if head == null {
        head := bp;
        bp.next, bp.prev := null, null;
      } else {
        bp.next := head;
        bp.prev := null;
        head.prev := bp;
        head := bp;
      }
      nodes := [bp] + nodes;
    }

    method PushFront(bp: Node<D>)
      requires Valid() && bp !in nodes
      modifies this, nodes, bp
      ensures Valid() && nodes == [bp] + old(nodes) && Contents() == [bp.data] + old(Contents())
      ensures bp.data == old(bp.data)
    {
      count := count + 1;
      Prepend(bp);
    }

    /** Drop the tail, which may also be the head. */
    method DropLast(tail: Node<D>)
      requires Valid() && nodes != [] && tail == nodes[|nodes| - 1]
      modifies this, nodes
      ensures Valid() && nodes == old(nodes[..|nodes| - 1]) && Contents() == old(Contents()[..|nodes| - 1])
    {
      if tail.prev != null {
        tail.prev.next := null;
      } else {
        head := null;
      }
      count := count - 1;
      nodes := nodes[..|nodes| - 1];
    }

    /** A new entry in front; the tail makes room for it when the list is full. */
    method Insert(tail: Node?<D>, d: D, max: nat) returns (done: bool)
      requires Valid() && tail == if nodes == [] then null else nodes[|nodes| - 1]
      modifies this, nodes
      ensures Valid() && done == !(old(nodes) == [] && max == 0)
      ensures Contents() ==
              if !done then old(Contents())
              else [d] + (if |old(nodes)| < max then old(Contents()) else old(Contents()[..|nodes| - 1]))
      ensures forall n <- nodes :: n in old(nodes) || fresh(n)
    {
      if count >= max {
        if tail == null { return false; }
        DropLast(tail);
      }
      var bp := new Node(d);
      PushFront(bp);
      done := true;
    }

    /** Unlink bp and return its successor. */
    method Unlink(bp: Node<D>, ghost i: nat) returns (bp2: Node?<D>)
      requires Valid() && i < |nodes| && nodes[i] == bp
      modifies this, nodes
      ensures Valid() && nodes == Without(old(nodes), i) && Contents() == Without(old(Contents()), i)
      ensures bp2 == if i == |nodes| then null else nodes[i]
      ensures bp.data == old(bp.data)
    {
      bp2 := bp.next;
      Splice(bp, bp2, i);
      count := count - 1;
    }

    method Splice(bp: Node<D>, bp2: Node?<D>, ghost i: nat)
      requires Linked() && i < |nodes| && nodes[i] == bp && bp2 == bp.next
      modifies this`head, this`nodes, nodes
      ensures Linked() && nodes == Without(old(nodes), i) && bp2 == if i == |nodes| then null else nodes[i]
      ensures forall n <- old(nodes) :: n.data == old(n.data)
    {
      if bp2 != null { bp2.prev := bp.prev; }
      if bp.prev != null { bp.prev.next := bp2; }
      if bp == head { head := bp2; }
      nodes := Without(nodes, i);
    }

    lemma DataAt(i: nat)
      requires i < |nodes|
      ensures Contents()[i] == nodes[i].data
    {
    }

    /** Where a removing traversal stands after the first p entries of s. */
    ghost predicate Removing(s: seq<D>, p: nat, bp: Node?<D>, gone: D -> bool)
      reads this, nodes
    {
      && p <= |s|
      && At(|Keep(s[..p], gone)|, bp)
      && Contents() == Keep(s[..p], gone) + s[p..]
    }

    /** A traversal that removes every entry for which gone holds. The successor is read
        before an entry is unlinked. */
    method RemoveWhere(gone: D -> bool)
      requires Valid()
      modifies this, nodes
      ensures Valid() && Contents() == Keep(old(Contents()), gone)
      ensures forall k | 0 <= k < |nodes| :: nodes[k] in old(nodes)
    {
      hide Keep, Contents, Removing, List.Valid;
      ghost var s, p: nat := Contents(), 0;
      var bp := head;
      StartRemoving(gone);
      while bp != null
        invariant Valid() && p <= |s| && Removing(s, p, bp, gone)
        invariant forall k | 0 <= k < |nodes| :: nodes[k] in old(nodes)
        decreases |s| - p
      {
        bp := Visit(bp, gone, s, p);
        p := p + 1;
      }
      EndRemoving(s, p, gone);
    }

    lemma StartRemoving(gone: D -> bool)
      requires Valid()
      ensures Removing(Contents(), 0, head, gone)
    {
      hide Keep;
      KeepStart(Contents(), gone);
    }

    lemma EndRemoving(s: seq<D>, p: nat, gone: D -> bool)
      requires Valid() && Removing(s, p, null, gone)
      ensures Contents() == Keep(s, gone)
    {
      hide Keep;
      assert s[..p] == s;
    }

    method Visit(bp: Node<D>, gone: D -> bool, ghost s: seq<D>, ghost p: nat) returns (next: Node?<D>)
      requires Valid() && Removing(s, p, bp, gone)
      modifies this, nodes
      ensures Valid() && p < |s| && Removing(s, p + 1, next, gone)
      ensures forall k | 0 <= k < |nodes| :: nodes[k] in old(nodes)
    {
      hide Keep;
      ghost var kept := Keep(s[..p], gone);
      DataAt(|kept|);
      WithoutMiddle(kept, s, p);
      KeepStep(s, p, gone);
      next := bp.next;
      if gone(bp.data) {
        var _ := Unlink(bp, |kept|);
      }
    }
  }
}
