/**
 The binary tree in which ax25ipd remembers behind which route a callsign was heard, grown in
 place. Its comparison is no order, so nothing is claimed about sortedness: a lookup is right
 because it makes the same turns as the insertion did.
 */
module CallTree {
  import opened Callsigns

  class Entry<R(==,!new)> {
    const callsign: Call
    var route: R
    var prev: Entry?<R>
    var next: Entry?<R>

    constructor (callsign: Call, route: R)
      ensures this.callsign == callsign && this.route == route && prev == null && next == null
    {
      this.callsign, this.route, prev, next := callsign, route, null, null;
    }
  }

  /** A way down from the root: true is next, false is prev. */
  type Path = seq<bool>

  predicate Turns(call: Call, at: Call, right: bool) {
    if right then Compare(call, at) > 0 else Compare(call, at) < 0
  }

  lemma TurnIs(call: Call, at: Call)
    ensures Compare(call, at) > 0 ==> Turns(call, at, true)
    ensures Compare(call, at) < 0 ==> Turns(call, at, false)
  {
  }

  class Tree<R(==,!new)> {
    var root: Entry?<R>
    ghost var nodes: map<Path, Entry<R>>
    ghost var recorded: map<Call, R>

    ghost function Find(p: Path): Entry?<R>
      reads this`nodes
    {
      if p in nodes then nodes[p] else null
    }

    /** The pointers are the map of paths. */
    ghost predicate Linked()
      reads this`root, this`nodes, nodes.Values
    {
      && root == Find([])
      && (forall p {:trigger nodes[p].next} | p in nodes :: nodes[p].next == Find(p + [true]))
      && (forall p {:trigger nodes[p].prev} | p in nodes :: nodes[p].prev == Find(p + [false]))
      && (forall p, q {:trigger nodes[p], nodes[q]} | p in nodes && q in nodes && nodes[p] == nodes[q] :: p == q)
    }

    /** Every callsign turns at each node above it the way its path does. */
    ghost predicate Placed()
      reads this`nodes
    {
      forall p {:trigger nodes[p].callsign} | p in nodes :: Follows(nodes[p].callsign, p)
    }

    /** The callsigns in the tree are those recorded, each with its route. */
    ghost predicate Holds()
      reads this, nodes.Values
    {
      && (forall p {:trigger nodes[p].callsign} | p in nodes ::
            IsNormal(nodes[p].callsign) && nodes[p].callsign in recorded)
      && (forall p {:trigger nodes[p].route} | p in nodes :: recorded[nodes[p].callsign] == nodes[p].route)
      && (forall c | c in recorded :: exists p {:trigger nodes[p]} :: p in nodes && nodes[p].callsign == c)
    }

    ghost predicate Valid()
      reads this, nodes.Values
    {
      Linked() && Placed() && Holds()
    }

    constructor ()
      ensures Valid() && recorded == map[]
    {
      root, nodes, recorded := null, map[], map[];
    }

    /** call turns at every node above p as p does. */
    ghost predicate Follows(call: Call, p: Path)
      reads this`nodes
    {
      forall k {:trigger p[..k]} | 0 <= k < |p| :: p[..k] in nodes && Turns(call, nodes[p[..k]].callsign, p[k])
    }

    lemma PrefixesInside(p: Path, k: nat)
      requires Placed() && p in nodes && k <= |p|
      ensures p[..k] in nodes
    {
      hide Turns;
      var call := nodes[p].callsign;
      assert p[..|p|] == p;
    }

    /** Wherever a call in the tree has its place, a search for it goes that way. */
    lemma WayToPlace(call: Call, t: Path, q: Path)
      requires Linked() && Placed() && Follows(call, t) && q in nodes && nodes[q].callsign == call
      ensures t <= q
    {
      hide Compare, Agreement, Linked, Placed, Follows, Turns;
      var k := Agreement(t, q);
      PrefixesInside(q, k);
      SamePlaceSameTurn(call, t, q, k);
      assert k == |t|;
      assert t[..k] == t;
    }

    lemma SamePlaceSameTurn(call: Call, t: Path, q: Path, k: nat)
      requires Placed() && Follows(call, t) && q in nodes && nodes[q].callsign == call
      requires k <= |t| && k <= |q| && t[..k] == q[..k] && q[..k] in nodes
      ensures k == |q| ==> k == |t|
      ensures k < |q| && k < |t| ==> t[k] == q[k]
    {
      hide CompareFrom;
      CompareSame(call, 0);
      assert q[..|q|] == q;
    }

    /** A call that has followed a path out of the tree is not in the tree. */
    lemma OutsideIsAbsent(call: Call, t: Path)
      requires Valid() && Follows(call, t) && t !in nodes
      ensures call !in recorded
    {
      hide Compare, Turns, Placed, Follows, IsNormal, Linked;
      forall q | q in nodes ensures nodes[q].callsign != call {
        if nodes[q].callsign == call {
          WayToPlace(call, t, q);
          assert q[..|t|] == t;
          PrefixesInside(q, |t|);
          assert false;
        }
      }
    }

    /** A call is in the tree at most once. */
    lemma InsideIsUnique(p: Path, q: Path)
      requires Linked() && Placed() && p in nodes && q in nodes && nodes[p].callsign == nodes[q].callsign
      ensures p == q
    {
      hide Follows;
      WayToPlace(nodes[p].callsign, p, q);
      WayToPlace(nodes[p].callsign, q, p);
    }

    /** The search of call_to_ip. */
    method Lookup(call: Call) returns (e: Entry?<R>)
      requires Valid() && IsNormal(call)
      ensures e != null <==> call in recorded
      ensures e != null ==> e in nodes.Values && e.callsign == call && e.route == recorded[call]
    {
      e := root;
      ghost var p: Path := [];
      while e != null
        invariant e == Find(p) && Follows(call, p)
        decreases set q | q in nodes && p <= q
      {
        var chk := Compare(call, e.callsign);
        ghost var here := set q | q in nodes && p <= q;
        assert p in here;
        if chk > 0 {
          e := e.next;
          Deeper(call, p, true);
          p := p + [true];
        } else if chk < 0 {
          e := e.prev;
          Deeper(call, p, false);
          p := p + [false];
        } else {
          CompareDecides(call, e.callsign);
          return;
        }
        assert forall q | q in nodes && p <= q :: q in here;
      }
      OutsideIsAbsent(call, p);
    }

    lemma Deeper(call: Call, p: Path, right: bool)
      requires p in nodes && Follows(call, p) && Turns(call, nodes[p].callsign, right)
      ensures Follows(call, p + [right])
    {
      var t := p + [right];
      forall k | 0 <= k < |t| ensures t[..k] in nodes && Turns(call, nodes[t[..k]].callsign, t[k]) {
        if k < |p| { assert t[..k] == p[..k]; } else { assert t[..k] == p; }
      }
    }

    /** route_updatereturnpath: the search again, and at its end a new entry or a new route. */
    method UpdateReturnPath(mycall: Call, rn: R)
      requires Valid() && IsNormal(mycall)
      modifies this, nodes.Values
      ensures Valid() && recorded == old(recorded)[mycall := rn]
      ensures fresh(nodes.Values - old(nodes.Values))
    {
      hide Compare, Turns, Holds, Placed, Linked;
      var e, parent, right := root, null, false;
      ghost var p: Path := [];
      RootIsFound();
      while e != null
        invariant Valid() && nodes == old(nodes) && recorded == old(recorded)
        invariant e == Find(p) && Follows(mycall, p) && parent == Above(p) && (p != [] ==> right == p[|p| - 1])
        decreases set q | q in nodes && p <= q
      {
        ghost var here := set q | q in nodes && p <= q;
        assert p in here;
        var chk := Compare(mycall, e.callsign);
        if chk == 0 {
          Reroute(e, p, mycall, rn);
          return;
        }
        parent, right := e, chk > 0;
        TurnIs(mycall, e.callsign);
        Deeper(mycall, p, right);
        ChildIsFound(p);
        e := if right then e.next else e.prev;
        p := p + [right];
      }
      Attach(parent, right, p, mycall, rn);
    }

    lemma RootIsFound()
      requires Linked()
      ensures root == Find([])
    {
    }

    lemma ChildIsFound(p: Path)
      requires Linked() && p in nodes
      ensures nodes[p].next == Find(p + [true]) && nodes[p].prev == Find(p + [false])
    {
    }

    /** The entry a path hangs from. */
    ghost function Above(p: Path): Entry?<R>
      reads this`nodes
    {
      if p == [] then null else Find(p[..|p| - 1])
    }

    lemma OnlyHere(p: Path)
      requires Linked() && Placed() && p in nodes
      ensures forall q | q in nodes && nodes[q].callsign == nodes[p].callsign :: q == p
    {
      hide Linked, Placed;
      forall q | q in nodes && nodes[q].callsign == nodes[p].callsign ensures q == p { InsideIsUnique(p, q); }
    }

    /** The call is in the tree: its entry gets the new route. */
    method Reroute(e: Entry<R>, ghost p: Path, mycall: Call, rn: R)
      requires Valid() && p in nodes && nodes[p] == e && Compare(mycall, e.callsign) == 0 && IsNormal(mycall)
      modifies this`recorded, e
      ensures Valid() && nodes == old(nodes) && recorded == old(recorded)[mycall := rn]
    {
      hide Compare, IsNormal, Linked, Placed, Follows;
      IsNormalAt(p);
      CompareDecides(mycall, e.callsign);
      OnlyHere(p);
      SetRoute(e, p, rn);
      Rerecord(p);
    }

    lemma IsNormalAt(p: Path)
      requires Holds() && p in nodes
      ensures IsNormal(nodes[p].callsign) && nodes[p].callsign in recorded
    {
      hide IsNormal;
    }

    method SetRoute(e: Entry<R>, ghost p: Path, rn: R)
      requires Linked() && p in nodes && nodes[p] == e
      modifies e`route
      ensures Linked() && e.route == rn
    {
      if e.route != rn { e.route := rn; }
    }

    /** The record follows the entry, the only one of its callsign. */
    ghost method Rerecord(p: Path)
      requires p in nodes && nodes[p].callsign in recorded
      requires forall q {:trigger nodes[q]} | q in nodes && q != p :: nodes[q].callsign != nodes[p].callsign
      requires forall q {:trigger nodes[q]} | q in nodes :: IsNormal(nodes[q].callsign) && nodes[q].callsign in recorded
      requires forall q {:trigger nodes[q]} | q in nodes && q != p :: recorded[nodes[q].callsign] == nodes[q].route
      requires forall c | c in recorded :: exists q {:trigger nodes[q]} :: q in nodes && nodes[q].callsign == c
      modifies this`recorded
      ensures Holds() && recorded == old(recorded)[nodes[p].callsign := nodes[p].route]
    {
      hide IsNormal;
      var before, n := recorded, nodes;
      assert forall c | c in before :: exists q {:trigger n[q]} :: q in n && n[q].callsign == c;
      recorded := recorded[nodes[p].callsign := nodes[p].route];
      forall c | c in recorded ensures exists q {:trigger nodes[q]} :: q in nodes && nodes[q].callsign == c {
        assert c in before;
        var q :| q in n && n[q].callsign == c;
        assert nodes[q].callsign == c;
      }
      assert forall q {:trigger nodes[q]} | q in nodes :: recorded[nodes[q].callsign] == nodes[q].route;
    }

    lemma NothingBelow(t: Path, right: bool)
      requires Placed() && t !in nodes
      ensures t + [right] !in nodes
    {
      assert (t + [right])[..|t|] == t;
      if t + [right] in nodes {
        PrefixesInside(t + [right], |t|);
      }
    }

    method Attach(parent: Entry?<R>, right: bool, ghost t: Path, mycall: Call, rn: R)
      requires Valid() && IsNormal(mycall) && t !in nodes && Follows(mycall, t)
      requires parent == Above(t) && (t != [] ==> right == t[|t| - 1])
      modifies this, nodes.Values
      ensures Valid() && t in nodes && nodes == old(nodes)[t := nodes[t]] && recorded == old(recorded)[mycall := rn]
      ensures fresh(nodes[t])
    {
      hide Compare, Turns, IsNormal, Linked, Placed, Follows, Above;
      OutsideIsAbsent(mycall, t);
      var e := new Entry(mycall, rn);
      Hang(parent, right, t, e);
      assert forall p | p in old(nodes) :: nodes[p] == old(nodes)[p];
      Record(old(nodes), t, e);
    }

    /** The new entry is entered in the record. */
    ghost method Record(was: map<Path, Entry<R>>, t: Path, e: Entry<R>)
      requires nodes == was[t := e] && t !in was && IsNormal(e.callsign) && e.callsign !in recorded
      requires forall p {:trigger was[p]} | p in was ::
                 IsNormal(was[p].callsign) && was[p].callsign in recorded && recorded[was[p].callsign] == was[p].route
      requires forall c | c in recorded :: exists p {:trigger was[p]} :: p in was && was[p].callsign == c
      modifies this`recorded
      ensures Holds() && recorded == old(recorded)[e.callsign := e.route]
    {
      hide IsNormal;
      recorded := recorded[e.callsign := e.route];
      assert nodes[t] == e;
      forall c | c in recorded ensures exists p {:trigger nodes[p]} :: p in nodes && nodes[p].callsign == c {
        if c != e.callsign {
          var p :| p in was && was[p].callsign == c;
          assert nodes[p].callsign == c;
        }
      }
    }

    /** Set the pointer the search ended at. */
    method Hang(parent: Entry?<R>, right: bool, ghost t: Path, e: Entry<R>)
      requires Linked() && Placed() && t !in nodes && Follows(e.callsign, t)
      requires parent == Above(t) && (t != [] ==> right == t[|t| - 1])
      requires e !in nodes.Values && e.next == null && e.prev == null
      modifies this`root, this`nodes, nodes.Values
      ensures Linked() && Placed() && nodes == old(nodes)[t := e]
      ensures e.route == old(e.route) && forall p | p in old(nodes) :: nodes[p].route == old(nodes[p].route)
    {
      hide Turns;
      NothingBelow(t, true);
      NothingBelow(t, false);
      Parent(t);
      if parent == null {
        root := e;
      } else if right {
        parent.next := e;
      } else {
        parent.prev := e;
      }
      nodes := nodes[t := e];
    }
  }

  lemma Parent(t: Path)
    ensures forall q, b {:trigger q + [b]} :: q + [b] == t ==> t != [] && q == t[..|t| - 1] && b == t[|t| - 1]
    ensures t != [] ==> t == t[..|t| - 1] + [t[|t| - 1]]
  {
    forall q, b | q + [b] == t ensures t != [] && q == t[..|t| - 1] && b == t[|t| - 1] {
      assert (q + [b])[..|q|] == q;
    }
  }

  /** How long two paths agree. */
  function Agreement(p: Path, q: Path): (k: nat)
    ensures k <= |p| && k <= |q| && p[..k] == q[..k]
    ensures k < |p| && k < |q| ==> p[k] != q[k]
  {
    if p == [] || q == [] || p[0] != q[0] then 0
    else
      var k := Agreement(p[1..], q[1..]);
      assert p[..k + 1] == [p[0]] + p[1..][..k] && q[..k + 1] == [q[0]] + q[1..][..k];
      k + 1
  }
}
