/**
 The route caches of ax25rtd: the IP and AX.25 caches in most-recently-used order,
 with eviction, expiry, and the removal of an AX.25 route that takes its IP routes along.
 */
module RouteCache {
  import opened LinkedRoutes
  import opened Subnet

  type Call = seq<bv8>

  datatype IpRoute = IpRoute(ip: bv32, iface: string, call: Call, ipmode: int, timestamp: int, invalid: bool)
  datatype AxRoute = AxRoute(call: Call, iface: string, digis: seq<Call>, timestamp: int)

  const NEW_ARP := 1
  const NEW_ROUTE := 2
  const NEW_IPMODE := 4

  // ----- what the operations do to the sequence of entries

  /** The position of the first entry with a key, or the length. */
  function Find<T, K(==)>(s: seq<T>, key: T -> K, k: K): (i: nat)
    ensures i <= |s| && (i < |s| ==> key(s[i]) == k) && forall m | 0 <= m < i :: key(s[m]) != k
  {
    if s == [] || key(s[0]) == k then 0
    else
      assert forall m | 0 < m < |s| :: s[m] == s[1..][m - 1];
      1 + Find(s[1..], key, k)
  }

  lemma {:induction false} FoundAt<T, K>(s: seq<T>, key: T -> K, k: K, i: nat)
    requires i <= |s| && (forall m | 0 <= m < i :: key(s[m]) != k) && (i < |s| ==> key(s[i]) == k)
    ensures Find(s, key, k) == i
  {
  }

  function IpKey(r: IpRoute): bv32 { r.ip }
  function AxKey(r: AxRoute): Call { r.call }

  /** A deletion names the interface as well as the callsign. */
  function AxSlot(r: AxRoute): (Call, string) { (r.call, r.iface) }

  /** An entry that is permanent is not touched by an update that is not. */
  predicate Shielded(stored: int, timestamp: int) {
    stored == 0 && timestamp != 0
  }

  /** The update of a keyed most-recently-used list: x replaces the entry at its key and moves
      to the front; a new x pushes the last entry out when the list is full. */
  function Update<T, K(==)>(s: seq<T>, max: nat, key: T -> K, x: T): seq<T>
  {
    var i := Find(s, key, key(x));
    if i < |s| then ToFront(s, i, x)
    else if |s| < max then [x] + s
    else if s == [] then []
    else [x] + s[..|s| - 1]
  }

  function IpUpdate(s: seq<IpRoute>, max: nat, c: Config, x: IpRoute): seq<IpRoute> {
    var i := Find(s, IpKey, x.ip);
    if !OnSubnet(c, x.ip) || (i < |s| && Shielded(s[i].timestamp, x.timestamp)) then s
    else Update(s, max, IpKey, if i < |s| then x.(invalid := s[i].invalid) else x)
  }

  /** Which kernel tables an IP update changes. */
  function IpAction(s: seq<IpRoute>, max: nat, c: Config, x: IpRoute): int {
    var i := Find(s, IpKey, x.ip);
    if !OnSubnet(c, x.ip) || (i < |s| && Shielded(s[i].timestamp, x.timestamp)) || (s == [] && max == 0) then 0
    else if i == |s| then NEW_ROUTE + NEW_ARP + NEW_IPMODE
    else
      (if s[i].iface != x.iface then NEW_ROUTE else 0) + (if s[i].call != x.call then NEW_ARP else 0)
      + (if s[i].ipmode != x.ipmode then NEW_IPMODE else 0)
  }

  lemma OffSubnet(s: seq<IpRoute>, max: nat, c: Config, x: IpRoute)
    ensures !OnSubnet(c, x.ip) ==> IpUpdate(s, max, c, x) == s && IpAction(s, max, c, x) == 0
  {
  }

  lemma IpKnown(s: seq<IpRoute>, max: nat, c: Config, x: IpRoute, i: nat)
    requires OnSubnet(c, x.ip) && i < |s| && Find(s, IpKey, x.ip) == i
    ensures IpUpdate(s, max, c, x) ==
            if Shielded(s[i].timestamp, x.timestamp) then s else ToFront(s, i, x.(invalid := s[i].invalid))
    ensures IpAction(s, max, c, x) ==
            if Shielded(s[i].timestamp, x.timestamp) then 0
            else (if s[i].iface != x.iface then NEW_ROUTE else 0) + (if s[i].call != x.call then NEW_ARP else 0)
                 + (if s[i].ipmode != x.ipmode then NEW_IPMODE else 0)
  {
    hide OnSubnet, Find;
  }

  lemma IpNew(s: seq<IpRoute>, max: nat, c: Config, x: IpRoute)
    requires OnSubnet(c, x.ip) && Find(s, IpKey, x.ip) == |s|
    ensures IpUpdate(s, max, c, x) ==
            if |s| < max then [x] + s else if s == [] then [] else [x] + s[..|s| - 1]
    ensures IpAction(s, max, c, x) == if s == [] && max == 0 then 0 else NEW_ROUTE + NEW_ARP + NEW_IPMODE
  {
    hide OnSubnet, Find;
  }

  function AxUpdate(s: seq<AxRoute>, max: nat, x: AxRoute): seq<AxRoute> {
    var i := Find(s, AxKey, x.call);
    if i < |s| && Shielded(s[i].timestamp, x.timestamp) then s else Update(s, max, AxKey, x)
  }

  /** Whether an AX.25 update has to be handed on to the kernel. */
  predicate AxChanged(s: seq<AxRoute>, max: nat, x: AxRoute) {
    var i := Find(s, AxKey, x.call);
    if i < |s| then
      !Shielded(s[i].timestamp, x.timestamp) && (s[i].iface != x.iface || s[i].digis != x.digis)
    else
      !(s == [] && max == 0)
  }

  predicate Expired(timestamp: int, when: int, now: int) {
    timestamp != 0 && timestamp + when <= now
  }

  function IpExpired(when: int, now: int): IpRoute -> bool {
    (r: IpRoute) => Expired(r.timestamp, when, now)
  }

  function AxExpired(when: int, now: int): AxRoute -> bool {
    (r: AxRoute) => Expired(r.timestamp, when, now)
  }

  function Carries(calls: set<Call>): IpRoute -> bool {
    (r: IpRoute) => r.call in calls
  }

  function ExpiredCalls(s: seq<AxRoute>, when: int, now: int): set<Call> {
    set r | r in s && Expired(r.timestamp, when, now) :: r.call
  }

  function IpDelete(s: seq<IpRoute>, ip: bv32): seq<IpRoute> {
    var i := Find(s, IpKey, ip);
    if ip == 0 || i == |s| then s else Without(s, i)
  }

  function IpInvalidate(s: seq<IpRoute>, ip: bv32): seq<IpRoute> {
    var i := Find(s, IpKey, ip);
    if i == |s| then s else s[i := s[i].(invalid := true)]
  }

  function AxDelete(s: seq<AxRoute>, call: Call, iface: string): seq<AxRoute> {
    var i := Find(s, AxSlot, (call, iface));
    if i == |s| then s else Without(s, i)
  }

  /** What the deletion of an AX.25 route from s leaves of the IP routes. */
  function IpWithdraw(ips: seq<IpRoute>, s: seq<AxRoute>, call: Call, iface: string): seq<IpRoute> {
    if Find(s, AxSlot, (call, iface)) == |s| then ips else Keep(ips, Carries({call}))
  }

  // ----- the caches

  class Caches {
    const ipRoutes: List<IpRoute>
    const axRoutes: List<AxRoute>
    var ipMax: nat
    var axMax: nat

    ghost predicate Valid()
      reads this, ipRoutes, ipRoutes.nodes, axRoutes, axRoutes.nodes
    {
      ipRoutes.Valid() && axRoutes.Valid()
    }

    constructor (ipMax: nat, axMax: nat)
      ensures Valid() && ipRoutes.Contents() == [] && axRoutes.Contents() == []
      ensures this.ipMax == ipMax && this.axMax == axMax && fresh(ipRoutes) && fresh(axRoutes)
    {
      this.ipMax, this.axMax := ipMax, axMax;
      ipRoutes := new List();
      axRoutes := new List();
    }

    method UpdateIpRoute(config: Config, ip: bv32, ipmode: int, call: Call, timestamp: int) returns (action: int)
      requires Valid()
      modifies ipRoutes, ipRoutes.nodes
      ensures Valid() && axRoutes.Contents() == old(axRoutes.Contents())
      ensures var x := IpRoute(ip, config.dev, call, ipmode, timestamp, false);
              && ipRoutes.Contents() == IpUpdate(old(ipRoutes.Contents()), ipMax, config, x)
              && action == IpAction(old(ipRoutes.Contents()), ipMax, config, x)
    {
      hide OnSubnet, Find, IpUpdate, IpAction, Update;
      action := 0;
      ghost var s := ipRoutes.Contents();
      ghost var x := IpRoute(ip, config.dev, call, ipmode, timestamp, false);
      OffSubnet(s, ipMax, config, x);
      if !OnSubnet(config, ip) { return; }
      var bp, bpPrev := ipRoutes.head, ipRoutes.head;
      ghost var i := 0;
      while bp != null
        invariant 0 <= i <= |s|
        invariant bp == if i < |s| then ipRoutes.nodes[i] else null
        invariant bpPrev == if s == [] then null else ipRoutes.nodes[if i == 0 then 0 else i - 1]
        invariant forall k | 0 <= k < i :: IpKey(s[k]) != ip
        decreases |s| - i
      {
        if bp.data.ip == ip {
          FoundAt(s, IpKey, ip, i);
          IpKnown(s, ipMax, config, x, i);
          if bp.data.timestamp == 0 && timestamp != 0 { return; }
          action := RefreshIp(bp, i, config, ipmode, call, timestamp);
          return;
        }
        bpPrev := bp;
        bp := bp.next;
        i := i + 1;
      }
      FoundAt(s, IpKey, ip, |s|);
      IpNew(s, ipMax, config, x);
      action := InsertIp(bpPrev, IpRoute(ip, config.dev, call, ipmode, timestamp, false));
    }

    /** The entry is known: note what changes, update it and move it to the front. */
    method RefreshIp(bp: Node<IpRoute>, ghost i: nat, config: Config, ipmode: int, call: Call, timestamp: int)
      returns (action: int)
      requires Valid() && i < |ipRoutes.nodes| && ipRoutes.nodes[i] == bp
      modifies ipRoutes, ipRoutes.nodes
      ensures Valid() && axRoutes.Contents() == old(axRoutes.Contents())
      ensures var was := old(bp.data);
              && ipRoutes.Contents() == ToFront(old(ipRoutes.Contents()), i,
                   IpRoute(was.ip, config.dev, call, ipmode, timestamp, was.invalid))
              && action == (if was.iface != config.dev then NEW_ROUTE else 0) + (if was.call != call then NEW_ARP else 0)
                         + (if was.ipmode != ipmode then NEW_IPMODE else 0)
    {
      action := 0;
      var r := bp.data;
      if r.iface != config.dev {
        action := action + NEW_ROUTE;
        r := r.(iface := config.dev);
      }
      if r.call != call {
        action := action + NEW_ARP;
        r := r.(call := call);
      }
      if ipmode != r.ipmode {
        action := action + NEW_IPMODE;
        r := r.(ipmode := ipmode);
      }
      ToFrontOfUpdate(ipRoutes.Contents(), i, r.(timestamp := timestamp));
      ipRoutes.Store(bp, i, r.(timestamp := timestamp));
      ipRoutes.MoveToFront(bp, i);
    }

    /** The entry is new: make room if the cache is full, and put it in front. */
    method InsertIp(bpPrev: Node?<IpRoute>, x: IpRoute) returns (action: int)
      requires Valid()
      requires bpPrev == if ipRoutes.nodes == [] then null else ipRoutes.nodes[|ipRoutes.nodes| - 1]
      modifies ipRoutes, ipRoutes.nodes
      ensures Valid() && axRoutes.Contents() == old(axRoutes.Contents())
      ensures var s := old(ipRoutes.Contents());
              if s == [] && ipMax == 0 then ipRoutes.Contents() == s && action == 0
              else
                && ipRoutes.Contents() == [x] + (if |s| < ipMax then s else s[..|s| - 1])
                && action == NEW_ROUTE + NEW_ARP + NEW_IPMODE
    {
      var done := ipRoutes.Insert(bpPrev, x, ipMax);
      action := if done then NEW_ROUTE + NEW_ARP + NEW_IPMODE else 0;
    }

    method UpdateAxRoute(config: Config, call: Call, digis: seq<Call>, timestamp: int) returns (changed: bool)
      requires Valid()
      modifies axRoutes, axRoutes.nodes
      ensures Valid() && ipRoutes.Contents() == old(ipRoutes.Contents())
      ensures var x := AxRoute(call, config.dev, digis, timestamp);
              && axRoutes.Contents() == AxUpdate(old(axRoutes.Contents()), axMax, x)
              && changed == AxChanged(old(axRoutes.Contents()), axMax, x)
    {
      hide Find;
      ghost var s := axRoutes.Contents();
      var bp, bpPrev := axRoutes.head, axRoutes.head;
      ghost var i := 0;
      while bp != null
        invariant 0 <= i <= |s|
        invariant bp == if i < |s| then axRoutes.nodes[i] else null
        invariant bpPrev == if s == [] then null else axRoutes.nodes[if i == 0 then 0 else i - 1]
        invariant forall k | 0 <= k < i :: AxKey(s[k]) != call
        decreases |s| - i
      {
        if bp.data.call == call {
          FoundAt(s, AxKey, call, i);
          if bp.data.timestamp == 0 && timestamp != 0 { return false; }
          changed := RefreshAx(bp, i, config, digis, timestamp);
          return;
        }
        bpPrev := bp;
        bp := bp.next;
        i := i + 1;
      }
      FoundAt(s, AxKey, call, |s|);
      changed := InsertAx(bpPrev, AxRoute(call, config.dev, digis, timestamp));
    }

    method RefreshAx(bp: Node<AxRoute>, ghost i: nat, config: Config, digis: seq<Call>, timestamp: int)
      returns (changed: bool)
      requires Valid() && i < |axRoutes.nodes| && axRoutes.nodes[i] == bp
      modifies axRoutes, axRoutes.nodes
      ensures Valid() && ipRoutes.Contents() == old(ipRoutes.Contents())
      ensures var was := old(bp.data);
              && axRoutes.Contents() == ToFront(old(axRoutes.Contents()), i,
                   AxRoute(was.call, config.dev, digis, timestamp))
              && changed == (was.iface != config.dev || was.digis != digis)
    {
      changed := false;
      var r := bp.data;
      if r.iface != config.dev {
        changed := true;
        r := r.(iface := config.dev);
      }
      if digis != r.digis {
        changed := true;
        r := r.(digis := digis);
      }
      ToFrontOfUpdate(axRoutes.Contents(), i, r.(timestamp := timestamp));
      axRoutes.Store(bp, i, r.(timestamp := timestamp));
      axRoutes.MoveToFront(bp, i);
    }

    method InsertAx(bpPrev: Node?<AxRoute>, x: AxRoute) returns (changed: bool)
      requires Valid()
      requires bpPrev == if axRoutes.nodes == [] then null else axRoutes.nodes[|axRoutes.nodes| - 1]
      modifies axRoutes, axRoutes.nodes
      ensures Valid() && ipRoutes.Contents() == old(ipRoutes.Contents())
      ensures var s := old(axRoutes.Contents());
              if s == [] && axMax == 0 then axRoutes.Contents() == s && !changed
              else axRoutes.Contents() == [x] + (if |s| < axMax then s else s[..|s| - 1]) && changed
    {
      changed := axRoutes.Insert(bpPrev, x, axMax);
    }

    /** remove_ax25_route: unlink the route and remove every IP route with its callsign. */
    method RemoveAxRoute(bp: Node<AxRoute>, ghost i: nat) returns (bp2: Node?<AxRoute>)
      requires Valid() && i < |axRoutes.nodes| && axRoutes.nodes[i] == bp
      modifies ipRoutes, ipRoutes.nodes, axRoutes, axRoutes.nodes
      ensures Valid() && axRoutes.At(i, bp2)
      ensures axRoutes.Contents() == Without(old(axRoutes.Contents()), i)
      ensures ipRoutes.Contents() == Keep(old(ipRoutes.Contents()), Carries({old(bp.data.call)}))
      ensures forall k | 0 <= k < |ipRoutes.nodes| :: ipRoutes.nodes[k] in old(ipRoutes.nodes)
      ensures forall k | 0 <= k < |axRoutes.nodes| :: axRoutes.nodes[k] in old(axRoutes.nodes)
    {
      hide Keep;
      bp2 := axRoutes.Unlink(bp, i);
      ipRoutes.RemoveWhere(Carries({bp.data.call}));
    }

    method DelIpRoute(ip: bv32) returns (missing: bool)
      requires Valid()
      modifies ipRoutes, ipRoutes.nodes
      ensures Valid() && axRoutes.Contents() == old(axRoutes.Contents())
      ensures var s := old(ipRoutes.Contents());
              missing == (ip == 0 || Find(s, IpKey, ip) == |s|) && ipRoutes.Contents() == IpDelete(s, ip)
    {
      hide Find;
      if ip == 0 { return true; }
      ghost var s, i: nat := ipRoutes.Contents(), 0;
      var bp := ipRoutes.head;
      while bp != null
        invariant Valid() && ipRoutes.Contents() == s && axRoutes.Contents() == old(axRoutes.Contents())
        invariant ipRoutes.nodes == old(ipRoutes.nodes)
        invariant ipRoutes.At(i, bp) && forall k | 0 <= k < i :: IpKey(s[k]) != ip
        decreases |s| - i
      {
        ipRoutes.DataAt(i);
        if bp.data.ip == ip {
          FoundAt(s, IpKey, ip, i);
          var _ := ipRoutes.Unlink(bp, i);
          return false;
        }
        bp := bp.next;
        i := i + 1;
      }
      FoundAt(s, IpKey, ip, |s|);
      missing := true;
    }

    method InvalidateIpRoute(ip: bv32) returns (found: bool)
      requires Valid()
      modifies ipRoutes.nodes
      ensures Valid() && axRoutes.Contents() == old(axRoutes.Contents())
      ensures var s := old(ipRoutes.Contents());
              found == (Find(s, IpKey, ip) < |s|) && ipRoutes.Contents() == IpInvalidate(s, ip)
    {
      hide Find;
      ghost var s, i: nat := ipRoutes.Contents(), 0;
      var bp := ipRoutes.head;
      while bp != null
        invariant Valid() && ipRoutes.Contents() == s && axRoutes.Contents() == old(axRoutes.Contents())
        invariant ipRoutes.nodes == old(ipRoutes.nodes)
        invariant ipRoutes.At(i, bp) && forall k | 0 <= k < i :: IpKey(s[k]) != ip
        decreases |s| - i
      {
        ipRoutes.DataAt(i);
        if bp.data.ip == ip {
          FoundAt(s, IpKey, ip, i);
          ipRoutes.Store(bp, i, bp.data.(invalid := true));
          return true;
        }
        bp := bp.next;
        i := i + 1;
      }
      FoundAt(s, IpKey, ip, |s|);
      found := false;
    }

    method DelAxRoute(config: Config, call: Call) returns (missing: bool)
      requires Valid()
      modifies ipRoutes, ipRoutes.nodes, axRoutes, axRoutes.nodes
      ensures Valid()
      ensures var s := old(axRoutes.Contents());
              && missing == (Find(s, AxSlot, (call, config.dev)) == |s|)
              && axRoutes.Contents() == AxDelete(s, call, config.dev)
              && ipRoutes.Contents() == IpWithdraw(old(ipRoutes.Contents()), s, call, config.dev)
    {
      hide Find, Keep;
      ghost var s, i: nat := axRoutes.Contents(), 0;
      var bp := axRoutes.head;
      while bp != null
        invariant Valid() && axRoutes.Contents() == s && ipRoutes.Contents() == old(ipRoutes.Contents())
        invariant axRoutes.nodes == old(axRoutes.nodes) && ipRoutes.nodes == old(ipRoutes.nodes)
        invariant axRoutes.At(i, bp) && forall k | 0 <= k < i :: AxSlot(s[k]) != (call, config.dev)
        decreases |s| - i
      {
        axRoutes.DataAt(i);
        if bp.data.call == call && bp.data.iface == config.dev {
          FoundAt(s, AxSlot, (call, config.dev), i);
          var _ := RemoveAxRoute(bp, i);
          return false;
        }
        bp := bp.next;
        i := i + 1;
      }
      FoundAt(s, AxSlot, (call, config.dev), |s|);
      missing := true;
    }

    method ExpireIpRoute(when: int, now: int)
      requires Valid()
      modifies ipRoutes, ipRoutes.nodes
      ensures Valid() && axRoutes.Contents() == old(axRoutes.Contents())
      ensures ipRoutes.Contents() == Keep(old(ipRoutes.Contents()), IpExpired(when, now))
      ensures forall r :: r in ipRoutes.Contents() <==>
                r in old(ipRoutes.Contents()) && (r.timestamp == 0 || now < r.timestamp + when)
    {
      hide Keep;
      KeepTakes(ipRoutes.Contents(), IpExpired(when, now));
      ipRoutes.RemoveWhere(IpExpired(when, now));
    }

    /** Where the expiry of the AX.25 cache stands after its first p entries. */
    ghost predicate Expiring(ips: seq<IpRoute>, s: seq<AxRoute>, p: nat, bp: Node?<AxRoute>, when: int, now: int)
      reads this, ipRoutes, ipRoutes.nodes, axRoutes, axRoutes.nodes
    {
      && p <= |s| && (bp != null ==> p < |s|)
      && axRoutes.At(|Keep(s[..p], AxExpired(when, now))|, bp)
      && axRoutes.Contents() == Keep(s[..p], AxExpired(when, now)) + s[p..]
      && ipRoutes.Contents() == Keep(ips, Carries(ExpiredCalls(s[..p], when, now)))
    }

    method ExpireAxRoute(when: int, now: int)
      requires Valid()
      modifies ipRoutes, ipRoutes.nodes, axRoutes, axRoutes.nodes
      ensures Valid()
      ensures axRoutes.Contents() == Keep(old(axRoutes.Contents()), AxExpired(when, now))
      ensures ipRoutes.Contents() ==
              Keep(old(ipRoutes.Contents()), Carries(ExpiredCalls(old(axRoutes.Contents()), when, now)))
    {
      hide Keep, ExpiredCalls, Expired, Carries, AxExpired, Expiring, Caches.Valid;
      ghost var ips, s, p: nat := ipRoutes.Contents(), axRoutes.Contents(), 0;
      var bp := axRoutes.head;
      StartExpiring(when, now);
      while bp != null
        invariant Valid() && Expiring(ips, s, p, bp, when, now)
        invariant forall k | 0 <= k < |ipRoutes.nodes| :: ipRoutes.nodes[k] in old(ipRoutes.nodes)
        invariant forall k | 0 <= k < |axRoutes.nodes| :: axRoutes.nodes[k] in old(axRoutes.nodes)
        decreases |s| - p
      {
        bp := VisitAx(bp, when, now, ips, s, p);
        p := p + 1;
      }
      EndExpiring(ips, s, p, when, now);
    }

    lemma StartExpiring(when: int, now: int)
      requires Valid()
      ensures Expiring(ipRoutes.Contents(), axRoutes.Contents(), 0, axRoutes.head, when, now)
    {
      hide Keep, ExpiredCalls, Expired, Carries, AxExpired;
      KeepStart(axRoutes.Contents(), AxExpired(when, now));
      NoneExpired(ipRoutes.Contents(), axRoutes.Contents(), when, now);
    }

    lemma EndExpiring(ips: seq<IpRoute>, s: seq<AxRoute>, p: nat, when: int, now: int)
      requires Valid() && Expiring(ips, s, p, null, when, now)
      ensures axRoutes.Contents() == Keep(s, AxExpired(when, now))
      ensures ipRoutes.Contents() == Keep(ips, Carries(ExpiredCalls(s, when, now)))
    {
      hide Keep, ExpiredCalls, Expired, Carries, AxExpired;
      assert s[..p] == s;
    }

    /** One entry of the AX.25 expiry, with the removal nested in it. */
    method VisitAx(bp: Node<AxRoute>, when: int, now: int, ghost ips: seq<IpRoute>, ghost s: seq<AxRoute>, ghost p: nat)
      returns (next: Node?<AxRoute>)
      requires Valid() && Expiring(ips, s, p, bp, when, now)
      modifies ipRoutes, ipRoutes.nodes, axRoutes, axRoutes.nodes
      ensures Valid() && p < |s| && Expiring(ips, s, p + 1, next, when, now)
      ensures forall k | 0 <= k < |ipRoutes.nodes| :: ipRoutes.nodes[k] in old(ipRoutes.nodes)
      ensures forall k | 0 <= k < |axRoutes.nodes| :: axRoutes.nodes[k] in old(axRoutes.nodes)
    {
      hide Keep, ExpiredCalls, Expired, Carries, AxExpired;
      ghost var kept := Keep(s[..p], AxExpired(when, now));
      axRoutes.DataAt(|kept|);
      WithoutMiddle(kept, s, p);
      KeepStep(s, p, AxExpired(when, now));
      OneMoreExpired(ips, s, p, when, now);
      if Expired(bp.data.timestamp, when, now) {
        next := RemoveAxRoute(bp, |kept|);
      } else {
        next := bp.next;
      }
    }
  }

  lemma NoneExpired(ips: seq<IpRoute>, s: seq<AxRoute>, when: int, now: int)
    ensures Keep(ips, Carries(ExpiredCalls(s[..0], when, now))) == ips
  {
    KeepNothing(ips);
    assert ExpiredCalls(s[..0], when, now) == {};
  }

  lemma {:induction false} KeepNothing(ips: seq<IpRoute>)
    ensures Keep(ips, Carries({})) == ips
  {
    if ips != [] { KeepNothing(ips[..|ips| - 1]); }
  }

  lemma OneMoreExpired(ips: seq<IpRoute>, s: seq<AxRoute>, p: nat, when: int, now: int)
    requires p < |s|
    ensures AxExpired(when, now)(s[p]) == Expired(s[p].timestamp, when, now)
    ensures Keep(ips, Carries(ExpiredCalls(s[..p + 1], when, now))) ==
            var kept := Keep(ips, Carries(ExpiredCalls(s[..p], when, now)));
            if Expired(s[p].timestamp, when, now) then Keep(kept, Carries({s[p].call})) else kept
  {
    var calls := ExpiredCalls(s[..p], when, now);
    assert s[..p + 1] == s[..p] + [s[p]];
    assert ExpiredCalls(s[..p + 1], when, now) == if Expired(s[p].timestamp, when, now) then calls + {s[p].call} else calls;
    KeepTwice(ips, calls, {s[p].call});
  }

  lemma {:induction false} KeepTwice(ips: seq<IpRoute>, a: set<Call>, b: set<Call>)
    ensures Keep(Keep(ips, Carries(a)), Carries(b)) == Keep(ips, Carries(a + b))
  {
    if ips != [] {
      KeepTwice(ips[..|ips| - 1], a, b);
      var front, last := Keep(ips[..|ips| - 1], Carries(a)), ips[|ips| - 1];
      assert (front + [last])[..|front|] == front && front + [] == front;
      assert Keep(ips, Carries(a)) == if last.call in a then front else front + [last];
    }
  }
}
