/**
 Routing in ax25ipd: the configured routes, the callsigns heard behind them, and the default.
 */
module Routing {
  import opened Callsigns
  import CallTree

  datatype Option<T> = None | Some(value: T)

  datatype Route = Route(callsign: Call, ip: bv32, port: bv16, learn: bool)

  datatype Target = Target(ip: bv32, port: bv16)

  function TargetOf(r: Route): Target {
    Target(r.ip, r.port)
  }

  /** The tables; a route is known by its place in the list, from which none is ever removed. */
  datatype State = State(routes: seq<Route>, fallback: Option<nat>, bcasts: seq<Call>, heard: map<Call, nat>)
  {
    ghost predicate Valid() {
      && (fallback.Some? ==> fallback.value < |routes|)
      && (forall c | c in heard :: heard[c] < |routes|)
    }
  }

  predicate Static(routes: seq<Route>, c: Call) {
    exists i | 0 <= i < |routes| :: Match(c, routes[i].callsign)
  }

  predicate Broadcast(bcasts: seq<Call>, c: Call) {
    exists i | 0 <= i < |bcasts| :: Match(c, bcasts[i])
  }

  /** The first configured route for a callsign, or the length of the list. */
  function FirstMatch(routes: seq<Route>, c: Call): (i: nat)
    ensures i <= |routes| && (i < |routes| ==> Match(c, routes[i].callsign))
    ensures forall k | 0 <= k < i :: !Match(c, routes[k].callsign)
  {
    if routes == [] || Match(c, routes[0].callsign) then 0
    else
      assert forall k | 0 < k < |routes| :: routes[k] == routes[1..][k - 1];
      1 + FirstMatch(routes[1..], c)
  }

  function FirstIp(routes: seq<Route>, ip: bv32): (i: nat)
    ensures i <= |routes| && (i < |routes| ==> routes[i].ip == ip)
    ensures forall k | 0 <= k < i :: routes[k].ip != ip
  {
    if routes == [] || routes[0].ip == ip then 0
    else
      assert forall k | 0 < k < |routes| :: routes[k] == routes[1..][k - 1];
      1 + FirstIp(routes[1..], ip)
  }

  /** A route that may learn takes over the address its callsign was heard from. */
  function Learned(r: Route, c: Call, ip: bv32): Route {
    if Match(c, r.callsign) && r.learn then r.(ip := ip) else r
  }

  function LearnedAll(routes: seq<Route>, c: Call, ip: bv32): (l: seq<Route>)
    ensures |l| == |routes| && forall i | 0 <= i < |l| :: l[i] == Learned(routes[i], c, ip)
  {
    seq(|routes|, i requires 0 <= i < |routes| => Learned(routes[i], c, ip))
  }

  /** What hearing a callsign from an address does to the tables. */
  function Process(s: State, ip: bv32, call: Call): State {
    var c := Normalised(call);
    var routes := LearnedAll(s.routes, c, ip);
    var i := FirstIp(routes, ip);
    if Static(s.routes, c) || Broadcast(s.bcasts, c) || i == |routes| then s.(routes := routes)
    else s.(routes := routes, heard := s.heard[c := i])
  }

  /** Where a frame for a callsign goes: configured routes first, then what has been heard, then
      the default. */
  function Lookup(s: State, call: Call): Option<Target>
    requires s.Valid()
  {
    var c := Normalised(call);
    var i := FirstMatch(s.routes, c);
    if i < |s.routes| then Some(TargetOf(s.routes[i]))
    else if c in s.heard then Some(TargetOf(s.routes[s.heard[c]]))
    else if s.fallback.Some? then Some(TargetOf(s.routes[s.fallback.value]))
    else None
  }

  // ----- learning and looking up

  lemma StaticIsMatched(routes: seq<Route>, c: Call)
    ensures Static(routes, c) <==> FirstMatch(routes, c) < |routes|
  {
    hide Match;
    var i := FirstMatch(routes, c);
    if Static(routes, c) {
      var k :| 0 <= k < |routes| && Match(c, routes[k].callsign);
      assert i <= k;
    }
  }

  lemma {:induction false} SameMatches(a: seq<Route>, b: seq<Route>, c: Call)
    requires |a| == |b| && forall i | 0 <= i < |a| :: a[i].callsign == b[i].callsign
    ensures FirstMatch(a, c) == FirstMatch(b, c)
  {
    hide Match, FirstMatch;
    var i, k := FirstMatch(a, c), FirstMatch(b, c);
    assert i < |a| ==> Match(c, b[i].callsign);
    assert k < |b| ==> Match(c, a[k].callsign);
  }

  lemma ProcessKeepsValid(s: State, ip: bv32, call: Call)
    requires s.Valid()
    ensures Process(s, ip, call).Valid()
  {
    hide Match, Normalised;
  }

  /** A callsign that is not configured, heard from the address of a route, is found at that
      address from then on. */
  lemma HeardIsFound(s: State, ip: bv32, call: Call)
    requires s.Valid() && !Static(s.routes, Normalised(call)) && !Broadcast(s.bcasts, Normalised(call))
    ensures Process(s, ip, call).Valid()
    ensures FirstIp(s.routes, ip) < |s.routes| ==>
              Lookup(Process(s, ip, call), call) == Some(TargetOf(s.routes[FirstIp(s.routes, ip)]))
    ensures FirstIp(s.routes, ip) == |s.routes| ==> Lookup(Process(s, ip, call), call) == Lookup(s, call)
  {
    hide Match, Normalised, FirstMatch, FirstIp;
    ProcessKeepsValid(s, ip, call);
    NothingLearned(s.routes, Normalised(call), ip);
    StaticIsMatched(s.routes, Normalised(call));
  }

  lemma NothingLearned(routes: seq<Route>, c: Call, ip: bv32)
    requires !Static(routes, c)
    ensures LearnedAll(routes, c, ip) == routes
  {
    hide Match;
  }

  /** A configured callsign is found at its first route, which follows the sender if it may. */
  lemma ConfiguredIsFound(s: State, ip: bv32, call: Call)
    requires s.Valid() && Static(s.routes, Normalised(call))
    ensures Process(s, ip, call).Valid() && FirstMatch(s.routes, Normalised(call)) < |s.routes|
    ensures var r := s.routes[FirstMatch(s.routes, Normalised(call))];
            Lookup(Process(s, ip, call), call) == Some(Target(if r.learn then ip else r.ip, r.port))
  {
    hide Match, Normalised, FirstMatch, FirstIp;
    var c := Normalised(call);
    ProcessKeepsValid(s, ip, call);
    StaticIsMatched(s.routes, c);
    SameMatches(s.routes, LearnedAll(s.routes, c, ip), c);
  }

  /** Hearing a callsign that is not configured changes no other callsign's way. */
  lemma OthersUndisturbed(s: State, ip: bv32, call: Call, other: Call)
    requires s.Valid() && !Static(s.routes, Normalised(call)) && Normalised(other) != Normalised(call)
    ensures Process(s, ip, call).Valid() && Lookup(Process(s, ip, call), other) == Lookup(s, other)
  {
    hide Match, Normalised, FirstMatch, FirstIp;
    ProcessKeepsValid(s, ip, call);
    NothingLearned(s.routes, Normalised(call), ip);
  }

  // ----- over all runs

  datatype Heard = Heard(ip: bv32, call: Call)

  function Run(s: State, hs: seq<Heard>): State {
    if hs == [] then s else Process(Run(s, hs[..|hs| - 1]), hs[|hs| - 1].ip, hs[|hs| - 1].call)
  }

  /** No configured and no broadcast callsign is ever remembered. */
  ghost predicate Clean(s: State) {
    forall c | c in s.heard :: !Static(s.routes, c) && !Broadcast(s.bcasts, c)
  }

  lemma {:induction false} RunIsClean(s: State, hs: seq<Heard>)
    requires s.Valid() && Clean(s)
    ensures Run(s, hs).Valid() && Clean(Run(s, hs))
    ensures Run(s, hs).bcasts == s.bcasts && |Run(s, hs).routes| == |s.routes|
    ensures forall i | 0 <= i < |s.routes| :: Run(s, hs).routes[i].callsign == s.routes[i].callsign
  {
    hide Process;
    if hs != [] {
      var t, h := Run(s, hs[..|hs| - 1]), hs[|hs| - 1];
      RunIsClean(s, hs[..|hs| - 1]);
      ProcessKeepsValid(t, h.ip, h.call);
      ProcessKeepsClean(t, h.ip, h.call);
    }
  }

  lemma ProcessKeepsClean(s: State, ip: bv32, call: Call)
    requires Clean(s)
    ensures Clean(Process(s, ip, call)) && Process(s, ip, call).bcasts == s.bcasts
    ensures |Process(s, ip, call).routes| == |s.routes|
    ensures forall i | 0 <= i < |s.routes| :: Process(s, ip, call).routes[i].callsign == s.routes[i].callsign
  {
    hide Match, Normalised, FirstIp;
    var t := Process(s, ip, call);
    forall c ensures Static(t.routes, c) <==> Static(s.routes, c) {
      SameStatic(s.routes, t.routes, c);
    }
  }

  lemma SameStatic(a: seq<Route>, b: seq<Route>, c: Call)
    requires |a| == |b| && forall i | 0 <= i < |a| :: a[i].callsign == b[i].callsign
    ensures Static(a, c) <==> Static(b, c)
  {
    hide Match;
    if Static(a, c) {
      var i :| 0 <= i < |a| && Match(c, a[i].callsign);
      assert Match(c, b[i].callsign);
    }
    if Static(b, c) {
      var i :| 0 <= i < |b| && Match(c, b[i].callsign);
      assert Match(c, a[i].callsign);
    }
  }

  /** After hearing a callsign that is neither configured nor broadcast, whatever others are
      heard then, it is found where the route it was heard behind is. */
  lemma {:induction false} LastHeardCounts(s: State, ip: bv32, call: Call, hs: seq<Heard>)
    requires s.Valid() && Clean(s)
    requires !Static(s.routes, Normalised(call)) && !Broadcast(s.bcasts, Normalised(call))
    requires FirstIp(s.routes, ip) < |s.routes|
    requires forall i | 0 <= i < |hs| :: Normalised(hs[i].call) != Normalised(call)
    ensures var t := Run(Process(s, ip, call), hs);
            && t.Valid() && |t.routes| == |s.routes|
            && Lookup(t, call) == Some(TargetOf(t.routes[FirstIp(s.routes, ip)]))
  {
    hide Match, Normalised, FirstIp, FirstMatch;
    var c, p := Normalised(call), Process(s, ip, call);
    ProcessKeepsValid(s, ip, call);
    ProcessKeepsClean(s, ip, call);
    RunIsClean(p, hs);
    NothingLearned(s.routes, c, ip);
    KeepsHeard(p, c, hs);
    var t := Run(p, hs);
    SameMatches(s.routes, t.routes, c);
    StaticIsMatched(s.routes, c);
  }

  lemma {:induction false} KeepsHeard(s: State, c: Call, hs: seq<Heard>)
    requires c in s.heard && forall i | 0 <= i < |hs| :: Normalised(hs[i].call) != c
    ensures c in Run(s, hs).heard && Run(s, hs).heard[c] == s.heard[c]
  {
    hide Normalised, Match;
    if hs != [] { KeepsHeard(s, c, hs[..|hs| - 1]); }
  }

  /** A callsign that is not configured and was never heard from the address of a route, or that
      is a broadcast callsign, goes to the default route, whatever else has been heard. */
  lemma UnheardGoesToDefault(s: State, call: Call, hs: seq<Heard>)
    requires s.Valid() && Clean(s) && Normalised(call) !in s.heard && !Static(s.routes, Normalised(call))
    requires
      || Broadcast(s.bcasts, Normalised(call))
      || forall i | 0 <= i < |hs| ::
           || Normalised(hs[i].call) != Normalised(call)
           || forall r | r in Run(s, hs[..i]).routes :: r.ip != hs[i].ip
    ensures var t := Run(s, hs);
            && t.Valid() && |t.routes| == |s.routes|
            && Lookup(t, call) == match s.fallback
                                  case None => None
                                  case Some(k) => Some(Target(t.routes[k].ip, t.routes[k].port))
  {
    hide Match, Normalised, FirstIp, FirstMatch, Broadcast, Process;
    var c := Normalised(call);
    var t := Run(s, hs);
    RunIsClean(s, hs);
    StaysUnheard(s, c, hs);
    KeepsDefault(s, hs);
    SameMatches(s.routes, t.routes, c);
    StaticIsMatched(s.routes, c);
  }

  lemma {:induction false} StaysUnheard(s: State, c: Call, hs: seq<Heard>)
    requires s.Valid() && Clean(s) && c !in s.heard
    requires
      || Broadcast(s.bcasts, c)
      || forall i | 0 <= i < |hs| ::
           Normalised(hs[i].call) != c || forall r | r in Run(s, hs[..i]).routes :: r.ip != hs[i].ip
    ensures c !in Run(s, hs).heard
  {
    hide Normalised, Match, FirstIp, Broadcast, Process, Static;
    if hs != [] {
      var front, h := hs[..|hs| - 1], hs[|hs| - 1];
      assert forall i | 0 <= i < |front| :: front[i] == hs[i] && front[..i] == hs[..i];
      StaysUnheard(s, c, front);
      RunIsClean(s, front);
      OneMoreHeard(Run(s, front), h.ip, h.call, c);
    }
  }

  lemma OneMoreHeard(s: State, ip: bv32, call: Call, c: Call)
    requires c !in s.heard
    requires Broadcast(s.bcasts, c) || Normalised(call) != c || forall r | r in s.routes :: r.ip != ip
    ensures c !in Process(s, ip, call).heard
  {
    hide Normalised, Match, Broadcast;
    if Normalised(call) == c && !Static(s.routes, c) && !Broadcast(s.bcasts, c) {
      NothingLearned(s.routes, c, ip);
    }
  }

  lemma {:induction false} KeepsDefault(s: State, hs: seq<Heard>)
    ensures Run(s, hs).fallback == s.fallback
  {
    hide Normalised, Match, FirstIp, Broadcast;
    if hs != [] { KeepsDefault(s, hs[..|hs| - 1]); }
  }

  /** The callsign heard is one a route is configured for, and the route may learn. */
  predicate Teaches(h: Heard, r: Route) {
    r.learn && Match(Normalised(h.call), r.callsign)
  }

  function Teaching(r: Route): Heard -> bool {
    (h: Heard) => Teaches(h, r)
  }

  /** The last element of a kind, counted from one, or zero. */
  function LastWhere<T>(s: seq<T>, p: T -> bool): (n: nat)
    ensures n <= |s| && (n > 0 ==> p(s[n - 1])) && forall k | n <= k < |s| :: !p(s[k])
  {
    if s == [] then 0 else if p(s[|s| - 1]) then |s| else LastWhere(s[..|s| - 1], p)
  }

  /** After any run a route that may learn has the address it was last heard from, and every
      other route, and everything else of a route, is as it was configured. */
  lemma {:induction false} RoutesFollow(s: State, hs: seq<Heard>, i: nat)
    requires i < |s.routes|
    ensures |Run(s, hs).routes| == |s.routes|
    ensures var n := LastWhere(hs, Teaching(s.routes[i]));
            Run(s, hs).routes[i] == if n == 0 then s.routes[i] else s.routes[i].(ip := hs[n - 1].ip)
  {
    hide Process, Teaches;
    if hs != [] {
      var front, h := hs[..|hs| - 1], hs[|hs| - 1];
      RoutesFollow(s, front, i);
      RouteLearns(Run(s, front), h, i);
      SameTeacher(h, Run(s, front).routes[i], s.routes[i]);
    }
  }

  lemma RouteLearns(s: State, h: Heard, i: nat)
    requires i < |s.routes|
    ensures |Process(s, h.ip, h.call).routes| == |s.routes|
    ensures Process(s, h.ip, h.call).routes[i] == if Teaches(h, s.routes[i]) then s.routes[i].(ip := h.ip) else s.routes[i]
  {
    hide Normalised, Match, FirstIp, Broadcast;
  }

  lemma SameTeacher(h: Heard, a: Route, b: Route)
    requires a.callsign == b.callsign && a.learn == b.learn
    ensures Teaches(h, a) <==> Teaches(h, b)
  {
    hide Normalised, Match;
  }

  // ----- the module as it runs

  class Router {
    var routes: seq<Route>
    var defaultRoute: Option<nat>
    var bcasts: seq<Call>
    const lookup: CallTree.Tree<nat>

    ghost function Abs(): State
      reads this, lookup
    {
      State(routes, defaultRoute, bcasts, lookup.recorded)
    }

    ghost predicate Valid()
      reads this, lookup, lookup.nodes.Values
    {
      lookup.Valid() && Abs().Valid()
    }

    constructor ()
      ensures Valid() && Abs() == State([], None, [], map[]) && fresh(lookup)
    {
      routes, defaultRoute, bcasts := [], None, [];
      lookup := new CallTree.Tree();
    }

    method RouteAdd(ip: bv32, call: Call, port: bv16, learn: bool, isDefault: bool)
      requires Valid()
      modifies this
      ensures Valid() && routes == old(routes) + [Route(Normalised(call), ip, port, learn)]
      ensures defaultRoute == if isDefault then Some(|old(routes)|) else old(defaultRoute)
      ensures bcasts == old(bcasts)
    {
      if isDefault { defaultRoute := Some(|routes|); }
      routes := routes + [Route(Normalised(call), ip, port, learn)];
    }

    method BcastAdd(call: Call)
      requires Valid()
      modifies this
      ensures Valid() && Abs() == old(Abs()).(bcasts := old(bcasts) + [Normalised(call)])
    {
      bcasts := bcasts + [Normalised(call)];
    }

    method IsCallBcast(call: Call) returns (found: bool)
      ensures found == Broadcast(bcasts, Normalised(call))
    {
      hide Match, Normalised;
      var c := Normalised(call);
      for i := 0 to |bcasts|
        invariant forall k | 0 <= k < i :: !Match(c, bcasts[k])
      {
        if Match(c, bcasts[i]) { return true; }
      }
      found := false;
    }

    method CallToIp(call: Call) returns (target: Option<Target>)
      requires Valid()
      ensures target == Lookup(Abs(), call)
    {
      hide Match, Normalised, FirstMatch, IsNormal;
      var c := Normalised(call);
      NormalisedIsNormal(call);
      for i := 0 to |routes|
        invariant forall k | 0 <= k < i :: !Match(c, routes[k].callsign)
      {
        if Match(c, routes[i].callsign) {
          return Some(TargetOf(routes[i]));
        }
      }
      var e := lookup.Lookup(c);
      if e != null {
        return Some(TargetOf(routes[e.route]));
      }
      if defaultRoute.Some? {
        return Some(TargetOf(routes[defaultRoute.value]));
      }
      target := None;
    }

    method RouteProcess(ip: bv32, call: Call)
      requires Valid()
      modifies this, lookup, lookup.nodes.Values
      ensures Valid() && Abs() == Process(old(Abs()), ip, call)
    {
      hide Match, Normalised, Broadcast, IsNormal;
      ghost var was := Abs();
      var c := Normalised(call);
      NormalisedIsNormal(call);
      ProcessKeepsValid(was, ip, call);
      var isRoute := LearnRoutes(ip, c);
      var bcast := false;
      if !isRoute { bcast := IsCallBcast(call); }
      if !isRoute && !bcast {
        for i := 0 to |routes|
          invariant Valid() && Abs() == was.(routes := LearnedAll(was.routes, c, ip))
          invariant forall k | 0 <= k < i :: routes[k].ip != ip
        {
          if routes[i].ip == ip {
            assert FirstIp(routes, ip) == i;
            lookup.UpdateReturnPath(c, i);
            return;
          }
        }
      }
    }

    /** The first loop of route_process. */
    method LearnRoutes(ip: bv32, c: Call) returns (isRoute: bool)
      requires Valid()
      modifies this`routes
      ensures Valid() && isRoute == Static(old(routes), c)
      ensures Abs() == old(Abs()).(routes := LearnedAll(old(routes), c, ip))
    {
      hide Match;
      isRoute := false;
      ghost var was := routes;
      var i := 0;
      while i < |routes|
        invariant |routes| == |was| && i <= |was| && defaultRoute == old(defaultRoute) && bcasts == old(bcasts)
        invariant forall k | 0 <= k < i :: routes[k] == Learned(was[k], c, ip)
        invariant forall k | i <= k < |was| :: routes[k] == was[k]
        invariant isRoute <==> exists k | 0 <= k < i :: Match(c, was[k].callsign)
        invariant lookup.Valid() && Abs().Valid() && lookup.recorded == old(lookup.recorded)
      {
        var r := routes[i];
        if Match(c, r.callsign) {
          if r.ip != ip && r.learn { routes := routes[i := r.(ip := ip)]; }
          isRoute := true;
        }
        i := i + 1;
      }
      assert routes == LearnedAll(was, c, ip);
    }
  }
}
