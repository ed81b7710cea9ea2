/**
 What the sequences behind the two route caches satisfy over all runs: keys stay unique, the
 length stays within the limit, the cache holds the most recently heard keys with their latest
 values, and removal takes exactly what it should.
 */
module RouteLaws {
  import opened LinkedRoutes
  import opened RouteCache
  import opened Subnet

  /** No two entries share a key. */
  predicate Unique<T(!new), K(==)>(s: seq<T>, key: T -> K) {
    forall i, k | 0 <= i < k < |s| :: key(s[i]) != key(s[k])
  }

  predicate Sound<T(!new), K(==)>(s: seq<T>, max: nat, key: T -> K) {
    Unique(s, key) && |s| <= max
  }

  function SameKey<T, K(==)>(key: T -> K, k: K): T -> bool {
    (r: T) => key(r) == k
  }

  function Take<T>(s: seq<T>, n: nat): seq<T> {
    if |s| <= n then s else s[..n]
  }

  // ----- one update

  lemma {:induction false} KeepAll<T(!new)>(s: seq<T>, gone: T -> bool)
    requires forall i | 0 <= i < |s| :: !gone(s[i])
    ensures Keep(s, gone) == s
  {
    if s != [] {
      var front := s[..|s| - 1];
      KeepAll(front, gone);
      assert !gone(s[|s| - 1]) && s == front + [s[|s| - 1]];
    }
  }

  lemma {:induction false} KeepConcat<T>(a: seq<T>, b: seq<T>, gone: T -> bool)
    ensures Keep(a + b, gone) == Keep(a, gone) + Keep(b, gone)
  {
    if b == [] {
      assert a + b == a;
    } else {
      KeepConcat(a, b[..|b| - 1], gone);
      assert (a + b)[..|a + b| - 1] == a + b[..|b| - 1];
    }
  }

  lemma OthersDiffer<T(!new), K>(s: seq<T>, key: T -> K, k: K)
    requires forall m | 0 <= m < |s| :: key(s[m]) != k
    ensures forall m | 0 <= m < |s| :: !SameKey(key, k)(s[m])
  {
  }

  lemma KeepFound<T(!new), K>(s: seq<T>, key: T -> K, k: K, i: nat)
    requires Unique(s, key) && i < |s| && key(s[i]) == k
    ensures Keep(s, SameKey(key, k)) == Without(s, i)
  {
    hide Keep;
    var a, b := s[..i], s[i + 1..];
    assert s == a + ([s[i]] + b);
    forall m | 0 <= m < |b| ensures key(b[m]) != k { assert b[m] == s[i + 1 + m]; }
    OthersDiffer(a, key, k);
    OthersDiffer(b, key, k);
    KeepAround(a, s[i], b, SameKey(key, k));
  }

  /** Dropping the entry of a unique key leaves the others as they are. */
  lemma KeepOthers<T(!new), K>(s: seq<T>, key: T -> K, k: K)
    requires Unique(s, key)
    ensures var i := Find(s, key, k); Keep(s, SameKey(key, k)) == if i < |s| then Without(s, i) else s
  {
    hide Keep, Find, Unique, SameKey;
    var i := Find(s, key, k);
    if i < |s| {
      KeepFound(s, key, k, i);
    } else {
      assert forall m | 0 <= m < |s| :: !SameKey(key, k)(s[m]) by { OthersDiffer(s, key, k); }
      KeepAll(s, SameKey(key, k));
    }
  }

  lemma KeepAround<T(!new)>(a: seq<T>, x: T, b: seq<T>, gone: T -> bool)
    requires (forall m | 0 <= m < |a| :: !gone(a[m])) && gone(x) && (forall m | 0 <= m < |b| :: !gone(b[m]))
    ensures Keep(a + ([x] + b), gone) == a + b
  {
    hide Keep;
    KeepConcat(a, [x] + b, gone);
    KeepConcat([x], b, gone);
    KeepAll(a, gone);
    KeepAll(b, gone);
    KeepOne(x, gone);
  }

  lemma KeepOne<T>(x: T, gone: T -> bool)
    ensures Keep([x], gone) == if gone(x) then [] else [x]
  {
    assert [x][..0] == [];
  }

  /** An update puts x in front of the other entries and cuts the list at the limit. */
  lemma UpdateIsFront<T(!new), K>(s: seq<T>, max: nat, key: T -> K, x: T)
    requires Sound(s, max, key)
    ensures Update(s, max, key, x) == Take([x] + Keep(s, SameKey(key, key(x))), max)
  {
    hide Keep, Find;
    KeepOthers(s, key, key(x));
    var i := Find(s, key, key(x));
    if i < |s| {
      assert ToFront(s, i, x) == [x] + Without(s, i);
    } else if |s| == max && s != [] {
      assert ([x] + s)[..max] == [x] + s[..|s| - 1];
    }
  }

  lemma UpdateKeepsSound<T(!new), K>(s: seq<T>, max: nat, key: T -> K, x: T)
    requires Sound(s, max, key)
    ensures Sound(Update(s, max, key, x), max, key)
  {
    hide Keep;
    var i := Find(s, key, key(x));
    if i < |s| {
      WithoutIsUnique(s, i, key);
      assert ToFront(s, i, x) == [x] + Without(s, i);
    }
  }

  lemma IpUpdateKeepsSound(s: seq<IpRoute>, max: nat, c: Config, x: IpRoute)
    requires Sound(s, max, IpKey)
    ensures Sound(IpUpdate(s, max, c, x), max, IpKey)
  {
    hide Update, Find, Unique;
    var i := Find(s, IpKey, x.ip);
    UpdateKeepsSound(s, max, IpKey, if i < |s| then x.(invalid := s[i].invalid) else x);
  }

  lemma AxUpdateKeepsSound(s: seq<AxRoute>, max: nat, x: AxRoute)
    requires Sound(s, max, AxKey)
    ensures Sound(AxUpdate(s, max, x), max, AxKey)
  {
    hide Update, Find, Unique;
    UpdateKeepsSound(s, max, AxKey, x);
  }

  /** A permanent entry outlives an ordinary update unless it is the last one of a full cache
      and a new callsign comes in: being permanent does not protect it from eviction. */
  lemma PermanentStays(s: seq<AxRoute>, max: nat, x: AxRoute, i: nat)
    requires Sound(s, max, AxKey) && i < |s| && s[i].timestamp == 0 && x.timestamp != 0
    ensures s[i] in AxUpdate(s, max, x) <==> !(i == |s| - 1 && |s| == max && Find(s, AxKey, x.call) == |s|)
  {
    hide Find, Unique;
    var m := Find(s, AxKey, x.call);
    if m < |s| {
      if m != i { StaysInToFront(s, m, x, i); }
    } else {
      StaysBehindNew(s, max, AxKey, x, i);
    }
  }

  /** The same for the IP cache, where an address off the subnet changes nothing. */
  lemma IpPermanentStays(s: seq<IpRoute>, max: nat, c: Config, x: IpRoute, i: nat)
    requires Sound(s, max, IpKey) && i < |s| && s[i].timestamp == 0 && x.timestamp != 0
    ensures s[i] in IpUpdate(s, max, c, x) <==>
            !(OnSubnet(c, x.ip) && i == |s| - 1 && |s| == max && Find(s, IpKey, x.ip) == |s|)
  {
    hide Find, Unique, OnSubnet;
    var m := Find(s, IpKey, x.ip);
    if m < |s| {
      if m != i { StaysInToFront(s, m, x.(invalid := s[m].invalid), i); }
    } else {
      StaysBehindNew(s, max, IpKey, x, i);
    }
  }

  lemma StaysBehindNew<T(!new), K>(s: seq<T>, max: nat, key: T -> K, x: T, i: nat)
    requires Sound(s, max, key) && i < |s| && s[i] != x
    ensures s[i] in [x] + (if |s| < max then s else s[..|s| - 1]) <==> !(i == |s| - 1 && |s| == max)
  {
    if |s| < max || i < |s| - 1 {
      assert ([x] + (if |s| < max then s else s[..|s| - 1]))[1 + i] == s[i];
    } else {
      assert forall k | 0 <= k < i :: key(s[k]) != key(s[i]);
      assert forall r | r in s[..i] :: r != s[i];
    }
  }

  lemma StaysInToFront<T>(s: seq<T>, m: nat, x: T, i: nat)
    requires m < |s| && i < |s| && i != m
    ensures s[i] in ToFront(s, m, x)
  {
    assert ToFront(s, m, x)[if i < m then 1 + i else i] == s[i];
  }

  // ----- whole runs

  function Run<T(!new), K(==)>(xs: seq<T>, max: nat, key: T -> K): seq<T> {
    if xs == [] then [] else Update(Run(xs[..|xs| - 1], max, key), max, key, xs[|xs| - 1])
  }

  /** Every key heard, latest first, each with its latest value: what a cache without a limit
      would hold. */
  function Recent<T, K(==)>(xs: seq<T>, key: T -> K): seq<T> {
    if xs == [] then []
    else [xs[|xs| - 1]] + Keep(Recent(xs[..|xs| - 1], key), SameKey(key, key(xs[|xs| - 1])))
  }

  lemma {:induction false} RecentIsUnique<T(!new), K>(xs: seq<T>, key: T -> K)
    ensures Unique(Recent(xs, key), key)
  {
    hide Keep;
    if xs != [] {
      var x := xs[|xs| - 1];
      var r := Recent(xs[..|xs| - 1], key);
      RecentIsUnique(xs[..|xs| - 1], key);
      KeepOthers(r, key, key(x));
      var i := Find(r, key, key(x));
      if i < |r| { WithoutIsUnique(r, i, key); }
    }
  }

  lemma WithoutIsUnique<T(!new), K>(s: seq<T>, i: nat, key: T -> K)
    requires Unique(s, key) && i < |s|
    ensures Unique(Without(s, i), key) && |Without(s, i)| == |s| - 1
    ensures forall m | 0 <= m < |s| - 1 :: Without(s, i)[m] == if m < i then s[m] else s[m + 1]
  {
  }

  /** Cutting before or after one key is dropped makes no difference, one entry earlier. */
  lemma TakeKeep<T(!new), K>(r: seq<T>, max: nat, key: T -> K, x: T)
    requires Unique(r, key)
    ensures Take([x] + Keep(Take(r, max), SameKey(key, key(x))), max) == Take([x] + Keep(r, SameKey(key, key(x))), max)
  {
    hide Keep, Find;
    var k := key(x);
    if max < |r| {
      assert Unique(r[..max], key);
      KeepOthers(r, key, k);
      KeepOthers(r[..max], key, k);
      var i := Find(r, key, k);
      FindInPrefix(r, max, key, k);
      if i < |r| { TakeWithout(r, i, max, x); }
      TakeTake(r, max, x);
    }
  }

  lemma FindInPrefix<T, K>(r: seq<T>, max: nat, key: T -> K, k: K)
    requires max < |r|
    ensures Find(r[..max], key, k) == if Find(r, key, k) < max then Find(r, key, k) else max
  {
    hide Find;
    var i := Find(r, key, k);
    FoundAt(r[..max], key, k, if i < max then i else max);
  }

  lemma TakeTake<T>(r: seq<T>, max: nat, x: T)
    requires max < |r|
    ensures ([x] + r[..max])[..max] == ([x] + r)[..max]
  {
  }

  lemma TakeWithout<T>(r: seq<T>, i: nat, max: nat, x: T)
    requires max < |r| && i < |r|
    ensures ([x] + Without(r, i))[..max] == if i < max then [x] + Without(r[..max], i) else ([x] + r)[..max]
  {
  }

  lemma NothingIsUnique<T(!new), K>(key: T -> K)
    ensures Unique([], key)
  {
  }

  /** After any run of updates the cache holds exactly the `max` most recently heard keys, the
      latest in front, each with its latest value. */
  lemma {:induction false} RunIsMostRecent<T(!new), K>(xs: seq<T>, max: nat, key: T -> K)
    ensures Run(xs, max, key) == Take(Recent(xs, key), max) && Sound(Run(xs, max, key), max, key)
  {
    hide Keep, Update, Unique;
    if xs == [] {
      NothingIsUnique(key);
    } else {
      var front, x := xs[..|xs| - 1], xs[|xs| - 1];
      RunIsMostRecent(front, max, key);
      RecentIsUnique(front, key);
      UpdateIsFront(Run(front, max, key), max, key, x);
      UpdateKeepsSound(Run(front, max, key), max, key, x);
      TakeKeep(Recent(front, key), max, key, x);
    }
  }

  // ----- runs of the two caches, with the updates that are refused

  function AxRun(xs: seq<AxRoute>, max: nat): seq<AxRoute> {
    if xs == [] then [] else AxUpdate(AxRun(xs[..|xs| - 1], max), max, xs[|xs| - 1])
  }

  /** The updates of a run that take effect: those that do not meet a permanent entry. */
  function AxHeard(xs: seq<AxRoute>, max: nat): seq<AxRoute> {
    if xs == [] then []
    else
      var s, x := AxRun(xs[..|xs| - 1], max), xs[|xs| - 1];
      var i := Find(s, AxKey, x.call);
      AxHeard(xs[..|xs| - 1], max) + if i < |s| && Shielded(s[i].timestamp, x.timestamp) then [] else [x]
  }

  lemma {:induction false} AxRunIsMostRecent(xs: seq<AxRoute>, max: nat)
    ensures AxRun(xs, max) == Take(Recent(AxHeard(xs, max), AxKey), max) && Sound(AxRun(xs, max), max, AxKey)
  {
    hide Recent, Sound, Take;
    AxRunIsRun(xs, max);
    RunIsMostRecent(AxHeard(xs, max), max, AxKey);
  }

  lemma {:induction false} AxRunIsRun(xs: seq<AxRoute>, max: nat)
    ensures AxRun(xs, max) == Run(AxHeard(xs, max), max, AxKey)
  {
    hide Update, Find, Run;
    if xs == [] {
      RunStart<AxRoute, Call>(max, AxKey);
    } else {
      var front := xs[..|xs| - 1];
      AxRunIsRun(front, max);
      RunStep(AxHeard(front, max), xs[|xs| - 1], max, AxKey);
      assert AxHeard(front, max) + [] == AxHeard(front, max);
    }
  }

  lemma RunStart<T(!new), K>(max: nat, key: T -> K)
    ensures Run([], max, key) == []
  {
  }

  lemma RunStep<T(!new), K>(h: seq<T>, x: T, max: nat, key: T -> K)
    ensures Run(h + [x], max, key) == Update(Run(h, max, key), max, key, x)
  {
    hide Update;
    assert (h + [x])[..|h|] == h;
  }

  function IpRun(xs: seq<IpRoute>, max: nat, c: Config): seq<IpRoute> {
    if xs == [] then [] else IpUpdate(IpRun(xs[..|xs| - 1], max, c), max, c, xs[|xs| - 1])
  }

  /** The updates of a run that take effect, as they are stored: on the subnet, not meeting a
      permanent entry, and with the invalid mark the entry already had. */
  function IpHeard(xs: seq<IpRoute>, max: nat, c: Config): seq<IpRoute> {
    if xs == [] then []
    else
      var s, x := IpRun(xs[..|xs| - 1], max, c), xs[|xs| - 1];
      var i := Find(s, IpKey, x.ip);
      IpHeard(xs[..|xs| - 1], max, c) +
      if !OnSubnet(c, x.ip) || (i < |s| && Shielded(s[i].timestamp, x.timestamp)) then []
      else [if i < |s| then x.(invalid := s[i].invalid) else x]
  }

  lemma {:induction false} IpRunIsMostRecent(xs: seq<IpRoute>, max: nat, c: Config)
    ensures IpRun(xs, max, c) == Take(Recent(IpHeard(xs, max, c), IpKey), max) && Sound(IpRun(xs, max, c), max, IpKey)
  {
    hide Recent, Sound, Take;
    IpRunIsRun(xs, max, c);
    RunIsMostRecent(IpHeard(xs, max, c), max, IpKey);
  }

  lemma {:induction false} IpRunIsRun(xs: seq<IpRoute>, max: nat, c: Config)
    ensures IpRun(xs, max, c) == Run(IpHeard(xs, max, c), max, IpKey)
  {
    hide Update, Find, OnSubnet, Run;
    if xs == [] {
      RunStart<IpRoute, bv32>(max, IpKey);
    } else {
      var front, x := xs[..|xs| - 1], xs[|xs| - 1];
      var s := IpRun(front, max, c);
      IpRunIsRun(front, max, c);
      var i := Find(s, IpKey, x.ip);
      RunStep(IpHeard(front, max, c), if i < |s| then x.(invalid := s[i].invalid) else x, max, IpKey);
      assert IpHeard(front, max, c) + [] == IpHeard(front, max, c);
    }
  }

  // ----- removal

  predicate Subsequence<T(==)>(a: seq<T>, b: seq<T>) {
    if a == [] then true
    else if b == [] then false
    else if a[|a| - 1] == b[|b| - 1] then Subsequence(a[..|a| - 1], b[..|b| - 1])
    else Subsequence(a, b[..|b| - 1])
  }

  lemma {:induction false} KeepIsSubsequence<T(!new)>(s: seq<T>, gone: T -> bool)
    ensures Subsequence(Keep(s, gone), s)
  {
    if s != [] {
      var front, last := s[..|s| - 1], s[|s| - 1];
      KeepIsSubsequence(front, gone);
      var kept := Keep(front, gone);
      if !gone(last) {
        assert (kept + [last])[..|kept|] == kept;
      } else {
        assert kept + [] == kept;
        SubsequenceGrows(kept, s);
      }
    }
  }

  /** Expiry and cascade keep exactly the entries that are not gone, as often as they were
      there, and in their old order. */
  lemma {:induction false} KeepIsExact<T(!new)>(s: seq<T>, gone: T -> bool, x: T)
    ensures Subsequence(Keep(s, gone), s)
    ensures multiset(Keep(s, gone))[x] == if gone(x) then 0 else multiset(s)[x]
  {
    hide Subsequence;
    KeepIsSubsequence(s, gone);
    if s != [] {
      KeepIsExact(s[..|s| - 1], gone, x);
      assert s == s[..|s| - 1] + [s[|s| - 1]];
    }
  }

  lemma {:induction false} SubsequenceGrows<T>(a: seq<T>, b: seq<T>)
    requires b != [] && Subsequence(a, b[..|b| - 1])
    ensures Subsequence(a, b)
    decreases |b|, 0
  {
    if a != [] && a[|a| - 1] == b[|b| - 1] {
      SubsequenceShrinks(a, b[..|b| - 1]);
    }
  }

  lemma {:induction false} SubsequenceShrinks<T>(a: seq<T>, b: seq<T>)
    requires a != [] && Subsequence(a, b)
    ensures Subsequence(a[..|a| - 1], b)
    decreases |b|, 1
  {
    if a[|a| - 1] == b[|b| - 1] {
      SubsequenceGrows(a[..|a| - 1], b);
    } else {
      SubsequenceShrinks(a, b[..|b| - 1]);
      SubsequenceGrows(a[..|a| - 1], b);
    }
  }

  lemma {:induction false} KeepKeepsSound<T(!new), K>(s: seq<T>, gone: T -> bool, max: nat, key: T -> K)
    requires Sound(s, max, key)
    ensures Sound(Keep(s, gone), max, key) && forall r | r in Keep(s, gone) :: r in s
  {
    if s != [] {
      var front := s[..|s| - 1];
      assert forall m | 0 <= m < |front| :: front[m] == s[m];
      KeepKeepsSound(front, gone, |front|, key);
      var kept := Keep(front, gone);
      forall m | 0 <= m < |kept| ensures key(kept[m]) != key(s[|s| - 1]) && kept[m] in s {
        assert kept[m] in front;
        var n :| 0 <= n < |front| && front[n] == kept[m];
        assert s[n] == front[n];
      }
    }
  }

  /** Expiring the AX.25 cache leaves no IP route with an expired callsign, and takes no other. */
  lemma ExpiryCascades(ips: seq<IpRoute>, s: seq<AxRoute>, when: int, now: int, r: IpRoute)
    ensures r in Keep(ips, Carries(ExpiredCalls(s, when, now))) <==>
            r in ips && forall a | a in s && a.call == r.call :: a.timestamp == 0 || a.timestamp + when > now
  {
    hide Keep;
    KeepIsExact(ips, Carries(ExpiredCalls(s, when, now)), r);
    assert r in Keep(ips, Carries(ExpiredCalls(s, when, now))) <==>
           multiset(Keep(ips, Carries(ExpiredCalls(s, when, now))))[r] > 0;
    assert r in ips <==> multiset(ips)[r] > 0;
  }

  // ----- runs of all the operations on both caches

  datatype Tables = Tables(ips: seq<IpRoute>, axs: seq<AxRoute>)

  /** The calls that change a cache. */
  datatype Op =
    | UpdateIp(config: Config, route: IpRoute)
    | UpdateAx(axRoute: AxRoute)
    | DeleteIp(ip: bv32)
    | InvalidateIp(ip: bv32)
    | DeleteAx(call: Call, iface: string)
    | ExpireIp(when: int, now: int)
    | ExpireAx(when: int, now: int)

  function Apply(t: Tables, ipMax: nat, axMax: nat, op: Op): Tables {
    match op
    case UpdateIp(config, x) => t.(ips := IpUpdate(t.ips, ipMax, config, x))
    case UpdateAx(x) => t.(axs := AxUpdate(t.axs, axMax, x))
    case DeleteIp(ip) => t.(ips := IpDelete(t.ips, ip))
    case InvalidateIp(ip) => t.(ips := IpInvalidate(t.ips, ip))
    case DeleteAx(call, iface) => Tables(IpWithdraw(t.ips, t.axs, call, iface), AxDelete(t.axs, call, iface))
    case ExpireIp(when, now) => t.(ips := Keep(t.ips, IpExpired(when, now)))
    case ExpireAx(when, now) =>
      Tables(Keep(t.ips, Carries(ExpiredCalls(t.axs, when, now))), Keep(t.axs, AxExpired(when, now)))
  }

  function ApplyAll(ops: seq<Op>, ipMax: nat, axMax: nat): Tables {
    if ops == [] then Tables([], [])
    else Apply(ApplyAll(ops[..|ops| - 1], ipMax, axMax), ipMax, axMax, ops[|ops| - 1])
  }

  predicate BothSound(t: Tables, ipMax: nat, axMax: nat) {
    Sound(t.ips, ipMax, IpKey) && Sound(t.axs, axMax, AxKey)
  }

  /** Whatever is updated, deleted, invalidated and expired in whatever order: no address and no
      callsign is ever in its cache twice, and no cache is longer than its limit. */
  lemma {:induction false} RunsStaySound(ops: seq<Op>, ipMax: nat, axMax: nat)
    ensures BothSound(ApplyAll(ops, ipMax, axMax), ipMax, axMax)
  {
    hide Apply, Sound;
    if ops == [] {
      NothingIsSound(ipMax, IpKey);
      NothingIsSound(axMax, AxKey);
    } else {
      RunsStaySound(ops[..|ops| - 1], ipMax, axMax);
      ApplyKeepsSound(ApplyAll(ops[..|ops| - 1], ipMax, axMax), ipMax, axMax, ops[|ops| - 1]);
    }
  }

  lemma NothingIsSound<T(!new), K>(max: nat, key: T -> K)
    ensures Sound([], max, key)
  {
  }

  lemma ApplyKeepsSound(t: Tables, ipMax: nat, axMax: nat, op: Op)
    requires BothSound(t, ipMax, axMax)
    ensures BothSound(Apply(t, ipMax, axMax, op), ipMax, axMax)
  {
    hide Sound, Keep, IpUpdate, AxUpdate, IpDelete, IpInvalidate, AxDelete, IpWithdraw, ExpiredCalls;
    match op
    case UpdateIp(config, x) => IpUpdateKeepsSound(t.ips, ipMax, config, x);
    case UpdateAx(x) => AxUpdateKeepsSound(t.axs, axMax, x);
    case DeleteIp(ip) => IpDeleteKeepsSound(t.ips, ipMax, ip);
    case InvalidateIp(ip) => IpInvalidateKeepsSound(t.ips, ipMax, ip);
    case DeleteAx(call, iface) => AxDeleteKeepsSound(t, ipMax, axMax, call, iface);
    case ExpireIp(when, now) => KeepKeepsSound(t.ips, IpExpired(when, now), ipMax, IpKey);
    case ExpireAx(when, now) =>
      KeepKeepsSound(t.ips, Carries(ExpiredCalls(t.axs, when, now)), ipMax, IpKey);
      KeepKeepsSound(t.axs, AxExpired(when, now), axMax, AxKey);
  }

  lemma IpDeleteKeepsSound(s: seq<IpRoute>, max: nat, ip: bv32)
    requires Sound(s, max, IpKey)
    ensures Sound(IpDelete(s, ip), max, IpKey)
  {
    hide Find, Unique;
    var i := Find(s, IpKey, ip);
    if i < |s| { WithoutIsUnique(s, i, IpKey); }
  }

  lemma IpInvalidateKeepsSound(s: seq<IpRoute>, max: nat, ip: bv32)
    requires Sound(s, max, IpKey)
    ensures Sound(IpInvalidate(s, ip), max, IpKey)
  {
    hide Find;
  }

  lemma AxDeleteKeepsSound(t: Tables, ipMax: nat, axMax: nat, call: Call, iface: string)
    requires BothSound(t, ipMax, axMax)
    ensures Sound(AxDelete(t.axs, call, iface), axMax, AxKey)
    ensures Sound(IpWithdraw(t.ips, t.axs, call, iface), ipMax, IpKey)
  {
    hide Find, Unique, Keep;
    var i := Find(t.axs, AxSlot, (call, iface));
    if i < |t.axs| {
      WithoutIsUnique(t.axs, i, AxKey);
      KeepKeepsSound(t.ips, Carries({call}), ipMax, IpKey);
    }
  }

  // ----- which entries an operation takes, stated on the entries

  /** Expiry keeps the permanent and the fresh IP routes, as often as they were there, and no other. */
  lemma IpExpiryIsExact(ips: seq<IpRoute>, when: int, now: int, r: IpRoute)
    ensures var left := Keep(ips, IpExpired(when, now));
            && Subsequence(left, ips)
            && multiset(left)[r] == (if r.timestamp == 0 || r.timestamp + when > now then multiset(ips)[r] else 0)
            && (r in left <==> r in ips && (r.timestamp == 0 || r.timestamp + when > now))
  {
    hide Keep, Subsequence;
    KeepIsExact(ips, IpExpired(when, now), r);
    InIsCounted(ips, r);
    InIsCounted(Keep(ips, IpExpired(when, now)), r);
  }

  lemma InIsCounted<T>(s: seq<T>, x: T)
    ensures x in s <==> multiset(s)[x] > 0
  {
  }

  lemma AxExpiryIsExact(s: seq<AxRoute>, when: int, now: int, r: AxRoute)
    ensures var left := Keep(s, AxExpired(when, now));
            && Subsequence(left, s)
            && multiset(left)[r] == (if r.timestamp == 0 || r.timestamp + when > now then multiset(s)[r] else 0)
            && (r in left <==> r in s && (r.timestamp == 0 || r.timestamp + when > now))
  {
    hide Keep, Subsequence;
    KeepIsExact(s, AxExpired(when, now), r);
    InIsCounted(s, r);
    InIsCounted(Keep(s, AxExpired(when, now)), r);
  }

  /** A deletion takes the entry of that address, and leaves the others in their order; address
      zero names none. */
  lemma IpDeleteIs(s: seq<IpRoute>, max: nat, ip: bv32)
    requires Sound(s, max, IpKey)
    ensures IpDelete(s, ip) == if ip == 0 then s else Keep(s, SameKey(IpKey, ip))
    ensures forall r :: r in IpDelete(s, ip) <==> r in s && (ip == 0 || r.ip != ip)
  {
    hide Keep, Find, Unique;
    KeepOthers(s, IpKey, ip);
    KeepTakes(s, SameKey(IpKey, ip));
  }

  /** An invalidation marks the entry of that address where it is, and changes no other. */
  lemma IpInvalidateIs(s: seq<IpRoute>, max: nat, ip: bv32)
    requires Sound(s, max, IpKey)
    ensures |IpInvalidate(s, ip)| == |s|
    ensures forall k | 0 <= k < |s| ::
              IpInvalidate(s, ip)[k] == if s[k].ip == ip then s[k].(invalid := true) else s[k]
  {
    hide Find;
  }

  /** The deletion of an AX.25 route takes the entry of that callsign if it is on that interface,
      and then every IP route of the callsign. */
  lemma AxDeleteIs(t: Tables, ipMax: nat, axMax: nat, call: Call, iface: string)
    requires BothSound(t, ipMax, axMax)
    ensures Subsequence(AxDelete(t.axs, call, iface), t.axs)
    ensures forall r :: r in AxDelete(t.axs, call, iface) <==> r in t.axs && !(r.call == call && r.iface == iface)
    ensures Subsequence(IpWithdraw(t.ips, t.axs, call, iface), t.ips)
    ensures forall r :: r in IpWithdraw(t.ips, t.axs, call, iface) <==>
              r in t.ips && !(r.call == call && exists a | a in t.axs :: a.call == call && a.iface == iface)
  {
    hide Keep, Find, Subsequence, AxDelete, IpWithdraw;
    AxEntryTaken(t.axs, call, iface);
    SlotFound(t.axs, call, iface);
    IpEntriesTaken(t.ips, t.axs, call, iface);
  }

  lemma AxEntryTaken(s: seq<AxRoute>, call: Call, iface: string)
    requires Unique(s, AxKey)
    ensures Subsequence(AxDelete(s, call, iface), s)
    ensures forall r :: r in AxDelete(s, call, iface) <==> r in s && !(r.call == call && r.iface == iface)
  {
    hide Keep, Find, Subsequence;
    SlotIsUnique(s);
    KeepOthers(s, AxSlot, (call, iface));
    KeepTakes(s, SameKey(AxSlot, (call, iface)));
    KeepIsSubsequence(s, SameKey(AxSlot, (call, iface)));
    Whole(s);
  }

  lemma IpEntriesTaken(ips: seq<IpRoute>, s: seq<AxRoute>, call: Call, iface: string)
    ensures var left := IpWithdraw(ips, s, call, iface);
            && Subsequence(left, ips)
            && forall r :: r in left <==> r in ips && !(r.call == call && Find(s, AxSlot, (call, iface)) < |s|)
  {
    hide Keep, Find, Subsequence;
    Whole(ips);
    KeepTakes(ips, Carries({call}));
    KeepIsSubsequence(ips, Carries({call}));
  }

  lemma SlotIsUnique(s: seq<AxRoute>)
    requires Unique(s, AxKey)
    ensures Unique(s, AxSlot)
  {
    forall i, k | 0 <= i < k < |s| ensures AxSlot(s[i]) != AxSlot(s[k]) {
      assert AxKey(s[i]) != AxKey(s[k]);
    }
  }

  lemma SlotFound(s: seq<AxRoute>, call: Call, iface: string)
    ensures Find(s, AxSlot, (call, iface)) < |s| <==> exists a | a in s :: a.call == call && a.iface == iface
  {
    hide Find;
    var i := Find(s, AxSlot, (call, iface));
    if i < |s| { assert s[i] in s; }
    if a :| a in s && a.call == call && a.iface == iface {
      var k :| 0 <= k < |s| && s[k] == a;
      assert AxSlot(s[k]) == (call, iface);
    }
  }

  lemma {:induction false} Whole<T>(s: seq<T>)
    ensures Subsequence(s, s)
  {
    if s != [] { Whole(s[..|s| - 1]); }
  }

  // ----- when an update takes effect, and what it asks of the kernel

  /** The IP updates that change nothing: off the subnet, an ordinary one for a permanent entry,
      or one that finds no room at all. */
  ghost predicate IpRefused(s: seq<IpRoute>, max: nat, c: Config, x: IpRoute) {
    || Network(x.ip, c.netmask) != Network(c.ip, c.netmask)
    || (x.timestamp != 0 && exists r | r in s :: r.ip == x.ip && r.timestamp == 0)
    || (s == [] && max == 0)
  }

  /** Every other update is in front afterwards, with the invalid mark the address had; and the
      kernel is asked for an ARP entry (1), a route (2) and an IP mode (4) exactly when the cache
      did not hold that callsign, that interface and that mode for the address. */
  lemma IpUpdateTakes(s: seq<IpRoute>, max: nat, c: Config, x: IpRoute)
    requires Sound(s, max, IpKey) && !x.invalid
    ensures var t := IpUpdate(s, max, c, x);
            if IpRefused(s, max, c, x) then t == s
            else t != [] && t[0] == x.(invalid := exists r | r in s :: r.ip == x.ip && r.invalid)
    ensures IpAction(s, max, c, x) ==
            if IpRefused(s, max, c, x) then 0
            else
              (if exists r | r in s :: r.ip == x.ip && r.call == x.call then 0 else 1)
              + (if exists r | r in s :: r.ip == x.ip && r.iface == x.iface then 0 else 2)
              + (if exists r | r in s :: r.ip == x.ip && r.ipmode == x.ipmode then 0 else 4)
  {
    hide Find, Unique, OnSubnet, IpUpdate, IpAction, Network;
    SubnetIs(c, x.ip);
    var i := Find(s, IpKey, x.ip);
    if i < |s| {
      OnlyEntry(s, IpKey, i);
      if OnSubnet(c, x.ip) { IpKnown(s, max, c, x, i); } else { OffSubnet(s, max, c, x); }
    } else {
      NoEntry(s, IpKey, x.ip);
      if OnSubnet(c, x.ip) { IpNew(s, max, c, x); } else { OffSubnet(s, max, c, x); }
    }
  }

  lemma OnlyEntry<T(!new), K>(s: seq<T>, key: T -> K, i: nat)
    requires Unique(s, key) && i < |s|
    ensures s[i] in s && forall r | r in s && key(r) == key(s[i]) :: r == s[i]
  {
    forall r | r in s && key(r) == key(s[i]) ensures r == s[i] {
      var k :| 0 <= k < |s| && s[k] == r;
    }
  }

  lemma NoEntry<T(!new), K>(s: seq<T>, key: T -> K, k: K)
    requires Find(s, key, k) == |s|
    ensures forall r | r in s :: key(r) != k
  {
    hide Find;
    assert forall m | 0 <= m < Find(s, key, k) :: key(s[m]) != k;
  }

  ghost predicate AxRefused(s: seq<AxRoute>, max: nat, x: AxRoute) {
    || (x.timestamp != 0 && exists r | r in s :: r.call == x.call && r.timestamp == 0)
    || (s == [] && max == 0)
  }

  /** The same for the AX.25 cache, where the route is handed on exactly when the cache did not
      hold it with that interface and those digipeaters. */
  lemma AxUpdateTakes(s: seq<AxRoute>, max: nat, x: AxRoute)
    requires Sound(s, max, AxKey)
    ensures var t := AxUpdate(s, max, x);
            if AxRefused(s, max, x) then t == s else t != [] && t[0] == x
    ensures AxChanged(s, max, x) <==>
            !AxRefused(s, max, x) && !exists r | r in s :: r.call == x.call && r.iface == x.iface && r.digis == x.digis
  {
    hide Find, Unique;
    var i := Find(s, AxKey, x.call);
    if i < |s| { OnlyEntry(s, AxKey, i); } else { NoEntry(s, AxKey, x.call); }
  }
}
