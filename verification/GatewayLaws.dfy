/**
 Where ax25ipd sends a frame and what it makes of one that comes in, stated on the octets of the
 address field: bit 7 of the last octet of an address says that the station has repeated it.
 */
module GatewayLaws {
  import opened Callsigns
  import opened Digipeat
  import opened Routing
  import opened Gateway
  import Fcs

  predicate HasRepeated(f: seq<bv8>, k: nat)
    requires 7 * k + 6 < |f|
  {
    f[7 * k + 6] & 0x80 == 0x80
  }

  /** Of n addresses, k is the first digipeater that has not repeated the frame, or the
      destination when all have. */
  predicate NextUp(f: seq<bv8>, n: nat, k: nat)
    requires n >= 2 && 7 * n <= |f|
  {
    || (2 <= k < n && !HasRepeated(f, k) && forall i | 2 <= i < k :: HasRepeated(f, i))
    || (k == 0 && forall i | 2 <= i < n :: HasRepeated(f, i))
  }

  lemma BitIs(x: bv8)
    ensures RepeatedBit(x) <==> x & 0x80 == 0x80
  {
  }

  lemma {:induction false} NextIs(f: seq<bv8>, n: nat, j: nat, k: nat)
    requires n >= 2 && 7 * n <= |f| && 2 <= j <= n && NextUp(f, n, k) && (k == 0 || j <= k)
    ensures NextFrom(f, n, j) == k
    decreases n - j
  {
    hide RepeatedBit, HasRepeated;
    if j < n {
      SameRepeated(f, j);
      if HasRepeated(f, j) { NextIs(f, n, j + 1, k); }
    }
  }

  lemma SameRepeated(f: seq<bv8>, k: nat)
    requires 7 * k + 6 < |f|
    ensures HasRepeated(f, k) <==> Repeated(f, k)
  {
    BitIs(f[7 * k + 6]);
  }

  lemma CountIs(f: seq<bv8>, n: nat)
    requires HasAddresses(f, n)
    ensures AddressField(f) && Count(f) == n && n >= 2 && 7 * n < |f|
  {
    hide HasAddresses;
    SmallCount(f, n);
    AddressesFit(f, n);
    OneCount(f, Count(f), n);
  }

  /** One of our four callsigns. */
  predicate Mine(cfg: Config, c: Call) {
    exists d <- [cfg.mycallsign, cfg.myalias, cfg.mycallsign2, cfg.myalias2] :: Match(c, d)
  }

  lemma MineIs(cfg: Config, c: Call)
    ensures IsMe(cfg, c) <==> Mine(cfg, c)
  {
    hide Match;
    var ds := [cfg.mycallsign, cfg.myalias, cfg.mycallsign2, cfg.myalias2];
    assert ds[0] in ds && ds[1] in ds && ds[2] in ds && ds[3] in ds;
  }

  // ----- from KISS

  /** What becomes of a finished frame for a callsign. */
  ghost predicate GoesTo(s: State, frame: seq<bv8>, c: Call, o: ToIp)
    requires s.Valid()
  {
    var bcast := Broadcast(s.bcasts, Normalised(c));
    && (forall t :: o == Sent(frame, t, bcast) <==> Lookup(s, c) == Some(t))
    && (o == Broadcasted(frame) <==> Lookup(s, c) == None && bcast)
    && (o == Dropped(NoIpAddress) <==> Lookup(s, c) == None && !bcast)
  }

  lemma OnwardGoes(s: State, f: seq<bv8>, n: nat, k: nat)
    requires s.Valid() && HasAddresses(f, n) && NextUp(f, n, k)
    ensures AddressField(f) && 7 * k + 7 <= |f| && GoesTo(s, f + Fcs.CrcTail(f), f[7 * k..7 * k + 7], Onward(s, f))
  {
    hide HasAddresses, Lookup, Broadcast, Normalised, NextUp, NextFrom, Fcs.CrcTail;
    CountIs(f, n);
    NextInside(f, n, k);
    NextIs(f, n, 2, k);
  }

  lemma NextInside(f: seq<bv8>, n: nat, k: nat)
    requires n >= 2 && 7 * n <= |f| && NextUp(f, n, k)
    ensures k == 0 || 2 <= k < n
  {
  }

  /** In TNC mode a frame goes to the address of the station that is to have it next. */
  lemma TncSendsTo(cfg: Config, s: State, f: seq<bv8>, n: nat, k: nat)
    requires s.Valid() && !cfg.digi && |f| >= 15 && HasAddresses(f, n) && 7 * n <= |f| && NextUp(f, n, k)
    ensures 7 * k + 7 <= |f| && GoesTo(s, f + Fcs.CrcTail(f), f[7 * k..7 * k + 7], FromKiss(cfg, s, f))
  {
    hide HasAddresses, GoesTo, Onward, NextUp, Fcs.CrcTail;
    OnwardGoes(s, f, n, k);
  }

  /** In digi mode it has to be our turn, in slot k; then the frame goes, with our bit set, to
      the station that is to have it after us. */
  lemma DigiSendsTo(cfg: Config, s: State, f: seq<bv8>, n: nat, k: nat, m: nat)
    requires s.Valid() && cfg.digi && |f| >= 15 && HasAddresses(f, n) && 7 * n <= |f| && NextUp(f, n, k)
    ensures 7 * k + 7 <= |f|
    ensures var ours := f[7 * k..7 * k + 7];
            var g := f[7 * k + 6 := f[7 * k + 6] | 0x80];
            && (!Mine(cfg, ours) ==> FromKiss(cfg, s, f) == Dropped(NotForMe))
            && (Mine(cfg, ours) && k == 0 ==> FromKiss(cfg, s, f) == Dropped(IAmDestination))
            && (Mine(cfg, ours) && k != 0 && NextUp(g, n, m) ==>
                  7 * m + 7 <= |g| && GoesTo(s, g + Fcs.CrcTail(g), g[7 * m..7 * m + 7], FromKiss(cfg, s, f)))
  {
    hide HasAddresses, GoesTo, Onward, NextUp, Fcs.CrcTail, IsMe, Mine, NextFrom;
    CountIs(f, n);
    NextInside(f, n, k);
    NextIs(f, n, 2, k);
    MineIs(cfg, f[7 * k..7 * k + 7]);
    if k != 0 {
      SetRepeatedKeeps(f, n, k);
      var g := SetRepeated(f, k);
      if NextUp(g, n, m) { OnwardGoes(s, g, n, m); }
    }
  }

  /** Other frames are dropped: too short, or with an address field that has no end. */
  lemma NotSent(cfg: Config, s: State, f: seq<bv8>)
    requires s.Valid()
    ensures |f| < 15 ==> FromKiss(cfg, s, f) == Dropped(TooShort)
    ensures |f| >= 15 && (forall n | 2 <= n <= 10 :: !HasAddresses(f, n)) ==> FromKiss(cfg, s, f) == Dropped(BadAddress)
  {
    hide HasAddresses;
  }

  // ----- from IP

  /** A frame is refused for its checksum exactly when its last two octets are not the ones that
      from_kiss would have appended. */
  lemma BadChecksum(cfg: Config, f: seq<bv8>)
    requires |f| >= 2
    ensures FromIp(cfg, f) == Refused(BadCrc) <==> f[|f| - 2..] != Fcs.CrcTail(f[..|f| - 2])
  {
    hide Fcs.GoodFrame, Fcs.CrcTail, Deliver;
    var g := f[..|f| - 2];
    assert f == g + [f[|f| - 2], f[|f| - 1]] && f[|f| - 2..] == [f[|f| - 2], f[|f| - 1]];
    DeliveryKnowsNoChecksum(cfg, g);
    Fcs.CrcTailIsUnique(g, f[|f| - 2], f[|f| - 1]);
  }

  lemma DeliveryKnowsNoChecksum(cfg: Config, f: seq<bv8>)
    ensures Deliver(cfg, f) != Refused(BadCrc)
  {
    hide HasAddresses, Previous, IsMe, ForPort2, NextFrom;
  }

  lemma NoFrame(cfg: Config, f: seq<bv8>)
    requires |f| < 17
    ensures FromIp(cfg, f).Refused?
  {
    hide Fcs.GoodFrame, HasAddresses;
  }

  /** A frame g that comes in with its checksum: in TNC mode it is passed on as it is; in digi
      mode it has to be our turn, our bit is set, and the second port is chosen exactly for the
      second callsign or its alias when there are two ports. */
  lemma PassedOn(cfg: Config, g: seq<bv8>, n: nat, k: nat)
    requires |g| >= 15 && HasAddresses(g, n) && 7 * n <= |g| && NextUp(g, n, k)
    ensures 7 * k + 7 <= |g|
    ensures var o := FromIp(cfg, g + Fcs.CrcTail(g));
            var ours := g[7 * k..7 * k + 7];
            && (!cfg.digi ==> o.Passed? && o.port == 0 && o.frame == g)
            && (cfg.digi && !Mine(cfg, ours) ==> o == Refused(NotForMe))
            && (cfg.digi && Mine(cfg, ours) && k == 0 ==> o == Refused(IAmDestination))
            && (cfg.digi && Mine(cfg, ours) && k != 0 ==>
                  && o.Passed? && o.frame == g[7 * k + 6 := g[7 * k + 6] | 0x80]
                  && (o.port == 0x10 <==> cfg.dualPort && (Match(ours, cfg.mycallsign2) || Match(ours, cfg.myalias2)))
                  && (o.port == 0 <==> o.port != 0x10))
            && (o.Passed? ==>
                  && |o.frame| == |g|
                  && var r := FromIndex(o.frame, n, cfg.digi); 7 * r + 7 <= |g| && o.heard == o.frame[7 * r..7 * r + 7])
  {
    hide HasAddresses, NextUp, Fcs.CrcTail, Fcs.GoodFrame, IsMe, Mine, NextFrom, Match, FromIndex;
    CountIs(g, n);
    NextInside(g, n, k);
    NextIs(g, n, 2, k);
    MineIs(cfg, g[7 * k..7 * k + 7]);
    Fcs.CrcTailIsGood(g);
    Fcs.CrcTailLength(g);
    assert (g + Fcs.CrcTail(g))[..|g|] == g;
    if k != 0 {
      RepeatedFrame(g, k);
    }
  }
}
