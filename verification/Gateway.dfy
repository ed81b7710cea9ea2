/**
 A frame on its way through ax25ipd: from the KISS side to an IP address, with a checksum, and
 from the IP side back to KISS, in TNC mode or as a digipeater.
 */
module Gateway {
  import opened Callsigns
  import opened Digipeat
  import opened Routing
  import Fcs

  /** The four callsigns that are ours: for port one and two, each with an alias. */
  datatype Config = Config(digi: bool, dualPort: bool, mycallsign: Call, myalias: Call, mycallsign2: Call, myalias2: Call)

  datatype Reason = TooShort | BadAddress | NotForMe | IAmDestination | NoIpAddress | BadCrc

  datatype ToIp =
    | Dropped(why: Reason)
    | Sent(frame: seq<bv8>, target: Target, broadcast: bool)
    | Broadcasted(frame: seq<bv8>)

  datatype ToKiss = Refused(reason: Reason) | Passed(port: bv8, frame: seq<bv8>, heard: Call)

  predicate IsMe(cfg: Config, c: Call) {
    Match(c, cfg.mycallsign) || Match(c, cfg.myalias) || Match(c, cfg.mycallsign2) || Match(c, cfg.myalias2)
  }

  predicate ForPort2(cfg: Config, c: Call) {
    Match(c, cfg.mycallsign2) || Match(c, cfg.myalias2)
  }

  ghost function Count(f: seq<bv8>): (n: nat)
    requires AddressField(f)
    ensures HasAddresses(f, n)
  {
    var n :| 2 <= n <= 2 + MAX_DIGIS && HasAddresses(f, n);
    n
  }

  /** Whether a digipeater has to do anything with a frame, and at which address. */
  datatype Turn = NotOurs(why: Reason) | Ours(slot: nat)

  ghost function OurTurn(cfg: Config, f: seq<bv8>): (t: Turn)
    requires AddressField(f)
    ensures t.Ours? ==> 2 <= t.slot < Count(f) && 7 * t.slot + 6 < |f|
  {
    hide HasAddresses;
    var n := Count(f);
    AddressesFit(f, n);
    var k := NextFrom(f, n, 2);
    if !IsMe(cfg, CallAt(f, k)) then NotOurs(NotForMe)
    else if k == 0 then NotOurs(IAmDestination)
    else Ours(k)
  }

  /** Who gets the frame next. */
  ghost function NextStation(f: seq<bv8>): Call
    requires AddressField(f)
  {
    hide HasAddresses;
    AddressesFit(f, Count(f));
    CallAt(f, NextFrom(f, Count(f), 2))
  }

  ghost function Onward(s: State, f: seq<bv8>): ToIp
    requires s.Valid() && AddressField(f)
  {
    var a := NextStation(f);
    var frame := f + Fcs.CrcTail(f);
    match Lookup(s, a)
    case Some(t) => Sent(frame, t, Broadcast(s.bcasts, Normalised(a)))
    case None => if Broadcast(s.bcasts, Normalised(a)) then Broadcasted(frame) else Dropped(NoIpAddress)
  }

  /** from_kiss. */
  ghost function FromKiss(cfg: Config, s: State, f: seq<bv8>): ToIp
    requires s.Valid()
  {
    hide HasAddresses;
    if |f| < 15 then Dropped(TooShort)
    else if !AddressField(f) then Dropped(BadAddress)
    else if !cfg.digi then Onward(s, f)
    else
      match OurTurn(cfg, f)
      case NotOurs(why) => Dropped(why)
      case Ours(k) =>
        RepeatedFrame(f, k);
        Onward(s, SetRepeated(f, k))
  }

  lemma RepeatedFrame(f: seq<bv8>, k: nat)
    requires AddressField(f) && k < Count(f)
    ensures 7 * k + 6 < |f| && AddressField(SetRepeated(f, k)) && Count(SetRepeated(f, k)) == Count(f)
  {
    hide HasAddresses;
    var n := Count(f);
    AddressesFit(f, n);
    SetRepeatedKeeps(f, n, k);
    SmallCount(f, n);
    OneCount(SetRepeated(f, k), Count(SetRepeated(f, k)), n);
  }

  lemma SmallCount(f: seq<bv8>, n: nat)
    requires HasAddresses(f, n)
    ensures 2 <= n <= 2 + MAX_DIGIS
  {
  }

  /** from_ip on a frame whose checksum is good, without it. */
  ghost function Deliver(cfg: Config, f: seq<bv8>): ToKiss {
    hide HasAddresses;
    if |f| < 15 then Refused(TooShort)
    else if !AddressField(f) then Refused(BadAddress)
    else if !cfg.digi then Passed(0, f, Previous(f, false))
    else
      match OurTurn(cfg, f)
      case NotOurs(why) => Refused(why)
      case Ours(k) =>
        RepeatedFrame(f, k);
        var g := SetRepeated(f, k);
        Passed(if cfg.dualPort && ForPort2(cfg, CallAt(f, k)) then 0x10 else 0, g, Previous(g, true))
  }

  ghost function Previous(f: seq<bv8>, digi: bool): Call
    requires AddressField(f)
  {
    hide HasAddresses;
    AddressesFit(f, Count(f));
    CallAt(f, FromIndex(f, Count(f), digi))
  }

  ghost function FromIp(cfg: Config, f: seq<bv8>): ToKiss {
    if !Fcs.GoodFrame(f) then Refused(BadCrc)
    else if |f| < 2 then Refused(TooShort)
    else Deliver(cfg, f[..|f| - 2])
  }

  // ----- through the tunnel

  /** What one gateway sends, any other takes off the line as it was before the checksum. */
  lemma TunnelIsTransparent(near: Config, far: Config, s: State, f: seq<bv8>)
    requires s.Valid() && FromKiss(near, s, f).Sent?
    ensures var sent := FromKiss(near, s, f).frame;
            && Fcs.GoodFrame(sent) && |sent| >= 2
            && AddressField(sent[..|sent| - 2])
            && FromIp(far, sent) == Deliver(far, sent[..|sent| - 2])
            && (!near.digi ==> sent[..|sent| - 2] == f)
            && (near.digi ==>
                  AddressField(f) && OurTurn(near, f).Ours? && sent[..|sent| - 2] == SetRepeated(f, OurTurn(near, f).slot))
  {
    hide HasAddresses, Fcs.GoodFrame, Fcs.CrcTail, Lookup, Broadcast, Normalised, NextStation, OurTurn, Deliver;
    var g := if near.digi then SetRepeated(f, OurTurn(near, f).slot) else f;
    if near.digi { RepeatedFrame(f, OurTurn(near, f).slot); }
    var sent := FromKiss(near, s, f).frame;
    assert sent == g + Fcs.CrcTail(g);
    Fcs.CrcTailIsGood(g);
    Fcs.CrcTailLength(g);
    assert sent[..|sent| - 2] == g;
  }

  /** TNC to TNC the frame arrives unchanged, and is put down to the last station that repeated
      it, or its source, when the digipeaters have done so in order. */
  lemma TncToTnc(near: Config, far: Config, s: State, f: seq<bv8>)
    requires s.Valid() && !near.digi && !far.digi && FromKiss(near, s, f).Sent?
    ensures AddressField(f) && HasAddresses(f, Count(f)) && 7 * Count(f) < |f|
    ensures var heard := FromIp(far, FromKiss(near, s, f).frame);
            heard.Passed? && heard.port == 0 && heard.frame == f
    ensures var n := Count(f);
            InOrder(f, n) ==> FromIp(far, FromKiss(near, s, f).frame).heard == CallAt(f, LastRepeater(f, n))
  {
    hide HasAddresses, Fcs.GoodFrame, Fcs.CrcTail, FromIp, InOrder, Onward, LastRepeater, FromIndex;
    TunnelIsTransparent(near, far, s, f);
    AddressesFit(f, Count(f));
    TncFrom(f, Count(f));
  }

  /** A digipeater never sends a frame on that it has already sent: after its bit is set the
      next station is a later one or the destination. */
  lemma DigipeatsOnce(cfg: Config, f: seq<bv8>)
    requires AddressField(f) && OurTurn(cfg, f).Ours?
    ensures var k := OurTurn(cfg, f).slot;
            var g := SetRepeated(f, k);
            && 7 * k + 6 < |f| && AddressField(g) && Count(g) == Count(f) && 7 * Count(f) <= |g|
            && (NextFrom(g, Count(g), 2) == 0 || NextFrom(g, Count(g), 2) > k)
  {
    hide HasAddresses, IsMe;
    var n, k := Count(f), OurTurn(cfg, f).slot;
    var g := SetRepeated(f, k);
    AddressesFit(f, n);
    RepeatedFrame(f, k);
    SetRepeatedKeeps(f, n, k);
    NextIsFirst(f, n, 2);
    if NextFrom(g, n, 2) != 0 { NextIsFirst(g, n, 2); }
  }

  // ----- the routines

  /** The digi part of both: is it our turn? If so, set our bit. */
  method TakeTurn(cfg: Config, buf: array<bv8>, l: nat) returns (t: Turn, call: Call)
    requires l <= buf.Length && AddressField(buf[..l])
    modifies buf
    ensures t == OurTurn(cfg, old(buf[..l]))
    ensures t.Ours? ==> buf[..l] == SetRepeated(old(buf[..l]), t.slot) && call == CallAt(old(buf[..l]), t.slot)
  {
    hide HasAddresses, IsMe;
    ghost var f := buf[..l];
    AddressesFit(f, Count(f));
    var a := NextAddr(buf, l, Count(f));
    call := buf[a..a + 7];
    assert call == CallAt(f, a / 7);
    if !IsMe(cfg, call) { return NotOurs(NotForMe), call; }
    if a == 0 { return NotOurs(IAmDestination), call; }
    buf[a + 6] := buf[a + 6] | 0x80;
    t := Ours(a / 7);
  }

  method FrameFromKiss(cfg: Config, router: Router, buf: array<bv8>, l: nat) returns (o: ToIp)
    requires router.Valid() && l + 2 <= buf.Length
    modifies buf
    ensures o == FromKiss(cfg, old(router.Abs()), old(buf[..l]))
  {
    hide HasAddresses, Onward, OurTurn, SetRepeated, IsMe;
    ghost var f := buf[..l];
    if l < 15 { return Dropped(TooShort); }
    var ok := AddrFieldOk(buf, l);
    if !ok { return Dropped(BadAddress); }
    if cfg.digi {
      var t, _ := TakeTurn(cfg, buf, l);
      if t.NotOurs? { return Dropped(t.why); }
      RepeatedFrame(f, t.slot);
    }
    o := SendOn(router, buf, l);
  }

  /** Look up the next station and send the frame there. */
  method SendOn(router: Router, buf: array<bv8>, l: nat) returns (o: ToIp)
    requires router.Valid() && l + 2 <= buf.Length && AddressField(buf[..l])
    modifies buf
    ensures o == Onward(old(router.Abs()), old(buf[..l]))
  {
    hide HasAddresses, Lookup, Fcs.CrcTail, Fcs.GoodFrame, Broadcast, Normalised;
    ghost var f := buf[..l];
    AddressesFit(f, Count(f));
    var a := NextAddr(buf, l, Count(f));
    var call := buf[a..a + 7];
    assert call == f[a..a + 7] == NextStation(f);
    var target := router.CallToIp(call);
    var bcast := router.IsCallBcast(call);
    if target == None && !bcast { return Dropped(NoIpAddress); }
    Fcs.AddCrc(buf, l);
    Fcs.CrcTailLength(f);
    assert buf[..l + 2] == f + Fcs.CrcTail(f);
    match target
    case None => o := Broadcasted(buf[..l + 2]);
    case Some(t) => o := Sent(buf[..l + 2], t, bcast);
  }

  method FrameFromIp(cfg: Config, router: Router, buf: array<bv8>, len: nat, ip: bv32) returns (o: ToKiss)
    requires router.Valid() && len <= buf.Length
    modifies buf, router, router.lookup, router.lookup.nodes.Values
    ensures router.Valid() && o == FromIp(cfg, old(buf[..len]))
    ensures router.Abs() == if o.Passed? then Process(old(router.Abs()), ip, o.heard) else old(router.Abs())
  {
    hide HasAddresses, Fcs.GoodFrame, Process, Deliver;
    ghost var all := buf[..len];
    var good := Fcs.OkCrc(buf, len);
    if !good { return Refused(BadCrc); }
    if len < 17 {
      ShortFrame(cfg, all);
      return Refused(TooShort);
    }
    assert all[..|all| - 2] == buf[..len - 2];
    o := DeliverFrame(cfg, router, buf, len - 2, ip);
  }

  lemma ShortFrame(cfg: Config, f: seq<bv8>)
    requires |f| < 17
    ensures |f| >= 2 ==> Deliver(cfg, f[..|f| - 2]) == Refused(TooShort)
  {
  }

  /** The frame without its checksum, to the KISS side and the route tables. */
  method DeliverFrame(cfg: Config, router: Router, buf: array<bv8>, l: nat, ip: bv32) returns (o: ToKiss)
    requires router.Valid() && l <= buf.Length
    modifies buf, router, router.lookup, router.lookup.nodes.Values
    ensures router.Valid() && o == Deliver(cfg, old(buf[..l]))
    ensures router.Abs() == if o.Passed? then Process(old(router.Abs()), ip, o.heard) else old(router.Abs())
  {
    hide HasAddresses, Process, OurTurn, SetRepeated, IsMe, ForPort2, Previous;
    ghost var f := buf[..l];
    if l < 15 { return Refused(TooShort); }
    var ok := AddrFieldOk(buf, l);
    if !ok { return Refused(BadAddress); }
    var port: bv8 := 0;
    if cfg.digi {
      var t, call := TakeTurn(cfg, buf, l);
      if t.NotOurs? { return Refused(t.why); }
      RepeatedFrame(f, t.slot);
      if cfg.dualPort && ForPort2(cfg, call) { port := 0x10; }
    }
    var heard := HeardFrom(cfg.digi, buf, l);
    router.RouteProcess(ip, heard);
    o := Passed(port, buf[..l], heard);
  }

  method HeardFrom(digi: bool, buf: array<bv8>, l: nat) returns (heard: Call)
    requires l <= buf.Length && AddressField(buf[..l])
    ensures heard == Previous(buf[..l], digi)
  {
    hide HasAddresses, FromIndex;
    ghost var f := buf[..l];
    AddressesFit(f, Count(f));
    var p := FromAddr(buf, l, Count(f), digi);
    heard := buf[p..p + 7];
    assert heard == f[p..p + 7];
  }
}
