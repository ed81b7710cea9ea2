/**
 Which addresses the IP route cache of an interface may hold.
 */
module Subnet {

  datatype Config = Config(dev: string, ip: bv32, netmask: bv32)

  /** The network part of an address. */
  function Network(ip: bv32, mask: bv32): bv32 { ip & mask }

  predicate OnSubnet(c: Config, ip: bv32) {
    Network(ip ^ c.ip, c.netmask) == 0
  }

  /** An address is on the subnet when it has the network part of the interface's own. */
  lemma SubnetIs(c: Config, ip: bv32)
    ensures OnSubnet(c, ip) <==> Network(ip, c.netmask) == Network(c.ip, c.netmask)
  {
    hide Network;
    SameNetwork(ip, c.ip, c.netmask);
  }

  lemma SameNetwork(a: bv32, b: bv32, mask: bv32)
    ensures Network(a ^ b, mask) == 0 <==> Network(a, mask) == Network(b, mask)
  {
    hide Network;
    NetworkOfDifference(a, b, mask);
    NoDifference(Network(a, mask), Network(b, mask));
  }

  lemma NetworkOfDifference(a: bv32, b: bv32, mask: bv32)
    ensures Network(a ^ b, mask) == Network(a, mask) ^ Network(b, mask)
  {
  }

  lemma NoDifference(a: bv32, b: bv32)
    ensures a ^ b == 0 <==> a == b
  {
    if a ^ b == 0 { DifferenceUndone(a, b); }
  }

  lemma DifferenceUndone(a: bv32, b: bv32)
    ensures a ^ (a ^ b) == b
  {
  }
}
