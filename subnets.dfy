/** The subnets of a manual network: a CIDR block with its gateway, static pool,
    reserved pool and availability-zone affinity. Addresses are naturals. */
module Subnets {
  import opened Wrappers

  type Ip = nat
  type AzName = string

  /** A CIDR prefix length for IPv4. */
  type Prefix = p: nat | p <= 32

  function Pow2(n: nat): (r: nat)
    ensures r >= 1
  {
    if n == 0 then 1 else 2 * Pow2(n - 1)
  }

  /** Dotted-quad notation a.b.c.d as a natural. */
  function Quad(a: nat, b: nat, c: nat, d: nat): Ip
    requires a < 256 && b < 256 && c < 256 && d < 256
  {
    ((a * 256 + b) * 256 + c) * 256 + d
  }

  /** One entry of a manual network's `subnets` list. The manifest gives the AZ
      affinity either as `az` (one name) or as `azs` (a list); both become `azs`. */
  datatype Subnet = Subnet(
    base: Ip,
    prefix: Prefix,
    gateway: Ip,
    staticIps: set<Ip>,
    reservedIps: set<Ip>,
    azs: set<AzName>)
  {
    /** Number of addresses in the CIDR block. */
    function Size(): nat { Pow2(32 - prefix) }

    /** One past the last address of the block. */
    function End(): Ip { base + Size() }

    function Broadcast(): Ip { End() - 1 }

    predicate Contains(ip: Ip) { base <= ip < End() }

    /** Addresses no reservation may hold: the reserved pool, the gateway,
        the network address and the broadcast address. */
    predicate Restricted(ip: Ip) {
      ip in reservedIps || ip == gateway || ip == base || ip == Broadcast()
    }

    /** Addresses the dynamic allocator may hand out. */
    predicate Allocatable(ip: Ip) {
      Contains(ip) && !Restricted(ip) && ip !in staticIps
    }

    /** An instance without an AZ may use every subnet; otherwise the subnet
        must list the instance's AZ. */
    predicate MatchesAz(az: Option<AzName>) {
      az.None? || az.value in azs
    }
  }
}
