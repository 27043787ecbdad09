/** The three network types of a deployment and the address classification a
    manual network performs over its subnets. */
module Networks {
  import opened Wrappers
  import opened Subnets

  /** Manual networks own their subnets in manifest order; dynamic networks get
      their addresses from the infrastructure; VIP networks take explicit
      addresses only. */
  datatype Network =
    | ManualNetwork(name: string, subnets: seq<Subnet>)
    | DynamicNetwork(name: string)
    | VipNetwork(name: string)

  /** Subnet i is the first one, in manifest order, whose range holds ip. */
  ghost predicate FirstContaining(subnets: seq<Subnet>, i: int, ip: Ip) {
    0 <= i < |subnets| && subnets[i].Contains(ip) &&
    forall j :: 0 <= j < i ==> !subnets[j].Contains(ip)
  }

  /** The index of the first subnet whose range holds ip, if any. */
  function FindSubnet(subnets: seq<Subnet>, ip: Ip): (r: Option<nat>)
    ensures r.Some? ==> FirstContaining(subnets, r.value, ip)
    ensures r.None? <==> forall j :: 0 <= j < |subnets| ==> !subnets[j].Contains(ip)
  {
    if |subnets| == 0 then None
    else if subnets[0].Contains(ip) then Some(0)
    else match FindSubnet(subnets[1..], ip)
      case None => None
      case Some(k) => Some(k + 1)
  }

  /** Where a provided address falls on a manual network. */
  datatype IpClass = OutsideSubnets | ReservedIp | StaticIp | DynamicIp

  /** Classification by the first subnet containing ip: restricted wins over
      static, and everything else inside a range is dynamic. */
  function Classify(subnets: seq<Subnet>, ip: Ip): (c: IpClass)
    ensures c == OutsideSubnets <==> forall j :: 0 <= j < |subnets| ==> !subnets[j].Contains(ip)
    ensures forall i :: FirstContaining(subnets, i, ip) ==>
      && (c == ReservedIp <==> subnets[i].Restricted(ip))
      && (c == StaticIp <==> !subnets[i].Restricted(ip) && ip in subnets[i].staticIps)
      && (c == DynamicIp <==> !subnets[i].Restricted(ip) && ip !in subnets[i].staticIps)
  {
    match FindSubnet(subnets, ip)
    case None => OutsideSubnets
    case Some(i) =>
      if subnets[i].Restricted(ip) then ReservedIp
      else if ip in subnets[i].staticIps then StaticIp
      else DynamicIp
  }
}
