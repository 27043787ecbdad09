/** Network reservations: an instance's claim on an address of one network.
    Desired reservations are built by planning code (static with an address,
    dynamic without one); existing ones wrap an address seen on a running VM
    and learn their kind only when they are reconciled. */
module Reservations {
  import opened Wrappers
  import opened Subnets
  import opened Networks
  import opened IpRepos

  datatype Kind = Static | Dynamic

  /** The owning instance: its identity and availability zone. */
  datatype Instance = Instance(id: InstanceId, az: Option<AzName>)

  /** A snapshot of a reservation's fields. */
  datatype ReservationState = ReservationState(
    instance: Instance,
    network: Network,
    kind: Option<Kind>,
    ip: Option<Ip>,
    reserved: bool)

  class Reservation {
    const instance: Instance
    const network: Network
    var kind: Option<Kind>
    var ip: Option<Ip>
    var reserved: bool

    /** A dynamic reservation whose address the allocator will choose. */
    constructor NewDynamic(instance: Instance, network: Network)
      ensures State() == ReservationState(instance, network, Some(Dynamic), None, false)
    {
      this.instance := instance;
      this.network := network;
      kind := Some(Dynamic);
      ip := None;
      reserved := false;
    }

    /** A static reservation of an explicit address. */
    constructor NewStatic(instance: Instance, network: Network, ip: Ip)
      ensures State() == ReservationState(instance, network, Some(Static), Some(ip), false)
    {
      this.instance := instance;
      this.network := network;
      kind := Some(Static);
      this.ip := Some(ip);
      reserved := false;
    }

    /** An address observed on a running instance; its kind is not yet known. */
    constructor NewExisting(instance: Instance, network: Network, ip: Ip)
      ensures State() == ReservationState(instance, network, None, Some(ip), false)
    {
      this.instance := instance;
      this.network := network;
      kind := None;
      this.ip := Some(ip);
      reserved := false;
    }

    function State(): ReservationState
      reads this
    {
      ReservationState(instance, network, kind, ip, reserved)
    }

    predicate IsStatic()
      reads this
    {
      kind == Some(Static)
    }

    predicate IsDynamic()
      reads this
    {
      kind == Some(Dynamic)
    }

    method ResolveIp(address: Ip)
      modifies this
      ensures State() == old(State()).(ip := Some(address))
    {
      ip := Some(address);
    }

    method ResolveType(k: Kind)
      modifies this
      ensures State() == old(State()).(kind := Some(k))
    {
      kind := Some(k);
    }

    method MarkReserved()
      modifies this
      ensures State() == old(State()).(reserved := true)
    {
      reserved := true;
    }
  }
}
