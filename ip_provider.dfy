/** The IP provider: validates and allocates addresses for reservations and
    records every claim in the IP repository. The pure functions below give
    the outcome of each operation; the IpProvider class performs it in place
    and is proved to agree with them. */
module IpProviders {
  import opened Wrappers
  import opened Subnets
  import opened Networks
  import opened IpRepos
  import opened Reservations

  /** The rejections of reserve, release and reserve_existing_ips. WrongType
      names the pool the reservation's kind asked for. */
  datatype IpError =
    | IpMissing
    | IpOutsideSubnet(network: string, ip: Ip)
    | IpReserved(network: string, ip: Ip)
    | WrongType(network: string, ip: Ip, expected: Kind)
    | AlreadyInUse(network: string, ip: Ip, holder: InstanceId)
    | NotEnoughCapacity(network: string, az: Option<AzName>)

  /** The exclusivity scope of a network's addresses. */
  function ScopeFor(usingGlobalNetworking: bool, network: Network): Scope {
    if usingGlobalNetworking then GlobalScope else NetworkScope(network.name)
  }

  /** The reservation and the ledger after a successful operation. */
  datatype Step = Step(reservation: ReservationState, ledger: Ledger)

  /** A dynamic address and the index of the subnet it was drawn from. */
  datatype Allocation = Allocation(subnetIndex: nat, ip: Ip)

  /** First-fit search over the subnets from index `from` on: the first subnet
      serving az that still has a free allocatable address gives its lowest one. */
  function FirstFit(subnets: seq<Subnet>, az: Option<AzName>, entries: Ledger, scope: Scope, from: nat)
    : (r: Option<Allocation>)
    requires from <= |subnets|
    ensures r.Some? ==>
      && from <= r.value.subnetIndex < |subnets|
      && subnets[r.value.subnetIndex].MatchesAz(az)
      && FirstFree(subnets[r.value.subnetIndex], entries, scope) == Some(r.value.ip)
    ensures r.Some? ==> forall j :: from <= j < r.value.subnetIndex && subnets[j].MatchesAz(az) ==>
      FirstFree(subnets[j], entries, scope).None?
    ensures r.None? <==> forall j :: from <= j < |subnets| && subnets[j].MatchesAz(az) ==>
      FirstFree(subnets[j], entries, scope).None?
    decreases |subnets| - from
  {
    if from == |subnets| then None
    else if subnets[from].MatchesAz(az) && FirstFree(subnets[from], entries, scope).Some? then
      Some(Allocation(from, FirstFree(subnets[from], entries, scope).value))
    else FirstFit(subnets, az, entries, scope, from + 1)
  }

  /** Inserts the reservation's address into the ledger and marks it reserved;
      an address already held in scope is refused. On success the ledger gains
      exactly this one claim and no other claim changes. */
  function ClaimResult(entries: Ledger, scope: Scope, r: ReservationState): (res: Result<Step, IpError>)
    requires r.ip.Some?
    ensures var slot := Slot(scope, r.ip.value);
      && (res.Failure? <==> slot in entries)
      && (res.Failure? ==> res.error == AlreadyInUse(r.network.name, r.ip.value, entries[slot]))
      && (res.Success? ==>
            && res.value.reservation == r.(reserved := true)
            && res.value.ledger.Keys == entries.Keys + {slot}
            && res.value.ledger[slot] == r.instance.id
            && forall t :: t in entries ==> res.value.ledger[t] == entries[t])
  {
    var slot := Slot(scope, r.ip.value);
    if slot in entries then Failure(AlreadyInUse(r.network.name, r.ip.value, entries[slot]))
    else Success(Step(r.(reserved := true), entries[slot := r.instance.id]))
  }

  /** `reserve`: VIP addresses go straight to the exclusivity check and are
      taken as static reservations; a manual
      network either allocates (no address yet) or validates the provided
      address in the fixed order subnet membership, reserved range, pool type,
      exclusivity. A dynamic network needs nothing. */
  function ReserveResult(usingGlobalNetworking: bool, entries: Ledger, r: ReservationState)
    : (res: Result<Step, IpError>)
    requires r.network.VipNetwork? ==> r.ip.Some?
    ensures r.network.DynamicNetwork? ==> res == Success(Step(r, entries))
    ensures res.Failure? ==> (res.error.NotEnoughCapacity? <==> r.ip.None?)
    ensures res.Success? && !r.network.DynamicNetwork? ==>
      var after := res.value.reservation;
      && after.ip.Some? && (r.ip.Some? ==> after.ip == r.ip)
      && var slot := Slot(ScopeFor(usingGlobalNetworking, r.network), after.ip.value);
      && after == r.(ip := after.ip, kind := after.kind, reserved := true)
      && (r.network.VipNetwork? ==> after.kind == Some(Static))
      && (r.network.ManualNetwork? ==> after.kind == r.kind)
      && slot !in entries
      && res.value.ledger == entries[slot := r.instance.id]
  {
    var scope := ScopeFor(usingGlobalNetworking, r.network);
    match r.network
    case DynamicNetwork(_) => Success(Step(r, entries))
    case VipNetwork(_) => ClaimResult(entries, scope, r.(kind := Some(Static)))
    case ManualNetwork(name, subnets) =>
      if r.ip.None? then
        match FirstFit(subnets, r.instance.az, entries, scope, 0)
        case None => Failure(NotEnoughCapacity(name, r.instance.az))
        case Some(a) =>
          Success(Step(r.(ip := Some(a.ip), reserved := true), entries[Slot(scope, a.ip) := r.instance.id]))
      else
        var ip := r.ip.value;
        match Classify(subnets, ip)
        case OutsideSubnets => Failure(IpOutsideSubnet(name, ip))
        case ReservedIp => Failure(IpReserved(name, ip))
        case StaticIp =>
          if r.kind == Some(Static) then ClaimResult(entries, scope, r)
          else Failure(WrongType(name, ip, Dynamic))
        case DynamicIp =>
          if r.kind == Some(Static) then Failure(WrongType(name, ip, Static))
          else ClaimResult(entries, scope, r)
  }

  /** `release`: a reservation without an address is refused; otherwise its
      slot is deleted, whether or not the address still lies in a subnet. */
  function ReleaseResult(usingGlobalNetworking: bool, entries: Ledger, r: ReservationState)
    : (res: Result<Ledger, IpError>)
    ensures res.Failure? <==> r.ip.None?
    ensures res.Failure? ==> res.error == IpMissing
    ensures res.Success? ==>
      var slot := Slot(ScopeFor(usingGlobalNetworking, r.network), r.ip.value);
      && slot !in res.value
      && res.value.Keys == entries.Keys - {slot}
      && forall t :: t in res.value ==> res.value[t] == entries[t]
  {
    if r.ip.None? then Failure(IpMissing)
    else Success(entries - {Slot(ScopeFor(usingGlobalNetworking, r.network), r.ip.value)})
  }

  /** `reserve_existing_ips`: reconciles an observed address without checking
      the declared kind. Dynamic networks, addresses outside every subnet and
      restricted addresses are skipped silently; otherwise the kind is inferred
      from the static pool and the address is claimed. */
  function ReserveExistingResult(usingGlobalNetworking: bool, entries: Ledger, r: ReservationState)
    : (res: Result<Step, IpError>)
    requires !r.network.DynamicNetwork? ==> r.ip.Some?
    ensures res.Failure? ==>
      && !r.network.DynamicNetwork?
      && var slot := Slot(ScopeFor(usingGlobalNetworking, r.network), r.ip.value);
      && slot in entries
      && res.error == AlreadyInUse(r.network.name, r.ip.value, entries[slot])
    ensures res.Success? ==>
      || res.value == Step(r, entries)
      || (&& !r.network.DynamicNetwork?
          && var slot := Slot(ScopeFor(usingGlobalNetworking, r.network), r.ip.value);
          && res.value.reservation.kind.Some?
          && res.value.reservation == r.(kind := res.value.reservation.kind, reserved := true)
          && slot !in entries
          && res.value.ledger == entries[slot := r.instance.id])
  {
    var scope := ScopeFor(usingGlobalNetworking, r.network);
    match r.network
    case DynamicNetwork(_) => Success(Step(r, entries))
    case VipNetwork(_) => ClaimResult(entries, scope, r.(kind := Some(Static)))
    case ManualNetwork(_, subnets) =>
      match Classify(subnets, r.ip.value)
      case OutsideSubnets => Success(Step(r, entries))
      case ReservedIp => Success(Step(r, entries))
      case StaticIp => ClaimResult(entries, scope, r.(kind := Some(Static)))
      case DynamicIp => ClaimResult(entries, scope, r.(kind := Some(Dynamic)))
  }

  /** The in-place effect of an operation whose outcome is res: on success the
      new state, on failure the error and no change at all. */
  ghost predicate Applied(
    res: Result<Step, IpError>, outcome: Outcome<IpError>,
    ledger: Ledger, state: ReservationState,
    oldLedger: Ledger, oldState: ReservationState)
  {
    match res
    case Success(step) => outcome == Pass && ledger == step.ledger && state == step.reservation
    case Failure(e) => outcome == Fail(e) && ledger == oldLedger && state == oldState
  }

  class IpProvider {
    const repo: IpRepo
    const usingGlobalNetworking: bool

    constructor (repo: IpRepo, usingGlobalNetworking: bool)
      ensures this.repo == repo && this.usingGlobalNetworking == usingGlobalNetworking
    {
      this.repo := repo;
      this.usingGlobalNetworking := usingGlobalNetworking;
    }

    method Reserve(r: Reservation) returns (outcome: Outcome<IpError>)
      requires r.network.VipNetwork? ==> r.ip.Some?
      modifies r, repo
      ensures Applied(ReserveResult(usingGlobalNetworking, old(repo.entries), old(r.State())),
        outcome, repo.entries, r.State(), old(repo.entries), old(r.State()))
    {
      var scope := ScopeFor(usingGlobalNetworking, r.network);
      match r.network {
        case DynamicNetwork(_) =>
          outcome := Pass;
        case VipNetwork(_) =>
          outcome := Claim(r, scope, Some(Static));
        case ManualNetwork(name, subnets) =>
          if r.ip.None? {
            outcome := Allocate(r, scope, name, subnets);
          } else {
            var ip := r.ip.value;
            var c := Classify(subnets, ip);
            if c == OutsideSubnets {
              outcome := Fail(IpOutsideSubnet(name, ip));
            } else if c == ReservedIp {
              outcome := Fail(IpReserved(name, ip));
            } else if c == StaticIp && !r.IsStatic() {
              outcome := Fail(WrongType(name, ip, Dynamic));
            } else if c == DynamicIp && r.IsStatic() {
              outcome := Fail(WrongType(name, ip, Static));
            } else {
              outcome := Claim(r, scope, None);
            }
          }
      }
    }

    /** The dynamic search: subnets serving the instance's AZ in manifest
        order, each scanned by the repository for its lowest free address. */
    method Allocate(r: Reservation, scope: Scope, name: string, subnets: seq<Subnet>)
      returns (outcome: Outcome<IpError>)
      requires r.network == ManualNetwork(name, subnets) && r.ip.None?
      requires scope == ScopeFor(usingGlobalNetworking, r.network)
      modifies r, repo
      ensures Applied(ReserveResult(usingGlobalNetworking, old(repo.entries), old(r.State())),
        outcome, repo.entries, r.State(), old(repo.entries), old(r.State()))
    {
      var i := 0;
      while i < |subnets|
        invariant 0 <= i <= |subnets|
        invariant repo.entries == old(repo.entries) && r.State() == old(r.State())
        invariant FirstFit(subnets, r.instance.az, repo.entries, scope, i)
          == FirstFit(subnets, r.instance.az, repo.entries, scope, 0)
      {
        if subnets[i].MatchesAz(r.instance.az) {
          var ip := repo.AllocateDynamic(subnets[i], scope, r.instance.id);
          if ip.Some? {
            r.ResolveIp(ip.value);
            r.MarkReserved();
            return Pass;
          }
        }
        i := i + 1;
      }
      outcome := Fail(NotEnoughCapacity(name, r.instance.az));
    }

    /** Inserts the reservation's address into the repository, records the
        kind newKind when one is given, and marks the reservation reserved. */
    method Claim(r: Reservation, scope: Scope, newKind: Option<Kind>) returns (outcome: Outcome<IpError>)
      requires r.ip.Some?
      modifies r, repo
      ensures Applied(
        ClaimResult(old(repo.entries), scope,
          if newKind.Some? then old(r.State()).(kind := newKind) else old(r.State())),
        outcome, repo.entries, r.State(), old(repo.entries), old(r.State()))
    {
      var added := repo.Add(Slot(scope, r.ip.value), r.instance.id);
      if added.Fail? {
        return Fail(AlreadyInUse(r.network.name, r.ip.value, added.error));
      }
      if newKind.Some? {
        r.ResolveType(newKind.value);
      }
      r.MarkReserved();
      outcome := Pass;
    }

    method Release(r: Reservation) returns (outcome: Outcome<IpError>)
      modifies repo
      ensures match ReleaseResult(usingGlobalNetworking, old(repo.entries), r.State())
        case Success(ledger) => outcome == Pass && repo.entries == ledger
        case Failure(e) => outcome == Fail(e) && repo.entries == old(repo.entries)
    {
      if r.ip.None? {
        return Fail(IpMissing);
      }
      repo.Delete(Slot(ScopeFor(usingGlobalNetworking, r.network), r.ip.value));
      outcome := Pass;
    }

    method ReserveExistingIps(r: Reservation) returns (outcome: Outcome<IpError>)
      requires !r.network.DynamicNetwork? ==> r.ip.Some?
      modifies r, repo
      ensures Applied(ReserveExistingResult(usingGlobalNetworking, old(repo.entries), old(r.State())),
        outcome, repo.entries, r.State(), old(repo.entries), old(r.State()))
    {
      var scope := ScopeFor(usingGlobalNetworking, r.network);
      match r.network {
        case DynamicNetwork(_) =>
          outcome := Pass;
        case VipNetwork(_) =>
          outcome := Claim(r, scope, Some(Static));
        case ManualNetwork(_, subnets) =>
          var c := Classify(subnets, r.ip.value);
          if c == OutsideSubnets || c == ReservedIp {
            outcome := Pass;
          } else if c == StaticIp {
            outcome := Claim(r, scope, Some(Static));
          } else {
            outcome := Claim(r, scope, Some(Dynamic));
          }
      }
    }
  }
}
