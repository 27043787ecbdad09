/** Properties of the IP provider's operations, for every ledger, network and
    reservation. */
module IpProviderProperties {
  import opened Wrappers
  import opened Subnets
  import opened Networks
  import opened IpRepos
  import opened Reservations
  import opened IpProviders

  // ---- release ----------------------------------------------------------

  /** Releasing a reservation that has no address is refused with IpMissing. */
  lemma ReleaseWithoutIpFails(g: bool, entries: Ledger, r: ReservationState)
    requires r.ip.None?
    ensures ReleaseResult(g, entries, r) == Failure(IpMissing)
  {
  }

  /** Releasing an address always succeeds, whatever the network's current
      subnets are, and removes exactly that address's slot. */
  lemma ReleaseIgnoresSubnets(g: bool, entries: Ledger, r: ReservationState)
    requires r.ip.Some?
    ensures ReleaseResult(g, entries, r).Success?
    ensures var after := ReleaseResult(g, entries, r).value;
      && Slot(ScopeFor(g, r.network), r.ip.value) !in after
      && forall s :: s != Slot(ScopeFor(g, r.network), r.ip.value) ==>
           (s in after <==> s in entries) && (s in after ==> after[s] == entries[s])
  {
  }

  // ---- scopes -------------------------------------------------------------

  /** Claims on two networks compete for the same addresses exactly when
      global networking is in use or the networks share a name. */
  lemma ScopesCollide(g: bool, n: Network, m: Network)
    ensures ScopeFor(g, n) == ScopeFor(g, m) <==> g || n.name == m.name
  {
  }

  // ---- VIP networks -------------------------------------------------------

  /** A VIP address goes straight to the exclusivity check: refused with
      AlreadyInUse naming the holder when its slot is held, otherwise the
      reservation becomes a reserved static one and the ledger gains exactly
      its slot. */
  lemma VipReserve(g: bool, entries: Ledger, r: ReservationState)
    requires r.network.VipNetwork? && r.ip.Some?
    ensures var slot := Slot(ScopeFor(g, r.network), r.ip.value);
      && (slot in entries ==>
            ReserveResult(g, entries, r) == Failure(AlreadyInUse(r.network.name, r.ip.value, entries[slot])))
      && (slot !in entries ==>
            ReserveResult(g, entries, r) == Success(Step(r.(kind := Some(Static), reserved := true), entries[slot := r.instance.id])))
  {
  }

  /** Reconciling an address on a VIP network claims it as a static
      reservation, or fails with AlreadyInUse naming the holder. */
  lemma VipExistingIsStatic(g: bool, entries: Ledger, r: ReservationState)
    requires r.network.VipNetwork? && r.ip.Some?
    ensures var slot := Slot(ScopeFor(g, r.network), r.ip.value);
      && (slot in entries ==>
            ReserveExistingResult(g, entries, r) == Failure(AlreadyInUse(r.network.name, r.ip.value, entries[slot])))
      && (slot !in entries ==>
            ReserveExistingResult(g, entries, r)
              == Success(Step(r.(kind := Some(Static), reserved := true), entries[slot := r.instance.id])))
  {
  }

  // ---- the reservation invariant -----------------------------------------

  /** A reserved reservation has an address, and its instance holds that
      address's slot in the ledger. */
  ghost predicate HeldBy(g: bool, ledger: Ledger, r: ReservationState) {
    r.reserved ==>
      && r.ip.Some?
      && Slot(ScopeFor(g, r.network), r.ip.value) in ledger
      && ledger[Slot(ScopeFor(g, r.network), r.ip.value)] == r.instance.id
  }

  /** Every successful reserve and reserve_existing_ips keeps the invariant,
      and on a manual or VIP network leaves the reservation reserved. */
  lemma ReservedImpliesHeld(g: bool, entries: Ledger, r: ReservationState)
    requires HeldBy(g, entries, r)
    ensures (r.network.VipNetwork? ==> r.ip.Some?) ==>
      ReserveResult(g, entries, r).Success? ==>
        var after := ReserveResult(g, entries, r).value;
        && HeldBy(g, after.ledger, after.reservation)
        && (!r.network.DynamicNetwork? ==> after.reservation.reserved)
    ensures (!r.network.DynamicNetwork? ==> r.ip.Some?) ==>
      ReserveExistingResult(g, entries, r).Success? ==>
        var after := ReserveExistingResult(g, entries, r).value;
        HeldBy(g, after.ledger, after.reservation)
  {
  }

  // ---- validation of a provided address on a manual network --------------

  /** An address outside every subnet is refused with IpOutsideSubnet, for
      either kind and whatever the ledger holds. */
  lemma OutsideSubnetFirst(g: bool, entries: Ledger, r: ReservationState)
    requires r.network.ManualNetwork? && r.ip.Some?
    requires forall j :: 0 <= j < |r.network.subnets| ==> !r.network.subnets[j].Contains(r.ip.value)
    ensures ReserveResult(g, entries, r) == Failure(IpOutsideSubnet(r.network.name, r.ip.value))
  {
  }

  /** An address in the restricted part of its subnet is refused with
      IpReserved, for either kind, even if it is also in the static pool, and
      whatever the ledger holds. */
  lemma ReservedRangeSecond(g: bool, entries: Ledger, r: ReservationState, i: nat)
    requires r.network.ManualNetwork? && r.ip.Some?
    requires FirstContaining(r.network.subnets, i, r.ip.value)
    requires r.network.subnets[i].Restricted(r.ip.value)
    ensures ReserveResult(g, entries, r) == Failure(IpReserved(r.network.name, r.ip.value))
  {
  }

  /** An address of the static pool requested by a reservation that is not
      static is refused: it does not belong to the dynamic pool. */
  lemma StaticIpNeedsStaticReservation(g: bool, entries: Ledger, r: ReservationState, i: nat)
    requires r.network.ManualNetwork? && r.ip.Some? && r.kind != Some(Static)
    requires FirstContaining(r.network.subnets, i, r.ip.value)
    requires !r.network.subnets[i].Restricted(r.ip.value) && r.ip.value in r.network.subnets[i].staticIps
    ensures ReserveResult(g, entries, r) == Failure(WrongType(r.network.name, r.ip.value, Dynamic))
  {
  }

  /** An address outside the static pool requested by a static reservation is
      refused: it does not belong to the static pool. */
  lemma DynamicIpNeedsDynamicReservation(g: bool, entries: Ledger, r: ReservationState, i: nat)
    requires r.network.ManualNetwork? && r.ip.Some? && r.kind == Some(Static)
    requires FirstContaining(r.network.subnets, i, r.ip.value)
    requires !r.network.subnets[i].Restricted(r.ip.value) && r.ip.value !in r.network.subnets[i].staticIps
    ensures ReserveResult(g, entries, r) == Failure(WrongType(r.network.name, r.ip.value, Static))
  {
  }

  /** A provided address that passes the three checks is refused only when its
      slot is held; otherwise the reservation keeps that address, becomes
      reserved, and the ledger records its instance there and nothing else. */
  lemma ValidProvidedIpIsReserved(g: bool, entries: Ledger, r: ReservationState, i: nat)
    requires r.network.ManualNetwork? && r.ip.Some?
    requires FirstContaining(r.network.subnets, i, r.ip.value)
    requires !r.network.subnets[i].Restricted(r.ip.value)
    requires r.ip.value in r.network.subnets[i].staticIps <==> r.kind == Some(Static)
    ensures var slot := Slot(ScopeFor(g, r.network), r.ip.value);
      && (slot in entries ==>
            ReserveResult(g, entries, r) == Failure(AlreadyInUse(r.network.name, r.ip.value, entries[slot])))
      && (slot !in entries ==>
            ReserveResult(g, entries, r) == Success(Step(r.(reserved := true), entries[slot := r.instance.id])))
  {
  }

  // ---- dynamic allocation -----------------------------------------------

  /** Candidate j of the first-fit search: a subnet serving az. */
  ghost predicate Candidate(subnets: seq<Subnet>, az: Option<AzName>, j: int) {
    0 <= j < |subnets| && subnets[j].MatchesAz(az)
  }

  /** Every allocatable address of every candidate subnet is held in scope. */
  ghost predicate CandidatesFull(subnets: seq<Subnet>, az: Option<AzName>, entries: Ledger, scope: Scope) {
    forall j: int, x: Ip :: Candidate(subnets, az, j) && subnets[j].Allocatable(x) ==> Slot(scope, x) in entries
  }

  /** An unresolved reservation on a manual network fails with
      NotEnoughCapacity exactly when every candidate subnet is full. Otherwise
      it gets an address of a candidate subnet k that is allocatable (never the
      network, gateway, broadcast, a static or a reserved address) and free;
      every lower allocatable address of k is held, every earlier candidate is
      full, and the ledger gains that one slot. */
  lemma AllocationIsFirstFit(g: bool, entries: Ledger, r: ReservationState)
    requires r.network.ManualNetwork? && r.ip.None?
    ensures var subnets, az, scope := r.network.subnets, r.instance.az, ScopeFor(g, r.network);
      var res := ReserveResult(g, entries, r);
      && (res.Failure? <==> CandidatesFull(subnets, az, entries, scope))
      && (res.Failure? ==> res.error == NotEnoughCapacity(r.network.name, az))
      && (res.Success? ==>
            && res.value.reservation.ip.Some?
            && var ip := res.value.reservation.ip.value;
            && res.value.reservation == r.(ip := Some(ip), reserved := true)
            && Slot(scope, ip) !in entries
            && res.value.ledger == entries[Slot(scope, ip) := r.instance.id]
            && exists k ::
                 && Candidate(subnets, az, k)
                 && subnets[k].Allocatable(ip)
                 && (forall x: Ip :: subnets[k].Allocatable(x) && x < ip ==> Slot(scope, x) in entries)
                 && (forall j: int, x: Ip :: Candidate(subnets, az, j) && j < k && subnets[j].Allocatable(x) ==>
                       Slot(scope, x) in entries))
  {
    var subnets, az, scope := r.network.subnets, r.instance.az, ScopeFor(g, r.network);
    var found := FirstFit(subnets, az, entries, scope, 0);
    if found.None? {
      forall j: int, x: Ip | Candidate(subnets, az, j) && subnets[j].Allocatable(x)
        ensures Slot(scope, x) in entries
      {
        assert FirstFree(subnets[j], entries, scope).None?;
      }
    } else {
      var k, ip := found.value.subnetIndex, found.value.ip;
      assert subnets[k].Allocatable(ip) && Slot(scope, ip) !in entries;
      forall j: int, x: Ip | Candidate(subnets, az, j) && j < k && subnets[j].Allocatable(x)
        ensures Slot(scope, x) in entries
      {
        assert FirstFree(subnets[j], entries, scope).None?;
      }
      assert !CandidatesFull(subnets, az, entries, scope) by {
        assert Candidate(subnets, az, k);
      }
    }
  }

  // ---- exclusivity --------------------------------------------------------

  /** Once instance A holds address X on a manual or VIP network, another
      request for X with the same kind is refused with AlreadyInUse naming A;
      after A releases, that same request succeeds. */
  lemma ExclusivityRoundTrip(g: bool, entries: Ledger, a: ReservationState, b: ReservationState)
    requires !a.network.DynamicNetwork? && a.ip.Some?
    requires b.network == a.network && b.ip == a.ip && b.kind == a.kind
    requires ReserveResult(g, entries, a).Success?
    ensures var held := ReserveResult(g, entries, a).value;
      && ReserveResult(g, held.ledger, b) == Failure(AlreadyInUse(a.network.name, a.ip.value, a.instance.id))
      && ReleaseResult(g, held.ledger, held.reservation).Success?
      && ReserveResult(g, ReleaseResult(g, held.ledger, held.reservation).value, b).Success?
  {
    var slot := Slot(ScopeFor(g, a.network), a.ip.value);
    var held := ReserveResult(g, entries, a).value;
    assert slot !in entries && held.ledger == entries[slot := a.instance.id];
    assert held.reservation.ip == a.ip;
    var released := ReleaseResult(g, held.ledger, held.reservation).value;
    assert released == entries;
  }

  /** An address the allocator handed out is held: the same address requested
      again by any reservation is refused. */
  lemma AllocatedIpIsHeld(g: bool, entries: Ledger, a: ReservationState, b: ReservationState)
    requires a.network.ManualNetwork? && a.ip.None?
    requires ReserveResult(g, entries, a).Success?
    requires b.network == a.network && b.ip == ReserveResult(g, entries, a).value.reservation.ip
    ensures ReserveResult(g, ReserveResult(g, entries, a).value.ledger, b).Failure?
  {
    var held := ReserveResult(g, entries, a).value;
    var subnets, az, scope := a.network.subnets, a.instance.az, ScopeFor(g, a.network);
    var found := FirstFit(subnets, az, entries, scope, 0).value;
    var k, ip := found.subnetIndex, found.ip;
    assert held.ledger == entries[Slot(scope, ip) := a.instance.id];
    assert subnets[k].Contains(ip);
    assert Classify(subnets, ip) != OutsideSubnets;
  }

  // ---- reserve_existing_ips ---------------------------------------------

  /** On a dynamic network nothing is reserved and nothing changes. */
  lemma ExistingOnDynamicNetworkIsNoop(g: bool, entries: Ledger, r: ReservationState)
    requires r.network.DynamicNetwork?
    ensures ReserveExistingResult(g, entries, r) == Success(Step(r, entries))
  {
  }

  /** On a manual network an address outside every subnet, or restricted in
      the first subnet containing it, is skipped without error. Any other
      address is claimed with its kind inferred from the static pool: the
      result is AlreadyInUse when its slot is held, and otherwise the
      reservation is reserved with that kind. */
  lemma ExistingOnManualNetwork(g: bool, entries: Ledger, r: ReservationState)
    requires r.network.ManualNetwork? && r.ip.Some?
    ensures var subnets, ip, slot := r.network.subnets, r.ip.value, Slot(ScopeFor(g, r.network), r.ip.value);
      var res := ReserveExistingResult(g, entries, r);
      && ((forall j :: 0 <= j < |subnets| ==> !subnets[j].Contains(ip)) ==> res == Success(Step(r, entries)))
      && (forall i :: FirstContaining(subnets, i, ip) ==>
            && (subnets[i].Restricted(ip) ==> res == Success(Step(r, entries)))
            && (!subnets[i].Restricted(ip) ==>
                  var kind := if ip in subnets[i].staticIps then Static else Dynamic;
                  && (slot in entries ==> res == Failure(AlreadyInUse(r.network.name, ip, entries[slot])))
                  && (slot !in entries ==>
                        res == Success(Step(r.(kind := Some(kind), reserved := true),
                                            entries[slot := r.instance.id])))))
  {
  }

  /** Reconciling the same existing reservation twice is refused the second
      time: an insert never succeeds twice for one slot, whoever asks. */
  lemma ExistingTwiceFails(g: bool, entries: Ledger, r: ReservationState)
    requires !r.network.DynamicNetwork? && r.ip.Some? && !r.reserved
    requires ReserveExistingResult(g, entries, r).Success?
    requires ReserveExistingResult(g, entries, r).value.reservation.reserved
    ensures var held := ReserveExistingResult(g, entries, r).value;
      ReserveExistingResult(g, held.ledger, held.reservation)
        == Failure(AlreadyInUse(r.network.name, r.ip.value, r.instance.id))
  {
  }

  /** After an existing address was reconciled for one instance, any later
      reconciliation of that address on the same network is refused with
      AlreadyInUse, and a desired reservation of it is refused too (with
      AlreadyInUse when its kind matches the address's pool). */
  lemma ExistingThenOtherInstanceFails(g: bool, entries: Ledger, a: ReservationState, b: ReservationState)
    requires !a.network.DynamicNetwork? && a.ip.Some? && !a.reserved
    requires ReserveExistingResult(g, entries, a).Success?
    requires ReserveExistingResult(g, entries, a).value.reservation.reserved
    requires b.network == a.network && b.ip == a.ip
    ensures var held := ReserveExistingResult(g, entries, a).value;
      && ReserveExistingResult(g, held.ledger, b)
           == Failure(AlreadyInUse(a.network.name, a.ip.value, a.instance.id))
      && ReserveResult(g, held.ledger, b).Failure?
      && (b.kind == held.reservation.kind ==>
            ReserveResult(g, held.ledger, b) == Failure(AlreadyInUse(a.network.name, a.ip.value, a.instance.id)))
  {
  }
}
