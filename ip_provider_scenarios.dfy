/** The manual network used by the IP provider's behaviour description: three
    /30 subnets 192.168.1.0, 192.168.2.0 and 192.168.3.0, the first in az-1
    and the other two in az-2, each with its gateway at .1. A /30 block has a
    single allocatable host, .2. */
module IpProviderScenarios {
  import opened Wrappers
  import opened Subnets
  import opened Networks
  import opened IpRepos
  import opened Reservations
  import opened IpProviders

  function Block(c: nat, staticIps: set<Ip>, reservedIps: set<Ip>, azs: set<AzName>): Subnet
    requires c < 256
  {
    Subnet(Quad(192, 168, c, 0), 30, Quad(192, 168, c, 1), staticIps, reservedIps, azs)
  }

  /** The test network, with the static and reserved pools of its first subnet
      as parameters. */
  function TestNetwork(firstStatic: set<Ip>, firstReserved: set<Ip>): Network {
    ManualNetwork("my-manual-network", [
      Block(1, firstStatic, firstReserved, {"az-1"}),
      Block(2, {}, {}, {"az-2"}),
      Block(3, {}, {}, {"az-2"})])
  }

  function DynamicRequest(id: InstanceId, az: Option<AzName>, network: Network): ReservationState {
    ReservationState(Instance(id, az), network, Some(Dynamic), None, false)
  }

  /** In a /30 block whose gateway is base + 1, the only allocatable address is
      base + 2, unless that one is static or reserved. */
  lemma {:induction false} Slash30FirstFree(s: Subnet, entries: Ledger, scope: Scope)
    requires s.prefix == 30 && s.gateway == s.base + 1
    ensures s.base + 2 !in s.staticIps && s.base + 2 !in s.reservedIps ==>
      FirstFree(s, entries, scope) == if Slot(scope, s.base + 2) in entries then None else Some(s.base + 2)
    ensures s.base + 2 in s.staticIps || s.base + 2 in s.reservedIps ==> FirstFree(s, entries, scope) == None
  {
    assert Pow2(2) == 4 by {
      assert Pow2(0) == 1;
      assert Pow2(1) == 2;
    }
    assert s.End() == s.base + 4;
    forall x: Ip | s.Allocatable(x) ensures x == s.base + 2 { }
    if s.base + 2 !in s.staticIps && s.base + 2 !in s.reservedIps {
      assert s.Allocatable(s.base + 2);
    }
  }

  lemma BlockFirstFree(c: nat, st: set<Ip>, rs: set<Ip>, azs: set<AzName>, entries: Ledger, scope: Scope)
    requires c < 256
    ensures var s := Block(c, st, rs, azs); var ip := Quad(192, 168, c, 2);
      && (ip !in st && ip !in rs ==>
            FirstFree(s, entries, scope) == if Slot(scope, ip) in entries then None else Some(ip))
      && (ip in st || ip in rs ==> FirstFree(s, entries, scope) == None)
  {
    Slash30FirstFree(Block(c, st, rs, azs), entries, scope);
  }

  /** An unresolved reservation on a manual network takes the first-fit
      allocation and records it for its instance. */
  lemma AllocationOutcome(g: bool, entries: Ledger, r: ReservationState, a: Allocation)
    requires r.network.ManualNetwork? && r.ip.None?
    requires FirstFit(r.network.subnets, r.instance.az, entries, ScopeFor(g, r.network), 0) == Some(a)
    ensures ReserveResult(g, entries, r)
      == Success(Step(r.(ip := Some(a.ip), reserved := true), entries[Slot(ScopeFor(g, r.network), a.ip) := r.instance.id]))
  {
  }

  /** The address a successful reservation ends with. */
  function IpAfter(res: Result<Step, IpError>): Option<Ip> {
    if res.Success? then res.value.reservation.ip else None
  }

  /** An instance in az-2 gets 192.168.2.2: the az-1 subnet is skipped. */
  lemma AllocatesInInstanceAz(g: bool)
    ensures IpAfter(ReserveResult(g, map[], DynamicRequest(1, Some("az-2"), TestNetwork({}, {}))))
      == Some(Quad(192, 168, 2, 2))
  {
    var net := TestNetwork({}, {});
    var scope := ScopeFor(g, net);
    BlockFirstFree(2, {}, {}, {"az-2"}, map[], scope);
    assert !net.subnets[0].MatchesAz(Some("az-2"));
    assert FirstFit(net.subnets, Some("az-2"), map[], scope, 0) == Some(Allocation(1, Quad(192, 168, 2, 2)));
  }

  /** An instance without an AZ gets the first subnet's host 192.168.1.2. */
  lemma AllocatesAnywhereWithoutAz(g: bool)
    ensures IpAfter(ReserveResult(g, map[], DynamicRequest(1, None, TestNetwork({}, {}))))
      == Some(Quad(192, 168, 1, 2))
  {
    var net := TestNetwork({}, {});
    BlockFirstFree(1, {}, {}, {"az-1"}, map[], ScopeFor(g, net));
  }

  /** A static or reserved 192.168.1.2 is never handed out dynamically: an
      instance without an AZ gets 192.168.2.2 instead. */
  lemma SkipsStaticAndReservedIps(g: bool)
    ensures IpAfter(ReserveResult(g, map[], DynamicRequest(1, None, TestNetwork({Quad(192, 168, 1, 2)}, {}))))
      == Some(Quad(192, 168, 2, 2))
    ensures IpAfter(ReserveResult(g, map[], DynamicRequest(1, None, TestNetwork({}, {Quad(192, 168, 1, 2)}))))
      == Some(Quad(192, 168, 2, 2))
  {
    var ip := Quad(192, 168, 1, 2);
    var netS, netR := TestNetwork({ip}, {}), TestNetwork({}, {ip});
    BlockFirstFree(1, {ip}, {}, {"az-1"}, map[], ScopeFor(g, netS));
    BlockFirstFree(2, {}, {}, {"az-2"}, map[], ScopeFor(g, netS));
    assert FirstFit(netS.subnets, None, map[], ScopeFor(g, netS), 0) == Some(Allocation(1, Quad(192, 168, 2, 2)));
    BlockFirstFree(1, {}, {ip}, {"az-1"}, map[], ScopeFor(g, netR));
    BlockFirstFree(2, {}, {}, {"az-2"}, map[], ScopeFor(g, netR));
    assert FirstFit(netR.subnets, None, map[], ScopeFor(g, netR), 0) == Some(Allocation(1, Quad(192, 168, 2, 2)));
  }

  /** Two successive az-2 allocations take 192.168.2.2 and then 192.168.3.2. */
  lemma SecondAllocationMovesToNextSubnet(g: bool)
    ensures var net := TestNetwork({}, {});
      var first := ReserveResult(g, map[], DynamicRequest(1, Some("az-2"), net));
      && first.Success?
      && IpAfter(ReserveResult(g, first.value.ledger, DynamicRequest(2, Some("az-2"), net))) == Some(Quad(192, 168, 3, 2))
  {
    var net := TestNetwork({}, {});
    var scope := ScopeFor(g, net);
    var az := Some("az-2");
    var ip2, ip3 := Quad(192, 168, 2, 2), Quad(192, 168, 3, 2);
    BlockFirstFree(2, {}, {}, {"az-2"}, map[], scope);
    assert !net.subnets[0].MatchesAz(az);
    assert FirstFit(net.subnets, az, map[], scope, 0) == Some(Allocation(1, ip2));
    AllocationOutcome(g, map[], DynamicRequest(1, az, net), Allocation(1, ip2));
    var l1 := map[Slot(scope, ip2) := 1];
    BlockFirstFree(2, {}, {}, {"az-2"}, l1, scope);
    BlockFirstFree(3, {}, {}, {"az-2"}, l1, scope);
    assert FirstFit(net.subnets, az, l1, scope, 2) == Some(Allocation(2, ip3));
    assert FirstFit(net.subnets, az, l1, scope, 1) == FirstFit(net.subnets, az, l1, scope, 2);
    assert FirstFit(net.subnets, az, l1, scope, 0) == FirstFit(net.subnets, az, l1, scope, 1);
    AllocationOutcome(g, l1, DynamicRequest(2, az, net), Allocation(2, ip3));
  }

  /** The ledger after the first n of three allocations without an AZ:
      instance i holds 192.168.i.2. */
  function Filled(scope: Scope, n: nat): Ledger
    requires n <= 3
  {
    if n == 0 then map[] else Filled(scope, n - 1)[Slot(scope, Quad(192, 168, n, 2)) := n]
  }

  /** After n allocations, the host of subnet i is held exactly when i <= n. */
  lemma {:induction false} FilledHolds(scope: Scope, n: nat, i: nat)
    requires n <= 3 && 1 <= i <= 3
    ensures Slot(scope, Quad(192, 168, i, 2)) in Filled(scope, n) <==> i <= n
  {
    if n > 0 {
      FilledHolds(scope, n - 1, i);
    }
  }

  /** With the first n subnets filled, the next allocation without an AZ takes
      192.168.(n+1).2. */
  lemma NextAllocationWithoutAz(g: bool, n: nat)
    requires n < 3
    ensures var net := TestNetwork({}, {});
      ReserveResult(g, Filled(ScopeFor(g, net), n), DynamicRequest(n + 1, None, net))
        == Success(Step(DynamicRequest(n + 1, None, net).(ip := Some(Quad(192, 168, n + 1, 2)), reserved := true),
                        Filled(ScopeFor(g, net), n + 1)))
  {
    var net := TestNetwork({}, {});
    var scope := ScopeFor(g, net);
    var l := Filled(scope, n);
    FilledHolds(scope, n, 1);
    FilledHolds(scope, n, 2);
    FilledHolds(scope, n, 3);
    BlockFirstFree(1, {}, {}, {"az-1"}, l, scope);
    BlockFirstFree(2, {}, {}, {"az-2"}, l, scope);
    BlockFirstFree(3, {}, {}, {"az-2"}, l, scope);
    var a := Allocation(n, Quad(192, 168, n + 1, 2));
    assert FirstFit(net.subnets, None, l, scope, n) == Some(a);
    if n >= 1 {
      assert FirstFit(net.subnets, None, l, scope, n - 1) == FirstFit(net.subnets, None, l, scope, n);
    }
    if n == 2 {
      assert FirstFit(net.subnets, None, l, scope, 0) == FirstFit(net.subnets, None, l, scope, 1);
    }
    AllocationOutcome(g, l, DynamicRequest(n + 1, None, net), a);
  }

  /** Once the three subnets are filled, an allocation fails with
      NotEnoughCapacity. */
  lemma FourthAllocationExhausts(g: bool)
    ensures var net := TestNetwork({}, {});
      ReserveResult(g, Filled(ScopeFor(g, net), 3), DynamicRequest(4, None, net))
        == Failure(NotEnoughCapacity("my-manual-network", None))
  {
    var net := TestNetwork({}, {});
    var scope := ScopeFor(g, net);
    var l := Filled(scope, 3);
    assert Slot(scope, Quad(192, 168, 1, 2)) in l;
    assert Slot(scope, Quad(192, 168, 2, 2)) in l;
    BlockFirstFree(1, {}, {}, {"az-1"}, l, scope);
    BlockFirstFree(2, {}, {}, {"az-2"}, l, scope);
    BlockFirstFree(3, {}, {}, {"az-2"}, l, scope);
    assert FirstFit(net.subnets, None, l, scope, 0) == None;
  }

  /** Through the provider object: a static 192.168.1.2 held by one instance is
      refused to another until the first releases it. */
  method ReleaseFreesStaticIp(usingGlobalNetworking: bool)
    returns (first: Outcome<IpError>, clash: Outcome<IpError>, again: Outcome<IpError>)
    ensures first == Pass && again == Pass
    ensures clash == Fail(AlreadyInUse("my-manual-network", Quad(192, 168, 1, 2), 1))
  {
    var ip := Quad(192, 168, 1, 2);
    var net := TestNetwork({ip}, {});
    var repo := new IpRepo();
    var provider := new IpProvider(repo, usingGlobalNetworking);
    var original := new Reservation.NewStatic(Instance(1, Some("az-2")), net, ip);
    var other := new Reservation.NewStatic(Instance(2, Some("az-2")), net, ip);
    assert Classify(net.subnets, ip) == StaticIp by {
      assert FirstContaining(net.subnets, 0, ip);
    }

    first := provider.Reserve(original);
    assert first == Pass && original.reserved;
    clash := provider.Reserve(other);
    assert clash == Fail(AlreadyInUse("my-manual-network", ip, 1));
    var released := provider.Release(original);
    assert released == Pass;
    again := provider.Reserve(other);
    assert other.reserved && other.ip == Some(ip);
  }

  /** Through the provider object: an existing address reconciled twice is
      refused the second time. */
  method ExistingIpReconciledTwice(usingGlobalNetworking: bool)
    returns (first: Outcome<IpError>, second: Outcome<IpError>)
    ensures first == Pass
    ensures second == Fail(AlreadyInUse("my-manual-network", Quad(192, 168, 1, 2), 1))
  {
    var ip := Quad(192, 168, 1, 2);
    var net := TestNetwork({}, {});
    var repo := new IpRepo();
    var provider := new IpProvider(repo, usingGlobalNetworking);
    var existing := new Reservation.NewExisting(Instance(1, None), net, ip);
    assert Classify(net.subnets, ip) == DynamicIp by {
      assert FirstContaining(net.subnets, 0, ip);
    }

    first := provider.ReserveExistingIps(existing);
    assert first == Pass && existing.IsDynamic() && existing.reserved;
    second := provider.ReserveExistingIps(existing);
  }

  /** One allocation without an AZ through the provider object, with the first
      n subnets of the test network filled. */
  method AllocateWithoutAz(provider: IpProvider, n: nat) returns (ip: Ip)
    requires n < 3
    requires provider.repo.entries == Filled(ScopeFor(provider.usingGlobalNetworking, TestNetwork({}, {})), n)
    modifies provider.repo
    ensures ip == Quad(192, 168, n + 1, 2)
    ensures provider.repo.entries == Filled(ScopeFor(provider.usingGlobalNetworking, TestNetwork({}, {})), n + 1)
  {
    var r := new Reservation.NewDynamic(Instance(n + 1, None), TestNetwork({}, {}));
    NextAllocationWithoutAz(provider.usingGlobalNetworking, n);
    var outcome := provider.Reserve(r);
    assert outcome == Pass && r.ip == Some(Quad(192, 168, n + 1, 2));
    ip := r.ip.value;
  }

  /** Through the provider object: three allocations without an AZ succeed,
      one per subnet, and the fourth fails with NotEnoughCapacity. */
  method ExhaustsAfterThreeAllocations(usingGlobalNetworking: bool)
    returns (ips: seq<Ip>, last: Outcome<IpError>)
    ensures |ips| == 3 && forall k :: 0 <= k < 3 ==> ips[k] == Quad(192, 168, k + 1, 2)
    ensures last == Fail(NotEnoughCapacity("my-manual-network", None))
  {
    var net := TestNetwork({}, {});
    var repo := new IpRepo();
    var provider := new IpProvider(repo, usingGlobalNetworking);
    var scope := ScopeFor(usingGlobalNetworking, net);
    var n := 0;
    ips := [];
    while n < 3
      invariant 0 <= n <= 3 && repo.entries == Filled(scope, n)
      invariant |ips| == n
      invariant forall k :: 0 <= k < n ==> ips[k] == Quad(192, 168, k + 1, 2)
    {
      var ip := AllocateWithoutAz(provider, n);
      ips := ips + [ip];
      n := n + 1;
    }
    var fourth := new Reservation.NewDynamic(Instance(4, None), net);
    FourthAllocationExhausts(usingGlobalNetworking);
    last := provider.Reserve(fourth);
  }
}
