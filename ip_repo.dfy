/** The exclusivity ledger shared by the in-memory and the database-backed IP
    repositories: a map from (scope, address) to the instance holding it. */
module IpRepos {
  import opened Wrappers
  import opened Subnets

  type InstanceId = nat

  /** Addresses are unique per network, or across the whole deployment when
      global networking is in use. */
  datatype Scope = NetworkScope(network: string) | GlobalScope

  datatype Slot = Slot(scope: Scope, ip: Ip)

  type Ledger = map<Slot, InstanceId>

  /** The lowest allocatable address of s, at or above from, that is free in scope. */
  function FirstFreeFrom(s: Subnet, entries: Ledger, scope: Scope, from: Ip): (r: Option<Ip>)
    ensures r.Some? ==> from <= r.value && s.Allocatable(r.value) && Slot(scope, r.value) !in entries
    ensures r.Some? ==> forall x :: from <= x < r.value && s.Allocatable(x) ==> Slot(scope, x) in entries
    ensures r.None? ==> forall x :: from <= x && s.Allocatable(x) ==> Slot(scope, x) in entries
    decreases if from < s.End() then s.End() - from else 0
  {
    if from >= s.End() then None
    else if s.Allocatable(from) && Slot(scope, from) !in entries then Some(from)
    else FirstFreeFrom(s, entries, scope, from + 1)
  }

  /** The lowest free allocatable address of s: it is allocatable and free, and
      no free allocatable address lies below it; none only when every
      allocatable address is held in scope. */
  function FirstFree(s: Subnet, entries: Ledger, scope: Scope): (r: Option<Ip>)
    ensures r.Some? ==> s.Allocatable(r.value) && Slot(scope, r.value) !in entries
    ensures forall x :: s.Allocatable(x) && Slot(scope, x) !in entries ==> r.Some? && r.value <= x
  {
    FirstFreeFrom(s, entries, scope, s.base)
  }

  /** Both repository backends: they keep the same ledger and obey the same
      contract (insert-if-absent, delete, first-fit allocation). */
  class IpRepo {
    var entries: Ledger

    constructor ()
      ensures entries == map[]
    {
      entries := map[];
    }

    /** Records owner at slot; an occupied slot is refused whoever holds it,
        and the failure names the holder. */
    method Add(slot: Slot, owner: InstanceId) returns (outcome: Outcome<InstanceId>)
      modifies this
      ensures old(slot in entries) ==> outcome == Fail(old(entries[slot])) && entries == old(entries)
      ensures old(slot !in entries) ==> outcome == Pass && entries == old(entries)[slot := owner]
    {
      if slot in entries {
        outcome := Fail(entries[slot]);
      } else {
        entries := entries[slot := owner];
        outcome := Pass;
      }
    }

    /** Deleting a slot that is not held is a no-op. */
    method Delete(slot: Slot)
      modifies this
      ensures entries == old(entries) - {slot}
    {
      entries := entries - {slot};
    }

    /** Scans the subnet's range in ascending order and records owner at the
        first allocatable address that is free in scope. */
    method AllocateDynamic(s: Subnet, scope: Scope, owner: InstanceId) returns (ip: Option<Ip>)
      modifies this
      ensures ip == FirstFree(s, old(entries), scope)
      ensures ip.Some? ==> entries == old(entries)[Slot(scope, ip.value) := owner]
      ensures ip.None? ==> entries == old(entries)
    {
      var x := s.base;
      while x < s.End()
        invariant s.base <= x <= s.End()
        invariant FirstFreeFrom(s, entries, scope, x) == FirstFree(s, entries, scope)
        invariant entries == old(entries)
        decreases s.End() - x
      {
        if s.Allocatable(x) && Slot(scope, x) !in entries {
          entries := entries[Slot(scope, x) := owner];
          return Some(x);
        }
        x := x + 1;
      }
      ip := None;
    }
  }
}
