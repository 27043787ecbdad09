# BOSH director: IP reservation and job migration, modelled in Dafny

This project models two parts of the BOSH director's deployment planner.

**IP reservations.** The `IpProvider` gives each network reservation of an
instance an address and records the claim in an IP repository. A network is
manual, dynamic or VIP. A manual network owns subnets in manifest order. Each
subnet has a CIDR base and prefix, a gateway, a static pool, a reserved pool
and a set of availability zones (the manifest may write `az` or `azs`). A
reservation belongs to one instance and one network. It has a kind (static,
dynamic, or not yet known for an existing reservation), an optional address
and a `reserved` flag. The repository is a ledger from (scope, address) to the
holding instance. The scope is the network's name, or the whole deployment
when global networking is in use. The in-memory and the database backends
share one class, because they obey one contract.

- `reserve` on a VIP network inserts the given address into the ledger.
- `reserve` on a manual network with a given address checks, in this order:
  the address lies in a subnet, it is not reserved, its pool matches the
  reservation's kind, and no one holds it.
- `reserve` without an address searches first-fit. It tries the subnets that
  serve the instance's AZ (all of them when the instance has no AZ), in
  manifest order, and takes the lowest free allocatable host.
- `release` deletes the ledger entry. It fails only when the reservation has
  no address.
- `reserve_existing_ips` reconciles an address seen on a running VM. It skips
  dynamic networks, addresses outside every subnet and restricted addresses.
  For any other address it infers the kind from the static pool and inserts
  the address into the ledger.

**Job migration.** `JobMigrator#find_existing_instances` returns a job's
stored instances plus those of the old jobs named in its `migrated_from`
list. It fails when an old job is still in the deployment, when another job
also migrates from it, or when an old instance's AZ disagrees with the
entry's. A legacy instance with no AZ takes the entry's AZ, and the change is
written back to the instance table. It fails if the entry has no AZ either.

Addresses are naturals (`Subnets.Quad(192, 168, 1, 2)` writes a dotted quad).
Each operation has a pure function that gives its outcome (`ReserveResult`,
`ReleaseResult`, `ReserveExistingResult`, `Migration`). A class performs the
same operation in place and is proved to agree with that function. The
lemmas state the promised properties about the functions. Three client
methods (`IpProviderScenarios.ReleaseFreesStaticIp`,
`ExistingIpReconciledTwice`, `ExhaustsAfterThreeAllocations`) replay
described interactions through the objects and state the outcome of each
call.

Files: `wrappers.dfy` (Option, Result, Outcome), `subnets.dfy`,
`networks.dfy`, `ip_repo.dfy`, `reservations.dfy`, `ip_provider.dfy`,
`ip_provider_properties.dfy`, `ip_provider_scenarios.dfy`, `job_migrator.dfy`,
`job_migrator_properties.dfy`.

Decisions where the behaviour is not pinned down:

- A subnet's restricted addresses are its reserved pool, its gateway, its
  network address and its broadcast address. A provided address equal to any
  of them fails with `IpReserved`, and the allocator never picks one.
- Failing calls change nothing. On a provided address every check runs
  before the insert.
- A static reservation of an address outside the static pool fails with
  `WrongType` (expected pool: static), mirroring the dynamic case.
- `reserve` on a dynamic network succeeds and changes nothing.
- The exhaustion example (ip_provider_spec.rb:291-301) uses three /30
  subnets of one host each; the scenario lemmas follow it.
- An address reserved or reconciled on a VIP network becomes a static
  reservation.
- Job migration validates every entry first, in manifest order. For each
  entry it checks, in order: still in the deployment, shared with another
  job, then the AZ of each old instance in table order. Only after all
  entries pass does it back-fill AZs. An instance whose AZ is set while its
  entry names none is accepted and keeps its own AZ.
- A job that lists one old job twice is accepted: the old job's instances
  come back once per entry, and a legacy instance takes the first entry's AZ
  both times. The source has no example of this case.

## Model

| member | source | states |
|---|---|---|
| Networks.FindSubnet | bosh-director/spec/unit/deployment_plan/ip_provider/ip_provider_spec.rb:135-155 | the index found is the first subnet, in manifest order, whose range holds the address; none is found exactly when no range holds it |
| Networks.Classify | bosh-director/spec/unit/deployment_plan/ip_provider/ip_provider_spec.rb:174-241 | outside exactly when no subnet holds the address; otherwise the first containing subnet decides: restricted, else static exactly when in its static pool, else dynamic |
| IpRepos.FirstFreeFrom | bosh-director/spec/unit/deployment_plan/ip_provider/ip_provider_spec.rb:251-281 | the address returned is allocatable (in range, not network/gateway/broadcast/reserved/static) and free, every lower allocatable address is taken; none means every allocatable address is taken |
| IpRepos.FirstFree | bosh-director/spec/unit/deployment_plan/ip_provider/ip_provider_spec.rb:251-281 | the address returned is allocatable and free and no free allocatable address lies below it; none exactly when every allocatable address of the subnet is held |
| IpRepos.IpRepo.constructor | bosh-director/spec/unit/deployment_plan/ip_provider/ip_provider_spec.rb:384-409 | a new repository holds no claims |
| IpRepos.IpRepo.Add | bosh-director/spec/unit/deployment_plan/ip_provider/ip_provider_spec.rb:394-424 | an occupied slot is refused whoever asks, naming the holder, and nothing changes; a free slot gains exactly this owner |
| IpRepos.IpRepo.Delete | bosh-director/spec/unit/deployment_plan/ip_provider/ip_provider_spec.rb:94-111 | the slot is gone afterwards and every other claim is kept; deleting an absent slot is a no-op |
| IpRepos.IpRepo.AllocateDynamic | bosh-director/spec/unit/deployment_plan/ip_provider/ip_provider_spec.rb:251-289 | the ascending scan returns the subnet's lowest free allocatable address and records the owner there, or returns none and changes nothing |
| Reservations.Reservation.NewDynamic | bosh-director/spec/unit/deployment_plan/ip_provider/ip_provider_spec.rb:61 | a dynamic reservation starts without an address and unreserved |
| Reservations.Reservation.NewStatic | bosh-director/spec/unit/deployment_plan/ip_provider/ip_provider_spec.rb:86-87 | a static reservation starts with its address and unreserved |
| Reservations.Reservation.NewExisting | bosh-director/spec/unit/deployment_plan/ip_provider/ip_provider_spec.rb:335-345 | an existing reservation starts with its address, no kind, unreserved |
| Reservations.Reservation.ResolveIp | bosh-director/spec/unit/deployment_plan/ip_provider/ip_provider_spec.rb:138 | sets the address and nothing else |
| Reservations.Reservation.ResolveType | bosh-director/spec/unit/deployment_plan/ip_provider/ip_provider_spec.rb:346-361 | sets the kind and nothing else |
| Reservations.Reservation.MarkReserved | bosh-director/spec/unit/deployment_plan/ip_provider/ip_provider_spec.rb:72 | sets the reserved flag and nothing else |
| IpProviders.FirstFit | bosh-director/spec/unit/deployment_plan/ip_provider/ip_provider_spec.rb:251-301 | the allocation comes from a subnet serving the AZ whose lowest free address it is, every earlier subnet serving the AZ is full; none exactly when every subnet serving the AZ is full |
| IpProviders.ClaimResult | bosh-director/spec/unit/deployment_plan/ip_provider/ip_provider_spec.rb:81-99 | refused exactly when the slot is held, with AlreadyInUse naming the holder; otherwise the reservation becomes reserved and the ledger gains exactly this claim, every other claim unchanged |
| IpProviders.ReserveResult | bosh-director/spec/unit/deployment_plan/ip_provider/ip_provider_spec.rb:132-331 | a dynamic network is a no-op; without an address the only failure is NotEnoughCapacity, and it never occurs with one; a success on a manual or VIP network leaves the reservation reserved with an address (the given one, if any) whose slot was free and now belongs to the instance, the kind kept on a manual network and set to static on a VIP network, and changes nothing else |
| IpProviders.ReleaseResult | bosh-director/spec/unit/deployment_plan/ip_provider/ip_provider_spec.rb:69-111 | fails with IpMissing exactly when there is no address; otherwise removes exactly that slot and keeps every other claim |
| IpProviders.ReserveExistingResult | bosh-director/spec/unit/deployment_plan/ip_provider/ip_provider_spec.rb:333-380 | fails only on a manual or VIP network, with AlreadyInUse naming the holder of a held slot; a success either changes nothing (skipped address) or resolves a kind, marks the reservation reserved and adds exactly its free slot |
| IpProviders.IpProvider.constructor | bosh-director/spec/unit/deployment_plan/ip_provider/ip_provider_spec.rb:387 | the provider keeps the repository it is given and the global-networking flag |
| IpProviders.IpProvider.Reserve | bosh-director/spec/unit/deployment_plan/ip_provider/ip_provider_spec.rb:132-331 | the repository and the reservation end as ReserveResult says on success, and are unchanged with its error on failure |
| IpProviders.IpProvider.Allocate | bosh-director/spec/unit/deployment_plan/ip_provider/ip_provider_spec.rb:247-302 | the loop over subnets serving the instance's AZ ends as ReserveResult's first-fit branch says: address resolved, reserved and recorded, or NotEnoughCapacity with nothing changed |
| IpProviders.IpProvider.Claim | bosh-director/spec/unit/deployment_plan/ip_provider/ip_provider_spec.rb:306-329 | inserts the reservation's address, records the inferred kind if one is given and marks it reserved, or fails with AlreadyInUse and changes nothing |
| IpProviders.IpProvider.Release | bosh-director/spec/unit/deployment_plan/ip_provider/ip_provider_spec.rb:69-130 | fails with IpMissing and changes nothing when there is no address; otherwise the repository is ReleaseResult's ledger |
| IpProviders.IpProvider.ReserveExistingIps | bosh-director/spec/unit/deployment_plan/ip_provider/ip_provider_spec.rb:333-380 | the repository and the reservation end as ReserveExistingResult says, unchanged on failure |
| IpProviderProperties.ReleaseWithoutIpFails | bosh-director/spec/unit/deployment_plan/ip_provider/ip_provider_spec.rb:70-77 | releasing a reservation without an address fails with IpMissing |
| IpProviderProperties.ReleaseIgnoresSubnets | bosh-director/spec/unit/deployment_plan/ip_provider/ip_provider_spec.rb:101-111 | releasing an address succeeds whatever the subnets are now, removing exactly its slot |
| IpProviderProperties.ScopesCollide | bosh-director/spec/unit/deployment_plan/ip_provider/ip_provider_spec.rb:384-409 | claims on two networks compete exactly when global networking is in use or the networks share a name; this is the property ScopeFor exists to give |
| IpProviderProperties.VipReserve | bosh-director/spec/unit/deployment_plan/ip_provider/ip_provider_spec.rb:306-329 | a VIP address is refused with AlreadyInUse naming the holder when held, and otherwise becomes a reserved static reservation with exactly its slot added |
| IpProviderProperties.VipExistingIsStatic | bosh-director/spec/unit/deployment_plan/ip_provider/ip_provider_spec.rb:333-380 | reconciling a VIP address claims it as a static reservation, or fails with AlreadyInUse naming the holder |
| IpProviderProperties.ReservedImpliesHeld | bosh-director/spec/unit/deployment_plan/ip_provider/ip_provider_spec.rb:81-127 | every successful reserve and reserve_existing_ips keeps the invariant that a reserved reservation's address is held by its instance, and reserve on a manual or VIP network always ends reserved |
| IpProviderProperties.OutsideSubnetFirst | bosh-director/spec/unit/deployment_plan/ip_provider/ip_provider_spec.rb:135-155 | an address outside every subnet fails with IpOutsideSubnet for either kind and any ledger |
| IpProviderProperties.ReservedRangeSecond | bosh-director/spec/unit/deployment_plan/ip_provider/ip_provider_spec.rb:174-188 | an address restricted in its first containing subnet fails with IpReserved for either kind, static pool or not, and any ledger |
| IpProviderProperties.StaticIpNeedsStaticReservation | bosh-director/spec/unit/deployment_plan/ip_provider/ip_provider_spec.rb:190-201 | a non-static reservation of a static-pool address fails with WrongType, not in the dynamic pool |
| IpProviderProperties.DynamicIpNeedsDynamicReservation | bosh-director/spec/unit/deployment_plan/ip_provider/ip_provider_spec.rb:232-241 | a static reservation of an address outside the static pool fails with WrongType, not in the static pool (the mirror of the case the source shows, see the decisions above) |
| IpProviderProperties.ValidProvidedIpIsReserved | bosh-director/spec/unit/deployment_plan/ip_provider/ip_provider_spec.rb:159-215 | an address passing the three checks fails only with AlreadyInUse when held; otherwise the reservation keeps that address, becomes reserved and the ledger gains exactly its slot |
| IpProviderProperties.AllocationIsFirstFit | bosh-director/spec/unit/deployment_plan/ip_provider/ip_provider_spec.rb:251-301 | without an address: NotEnoughCapacity exactly when every candidate subnet is full; otherwise an allocatable free address of a candidate subnet, lowest in it, all earlier candidates full, one slot added |
| IpProviderProperties.ExclusivityRoundTrip | bosh-director/spec/unit/deployment_plan/ip_provider/ip_provider_spec.rb:81-127 | once A holds X, B's request for X fails with AlreadyInUse naming A; after A's release the same request succeeds |
| IpProviderProperties.AllocatedIpIsHeld | bosh-director/spec/unit/deployment_plan/ip_provider/ip_provider_spec.rb:283-289 | an allocated address is then refused to any other request |
| IpProviderProperties.ExistingOnDynamicNetworkIsNoop | bosh-director/spec/unit/deployment_plan/ip_provider/ip_provider_spec.rb:334-342 | on a dynamic network reconciliation changes nothing and reserves nothing |
| IpProviderProperties.ExistingOnManualNetwork | bosh-director/spec/unit/deployment_plan/ip_provider/ip_provider_spec.rb:344-380 | outside or restricted addresses are skipped without error; others fail with AlreadyInUse when held, else become reserved with kind static exactly when in the static pool |
| IpProviderProperties.ExistingTwiceFails | bosh-director/spec/unit/deployment_plan/ip_provider/ip_provider_spec.rb:390-401 | passing the reservation the first reconciliation left (kind resolved, reserved) a second time fails with AlreadyInUse naming its own instance |
| IpProviderProperties.ExistingThenOtherInstanceFails | bosh-director/spec/unit/deployment_plan/ip_provider/ip_provider_spec.rb:411-427 | after A's address is reconciled, B's reconciliation of it fails with AlreadyInUse and B's reserve of it fails |
| IpProviderScenarios.Slash30FirstFree | bosh-director/spec/unit/deployment_plan/ip_provider/ip_provider_spec.rb:12-38 | a /30 subnet with its gateway at .1 has exactly one allocatable host, .2, unless that is static or reserved |
| IpProviderScenarios.BlockFirstFree | bosh-director/spec/unit/deployment_plan/ip_provider/ip_provider_spec.rb:12-38 | each subnet of the test network offers 192.168.c.2 when free and neither static nor reserved, nothing otherwise |
| IpProviderScenarios.AllocatesInInstanceAz | bosh-director/spec/unit/deployment_plan/ip_provider/ip_provider_spec.rb:251-256 | an az-2 instance gets 192.168.2.2 |
| IpProviderScenarios.AllocatesAnywhereWithoutAz | bosh-director/spec/unit/deployment_plan/ip_provider/ip_provider_spec.rb:258-263 | an instance without an AZ gets 192.168.1.2 |
| IpProviderScenarios.SkipsStaticAndReservedIps | bosh-director/spec/unit/deployment_plan/ip_provider/ip_provider_spec.rb:265-281 | with 192.168.1.2 static, or reserved, an instance without an AZ gets 192.168.2.2 |
| IpProviderScenarios.SecondAllocationMovesToNextSubnet | bosh-director/spec/unit/deployment_plan/ip_provider/ip_provider_spec.rb:283-289 | a second az-2 allocation gets 192.168.3.2 |
| IpProviderScenarios.NextAllocationWithoutAz | bosh-director/spec/unit/deployment_plan/ip_provider/ip_provider_spec.rb:291-295 | the n-th allocation without an AZ (n = 1..3) takes 192.168.n.2 and adds exactly that claim |
| IpProviderScenarios.FourthAllocationExhausts | bosh-director/spec/unit/deployment_plan/ip_provider/ip_provider_spec.rb:291-301 | after those three, the fourth allocation fails with NotEnoughCapacity |
| IpProviderScenarios.ReleaseFreesStaticIp | bosh-director/spec/unit/deployment_plan/ip_provider/ip_provider_spec.rb:81-99 | through the provider object, a second instance's reservation of a held static 192.168.1.2 fails with AlreadyInUse naming the holder, and succeeds once the holder releases it |
| IpProviderScenarios.ExistingIpReconciledTwice | bosh-director/spec/unit/deployment_plan/ip_provider/ip_provider_spec.rb:394-400 | through the provider object, reconciling an existing 192.168.1.2 succeeds once and fails with AlreadyInUse on the second call |
| IpProviderScenarios.ExhaustsAfterThreeAllocations | bosh-director/spec/unit/deployment_plan/ip_provider/ip_provider_spec.rb:291-300 | through the provider object, three allocations without an AZ get 192.168.1.2, 192.168.2.2 and 192.168.3.2, and the fourth fails with NotEnoughCapacity |
| JobMigration.FirstRowError | bosh-director/spec/unit/deployment_plan/job_migrator_spec.rb:211-260 | none exactly when every old instance of the entry has a compatible AZ; otherwise the error of the first incompatible one: AzNotSpecified when neither has an AZ, AzMismatch with both AZs when they differ |
| JobMigration.EntryError | bosh-director/spec/unit/deployment_plan/job_migrator_spec.rb:167-260 | none exactly when the entry is valid; otherwise still-contained first, then used-by-another-job, then the first AZ failure |
| JobMigration.EntriesError | bosh-director/spec/unit/deployment_plan/job_migrator_spec.rb:167-260 | none exactly when every remaining entry is valid; otherwise the error of the first invalid entry |
| JobMigration.ValidationError | bosh-director/spec/unit/deployment_plan/job_migrator_spec.rb:167-260 | none exactly when the migration is valid; otherwise the justified error of the first invalid entry in manifest order |
| JobMigration.FindEntry | bosh-director/spec/unit/deployment_plan/job_migrator_spec.rb:226-235 | the first entry naming the old job, or none exactly when no entry names it |
| JobMigration.RowsOf | bosh-director/spec/unit/deployment_plan/job_migrator_spec.rb:263-278 | every row of the named job as often as in the table, and no other row |
| JobMigration.MigratedRows | bosh-director/spec/unit/deployment_plan/job_migrator_spec.rb:88-109 | a stored row appears exactly when some entry names its job |
| JobMigration.Merged | bosh-director/spec/unit/deployment_plan/job_migrator_spec.rb:141-153 | a row appears exactly when it is a stored row of the job or of a job it migrates from |
| JobMigration.BackFilledRow | bosh-director/spec/unit/deployment_plan/job_migrator_spec.rb:226-235 | identity (job, index, uuid) kept; a row with an AZ or of an unnamed job unchanged; a legacy row of a migrated job carries its first entry's AZ |
| JobMigration.BackFilled | bosh-director/spec/unit/deployment_plan/job_migrator_spec.rb:226-235 | the table keeps its length and every row's position and identity; only legacy rows of migrated jobs change, taking their entry's AZ |
| JobMigration.Migration | bosh-director/spec/unit/deployment_plan/job_migrator_spec.rb:76-278 | succeeds exactly when the migration is valid; then the table keeps its length and every returned instance is a row of the updated table belonging to the job or to an old job |
| JobMigration.InstanceTable.constructor | bosh-director/spec/unit/deployment_plan/job_migrator_spec.rb:90-98 | the table holds the given instance rows |
| JobMigration.InstanceTable.BackFillAzs | bosh-director/spec/unit/deployment_plan/job_migrator_spec.rb:226-235 | every stored row is replaced in place by its back-filled version |
| JobMigration.JobMigrator.constructor | bosh-director/spec/unit/deployment_plan/job_migrator_spec.rb:5 | the migrator keeps the deployment's jobs and the instance table |
| JobMigration.JobMigrator.FindExistingInstances | bosh-director/spec/unit/deployment_plan/job_migrator_spec.rb:76-278 | returns Migration's instances and leaves its table, or returns its error with the table unchanged |
| JobMigrationProperties.NoMigrationReturnsOwnInstances | bosh-director/spec/unit/deployment_plan/job_migrator_spec.rb:263-278 | without migrated_from the result is exactly the job's stored instances and the table is unchanged |
| JobMigrationProperties.MigratedRowsCount | bosh-director/spec/unit/deployment_plan/job_migrator_spec.rb:88-109 | with distinct entry names, the old jobs' part holds each row of a named job as often as the table does, and nothing else |
| JobMigrationProperties.MergedIsExactlyRelevantRows | bosh-director/spec/unit/deployment_plan/job_migrator_spec.rb:141-153 | with distinct entry names, none naming the job itself, the result holds each row of the job or of an old job as often as the table does, and nothing else |
| JobMigrationProperties.MigratedTableCarriesEntryAz | bosh-director/spec/unit/deployment_plan/job_migrator_spec.rb:226-235 | after success, an old instance without an AZ carries its entry's AZ in the table, one with an AZ keeps it, and none is left without |
| JobMigrationProperties.OwnInstancesReturnedAsStored | bosh-director/spec/unit/deployment_plan/job_migrator_spec.rb:141-153 | with distinct entry names, none naming the job itself, the job's own instances come back exactly as stored, keeping their unset AZ |
| JobMigrationProperties.MigratedInstancesTaggedWithEntryAz | bosh-director/spec/unit/deployment_plan/job_migrator_spec.rb:88-109 | with distinct entry names, none naming the job itself, every returned old instance has an AZ, equal to its entry's when the entry names one |
| JobMigrationProperties.StillContainedOldJobFails | bosh-director/spec/unit/deployment_plan/job_migrator_spec.rb:167-186 | an old job still in the deployment makes the call fail, with StillInDeployment when it is the first entry |
| JobMigrationProperties.SharedOldJobFails | bosh-director/spec/unit/deployment_plan/job_migrator_spec.rb:188-208 | an old job another job also migrates from makes the call fail, with UsedByAnotherJob when it is the first entry and not still in the deployment |
| JobMigrationProperties.AzConflictFails | bosh-director/spec/unit/deployment_plan/job_migrator_spec.rb:211-260 | an old instance whose AZ differs from its entry's, or a legacy one whose entry names no AZ, makes the call fail |
| JobMigrationProperties.FailuresAreJustified | bosh-director/spec/unit/deployment_plan/job_migrator_spec.rb:167-260 | every failure names the job and an entry of it, and a real violation: the old job is still in the deployment, another job also migrates from it, an old instance's AZ differs from the entry's AZ (both named in the error), or neither the old instance nor the entry has an AZ |
| JobMigrationProperties.RepeatedEntryListsRowsTwice | bosh-director/spec/unit/deployment_plan/job_migrator_spec.rb:81-109 | a job listing one old job twice under two AZs succeeds; the legacy instance is tagged with the first AZ in the table and returned twice |

## Left out

- Address text parsing and CIDR arithmetic on strings (`NetAddr::CIDR.create`, dotted quads). Addresses are naturals; only IPv4 prefixes (at most 32) are modelled.
- Manifest parsing (`ManualNetwork.parse`, `PlannerFactory`, `Job.parse`) and the subnet fields this model does not use (`dns`, `cloud_properties`). Subnets, networks and jobs arrive already built.
- The legacy reserved ranges of the global network resolver (ip_provider_spec.rb:7). They are empty there and are not modelled.
- The SQL persistence of the database-backed repository and its unique index. Both backends are one ledger class, and the global-networking flag chooses the scope.
- The atomicity of insert-if-absent against concurrent planning passes. The model is sequential.
- Logger output, including the "Migrating job ..." debug lines, and the `Config.current_job` setup.
- Exact error message strings. Errors are constructors that carry the network name, the address, the holder or the job names.
- Availability zones are plain names; the `AvailabilityZone` objects are not modelled.
- JobMigrator.FindExistingInstances: an old instance that shares a uuid with one of the job's own instances is assumed not to be removed as a duplicate. No behaviour shown for the job migrator involves such a case.
- IpProviders.IpProvider.Release: the ledger entry is deleted but the reservation object keeps `reserved` set; the model has no released state for a reservation, so `ReservedImpliesHeld` covers reserve and reserve_existing_ips, not release.
- Subnets.Subnet.Restricted / Allocatable: reference definitions without a contract of their own; what they mean is proved through IpRepos.FirstFree, Networks.Classify, AllocationIsFirstFit, ReservedRangeSecond and Slash30FirstFree.
- Subnets.Subnet.MatchesAz: no contract of its own; the AZ rule is stated through FirstFit, AllocationIsFirstFit and the AZ scenario lemmas.
- IpProviders.IpProvider.Reserve: a VIP reservation without an address is a caller error and is excluded by `requires`, not modelled as a failure.
- IpProviders.IpProvider.ReserveExistingIps: a reservation without an address on a manual or VIP network is excluded by `requires`; existing reservations always carry one.
