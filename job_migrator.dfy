/** Job migration: when a job lists `migrated_from` entries, its existing
    instances are its own stored instances plus those of the old jobs it
    replaces. The old job names must be gone from the deployment and claimed
    by one job only, and the old instances' availability zones must agree with
    the entries; legacy instances without an AZ take the entry's AZ, which is
    written back to the instance table. */
module JobMigration {
  import opened Wrappers

  type AzName = string

  /** A stored instance: its job name, index, uuid and availability zone. */
  datatype InstanceRow = InstanceRow(job: string, index: nat, uuid: string, az: Option<AzName>)

  /** One `migrated_from` entry of a job: an old job name and an optional AZ. */
  datatype MigratedFrom = MigratedFrom(name: string, az: Option<AzName>)

  datatype Job = Job(name: string, migratedFrom: seq<MigratedFrom>)

  /** The DeploymentInvalidMigratedFromJob failures, by cause. */
  datatype MigrationError =
    | StillInDeployment(from: string, to: string)
    | UsedByAnotherJob(from: string, to: string)
    | AzMismatch(from: string, to: string, instanceAz: AzName, manifestAz: AzName)
    | AzNotSpecified(from: string, to: string)

  // ---- the validation rules ---------------------------------------------------

  /** The deployment still has a job of that name. */
  predicate HasJob(jobs: seq<Job>, name: string) {
    exists j :: 0 <= j < |jobs| && jobs[j].name == name
  }

  /** Some entry names the old job. */
  predicate NamedIn(entries: seq<MigratedFrom>, name: string) {
    exists k :: 0 <= k < |entries| && entries[k].name == name
  }

  predicate MigratesFrom(job: Job, name: string) {
    NamedIn(job.migratedFrom, name)
  }

  /** A job of the deployment other than target also migrates from name. */
  predicate ClaimedByOther(jobs: seq<Job>, target: string, name: string) {
    exists j :: 0 <= j < |jobs| && jobs[j].name != target && MigratesFrom(jobs[j], name)
  }

  /** An old instance may move when it or the entry names an AZ, and when
      both do they agree. */
  predicate AzCompatible(e: MigratedFrom, row: InstanceRow) {
    && (row.az.Some? || e.az.Some?)
    && (row.az.Some? && e.az.Some? ==> row.az == e.az)
  }

  /** Reference definition of a valid entry of the job named `to`. */
  ghost predicate EntryValid(jobs: seq<Job>, to: string, e: MigratedFrom, rows: seq<InstanceRow>) {
    && !HasJob(jobs, e.name)
    && !ClaimedByOther(jobs, to, e.name)
    && forall i :: 0 <= i < |rows| && rows[i].job == e.name ==> AzCompatible(e, rows[i])
  }

  ghost predicate MigrationValid(jobs: seq<Job>, job: Job, rows: seq<InstanceRow>) {
    forall k :: 0 <= k < |job.migratedFrom| ==> EntryValid(jobs, job.name, job.migratedFrom[k], rows)
  }

  /** err is what an incompatible instance row of entry e reports. */
  ghost predicate RowErrorJustified(e: MigratedFrom, to: string, row: InstanceRow, err: MigrationError) {
    match err
    case AzMismatch(f, t, a, b) =>
      f == e.name && t == to && row.job == f && row.az == Some(a) && e.az == Some(b) && a != b
    case AzNotSpecified(f, t) =>
      f == e.name && t == to && row.job == f && row.az.None? && e.az.None?
    case _ => false
  }

  /** err is the first failure of entry e: the name checks come first, then the
      first incompatible instance row in table order. */
  ghost predicate EntryErrorJustified(
    jobs: seq<Job>, to: string, e: MigratedFrom, rows: seq<InstanceRow>, err: MigrationError)
  {
    match err
    case StillInDeployment(f, t) => f == e.name && t == to && HasJob(jobs, f)
    case UsedByAnotherJob(f, t) => f == e.name && t == to && !HasJob(jobs, f) && ClaimedByOther(jobs, t, f)
    case _ =>
      && !HasJob(jobs, e.name) && !ClaimedByOther(jobs, to, e.name)
      && exists i ::
           && 0 <= i < |rows| && RowErrorJustified(e, to, rows[i], err)
           && forall i' :: 0 <= i' < i && rows[i'].job == e.name ==> AzCompatible(e, rows[i'])
  }

  /** The first instance row, from index `from` on, whose AZ does not fit e. */
  function FirstRowError(e: MigratedFrom, to: string, rows: seq<InstanceRow>, from: nat): (r: Option<MigrationError>)
    requires from <= |rows|
    ensures r.None? <==> forall i :: from <= i < |rows| && rows[i].job == e.name ==> AzCompatible(e, rows[i])
    ensures r.Some? ==> exists i ::
      && from <= i < |rows| && RowErrorJustified(e, to, rows[i], r.value)
      && forall i' :: from <= i' < i && rows[i'].job == e.name ==> AzCompatible(e, rows[i'])
    decreases |rows| - from
  {
    if from == |rows| then None
    else
      var row := rows[from];
      if row.job == e.name && row.az.None? && e.az.None? then Some(AzNotSpecified(e.name, to))
      else if row.job == e.name && row.az.Some? && e.az.Some? && row.az != e.az then
        Some(AzMismatch(e.name, to, row.az.value, e.az.value))
      else FirstRowError(e, to, rows, from + 1)
  }

  function EntryError(jobs: seq<Job>, to: string, e: MigratedFrom, rows: seq<InstanceRow>): (r: Option<MigrationError>)
    ensures r.None? <==> EntryValid(jobs, to, e, rows)
    ensures r.Some? ==> EntryErrorJustified(jobs, to, e, rows, r.value)
  {
    if HasJob(jobs, e.name) then Some(StillInDeployment(e.name, to))
    else if ClaimedByOther(jobs, to, e.name) then Some(UsedByAnotherJob(e.name, to))
    else FirstRowError(e, to, rows, 0)
  }

  /** Every entry of the job from index `from` on is valid. */
  ghost predicate ValidFrom(jobs: seq<Job>, job: Job, rows: seq<InstanceRow>, from: nat) {
    forall k :: from <= k < |job.migratedFrom| ==> EntryValid(jobs, job.name, job.migratedFrom[k], rows)
  }

  /** Entry k is the first invalid one from index `from` on, and err is its
      justified error. */
  ghost predicate FirstInvalidAt(jobs: seq<Job>, job: Job, rows: seq<InstanceRow>, from: nat, k: int, err: MigrationError) {
    && from <= k < |job.migratedFrom|
    && EntryErrorJustified(jobs, job.name, job.migratedFrom[k], rows, err)
    && forall k' :: from <= k' < k ==> EntryValid(jobs, job.name, job.migratedFrom[k'], rows)
  }

  /** The first failure over the job's entries, in manifest order. */
  function EntriesError(jobs: seq<Job>, job: Job, rows: seq<InstanceRow>, from: nat): (r: Option<MigrationError>)
    requires from <= |job.migratedFrom|
    ensures r.None? <==> ValidFrom(jobs, job, rows, from)
    ensures r.Some? ==> exists k :: FirstInvalidAt(jobs, job, rows, from, k, r.value)
    decreases |job.migratedFrom| - from
  {
    if from == |job.migratedFrom| then None
    else
      var e := job.migratedFrom[from];
      match EntryError(jobs, job.name, e, rows)
      case Some(err) =>
        assert FirstInvalidAt(jobs, job, rows, from, from, err);
        Some(err)
      case None =>
        var rest := EntriesError(jobs, job, rows, from + 1);
        assert EntryValid(jobs, job.name, job.migratedFrom[from], rows);
        assert rest.Some? ==> exists k :: FirstInvalidAt(jobs, job, rows, from, k, rest.value) by {
          if rest.Some? {
            var k :| FirstInvalidAt(jobs, job, rows, from + 1, k, rest.value);
            assert FirstInvalidAt(jobs, job, rows, from, k, rest.value);
          }
        }
        rest
  }

  /** The validation of `find_existing_instances`: None exactly when the
      migration is valid; otherwise the error of the first invalid entry. */
  function ValidationError(jobs: seq<Job>, job: Job, rows: seq<InstanceRow>): (r: Option<MigrationError>)
    ensures r.None? <==> MigrationValid(jobs, job, rows)
    ensures r.Some? ==> exists k ::
      && 0 <= k < |job.migratedFrom|
      && EntryErrorJustified(jobs, job.name, job.migratedFrom[k], rows, r.value)
      && forall k' :: 0 <= k' < k ==> EntryValid(jobs, job.name, job.migratedFrom[k'], rows)
  {
    var r := EntriesError(jobs, job, rows, 0);
    assert r.Some? ==> exists k :: FirstInvalidAt(jobs, job, rows, 0, k, r.value);
    r
  }

  // ---- the AZ back-fill -------------------------------------------------------

  ghost predicate FirstNamed(entries: seq<MigratedFrom>, k: int, name: string) {
    0 <= k < |entries| && entries[k].name == name && forall k' :: 0 <= k' < k ==> entries[k'].name != name
  }

  /** The index of the first entry naming the job, if any. */
  function FindEntry(entries: seq<MigratedFrom>, name: string): (r: Option<nat>)
    ensures r.Some? ==> FirstNamed(entries, r.value, name)
    ensures r.None? <==> !NamedIn(entries, name)
  {
    if |entries| == 0 then None
    else if entries[0].name == name then Some(0)
    else match FindEntry(entries[1..], name)
      case None => None
      case Some(k) => Some(k + 1)
  }

  /** A legacy row (no AZ) of a migrated job takes the AZ of the first entry
      naming its job; every other row is kept, and no row changes identity. */
  function BackFilledRow(entries: seq<MigratedFrom>, row: InstanceRow): (r: InstanceRow)
    ensures r.job == row.job && r.index == row.index && r.uuid == row.uuid
    ensures row.az.Some? || !NamedIn(entries, row.job) ==> r == row
    ensures forall k :: row.az.None? && FirstNamed(entries, k, row.job) ==> r.az == entries[k].az
  {
    if row.az.Some? then row
    else match FindEntry(entries, row.job)
      case None => row
      case Some(f) =>
        assert forall k :: FirstNamed(entries, k, row.job) ==> k == f by {
          forall k | FirstNamed(entries, k, row.job) ensures k == f {
            assert !(k < f) && !(f < k);
          }
        }
        row.(az := entries[f].az)
  }

  /** The table after the back-fill, row by row in place: same length, same
      identities, only legacy rows of migrated jobs take their entry's AZ. */
  function BackFilled(entries: seq<MigratedFrom>, rows: seq<InstanceRow>): (r: seq<InstanceRow>)
    ensures |r| == |rows|
    ensures forall i :: 0 <= i < |rows| ==>
      && r[i].job == rows[i].job && r[i].index == rows[i].index && r[i].uuid == rows[i].uuid
      && (rows[i].az.Some? || !NamedIn(entries, rows[i].job) ==> r[i] == rows[i])
      && (forall k :: rows[i].az.None? && FirstNamed(entries, k, rows[i].job) ==> r[i].az == entries[k].az)
  {
    seq(|rows|, i requires 0 <= i < |rows| => BackFilledRow(entries, rows[i]))
  }

  // ---- the merge --------------------------------------------------------------

  /** The rows of one job, in table order. */
  function RowsOf(rows: seq<InstanceRow>, name: string): (r: seq<InstanceRow>)
    ensures forall x :: multiset(r)[x] == if x.job == name then multiset(rows)[x] else 0
  {
    if |rows| == 0 then []
    else
      assert rows == [rows[0]] + rows[1..];
      (if rows[0].job == name then [rows[0]] else []) + RowsOf(rows[1..], name)
  }

  /** The rows of the old jobs, entry by entry: a stored row appears exactly
      when some entry names its job. */
  function MigratedRows(rows: seq<InstanceRow>, entries: seq<MigratedFrom>): (r: seq<InstanceRow>)
    ensures forall x :: x in r <==> x in rows && NamedIn(entries, x.job)
  {
    if |entries| == 0 then []
    else
      var rest := MigratedRows(rows, entries[1..]);
      assert forall name :: NamedIn(entries, name) <==> entries[0].name == name || NamedIn(entries[1..], name) by {
        forall name ensures NamedIn(entries, name) <==> entries[0].name == name || NamedIn(entries[1..], name) {
          if NamedIn(entries[1..], name) {
            var k :| 0 <= k < |entries[1..]| && entries[1..][k].name == name;
            assert entries[k + 1].name == name;
          }
          if NamedIn(entries, name) && entries[0].name != name {
            var k :| 0 <= k < |entries| && entries[k].name == name;
            assert entries[1..][k - 1].name == name;
          }
        }
      }
      RowsOf(rows, entries[0].name) + rest
  }

  /** The job's own instances followed by those of the jobs it migrates from:
      exactly the stored rows of the job or of an old job. */
  function Merged(rows: seq<InstanceRow>, job: Job): (r: seq<InstanceRow>)
    ensures forall x :: x in r <==> x in rows && (x.job == job.name || MigratesFrom(job, x.job))
  {
    RowsOf(rows, job.name) + MigratedRows(rows, job.migratedFrom)
  }

  /** The instance table after the call and the instances it returns. */
  datatype Migrated = Migrated(table: seq<InstanceRow>, instances: seq<InstanceRow>)

  /** `find_existing_instances`: validate, back-fill legacy AZs, merge. */
  function Migration(jobs: seq<Job>, job: Job, rows: seq<InstanceRow>): (r: Result<Migrated, MigrationError>)
    ensures r.Success? <==> MigrationValid(jobs, job, rows)
    ensures r.Success? ==> |r.value.table| == |rows|
    ensures r.Success? ==> forall x :: x in r.value.instances ==>
      x in r.value.table && (x.job == job.name || MigratesFrom(job, x.job))
  {
    match ValidationError(jobs, job, rows)
    case Some(err) => Failure(err)
    case None =>
      var table := BackFilled(job.migratedFrom, rows);
      Success(Migrated(table, Merged(table, job)))
  }

  /** The stored instance records; the back-fill updates them in place. */
  class InstanceTable {
    var rows: seq<InstanceRow>

    constructor (rows: seq<InstanceRow>)
      ensures this.rows == rows
    {
      this.rows := rows;
    }

    method BackFillAzs(entries: seq<MigratedFrom>)
      modifies this
      ensures rows == BackFilled(entries, old(rows))
    {
      var i := 0;
      while i < |rows|
        invariant 0 <= i <= |rows| == |old(rows)|
        invariant forall k :: 0 <= k < i ==> rows[k] == BackFilledRow(entries, old(rows)[k])
        invariant forall k :: i <= k < |rows| ==> rows[k] == old(rows)[k]
      {
        var row := rows[i];
        if row.az.None? {
          var k := FindEntry(entries, row.job);
          if k.Some? {
            rows := rows[i := row.(az := entries[k.value].az)];
          }
        }
        i := i + 1;
      }
    }
  }

  class JobMigrator {
    const jobs: seq<Job>
    const table: InstanceTable

    constructor (jobs: seq<Job>, table: InstanceTable)
      ensures this.jobs == jobs && this.table == table
    {
      this.jobs := jobs;
      this.table := table;
    }

    method FindExistingInstances(job: Job) returns (r: Result<seq<InstanceRow>, MigrationError>)
      modifies table
      ensures match Migration(jobs, job, old(table.rows))
        case Success(m) => r == Success(m.instances) && table.rows == m.table
        case Failure(err) => r == Failure(err) && table.rows == old(table.rows)
    {
      var err := ValidationError(jobs, job, table.rows);
      if err.Some? {
        return Failure(err.value);
      }
      table.BackFillAzs(job.migratedFrom);
      r := Success(Merged(table.rows, job));
    }
  }
}
