/** Properties of `find_existing_instances`. */
module JobMigrationProperties {
  import opened Wrappers
  import opened JobMigration

  /** The job's entries name distinct old jobs, none of them the job itself. */
  ghost predicate DistinctEntries(job: Job) {
    && (forall k, k' :: 0 <= k < k' < |job.migratedFrom| ==>
          job.migratedFrom[k].name != job.migratedFrom[k'].name)
    && (forall k :: 0 <= k < |job.migratedFrom| ==> job.migratedFrom[k].name != job.name)
  }

  /** A job without `migrated_from` gets exactly its own stored instances, and
      the table is left as it was. */
  lemma NoMigrationReturnsOwnInstances(jobs: seq<Job>, job: Job, rows: seq<InstanceRow>)
    requires job.migratedFrom == []
    ensures Migration(jobs, job, rows) == Success(Migrated(rows, RowsOf(rows, job.name)))
  {
    forall i | 0 <= i < |rows| ensures BackFilled([], rows)[i] == rows[i] {
      assert FindEntry([], rows[i].job).None?;
    }
    assert BackFilled([], rows) == rows;
    var own := RowsOf(rows, job.name);
    assert MigratedRows(rows, job.migratedFrom) == [];
    assert own + [] == own;
    assert Merged(rows, job) == own;
  }

  lemma {:induction false} MigratedRowsCount(rows: seq<InstanceRow>, entries: seq<MigratedFrom>)
    requires forall k, k' :: 0 <= k < k' < |entries| ==> entries[k].name != entries[k'].name
    ensures forall x ::
      multiset(MigratedRows(rows, entries))[x] == if NamedIn(entries, x.job) then multiset(rows)[x] else 0
  {
    if |entries| > 0 {
      var rest := entries[1..];
      MigratedRowsCount(rows, rest);
      forall x: InstanceRow ensures multiset(MigratedRows(rows, entries))[x]
        == if NamedIn(entries, x.job) then multiset(rows)[x] else 0
      {
        assert NamedIn(entries, x.job) <==> x.job == entries[0].name || NamedIn(rest, x.job) by {
          if NamedIn(entries, x.job) && x.job != entries[0].name {
            var k :| 0 <= k < |entries| && entries[k].name == x.job;
            assert rest[k - 1].name == x.job;
          }
          if NamedIn(rest, x.job) {
            var k :| 0 <= k < |rest| && rest[k].name == x.job;
            assert entries[k + 1].name == x.job;
          }
        }
        if x.job == entries[0].name {
          assert !NamedIn(rest, x.job) by {
            forall k | 0 <= k < |rest| ensures rest[k].name != x.job {
              assert entries[k + 1] == rest[k];
            }
          }
        }
      }
    }
  }

  /** The result holds each stored instance of the job and of the jobs it
      migrates from exactly as often as the table does, and nothing else. */
  lemma MergedIsExactlyRelevantRows(rows: seq<InstanceRow>, job: Job)
    requires DistinctEntries(job)
    ensures forall x ::
      multiset(Merged(rows, job))[x] == if x.job == job.name || MigratesFrom(job, x.job) then multiset(rows)[x] else 0
  {
    MigratedRowsCount(rows, job.migratedFrom);
    forall x: InstanceRow, k | x.job == job.name && 0 <= k < |job.migratedFrom|
      ensures job.migratedFrom[k].name != x.job
    {
    }
  }

  /** A job that lists one old job twice is accepted: the old job's instances
      come back once per entry, and a legacy instance takes the first entry's
      AZ both times. */
  lemma RepeatedEntryListsRowsTwice()
    ensures var row := InstanceRow("x", 0, "u", None);
      var job := Job("etcd", [MigratedFrom("x", Some("z1")), MigratedFrom("x", Some("z2"))]);
      var tagged := row.(az := Some("z1"));
      Migration([job], job, [row]) == Success(Migrated([tagged], [tagged, tagged]))
  {
    var row := InstanceRow("x", 0, "u", None);
    var job := Job("etcd", [MigratedFrom("x", Some("z1")), MigratedFrom("x", Some("z2"))]);
    var tagged := row.(az := Some("z1"));
    assert !HasJob([job], "x");
    assert !ClaimedByOther([job], "etcd", "x");
    assert MigrationValid([job], job, [row]);
    assert BackFilled(job.migratedFrom, [row]) == [tagged] by {
      assert FindEntry(job.migratedFrom, "x") == Some(0);
    }
    assert RowsOf([tagged], "etcd") == [];
    assert RowsOf([tagged], "x") == [tagged];
    assert MigratedRows([tagged], job.migratedFrom) == [tagged, tagged] by {
      assert MigratedRows([tagged], job.migratedFrom[1..]) == [tagged] + MigratedRows([tagged], job.migratedFrom[2..]);
      assert job.migratedFrom[2..] == [];
    }
    assert ValidationError([job], job, [row]).None?;
    assert Merged([tagged], job) == [] + [tagged, tagged];
    var table := BackFilled(job.migratedFrom, [row]);
    assert Migration([job], job, [row]) == Success(Migrated(table, Merged(table, job)));
    assert Migrated(table, Merged(table, job)) == Migrated([tagged], [tagged, tagged]);
  }

  /** After a successful migration every old instance in the table has an AZ:
      its own, or its entry's when it had none; when the entry names an AZ the
      instance's AZ is exactly that one. */
  lemma MigratedTableCarriesEntryAz(jobs: seq<Job>, job: Job, rows: seq<InstanceRow>, i: int, k: int)
    requires Migration(jobs, job, rows).Success?
    requires 0 <= i < |rows| && FirstNamed(job.migratedFrom, k, rows[i].job)
    ensures var b := Migration(jobs, job, rows).value.table[i];
      && b.az.Some?
      && b.az == (if rows[i].az.None? then job.migratedFrom[k].az else rows[i].az)
      && (job.migratedFrom[k].az.Some? ==> b.az == job.migratedFrom[k].az)
  {
    var e := job.migratedFrom[k];
    assert EntryValid(jobs, job.name, e, rows);
    assert AzCompatible(e, rows[i]);
  }

  /** The job's own instances are returned as they are stored. */
  lemma OwnInstancesReturnedAsStored(jobs: seq<Job>, job: Job, rows: seq<InstanceRow>)
    requires Migration(jobs, job, rows).Success? && DistinctEntries(job)
    ensures forall x :: x in Migration(jobs, job, rows).value.instances && x.job == job.name ==> x in rows
  {
    var m := Migration(jobs, job, rows).value;
    assert !NamedIn(job.migratedFrom, job.name);
    forall x | x in m.instances && x.job == job.name ensures x in rows {
      var i :| 0 <= i < |m.table| && m.table[i] == x;
      assert m.table[i] == rows[i];
    }
  }

  /** Every returned instance of an old job has an AZ, and it is the AZ of its
      entry when the entry names one. */
  lemma MigratedInstancesTaggedWithEntryAz(jobs: seq<Job>, job: Job, rows: seq<InstanceRow>)
    requires Migration(jobs, job, rows).Success? && DistinctEntries(job)
    ensures forall x, k ::
      x in Migration(jobs, job, rows).value.instances && 0 <= k < |job.migratedFrom| &&
      x.job == job.migratedFrom[k].name ==>
        x.az.Some? && (job.migratedFrom[k].az.Some? ==> x.az == job.migratedFrom[k].az)
  {
    var m := Migration(jobs, job, rows).value;
    forall x, k | x in m.instances && 0 <= k < |job.migratedFrom| && x.job == job.migratedFrom[k].name
      ensures x.az.Some? && (job.migratedFrom[k].az.Some? ==> x.az == job.migratedFrom[k].az)
    {
      var i :| 0 <= i < |m.table| && m.table[i] == x;
      assert FirstNamed(job.migratedFrom, k, rows[i].job);
      MigratedTableCarriesEntryAz(jobs, job, rows, i, k);
    }
  }

  // ---- failures -------------------------------------------------------------

  /** An old job name that is still a job of the deployment makes the call
      fail; when it is the first entry the failure is "still contains it". */
  lemma StillContainedOldJobFails(jobs: seq<Job>, job: Job, rows: seq<InstanceRow>, k: int)
    requires 0 <= k < |job.migratedFrom| && HasJob(jobs, job.migratedFrom[k].name)
    ensures Migration(jobs, job, rows).Failure?
    ensures k == 0 ==>
      Migration(jobs, job, rows) == Failure(StillInDeployment(job.migratedFrom[0].name, job.name))
  {
    assert !EntryValid(jobs, job.name, job.migratedFrom[k], rows);
  }

  /** An old job name another job also migrates from makes the call fail;
      as the first entry, still-contained aside, it is "can only be used in one job". */
  lemma SharedOldJobFails(jobs: seq<Job>, job: Job, rows: seq<InstanceRow>, k: int)
    requires 0 <= k < |job.migratedFrom| && ClaimedByOther(jobs, job.name, job.migratedFrom[k].name)
    ensures Migration(jobs, job, rows).Failure?
    ensures k == 0 && !HasJob(jobs, job.migratedFrom[0].name) ==>
      Migration(jobs, job, rows) == Failure(UsedByAnotherJob(job.migratedFrom[0].name, job.name))
  {
    assert !EntryValid(jobs, job.name, job.migratedFrom[k], rows);
  }

  /** An old instance whose AZ differs from the AZ its entry names, or a
      legacy instance whose entry names no AZ either, makes the call fail. */
  lemma AzConflictFails(jobs: seq<Job>, job: Job, rows: seq<InstanceRow>, k: int, i: int)
    requires 0 <= k < |job.migratedFrom| && 0 <= i < |rows| && rows[i].job == job.migratedFrom[k].name
    requires !AzCompatible(job.migratedFrom[k], rows[i])
    ensures Migration(jobs, job, rows).Failure?
  {
    assert !EntryValid(jobs, job.name, job.migratedFrom[k], rows);
  }

  /** Every failure is a real violation: the named old job is one of the job's
      entries and breaks the rule the error kind names. */
  lemma FailuresAreJustified(jobs: seq<Job>, job: Job, rows: seq<InstanceRow>)
    requires Migration(jobs, job, rows).Failure?
    ensures var err := Migration(jobs, job, rows).error;
      && err.to == job.name
      && (err.StillInDeployment? ==> HasJob(jobs, err.from))
      && (err.UsedByAnotherJob? ==> ClaimedByOther(jobs, job.name, err.from))
      && exists k ::
           && 0 <= k < |job.migratedFrom| && job.migratedFrom[k].name == err.from
           && (err.AzMismatch? ==>
                 && job.migratedFrom[k].az == Some(err.manifestAz)
                 && err.instanceAz != err.manifestAz
                 && exists i :: 0 <= i < |rows| && rows[i].job == err.from && rows[i].az == Some(err.instanceAz))
           && (err.AzNotSpecified? ==>
                 && job.migratedFrom[k].az.None?
                 && exists i :: 0 <= i < |rows| && rows[i].job == err.from && rows[i].az.None?)
  {
    var err := Migration(jobs, job, rows).error;
    var k :| && 0 <= k < |job.migratedFrom|
             && EntryErrorJustified(jobs, job.name, job.migratedFrom[k], rows, err);
    assert job.migratedFrom[k].name == err.from;
  }
}
