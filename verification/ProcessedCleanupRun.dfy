/** Running a processed-source cleanup under a write-ahead receipt (begin_processed_source_cleanup,
    cleanup_processed_source and _finish_failure in harness_mem/processed_source_cleanup.py).

    Every backend call may raise, before or after taking effect, except that saving a receipt and
    recording the outcome on the job are transactions. */
module ProcessedCleanupRun {
  import opened Wrappers
  import opened Payloads
  import opened ReferenceClosure
  import opened ProcessedCleanup
  import opened WriteAheadLog

  datatype NativeStatus = Deleted | NotSupported | Incomplete

  datatype CleanupStatus = CleanedUp | Partial | UnsupportedSource

  /** What cleanup touches: for each structured record, whether it still has raw provenance; for each
      observation, the revision it belongs to; and whether the ledger evidence of the job is pruned. */
  datatype Holdings = Holdings(records: map<Key, bool>, observations: map<string, string>, pruned: bool)

  /** The verification finds nothing left and no retained truth missing or unsanitized. */
  predicate CleanlyRemoved(store: Holdings, plan: Plan) {
    && store.pruned
    && (forall id :: id in plan.observationIds ==> id !in store.observations)
    && (forall key :: key in plan.delete ==> key !in store.records)
    && (forall key :: key in plan.retain ==> key in store.records && !store.records[key])
  }

  /** What a job lookup gives. */
  datatype JobState = NotFound | NotCompleted | Completed

  /** One completed job with the structured records it was planned over, and what cleanup touches. The
      plan depends on those records alone, which nothing changes before the plan is carried out. */
  class Backend {
    const render: Renderer
    const records: Store
    const job: Job
    const plan: Plan
    var store: Holdings
    var receipt: Option<Status>
    var jobOutcome: Option<CleanupStatus>
    ghost var log: seq<Event>

    constructor (render: Renderer, records: Store, job: Job, store: Holdings)
      ensures this.render == render && this.records == records && this.job == job && this.store == store
      ensures Planned()
      ensures receipt == None && jobOutcome == None && log == []
    {
      var planned := PlanStructuredCleanup(render, records, job);
      this.render, this.records, this.job, this.plan, this.store := render, records, job, planned, store;
      receipt, jobOutcome, log := None, None, [];
    }

    /** The plan is that of the planner. */
    ghost predicate Planned() {
      exists evidence :: IsPlan(EvidenceOf(render, records, job), records, plan, evidence)
    }

    /** No id of the project stands for two things. */
    ghost predicate UniqueRecords() {
      GloballyUnique(EvidenceOf(render, records, job), records)
    }

    lemma PlanIsDisjoint()
      requires Planned() && UniqueRecords()
      ensures plan.retain !! plan.delete
    {
      var evidence :| IsPlan(EvidenceOf(render, records, job), records, plan, evidence);
      KindsAreDisjoint(EvidenceOf(render, records, job), records, plan, evidence);
    }

    ghost predicate Consistent()
      reads this
    {
      && Disciplined(log)
      && (receipt == None ==> log == [] && jobOutcome == None)
      && (receipt.Some? ==> Saved(InProgress) in log)
      && (receipt == Some(Succeeded) ==> Verified(true) in log)
      && (jobOutcome == Some(CleanedUp) ==> Verified(true) in log)
    }

    method SaveReceipt(status: Status) returns (raised: bool)
      requires Consistent()
      requires receipt == None ==> status == InProgress
      requires status == Succeeded ==> log != [] && log[|log| - 1] == Verified(true)
      modifies this`receipt, this`log
      ensures Consistent()
      ensures raised ==> receipt == old(receipt) && log == old(log)
      ensures !raised ==> receipt == Some(status) && log == old(log) + [Saved(status)]
    {
      raised := *;
      if !raised {
        receipt := Some(status);
        Append(log, Saved(status));
        log := log + [Saved(status)];
      }
    }

    /** Recorded in the job table; a clean outcome only straight after a clean verification. */
    method RecordOutcome(status: CleanupStatus) returns (raised: bool)
      requires Consistent() && receipt.Some?
      requires status == CleanedUp ==> log != [] && log[|log| - 1] == Verified(true)
      modifies this`jobOutcome
      ensures Consistent()
      ensures jobOutcome == if raised then old(jobOutcome) else Some(status)
    {
      raised := *;
      if !raised {
        jobOutcome := Some(status);
      }
    }

    method Change(next: Holdings) returns (raised: bool)
      requires Consistent() && receipt == Some(InProgress)
      modifies this`store, this`log
      ensures Consistent()
      ensures store == next || (raised && store == old(store))
    {
      raised := *;
      var takesEffect: bool := *;
      if takesEffect || !raised {
        Append(log, Removed);
        log := log + [Removed];
        store := next;
      }
    }

    /** The native source is changed only behind a durable in-progress receipt. */
    method Begin(found: JobState) returns (success: bool)
      requires Consistent() && receipt == None
      modifies this`receipt, this`log
      ensures Consistent()
      ensures if success then receipt == Some(InProgress) && log == [Saved(InProgress)] else receipt == None && log == []
      ensures success ==> found == Completed
    {
      if found != Completed {
        return false;
      }
      var raised := SaveReceipt(InProgress);
      success := !raised;
    }

    method ApplyNativeCleanup() returns (status: NativeStatus)
      requires Consistent() && receipt == Some(InProgress)
      modifies this`log
      ensures Consistent() && Removed in log
    {
      Append(log, Removed);
      log := log + [Removed];
      status := *;
    }

    /** Records the failure on the job and on the receipt; neither write may stop the other. */
    method FinishFailure() returns (success: bool)
      requires Consistent() && receipt == Some(InProgress)
      modifies this`receipt, this`log, this`jobOutcome
      ensures Consistent() && !success
      ensures receipt == Some(InProgress) || receipt == Some(PartialFailure)
      ensures jobOutcome == old(jobOutcome) || jobOutcome == Some(Partial)
    {
      var ignored := RecordOutcome(Partial);
      ignored := SaveReceipt(PartialFailure);
      success := false;
    }

    /** Retained truth loses its raw provenance, and nothing else changes. */
    method SanitizeTruth() returns (raised: bool)
      requires Consistent() && receipt == Some(InProgress)
      modifies this`store, this`log
      ensures Consistent() && store.observations == old(store).observations && store.pruned == old(store).pruned
      ensures store.records.Keys == old(store).records.Keys
      ensures forall key :: key in store.records && key !in plan.retain ==> store.records[key] == old(store).records[key]
      ensures !raised ==> plan.retain <= store.records.Keys && forall key :: key in plan.retain ==> !store.records[key]
    {
      var todo := plan.retain;
      raised := false;
      while todo != {}
        invariant todo <= plan.retain
        invariant Consistent() && receipt == Some(InProgress) && !raised
        invariant store.observations == old(store).observations && store.pruned == old(store).pruned
        invariant store.records.Keys == old(store).records.Keys
        invariant forall key :: key in store.records && key !in plan.retain ==> store.records[key] == old(store).records[key]
        invariant forall key :: key in plan.retain - todo ==> key in store.records && !store.records[key]
        decreases todo
      {
        var key :| key in todo;
        if key !in store.records {
          return true;
        }
        raised := Change(store.(records := store.records[key := false]));
        if raised {
          return;
        }
        todo := todo - {key};
      }
    }

    method DeleteDerived() returns (raised: bool)
      requires Consistent() && receipt == Some(InProgress)
      requires plan.retain !! plan.delete
      modifies this`store, this`log
      ensures Consistent() && store.observations == old(store).observations && store.pruned == old(store).pruned
      ensures store.records.Keys <= old(store).records.Keys
      ensures forall key :: key in store.records ==> store.records[key] == old(store).records[key]
      ensures forall key :: key in old(store).records && key !in plan.delete ==> key in store.records
      ensures !raised ==> forall key :: key in plan.delete ==> key !in store.records
    {
      var todo := plan.delete;
      raised := false;
      while todo != {}
        invariant todo <= plan.delete
        invariant Consistent() && receipt == Some(InProgress) && !raised
        invariant store.observations == old(store).observations && store.pruned == old(store).pruned
        invariant store.records.Keys <= old(store).records.Keys
        invariant forall key :: key in store.records ==> store.records[key] == old(store).records[key]
        invariant forall key :: key in old(store).records && key !in plan.delete ==> key in store.records
        invariant forall key :: key in plan.delete - todo ==> key !in store.records
        decreases todo
      {
        var key :| key in todo;
        raised := Change(store.(records := store.records - {key}));
        if raised {
          return;
        }
        todo := todo - {key};
      }
    }

    /** An observation that belongs to another revision by now stops the run. */
    method DeleteObservations() returns (raised: bool)
      requires Consistent() && receipt == Some(InProgress)
      modifies this`store, this`log
      ensures Consistent() && store.records == old(store).records && store.pruned == old(store).pruned
      ensures store.observations.Keys <= old(store).observations.Keys
      ensures forall id :: id in old(store).observations && (id !in plan.observationIds || old(store).observations[id] != job.sourceRevision) ==>
                id in store.observations && store.observations[id] == old(store).observations[id]
      ensures !raised ==> forall id :: id in plan.observationIds ==> id !in store.observations
    {
      var todo := plan.observationIds;
      raised := false;
      while todo != {}
        invariant todo <= plan.observationIds
        invariant Consistent() && receipt == Some(InProgress) && !raised
        invariant store.records == old(store).records && store.pruned == old(store).pruned
        invariant store.observations.Keys <= old(store).observations.Keys
        invariant forall id :: id in store.observations ==> store.observations[id] == old(store).observations[id]
        invariant forall id :: id in old(store).observations && (id !in plan.observationIds || old(store).observations[id] != job.sourceRevision) ==> id in store.observations
        invariant forall id :: id in plan.observationIds - todo ==> id !in store.observations
        decreases todo
      {
        var id :| id in todo;
        if id in store.observations && store.observations[id] != job.sourceRevision {
          return true;
        }
        raised := Change(store.(observations := store.observations - {id}));
        if raised {
          return;
        }
        todo := todo - {id};
      }
    }

    /** Counts what should be gone and is not, and the retained truth that is missing or has raw provenance. */
    method VerifyCleanup() returns (passed: bool)
      ensures passed <==> CleanlyRemoved(store, plan)
    {
      var observations, deleted, missing, provenance := 0, 0, 0, 0;
      var ids, gone, kept := plan.observationIds, plan.delete, plan.retain;
      while ids != {}
        invariant ids <= plan.observationIds && observations >= 0
        invariant observations == 0 <==> forall id :: id in plan.observationIds - ids ==> id !in store.observations
        decreases ids
      {
        var id :| id in ids;
        observations := observations + if id in store.observations then 1 else 0;
        ids := ids - {id};
      }
      while gone != {}
        invariant gone <= plan.delete && deleted >= 0
        invariant deleted == 0 <==> forall key :: key in plan.delete - gone ==> key !in store.records
        decreases gone
      {
        var key :| key in gone;
        deleted := deleted + if key in store.records then 1 else 0;
        gone := gone - {key};
      }
      while kept != {}
        invariant kept <= plan.retain && missing >= 0 && provenance >= 0
        invariant missing == 0 <==> forall key :: key in plan.retain - kept ==> key in store.records
        invariant provenance == 0 <==> forall key :: key in plan.retain - kept && key in store.records ==> !store.records[key]
        decreases kept
      {
        var key :| key in kept;
        missing := missing + if key in store.records then 0 else 1;
        provenance := provenance + if key in store.records && store.records[key] then 1 else 0;
        kept := kept - {key};
      }
      passed := store.pruned && observations + deleted + missing + provenance == 0;
    }

    /** The try block up to and including the final receipt. */
    method Attempt() returns (raised: bool, passed: bool)
      requires Consistent() && receipt == Some(InProgress)
      requires plan.retain !! plan.delete && jobOutcome == None
      modifies this
      ensures Consistent()
      ensures TruthKept(old(store), store)
      ensures jobOutcome == Some(CleanedUp) ==> CleanlyRemoved(store, plan)
      ensures raised ==> receipt == Some(InProgress)
      ensures !raised ==> receipt == Some(if passed then Succeeded else PartialFailure)
      ensures !raised ==> jobOutcome == Some(if passed then CleanedUp else Partial)
      ensures !raised ==> passed && CleanlyRemoved(store, plan)
    {
      passed := false;
      raised := SanitizeTruth();
      if raised {
        return;
      }
      raised := DeleteDerived();
      if raised {
        return;
      }
      raised := DeleteObservations();
      if raised {
        return;
      }
      raised := Change(store.(pruned := true));
      if raised {
        return;
      }
      raised := *;
      if raised {
        return;
      }
      passed := VerifyCleanup();
      Append(log, Verified(passed));
      log := log + [Verified(passed)];
      raised := RecordOutcome(if passed then CleanedUp else Partial);
      if raised {
        return;
      }
      raised := SaveReceipt(if passed then Succeeded else PartialFailure);
    }

    /** No record of the plan's retained truth has disappeared, and none outside it has been touched
        except by deletion. */
    ghost predicate TruthKept(before: Holdings, after: Holdings) {
      && after.records.Keys <= before.records.Keys
      && (forall key :: key in before.records && key !in plan.delete ==> key in after.records)
      && (forall key :: key in after.records && key !in plan.retain ==> after.records[key] == before.records[key])
    }

    /** The governed and the confirmed truth that the job produced. */
    ghost predicate RetainedTruthKept(before: Holdings, after: Holdings) {
      forall key :: key in plan.retain && key in before.records ==> key in after.records
    }

    /** cleanup_processed_source, with the id of a receipt that was begun (`given`), or starting its own.

        Success is returned, and durable on the receipt, only over a store that was verified clean;
        unresolved candidates and an unfinished native cleanup stop it before anything is removed;
        and however it ends, retained truth is still there. */
    method CleanupProcessedSource(found: JobState, native: NativeStatus, given: bool) returns (success: bool, escaped: bool)
      requires Consistent() && Planned() && UniqueRecords()
      requires !given ==> receipt == None
      requires receipt != Some(Succeeded) ==> jobOutcome == None
      modifies this
      ensures Consistent()
      ensures TruthKept(old(store), store) && RetainedTruthKept(old(store), store)
      // A job that is not there or not completed, and a receipt that is not in progress, change nothing.
      ensures found != Completed || (given && old(receipt) != Some(InProgress)) ==>
                !success && !escaped && store == old(store) && receipt == old(receipt) && log == old(log) && jobOutcome == old(jobOutcome)
      ensures success ==> receipt == Some(Succeeded) && !escaped && jobOutcome == Some(CleanedUp)
      ensures old(receipt) != Some(Succeeded) && receipt == Some(Succeeded) ==> success
      ensures old(jobOutcome) == None && (success || jobOutcome == Some(CleanedUp)) ==>
                CleanlyRemoved(store, plan) && native == Deleted && plan.blocking == {}
      ensures native != Deleted || plan.blocking != {} ==> !success && store == old(store)
      ensures native != Deleted && Removed in log ==> Removed in old(log)
      ensures escaped ==> native != Deleted && receipt == Some(InProgress)
      ensures old(receipt).Some? ==> receipt.Some?
    {
      success, escaped := false, false;
      if found != Completed || (given && receipt != Some(InProgress)) {
        return;
      }
      PlanIsDisjoint();
      var raised := SaveReceipt(InProgress);
      if raised {
        return;
      }
      if native != Deleted {
        // Neither of these two writes is guarded in the source: an exception escapes.
        escaped := RecordOutcome(if native == NotSupported then UnsupportedSource else Partial);
        if !escaped {
          escaped := SaveReceipt(if native == NotSupported then Unsupported else PartialFailure);
        }
        return;
      }
      raised := *;
      if raised {
        success := FinishFailure();
        return;
      }
      raised := SaveReceipt(InProgress);
      if raised || plan.blocking != {} {
        success := FinishFailure();
        return;
      }
      var passed;
      raised, passed := Attempt();
      if raised {
        success := FinishFailure();
        return;
      }
      success := passed;
    }

    /** One retained job retried, by what native planning says of its source: one that must stay is
        left alone, a supported one is removed behind a begun receipt, and an unsupported one goes to
        cleanup_processed_source without a receipt, where it only gets its outcome recorded. */
    method Retry(found: JobState, nativeRetained: bool, nativeSupported: bool) returns (success: bool, escaped: bool)
      requires Consistent() && Planned() && UniqueRecords() && receipt == None && jobOutcome == None
      modifies this
      ensures Consistent()
      ensures TruthKept(old(store), store) && RetainedTruthKept(old(store), store)
      ensures success <==> receipt == Some(Succeeded)
      ensures success ==> CleanlyRemoved(store, plan) && found == Completed && nativeSupported && !nativeRetained
      ensures receipt == None ==> log == [] && store == old(store)
      ensures nativeRetained || found != Completed ==> receipt == None
      // Without native support nothing at all is removed.
      ensures !nativeSupported ==> store == old(store) && Removed !in log
    {
      success, escaped := false, false;
      if nativeRetained {
        return;
      }
      if !nativeSupported {
        success, escaped := CleanupProcessedSource(found, NotSupported, false);
        return;
      }
      var begun := Begin(found);
      if !begun {
        return false, false;
      }
      var native := ApplyNativeCleanup();
      success, escaped := CleanupProcessedSource(found, native, true);
    }
  }
}
