/** Running a planned erasure under a write-ahead receipt (hard_delete in harness_mem/data_lifecycle.py).

    Every backend call may raise, before or after taking effect, except that saving a receipt and
    deleting ledger revisions are transactions. */
module HardDeleteRun {
  import opened Wrappers
  import opened Payloads
  import opened ReferenceClosure
  import opened HardDelete
  import opened HardDeleteScope
  import opened WriteAheadLog

  datatype Outcome =
    | ReceiptPersistenceFailed
    | NothingToDelete(success: bool)
    | Applied(success: bool)

  lemma {:induction false} FilterTwice<T(!new)>(keep: T -> bool, also: T -> bool, both: T -> bool, s: seq<T>)
    requires forall x :: both(x) <==> keep(x) && also(x)
    ensures Filter(also, Filter(keep, s)) == Filter(both, s)
  {
    if s != [] {
      FilterTwice(keep, also, both, s[1..]);
      assert s == [s[0]] + s[1..];
      if keep(s[0]) {
        assert Filter(keep, s) == [s[0]] + Filter(keep, s[1..]);
        assert Filter(keep, s)[1..] == Filter(keep, s[1..]);
      }
    }
  }

  lemma {:induction false} FilterAll<T(!new)>(keep: T -> bool, s: seq<T>)
    requires forall x :: keep(x)
    ensures Filter(keep, s) == s
  {
    if s != [] {
      FilterAll(keep, s[1..]);
      assert s == [s[0]] + s[1..];
    }
  }

  lemma EraseOneMore(render: Renderer, tables: seq<Table>, done: set<Key>, key: Key)
    ensures EraseRecords(render, EraseRecords(render, tables, done), {key}) == EraseRecords(render, tables, done + {key})
  {
    forall i | 0 <= i < |tables|
      ensures EraseRecords(render, EraseRecords(render, tables, done), {key})[i] == EraseRecords(render, tables, done + {key})[i]
    {
      var c := tables[i].collection;
      FilterTwice(RecordOutside(render, c, done), RecordOutside(render, c, {key}), RecordOutside(render, c, done + {key}),
                  tables[i].payloads);
    }
  }

  lemma EraseNone(render: Renderer, tables: seq<Table>)
    ensures EraseRecords(render, tables, {}) == tables
  {
    forall i | 0 <= i < |tables| ensures EraseRecords(render, tables, {})[i] == tables[i] {
      FilterAll(RecordOutside(render, tables[i].collection, {}), tables[i].payloads);
    }
  }

  // ---------------------------------------------------------------- what is spared on the way

  lemma RecordsErased(render: Renderer, start: Store, plan: Plan, keys: set<Key>)
    requires keys <= plan.structured
    ensures Spares(render, start, start.(tables := EraseRecords(render, start.tables, keys)), plan)
  {
    EraseKeepsTheRest(render, start.tables, keys);
  }

  lemma NothingErased(render: Renderer, start: Store, plan: Plan)
    ensures Spares(render, start, start, plan)
  {
  }

  lemma ObservationsErased(render: Renderer, start: Store, plan: Plan, ids: set<string>)
    requires ids <= plan.observationIds
    ensures Spares(render, start, start.(tables := EraseRecords(render, start.tables, plan.structured),
                                         observations := Filter(ObservationOutside(ids), start.observations)), plan)
  {
    EraseKeepsTheRest(render, start.tables, plan.structured);
  }

  lemma LedgerErased(render: Renderer, start: Store, plan: Plan)
    ensures Spares(render, start, Erase(render, start, plan), plan)
  {
    EraseKeepsTheRest(render, start.tables, plan.structured);
  }

  /** What the plan means for the records themselves. */
  lemma PlanIsCarriedOut(render: Renderer, start: Store, after: Store, scope: Scope, plan: Plan)
    requires IsPlan(render, start, scope, plan) && Spares(render, start, after, plan)
    ensures KeysUnique(render, start) ==> OthersStay(render, scope, start, after)
    ensures KeysUnique(render, start) && after == Erase(render, start, plan) ==> ScopeIsGone(render, scope, start, after)
  {
    if KeysUnique(render, start) {
      SparingIsIsolation(render, start, after, scope, plan);
      PlanIsComplete(render, start, scope, plan);
    }
  }

  class Backend {
    const render: Renderer
    var store: Store
    /** The durable status of the receipt of this run. */
    var receipt: Option<Status>
    ghost var log: seq<Event>
    /** Whether any call of this run has raised. */
    ghost var faulted: bool

    constructor (render: Renderer, store: Store)
      ensures this.render == render && this.store == store && receipt == None && log == [] && !faulted
    {
      this.render := render;
      this.store := store;
      receipt := None;
      log := [];
      faulted := false;
    }

    ghost predicate Consistent()
      reads this
    {
      && Disciplined(log)
      && (receipt == None ==> log == [])
      && (receipt.Some? ==> Saved(InProgress) in log)
      && (receipt == Some(Succeeded) ==> log != [] && log[|log| - 1] == Saved(Succeeded))
    }

    /** An upsert in its own transaction: it raises without effect or is durable. */
    method SaveReceipt(status: Status) returns (raised: bool)
      requires Consistent()
      requires receipt == None ==> status == InProgress
      requires status == Succeeded ==> log != [] && log[|log| - 1] == Verified(true)
      modifies this`receipt, this`log, this`faulted
      ensures Consistent()
      ensures raised ==> faulted && receipt == old(receipt) && log == old(log)
      ensures !raised ==> receipt == Some(status) && log == old(log) + [Saved(status)] && faulted == old(faulted)
    {
      raised := *;
      if raised {
        faulted := true;
      } else {
        receipt := Some(status);
        Append(log, Saved(status));
        log := log + [Saved(status)];
      }
    }

    /** Removing something outside the ledger: the effect may or may not precede an exception. */
    method Remove(next: Store) returns (raised: bool)
      requires Consistent() && receipt == Some(InProgress)
      modifies this`store, this`log, this`faulted
      ensures Consistent()
      ensures raised ==> faulted && (store == next || store == old(store))
      ensures !raised ==> store == next && faulted == old(faulted)
    {
      raised := *;
      var takesEffect: bool := *;
      if takesEffect || !raised {
        Append(log, Removed);
        log := log + [Removed];
        store := next;
      }
      if raised {
        faulted := true;
      }
    }

    /** hard_delete_revisions: one transaction that also rewrites the receipt, still in progress. */
    method DeleteRevisions(plan: Plan) returns (raised: bool)
      requires Consistent() && receipt == Some(InProgress)
      modifies this`store, this`log, this`faulted
      ensures Consistent()
      ensures raised ==> faulted && store == old(store)
      ensures !raised ==> faulted == old(faulted) && store == EraseRevisions(old(store), plan.revisionKeys)
    {
      raised := *;
      if raised {
        faulted := true;
      } else {
        store := EraseRevisions(store, plan.revisionKeys);
        Append(log, Removed);
        log := log + [Removed];
        Append(log, Saved(InProgress));
        log := log + [Saved(InProgress)];
      }
    }

    method Verify(scope: Scope, plan: Plan, nativeIncomplete: nat) returns (raised: bool, passed: bool, ghost residual: Plan, ghost remaining: Remaining)
      requires scope.Valid()
      requires Consistent() && receipt == Some(InProgress)
      modifies this`log, this`faulted
      ensures Consistent()
      ensures raised ==> faulted && !passed
      ensures !raised ==> faulted == old(faulted) && log == old(log) + [Verified(passed)]
      ensures !raised ==> IsVerification(render, store, scope, plan, residual, remaining)
      ensures !raised ==> (passed <==> remaining.Clean() && nativeIncomplete == 0)
    {
      raised := *;
      var found := VerifyHardDelete(render, store, scope, plan);
      residual :| IsVerification(render, store, scope, plan, residual, found);
      remaining := found;
      passed := found.Clean() && nativeIncomplete == 0 && !raised;
      if raised {
        faulted := true;
      } else {
        Append(log, Verified(passed));
        log := log + [Verified(passed)];
      }
    }

    /** The deletions of the try block, in source order. */
    method DeletePlanned(plan: Plan) returns (raised: bool)
      requires Consistent() && receipt == Some(InProgress)
      modifies this`store, this`log, this`faulted
      ensures Consistent()
      ensures Spares(render, old(store), store, plan)
      ensures raised ==> faulted
      ensures !raised ==> faulted == old(faulted) && store == Erase(render, old(store), plan)
    {
      ghost var start := store;
      var todo := plan.structured;
      EraseNone(render, start.tables);
      assert plan.structured - todo == {};
      NothingErased(render, start, plan);
      while todo != {}
        invariant todo <= plan.structured
        invariant Consistent() && receipt == Some(InProgress)
        invariant faulted == old(faulted)
        invariant store == start.(tables := EraseRecords(render, start.tables, plan.structured - todo))
        invariant Spares(render, start, store, plan)
        decreases todo
      {
        var key :| key in todo;
        EraseOneMore(render, start.tables, plan.structured - todo, key);
        assert plan.structured - (todo - {key}) == (plan.structured - todo) + {key};
        var next := store.(tables := EraseRecords(render, store.tables, {key}));
        RecordsErased(render, start, plan, plan.structured - (todo - {key}));
        raised := Remove(next);
        if raised {
          return;
        }
        todo := todo - {key};
      }
      assert plan.structured - todo == plan.structured;
      raised := DeleteObservations(plan, start);
      if raised {
        return;
      }
      LedgerErased(render, start, plan);
      raised := DeleteRevisions(plan);
    }

    method DeleteObservations(plan: Plan, ghost start: Store) returns (raised: bool)
      requires Consistent() && receipt == Some(InProgress)
      requires store == start.(tables := EraseRecords(render, start.tables, plan.structured))
      modifies this`store, this`log, this`faulted
      ensures Consistent() && Spares(render, start, store, plan)
      ensures raised ==> faulted
      ensures !raised ==> faulted == old(faulted)
      ensures !raised ==> store == old(store).(observations := Filter(ObservationOutside(plan.observationIds), start.observations))
    {
      var ids := plan.observationIds;
      var todo := ids;
      FilterAll(ObservationOutside({}), start.observations);
      assert ids - todo == {};
      ObservationsErased(render, start, plan, {});
      while todo != {}
        invariant todo <= ids
        invariant Consistent() && receipt == Some(InProgress)
        invariant faulted == old(faulted)
        invariant store == old(store).(observations := Filter(ObservationOutside(ids - todo), start.observations))
        invariant Spares(render, start, store, plan)
        decreases todo
      {
        var id :| id in todo;
        ghost var done := ids - todo;
        assert ids - (todo - {id}) == done + {id};
        FilterTwice(ObservationOutside(done), ObservationOutside({id}), ObservationOutside(done + {id}), start.observations);
        ObservationsErased(render, start, plan, done + {id});
        var next := store.(observations := Filter(ObservationOutside({id}), store.observations));
        raised := Remove(next);
        if raised {
          return;
        }
        todo := todo - {id};
      }
      assert ids - todo == ids;
      raised := false;
    }

    /** Native sources are erased first; each attempt may raise, delete, or keep its source. */
    method EraseNativeSources(plans: nat) returns (raised: bool, kept: nat)
      requires Consistent() && receipt == Some(InProgress)
      modifies this`store, this`log, this`faulted
      ensures Consistent() && store == old(store) && kept <= plans
      ensures raised ==> faulted
      ensures !raised ==> faulted == old(faulted)
    {
      kept := 0;
      raised := false;
      for i := 0 to plans
        invariant Consistent() && receipt == Some(InProgress) && store == old(store) && kept <= i
        invariant faulted == old(faulted) && !raised
      {
        raised := Remove(store);
        if raised {
          return;
        }
        var deleted: bool := *;
        if !deleted {
          kept := kept + 1;
        }
      }
    }

    /** The try block. It ends early when a call raises; otherwise the receipt is final. */
    method Attempt(scope: Scope, plan: Plan, nativePlans: nat, unselected: nat) returns (raised: bool, passed: bool, kept: nat)
      requires scope.Valid()
      requires Consistent() && receipt == Some(InProgress)
      requires IsPlan(render, store, scope, plan)
      modifies this
      ensures Consistent()
      ensures raised ==> faulted && receipt == Some(InProgress)
      ensures !raised ==> faulted == old(faulted) && receipt == Some(if passed then Succeeded else PartialFailure)
      ensures Spares(render, old(store), store, plan)
      ensures !raised ==> store == Erase(render, old(store), plan)
      ensures !raised && passed ==> FoundClean(render, store, scope, plan)
      ensures !raised && old(store).JobIdsUnique() ==>
                (passed <==> !SurvivorNamesSession(render, old(store), scope, plan) && kept + unselected == 0)
    {
      passed, kept := false, 0;
      NothingErased(render, store, plan);
      raised, kept := EraseNativeSources(nativePlans);
      if raised {
        return;
      }
      raised := DeletePlanned(plan);
      if raised {
        return;
      }
      ghost var residual, remaining;
      raised, passed, residual, remaining := Verify(scope, plan, kept + unselected);
      if raised {
        return;
      }
      if old(store).JobIdsUnique() {
        DeletionAndVerificationAgree(render, old(store), scope, plan, residual, remaining);
      }
      raised := SaveReceipt(if passed then Succeeded else PartialFailure);
    }

    /** The whole saga for one fresh receipt. `unselected` counts the native sources whose current
        revision is outside the scope; they can never be erased.

        Success is returned, and durable, only over a store in which the verification found nothing;
        and without a fault it is returned exactly when no surviving record names the session by its
        id alone and no native source is kept. */
    method Run(scope: Scope, nativePlans: nat, unselected: nat) returns (outcome: Outcome, plan: Plan, ghost kept: nat)
      requires scope.Valid()
      requires receipt == None && log == [] && !faulted
      modifies this
      ensures Consistent()
      ensures IsPlan(render, old(store), scope, plan)
      ensures outcome == ReceiptPersistenceFailed ==> faulted && store == old(store) && log == [] && receipt == None
      ensures outcome.NothingToDelete? ==>
                && store == old(store) && Removed !in log
                && Empty(plan) && nativePlans + unselected == 0
                && outcome.success == !faulted && (outcome.success ==> receipt == Some(Skipped))
      ensures outcome == Applied(true) <==> receipt == Some(Succeeded)
      ensures outcome == Applied(true) ==> FoundClean(render, store, scope, plan)
      ensures outcome == Applied(false) ==> receipt == Some(PartialFailure) || (faulted && receipt == Some(InProgress))
      ensures outcome.Applied? && !faulted ==> store == Erase(render, old(store), plan)
      // Whatever is raised on the way, everything outside the scope stays; without a fault the scope is gone.
      ensures KeysUnique(render, old(store)) ==> OthersStay(render, scope, old(store), store)
      ensures KeysUnique(render, old(store)) && outcome.Applied? && !faulted ==> ScopeIsGone(render, scope, old(store), store)
      ensures outcome.Applied? && !faulted && old(store).JobIdsUnique() ==>
                (outcome.success <==> !SurvivorNamesSession(render, old(store), scope, plan) && kept + unselected == 0)
    {
      kept := 0;
      var planned := PlanHardDelete(render, store, scope);
      plan := planned.value;
      ghost var start := store;
      NothingErased(render, start, plan);
      var raised := SaveReceipt(InProgress);
      if raised {
        PlanIsCarriedOut(render, start, store, scope, plan);
        return ReceiptPersistenceFailed, plan, kept;
      }
      if Empty(plan) && nativePlans + unselected == 0 {
        raised := SaveReceipt(Skipped);
        PlanIsCarriedOut(render, start, store, scope, plan);
        return NothingToDelete(!raised), plan, kept;
      }
      var passed, keptSources;
      raised, passed, keptSources := Attempt(scope, plan, nativePlans, unselected);
      kept := keptSources;
      PlanIsCarriedOut(render, start, store, scope, plan);
      if !raised {
        return Applied(passed), plan, kept;
      }
      var again, ignored;
      ghost var residual, remaining;
      again, ignored, residual, remaining := Verify(scope, plan, keptSources + unselected);
      again := SaveReceipt(PartialFailure);
      return Applied(false), plan, kept;
    }
  }

  predicate Empty(plan: Plan) {
    plan.revisionKeys == {} && plan.jobIds == {} && plan.observationIds == {} && plan.structured == {}
  }

  /** The post-delete verification of the plan, run over this store, finds nothing. */
  ghost predicate FoundClean(render: Renderer, store: Store, scope: Scope, plan: Plan) {
    exists residual, remaining :: IsVerification(render, store, scope, plan, residual, remaining) && remaining.Clean()
  }
}
