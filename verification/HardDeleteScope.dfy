/** What an erasure takes and what it must leave alone, said over the records themselves (plan_hard_delete
    in harness_mem/data_lifecycle.py and harness_mem/storage/transcript_store.py). */
module HardDeleteScope {
  import opened Wrappers
  import opened Payloads
  import opened ReferenceClosure
  import opened HardDelete

  /** Ids are keys: of revisions, of observations, and of the records of one collection. */
  ghost predicate KeysUnique(render: Renderer, store: Store) {
    && (forall r, q :: r in store.revisions && q in store.revisions && r.sourceId == q.sourceId && r.revision == q.revision ==> r == q)
    && (forall o, q :: o in store.observations && q in store.observations && o.id == q.id ==> o == q)
    && (forall c, p, q :: Holds(store.tables, c, p) && Holds(store.tables, c, q) && GetText(render, p, "id") == GetText(render, q, "id") ==> p == q)
  }

  // ---------------------------------------------------------------- what an erasure may touch

  /** Nothing is added, and whatever the plan does not name is still there. */
  ghost predicate Spares(render: Renderer, before: Store, after: Store, plan: Plan) {
    && SparesLedger(before, after, plan)
    && SparesObservations(before, after, plan)
    && SparesRecords(render, before.tables, after.tables, plan.structured)
  }

  ghost predicate SparesLedger(before: Store, after: Store, plan: Plan) {
    && (forall r :: r in after.revisions ==> r in before.revisions)
    && (forall j :: j in after.jobs ==> j in before.jobs)
    && (forall r :: r in before.revisions && (r.sourceId, r.revision) !in plan.revisionKeys ==> r in after.revisions)
    && (forall j :: j in before.jobs && (j.sourceId, j.revision) !in plan.revisionKeys ==> j in after.jobs)
  }

  ghost predicate SparesObservations(before: Store, after: Store, plan: Plan) {
    && (forall o :: o in after.observations ==> o in before.observations)
    && (forall o :: o in before.observations && o.id !in plan.observationIds ==> o in after.observations)
  }

  ghost predicate SparesRecords(render: Renderer, before: seq<Table>, after: seq<Table>, keys: set<Key>) {
    && (forall c, p :: Holds(after, c, p) ==> Holds(before, c, p))
    && (forall c, p :: Holds(before, c, p) && Key(c, GetText(render, p, "id")) !in keys ==> Holds(after, c, p))
  }

  // ---------------------------------------------------------------- isolation

  /** The revision does not meet every restriction of the scope. */
  predicate OutOfScope(scope: Scope, r: Revision) {
    || r.project != scope.project
    || (scope.sessionId.Some? && r.sessionId != scope.sessionId.value)
    || (scope.sourceId.Some? && r.sourceId != scope.sourceId.value)
    || (scope.before.Some? && r.capturedAt >= scope.before.value)
  }

  /** Some revision in scope has this key. */
  ghost predicate KeyInScope(store: Store, scope: Scope, sourceId: string, revision: string) {
    exists r :: r in store.revisions && !OutOfScope(scope, r) && r.sourceId == sourceId && r.revision == revision
  }

  /** The whole session is to be erased, so that its id alone ties evidence without a source to the scope. */
  predicate IsWholeSession(scope: Scope, sessionId: string) {
    scope.sessionId == Some(sessionId) && scope.sourceId.None? && scope.before.None?
  }

  /** What an erasure must leave alone: other projects, revisions that miss a restriction and the jobs over
      them, and observations that neither belong to a revision in scope nor, without a source of their
      own, to a session that is to be erased as a whole. */
  ghost predicate OthersStay(render: Renderer, scope: Scope, before: Store, after: Store) {
    && (forall r :: r in before.revisions && OutOfScope(scope, r) ==> r in after.revisions)
    && (forall j :: j in before.jobs && !KeyInScope(before, scope, j.sourceId, j.revision) ==> j in after.jobs)
    && (forall o :: o in before.observations && o.project != scope.project ==> o in after.observations)
    && (forall o :: o in before.observations ==>
          || KeyInScope(before, scope, o.transcriptSourceId, o.sourceRevision)
          || (o.transcriptSourceId == "" && IsWholeSession(scope, o.sessionId))
          || o in after.observations)
    && (forall c, p :: Holds(before.tables, c, p) ==>
          || (GetText(render, p, "project_name") == scope.project && GetText(render, p, "id") != "")
          || Holds(after.tables, c, p))
  }

  lemma PlannedInScope(store: Store, scope: Scope, sourceId: string, revision: string)
    ensures (sourceId, revision) in PlannedRevisions(store, scope) <==> KeyInScope(store, scope, sourceId, revision)
  {
    assert forall r :: r in store.revisions ==> (scope.Selects(r) <==> !OutOfScope(scope, r));
  }

  lemma PlannedObservationInScope(store: Store, scope: Scope, o: Observation)
    requires o in store.observations && SelectsObservation(scope.project, PlannedRevisions(store, scope),
                                                           SessionFallback(scope, PlannedSessions(store, scope)), o)
    ensures o.project == scope.project
    ensures KeyInScope(store, scope, o.transcriptSourceId, o.sourceRevision) || (o.transcriptSourceId == "" && IsWholeSession(scope, o.sessionId))
  {
    PlannedInScope(store, scope, o.transcriptSourceId, o.sourceRevision);
  }

  /** Whatever spares what the plan does not name leaves everything else alone. */
  lemma SparingIsIsolation(render: Renderer, before: Store, after: Store, scope: Scope, plan: Plan)
    requires KeysUnique(render, before) && IsPlan(render, before, scope, plan) && Spares(render, before, after, plan)
    ensures OthersStay(render, scope, before, after)
  {
    forall r | r in before.revisions && OutOfScope(scope, r) ensures r in after.revisions {
      PlannedInScope(before, scope, r.sourceId, r.revision);
    }
    forall j | j in before.jobs && !KeyInScope(before, scope, j.sourceId, j.revision) ensures j in after.jobs {
      PlannedInScope(before, scope, j.sourceId, j.revision);
    }
    forall o | o in before.observations && o !in after.observations
      ensures o.project == scope.project
      ensures KeyInScope(before, scope, o.transcriptSourceId, o.sourceRevision) || (o.transcriptSourceId == "" && IsWholeSession(scope, o.sessionId))
    {
      PlannedObservationInScope(before, scope, o);
    }
    OtherRecordsStay(render, before, after, scope, plan);
  }

  lemma OtherRecordsStay(render: Renderer, before: Store, after: Store, scope: Scope, plan: Plan)
    requires KeysUnique(render, before) && IsPlan(render, before, scope, plan)
    requires SparesRecords(render, before.tables, after.tables, plan.structured)
    ensures forall c, p :: Holds(before.tables, c, p) && !Holds(after.tables, c, p) ==>
              GetText(render, p, "project_name") == scope.project && GetText(render, p, "id") != ""
  {
    forall c, p | Holds(before.tables, c, p) && !Holds(after.tables, c, p)
      ensures GetText(render, p, "project_name") == scope.project && GetText(render, p, "id") != ""
    {
      PlannedRecordIsPulled(render, before, scope, plan, c, p);
    }
  }

  /** A planned record is of the project, and is linked to the scope directly or through what it refers to. */
  lemma PlannedRecordIsPulled(render: Renderer, store: Store, scope: Scope, plan: Plan, c: string, p: Json)
    requires KeysUnique(render, store) && IsPlan(render, store, scope, plan)
    requires Holds(store.tables, c, p) && Key(c, GetText(render, p, "id")) in plan.structured
    ensures var seeds := PlannedSeeds(store, scope);
            Pulled(RowOf(render, scope.project, seeds, c, p), seeds.All() + {} + Ids(plan.structured))
  {
    var seeds := PlannedSeeds(store, scope);
    var rows := RowsOf(RowsOfTables(render, scope.project, seeds, store.tables));
    var row := RowOf(render, scope.project, seeds, c, p);
    SelectedIsPulled(rows, seeds.All() + {}, plan.structured, row);
    var puller :| puller in rows && puller.key == row.key && Pulled(puller, seeds.All() + {} + Ids(plan.structured));
    RowsAreRecords(render, scope.project, seeds, store.tables);
    var c', p' :| Holds(store.tables, c', p') && puller == RowOf(render, scope.project, seeds, c', p');
    assert p' == p;
  }

  /** The id of a job over a revision in scope, of an observation that goes, or of a session to be erased as
      a whole. */
  ghost predicate IsTie(store: Store, scope: Scope, id: string) {
    || (exists j :: j in store.jobs && j.id == id && KeyInScope(store, scope, j.sourceId, j.revision))
    || (exists o :: o in store.observations && o.id == id && o.project == scope.project
                    && (|| KeyInScope(store, scope, o.transcriptSourceId, o.sourceRevision)
                        || (o.transcriptSourceId == "" && IsWholeSession(scope, o.sessionId))))
    || IsWholeSession(scope, id)
  }

  /** The record has this id in an identifier field at any depth, or in one of the places that tie it to a
      job, a session or an observation directly. */
  ghost predicate Mentions(render: Renderer, p: Json, id: string) {
    || id in References(REFERENCE_SCHEMA, render, p)
    || id == GetText(render, p, "distill_job_id") || id == GetText(render, p, "source")
    || id == GetText(render, p, "session_id") || id == GetText(render, p, "source_session_id")
    || (Get(p, "provenance").Object?
        && (|| id == GetText(render, Get(p, "provenance"), "session_id")
            || (var refs := Get(Get(p, "provenance"), "observation_ids");
                refs.List? && exists item :: item in refs.items && id == Str(render, item))))
  }

  lemma SeedsAreTies(store: Store, scope: Scope, id: string)
    requires id in PlannedSeeds(store, scope).All()
    ensures IsTie(store, scope, id)
  {
    var keys := PlannedRevisions(store, scope);
    if id in PlannedJobs(store, scope) {
      var j :| j in store.jobs && (j.sourceId, j.revision) in keys && j.id == id;
      PlannedInScope(store, scope, j.sourceId, j.revision);
    } else if id in PlannedObservations(store, scope) {
      var o :| o in store.observations && o.id == id
               && SelectsObservation(scope.project, keys, SessionFallback(scope, PlannedSessions(store, scope)), o);
      PlannedObservationInScope(store, scope, o);
    }
  }

  /** A record goes only if it mentions such an id, or the id of another record that goes. */
  lemma ErasedIsTied(render: Renderer, store: Store, scope: Scope, plan: Plan, c: string, p: Json)
    requires KeysUnique(render, store) && IsPlan(render, store, scope, plan)
    requires Holds(store.tables, c, p) && Key(c, GetText(render, p, "id")) in plan.structured
    ensures exists id :: Mentions(render, p, id) && (IsTie(store, scope, id) || id in Ids(plan.structured))
  {
    var seeds := PlannedSeeds(store, scope);
    PlannedRecordIsPulled(render, store, scope, plan, c, p);
    if DirectlyLinked(render, p, seeds) {
      var id := DirectTie(render, p, seeds);
      SeedsAreTies(store, scope, id);
    } else {
      var id :| id in References(REFERENCE_SCHEMA, render, p) * (seeds.All() + {} + Ids(plan.structured));
      assert Mentions(render, p, id);
      if id in seeds.All() {
        SeedsAreTies(store, scope, id);
      }
    }
  }

  lemma DirectTie(render: Renderer, p: Json, seeds: Seeds) returns (id: string)
    requires DirectlyLinked(render, p, seeds)
    ensures Mentions(render, p, id) && id in seeds.All()
  {
    var provenance := Get(p, "provenance");
    if GetText(render, p, "distill_job_id") in seeds.jobs {
      return GetText(render, p, "distill_job_id");
    }
    if GetText(render, p, "session_id") in seeds.sessions {
      return GetText(render, p, "session_id");
    }
    if GetText(render, p, "source_session_id") in seeds.sessions {
      return GetText(render, p, "source_session_id");
    }
    if GetText(render, p, "source") in seeds.observations {
      return GetText(render, p, "source");
    }
    if provenance.Object? && GetText(render, provenance, "session_id") in seeds.sessions {
      return GetText(render, provenance, "session_id");
    }
    var refs := Get(provenance, "observation_ids");
    var item :| item in refs.items && Str(render, item) in seeds.observations;
    return Str(render, item);
  }

  // ---------------------------------------------------------------- completeness

  /** An identifier field somewhere inside the payload names this id. */
  ghost predicate Names(payload: Json, id: string) {
    exists f: Field :: Contains(payload, f) && NamesIn(f, id)
  }

  predicate NamesIn(f: Field, id: string) {
    || (IsIdField(f.name) && f.value == Text(id))
    || (IsIdListField(f.name) && f.value.List? && Text(id) in f.value.items)
  }

  predicate IsIdField(name: string) {
    name in {"distill_job_id", "session_id", "source_session_id", "source_candidate_id", "source", "observation_id", "signal_id",
             "truth_id", "candidate_id", "entry_id", "created_entry_id", "target_id", "replacement_id", "target_a_id", "target_b_id",
             "source_entity", "target_entity", "metabolism_run_id", "dream_run_id", "reflection_job_id"}
  }

  predicate IsIdListField(name: string) {
    name in {"observation_ids", "signal_ids", "evidence_ids", "evidence_signal_ids", "selected_signal_ids", "selected_ids",
             "source_ids", "source_truth_ids", "supersedes", "superseded_by"}
  }

  /** No revision in scope is left, no job over one, no observation of the project that was tied to one or,
      without a source of its own, to a session to be erased as a whole; and no record of the project that
      names a job, an observation or a record that is gone, or such a session. */
  ghost predicate ScopeIsGone(render: Renderer, scope: Scope, before: Store, after: Store) {
    && (forall r :: r in after.revisions ==> OutOfScope(scope, r))
    && (forall j :: j in after.jobs ==> !KeyInScope(before, scope, j.sourceId, j.revision))
    && (forall o :: o in after.observations && o.project == scope.project ==>
          && !KeyInScope(before, scope, o.transcriptSourceId, o.sourceRevision)
          && !(o.transcriptSourceId == "" && o.sessionId != "" && IsWholeSession(scope, o.sessionId)))
    && (forall c, p :: Holds(after.tables, c, p) && GetText(render, p, "project_name") == scope.project && GetText(render, p, "id") != "" ==>
          && (forall j :: j in before.jobs && j !in after.jobs && j.id != "" ==> !Names(p, j.id))
          && (forall o :: o in before.observations && o !in after.observations && o.id != "" ==> !Names(p, o.id))
          && (forall d, q :: Holds(before.tables, d, q) && !Holds(after.tables, d, q) ==> !Names(p, GetText(render, q, "id")))
          && (forall id :: id != "" && IsWholeSession(scope, id) ==> !Names(p, id)))
  }

  lemma IdFields(name: string)
    ensures IsIdField(name) ==> name in REFERENCE_SCHEMA.scalarFields
    ensures IsIdListField(name) ==> name in REFERENCE_SCHEMA.listFields && name !in REFERENCE_SCHEMA.scalarFields
  {
  }

  lemma NamedByField(render: Renderer, f: Field, id: string)
    requires NamesIn(f, id) && id != ""
    ensures id in FieldRefs(REFERENCE_SCHEMA, render, f)
  {
    IdFields(f.name);
    assert Text(id) != Text("") && Str(render, Text(id)) == id;
  }

  lemma NamedIsReference(render: Renderer, payload: Json, id: string)
    requires Names(payload, id) && id != ""
    ensures id in References(REFERENCE_SCHEMA, render, payload)
  {
    var f: Field :| Contains(payload, f) && NamesIn(f, id);
    NamedByField(render, f, id);
    ReferencesAreFields(REFERENCE_SCHEMA, render, payload, id);
  }

  /** A surviving record of the project names nothing that the plan is about. */
  lemma SurvivorNamesNothing(render: Renderer, store: Store, scope: Scope, plan: Plan, c: string, p: Json, id: string)
    requires IsPlan(render, store, scope, plan)
    requires Holds(store.tables, c, p) && Key(c, GetText(render, p, "id")) !in plan.structured
    requires GetText(render, p, "project_name") == scope.project && GetText(render, p, "id") != ""
    requires id != "" && id in PlannedSeeds(store, scope).All() + Ids(plan.structured)
    ensures !Names(p, id)
  {
    var seeds := PlannedSeeds(store, scope);
    RowsAreRecords(render, scope.project, seeds, store.tables);
    var row := RowOf(render, scope.project, seeds, c, p);
    assert !Pulled(row, seeds.All() + {} + Ids(plan.structured));
    assert id in row.refs ==> id in row.refs * (seeds.All() + {} + Ids(plan.structured));
    if Names(p, id) {
      NamedIsReference(render, p, id);
    }
  }

  /** The id of a session that is to be erased as a whole; the empty one counts if the ledger has a revision
      in scope. */
  ghost predicate IsErasedSession(store: Store, scope: Scope, id: string) {
    IsWholeSession(scope, id) && (id != "" || exists r :: r in store.revisions && !OutOfScope(scope, r))
  }

  ghost predicate IsErasedJob(store: Store, scope: Scope, id: string) {
    exists j :: j in store.jobs && j.id == id && KeyInScope(store, scope, j.sourceId, j.revision)
  }

  ghost predicate IsErasedObservation(store: Store, scope: Scope, id: string) {
    exists o :: o in store.observations && o.id == id && o.project == scope.project
                && (|| KeyInScope(store, scope, o.transcriptSourceId, o.sourceRevision)
                    || (o.transcriptSourceId == "" && IsErasedSession(store, scope, o.sessionId)))
  }

  lemma ErasedAreSeeds(store: Store, scope: Scope, id: string)
    ensures IsErasedSession(store, scope, id) ==> id in PlannedSeeds(store, scope).sessions
    ensures IsErasedJob(store, scope, id) ==> id in PlannedSeeds(store, scope).jobs
  {
    if IsErasedSession(store, scope, id) && id == "" {
      var r :| r in store.revisions && !OutOfScope(scope, r);
      assert scope.Selects(r) && r.sessionId == id;
    }
    if IsErasedJob(store, scope, id) {
      var j :| j in store.jobs && j.id == id && KeyInScope(store, scope, j.sourceId, j.revision);
      PlannedInScope(store, scope, j.sourceId, j.revision);
    }
  }

  lemma ErasedObservationIsSeed(store: Store, scope: Scope, id: string)
    requires IsErasedObservation(store, scope, id)
    ensures id in PlannedSeeds(store, scope).observations
  {
    var o :| o in store.observations && o.id == id && o.project == scope.project
             && (|| KeyInScope(store, scope, o.transcriptSourceId, o.sourceRevision)
                 || (o.transcriptSourceId == "" && IsErasedSession(store, scope, o.sessionId)));
    PlannedInScope(store, scope, o.transcriptSourceId, o.sourceRevision);
    ErasedAreSeeds(store, scope, o.sessionId);
  }

  /** A record of the project that is tied to the scope directly goes: by its job, by the observation it
      comes from, or by its session, in any of the places for one; also where that is the empty text. */
  lemma DirectlyTiedGoes(render: Renderer, store: Store, scope: Scope, plan: Plan, c: string, p: Json)
    requires IsPlan(render, store, scope, plan) && Holds(store.tables, c, p)
    requires GetText(render, p, "project_name") == scope.project && GetText(render, p, "id") != ""
    requires || IsErasedJob(store, scope, GetText(render, p, "distill_job_id"))
             || IsErasedObservation(store, scope, GetText(render, p, "source"))
             || IsErasedSession(store, scope, GetText(render, p, "session_id"))
             || IsErasedSession(store, scope, GetText(render, p, "source_session_id"))
             || (Get(p, "provenance").Object? && IsErasedSession(store, scope, GetText(render, Get(p, "provenance"), "session_id")))
    ensures Key(c, GetText(render, p, "id")) in plan.structured
  {
    var seeds := PlannedSeeds(store, scope);
    ErasedAreSeeds(store, scope, GetText(render, p, "distill_job_id"));
    ErasedAreSeeds(store, scope, GetText(render, p, "session_id"));
    ErasedAreSeeds(store, scope, GetText(render, p, "source_session_id"));
    ErasedAreSeeds(store, scope, GetText(render, Get(p, "provenance"), "session_id"));
    if IsErasedObservation(store, scope, GetText(render, p, "source")) {
      ErasedObservationIsSeed(store, scope, GetText(render, p, "source"));
    }
    assert DirectlyLinked(render, p, seeds);
    RowsAreRecords(render, scope.project, seeds, store.tables);
    var row := RowOf(render, scope.project, seeds, c, p);
    assert Pulled(row, seeds.All() + {} + Ids(plan.structured));
  }

  lemma LedgerIsGone(store: Store, scope: Scope, keys: set<(string, string)>)
    requires keys == PlannedRevisions(store, scope)
    ensures forall r :: r in EraseRevisions(store, keys).revisions ==> OutOfScope(scope, r)
    ensures forall j :: j in EraseRevisions(store, keys).jobs ==> !KeyInScope(store, scope, j.sourceId, j.revision)
  {
    forall r | r in store.revisions && !OutOfScope(scope, r) ensures (r.sourceId, r.revision) in keys {
      PlannedInScope(store, scope, r.sourceId, r.revision);
    }
    forall j | j in EraseRevisions(store, keys).jobs ensures !KeyInScope(store, scope, j.sourceId, j.revision) {
      PlannedInScope(store, scope, j.sourceId, j.revision);
    }
  }

  lemma ObservationsAreGone(store: Store, scope: Scope, o: Observation)
    requires o in store.observations && o.project == scope.project && o.id !in PlannedObservations(store, scope)
    ensures !KeyInScope(store, scope, o.transcriptSourceId, o.sourceRevision)
    ensures !(o.transcriptSourceId == "" && o.sessionId != "" && IsWholeSession(scope, o.sessionId))
  {
    PlannedInScope(store, scope, o.transcriptSourceId, o.sourceRevision);
    assert !SelectsObservation(scope.project, PlannedRevisions(store, scope), SessionFallback(scope, PlannedSessions(store, scope)), o);
  }

  lemma RecordsNameNothingGone(render: Renderer, store: Store, scope: Scope, plan: Plan, c: string, p: Json)
    requires IsPlan(render, store, scope, plan)
    requires Holds(Erase(render, store, plan).tables, c, p)
    requires GetText(render, p, "project_name") == scope.project && GetText(render, p, "id") != ""
    ensures var after := Erase(render, store, plan);
            && (forall j :: j in store.jobs && j !in after.jobs && j.id != "" ==> !Names(p, j.id))
            && (forall o :: o in store.observations && o !in after.observations && o.id != "" ==> !Names(p, o.id))
            && (forall id :: id != "" && IsWholeSession(scope, id) ==> !Names(p, id))
  {
    var after := Erase(render, store, plan);
    EraseKeepsTheRest(render, store.tables, plan.structured);
    forall j | j in store.jobs && j !in after.jobs && j.id != "" ensures !Names(p, j.id) {
      SurvivorNamesNothing(render, store, scope, plan, c, p, j.id);
    }
    forall o | o in store.observations && o !in after.observations && o.id != "" ensures !Names(p, o.id) {
      SurvivorNamesNothing(render, store, scope, plan, c, p, o.id);
    }
    forall id | id != "" && IsWholeSession(scope, id) ensures !Names(p, id) {
      SurvivorNamesNothing(render, store, scope, plan, c, p, id);
    }
  }

  /** Carrying out the plan leaves nothing of the scope. */
  lemma PlanIsComplete(render: Renderer, store: Store, scope: Scope, plan: Plan)
    requires KeysUnique(render, store) && IsPlan(render, store, scope, plan)
    ensures ScopeIsGone(render, scope, store, Erase(render, store, plan))
  {
    var after := Erase(render, store, plan);
    LedgerIsGone(store, scope, plan.revisionKeys);
    forall o | o in after.observations && o.project == scope.project
      ensures !KeyInScope(store, scope, o.transcriptSourceId, o.sourceRevision)
      ensures !(o.transcriptSourceId == "" && o.sessionId != "" && IsWholeSession(scope, o.sessionId))
    {
      ObservationsAreGone(store, scope, o);
    }
    EraseKeepsTheRest(render, store.tables, plan.structured);
    forall c, p | Holds(after.tables, c, p) && GetText(render, p, "project_name") == scope.project && GetText(render, p, "id") != ""
      ensures forall j :: j in store.jobs && j !in after.jobs && j.id != "" ==> !Names(p, j.id)
      ensures forall o :: o in store.observations && o !in after.observations && o.id != "" ==> !Names(p, o.id)
      ensures forall d, q :: Holds(store.tables, d, q) && !Holds(after.tables, d, q) ==> !Names(p, GetText(render, q, "id"))
      ensures forall id :: id != "" && IsWholeSession(scope, id) ==> !Names(p, id)
    {
      RecordsNameNothingGone(render, store, scope, plan, c, p);
      forall d, q | Holds(store.tables, d, q) && !Holds(after.tables, d, q) ensures !Names(p, GetText(render, q, "id")) {
        PlannedRecordIsPulled(render, store, scope, plan, d, q);
        assert Key(d, GetText(render, q, "id")).id in Ids(plan.structured);
        SurvivorNamesNothing(render, store, scope, plan, c, p, GetText(render, q, "id"));
      }
    }
  }

  // ---------------------------------------------------------------- what a clean verification means

  predicate OfProject(render: Renderer, scope: Scope, p: Json) {
    GetText(render, p, "project_name") == scope.project && GetText(render, p, "id") != ""
  }

  /** The ids of everything planned, and of the session that the scope names. */
  function LookedFor(scope: Scope, plan: Plan): set<string> {
    plan.jobIds + plan.observationIds + Ids(plan.structured) + (if scope.sessionId.Some? then {scope.sessionId.value} else {}) - {""}
  }

  /** Over whatever store it is run, a verification that finds nothing means that nothing planned is left and
      nothing in scope. */
  lemma CleanMeansGone(render: Renderer, store: Store, scope: Scope, plan: Plan, residual: Plan, remaining: Remaining)
    requires IsVerification(render, store, scope, plan, residual, remaining) && remaining.Clean()
    ensures forall r :: r in store.revisions ==> OutOfScope(scope, r) && (r.sourceId, r.revision) !in plan.revisionKeys
    ensures forall j :: j in store.jobs ==> j.id !in plan.jobIds
    ensures forall o :: o in store.observations ==> o.id !in plan.observationIds
    ensures forall o :: o in store.observations && o.project == scope.project && o.transcriptSourceId == "" && o.sessionId != "" ==>
              !IsWholeSession(scope, o.sessionId)
    ensures forall c, p :: Holds(store.tables, c, p) ==> Key(c, GetText(render, p, "id")) !in plan.structured
    ensures forall c, p, id :: Holds(store.tables, c, p) && OfProject(render, scope, p) && id in LookedFor(scope, plan) ==> !Names(p, id)
  {
    forall r | r in store.revisions ensures OutOfScope(scope, r) && (r.sourceId, r.revision) !in plan.revisionKeys {
      PlannedInScope(store, scope, r.sourceId, r.revision);
      assert (r.sourceId, r.revision) !in remaining.revisions;
    }
    assert forall j :: j in store.jobs ==> j.id !in remaining.jobs;
    forall o | o in store.observations
      ensures o.id !in plan.observationIds
      ensures o.project == scope.project && o.transcriptSourceId == "" && o.sessionId != "" ==> !IsWholeSession(scope, o.sessionId)
    {
      assert o.id !in remaining.observations;
      if o.project == scope.project {
        ObservationsAreGone(store, scope, o);
      }
    }
    forall c, p | Holds(store.tables, c, p) ensures Key(c, GetText(render, p, "id")) !in plan.structured {
      var t :| t in store.tables && t.collection == c && p in t.payloads;
      assert Key(c, GetText(render, p, "id")) !in Existing(render, store.tables, plan.structured + residual.structured);
    }
    CleanRecordsNameNothing(render, store, scope, plan, residual, remaining);
  }

  lemma CleanRecordsNameNothing(render: Renderer, store: Store, scope: Scope, plan: Plan, residual: Plan, remaining: Remaining)
    requires IsVerification(render, store, scope, plan, residual, remaining) && remaining.Clean()
    ensures forall c, p, id :: Holds(store.tables, c, p) && OfProject(render, scope, p) && id in LookedFor(scope, plan) ==> !Names(p, id)
  {
    var seeds := VerificationSeeds(scope, plan, residual);
    var preselected := plan.structured + residual.structured;
    var linked := seeds.All() + Ids(preselected) + Ids({});
    RowsAreRecords(render, scope.project, seeds, store.tables);
    forall c, p, id | Holds(store.tables, c, p) && OfProject(render, scope, p) && id in LookedFor(scope, plan)
      ensures !Names(p, id)
    {
      var row := RowOf(render, scope.project, seeds, c, p);
      assert !Pulled(row, linked);
      assert id in linked && (id in row.refs ==> id in row.refs * linked);
      if Names(p, id) {
        NamedIsReference(render, p, id);
      }
    }
  }
}
