/** Privacy erasure: planning, deletion and the re-seeded verification (harness_mem/data_lifecycle.py). */
module HardDelete {
  import opened Wrappers
  import opened Payloads
  import opened ReferenceClosure

  datatype Revision = Revision(sourceId: string, revision: string, project: string, sessionId: string, capturedAt: int)

  datatype DistillJob = DistillJob(id: string, sourceId: string, revision: string)

  datatype Observation = Observation(id: string, sessionId: string, project: string, transcriptSourceId: string, sourceRevision: string)

  datatype Table = Table(collection: string, payloads: seq<Json>)

  datatype Store = Store(revisions: seq<Revision>, jobs: seq<DistillJob>, observations: seq<Observation>, tables: seq<Table>) {
    /** The id column is the primary key of the job table. */
    ghost predicate JobIdsUnique() {
      forall a, b :: a in jobs && b in jobs && a.id == b.id ==> a == b
    }
  }

  datatype Scope = Scope(project: string, sessionId: Option<string>, sourceId: Option<string>, before: Option<int>) {
    predicate Valid() {
      sessionId.Some? || sourceId.Some? || before.Some?
    }

    predicate Selects(r: Revision) {
      && r.project == project
      && (sessionId.Some? ==> r.sessionId == sessionId.value)
      && (sourceId.Some? ==> r.sourceId == sourceId.value)
      && (before.Some? ==> r.capturedAt < before.value)
    }
  }

  const REFERENCE_SCHEMA := Schema(
    {"distill_job_id", "session_id", "source_session_id", "source_candidate_id", "source", "observation_id", "signal_id",
     "truth_id", "candidate_id", "entry_id", "created_entry_id", "target_id", "replacement_id", "target_a_id", "target_b_id",
     "source_entity", "target_entity", "metabolism_run_id", "dream_run_id", "reflection_job_id"},
    {"observation_ids", "signal_ids", "evidence_ids", "evidence_signal_ids", "selected_signal_ids", "selected_ids",
     "source_ids", "source_truth_ids", "supersedes", "superseded_by"})

  // ---------------------------------------------------------------- linkage

  /** The identifiers that tie a record to the scope directly. */
  datatype Seeds = Seeds(jobs: set<string>, sessions: set<string>, observations: set<string>) {
    function All(): set<string> {
      jobs + sessions + observations
    }
  }

  predicate DirectlyLinked(render: Renderer, payload: Json, seeds: Seeds) {
    || GetText(render, payload, "distill_job_id") in seeds.jobs
    || GetText(render, payload, "session_id") in seeds.sessions
    || GetText(render, payload, "source_session_id") in seeds.sessions
    || GetText(render, payload, "source") in seeds.observations
    || (var provenance := Get(payload, "provenance");
        && provenance.Object?
        && (|| GetText(render, provenance, "session_id") in seeds.sessions
            || (var refs := Get(provenance, "observation_ids");
                refs.List? && exists item :: item in refs.items && Str(render, item) in seeds.observations)))
  }

  function RowOf(render: Renderer, project: string, seeds: Seeds, collection: string, payload: Json): Row {
    var id := GetText(render, payload, "id");
    Row(Key(collection, id), id != "" && GetText(render, payload, "project_name") == project,
        DirectlyLinked(render, payload, seeds), References(REFERENCE_SCHEMA, render, payload))
  }

  function RowsOfTables(render: Renderer, project: string, seeds: Seeds, tables: seq<Table>): seq<seq<Row>> {
    seq(|tables|, i requires 0 <= i < |tables| =>
      seq(|tables[i].payloads|, j requires 0 <= j < |tables[i].payloads| =>
        RowOf(render, project, seeds, tables[i].collection, tables[i].payloads[j])))
  }

  ghost predicate Holds(tables: seq<Table>, collection: string, payload: Json) {
    exists t :: t in tables && t.collection == collection && payload in t.payloads
  }

  lemma RowsAreRecords(render: Renderer, project: string, seeds: Seeds, tables: seq<Table>)
    ensures forall row :: row in RowsOf(RowsOfTables(render, project, seeds, tables)) <==>
              exists collection, payload :: Holds(tables, collection, payload) && row == RowOf(render, project, seeds, collection, payload)
  {
    forall row | row in RowsOf(RowsOfTables(render, project, seeds, tables))
      ensures exists collection, payload :: Holds(tables, collection, payload) && row == RowOf(render, project, seeds, collection, payload)
    {
      var collection, payload := RowHasRecord(render, project, seeds, tables, row);
    }
    forall collection, payload | Holds(tables, collection, payload)
      ensures RowOf(render, project, seeds, collection, payload) in RowsOf(RowsOfTables(render, project, seeds, tables))
    {
      RecordHasRow(render, project, seeds, tables, collection, payload);
    }
  }

  lemma RowHasRecord(render: Renderer, project: string, seeds: Seeds, tables: seq<Table>, row: Row) returns (collection: string, payload: Json)
    requires row in RowsOf(RowsOfTables(render, project, seeds, tables))
    ensures Holds(tables, collection, payload) && row == RowOf(render, project, seeds, collection, payload)
  {
    var rows := RowsOfTables(render, project, seeds, tables);
    var t :| t in rows && row in t;
    var i :| 0 <= i < |rows| && rows[i] == t;
    var j :| 0 <= j < |t| && t[j] == row;
    collection, payload := tables[i].collection, tables[i].payloads[j];
    assert tables[i] in tables && payload in tables[i].payloads;
  }

  lemma RecordHasRow(render: Renderer, project: string, seeds: Seeds, tables: seq<Table>, collection: string, payload: Json)
    requires Holds(tables, collection, payload)
    ensures RowOf(render, project, seeds, collection, payload) in RowsOf(RowsOfTables(render, project, seeds, tables))
  {
    var rows := RowsOfTables(render, project, seeds, tables);
    var t :| t in tables && t.collection == collection && payload in t.payloads;
    var i :| 0 <= i < |tables| && tables[i] == t;
    var j :| 0 <= j < |t.payloads| && t.payloads[j] == payload;
    assert rows[i] in rows && rows[i][j] in rows[i];
  }

  ghost predicate LinkedRecords(render: Renderer, project: string, seeds: Seeds, extra: set<string>, pre: set<Key>, tables: seq<Table>, keys: set<Key>) {
    Least(RowsOf(RowsOfTables(render, project, seeds, tables)), seeds.All() + extra, pre, keys)
  }

  method LinkedStructuredRecords(render: Renderer, tables: seq<Table>, project: string, seeds: Seeds, preselected: set<Key>, seedIds: set<string>)
    returns (selected: set<Key>)
    ensures LinkedRecords(render, project, seeds, seedIds, preselected, tables, selected)
  {
    selected := Saturate(RowsOfTables(render, project, seeds, tables), seeds.All() + seedIds, preselected);
  }

  // ---------------------------------------------------------------- the plan

  datatype Plan = Plan(
    revisionKeys: set<(string, string)>,
    jobIds: set<string>,
    sessionIds: set<string>,
    observationIds: set<string>,
    structured: set<Key>)

  /** A session is followed by its id alone only when the whole session is to be erased. */
  function SessionFallback(scope: Scope, ledgerSessions: set<string>): set<string> {
    if scope.sessionId.Some? && scope.sourceId.None? && scope.before.None? then
      ledgerSessions + (if scope.sessionId.value != "" then {scope.sessionId.value} else {})
    else {}
  }

  predicate SelectsObservation(project: string, keys: set<(string, string)>, fallback: set<string>, o: Observation) {
    && o.project == project
    && (|| (o.transcriptSourceId, o.sourceRevision) in keys
        || (o.sessionId in fallback && o.transcriptSourceId == ""))
  }

  function PlannedRevisions(store: Store, scope: Scope): set<(string, string)> {
    set r | r in store.revisions && scope.Selects(r) :: (r.sourceId, r.revision)
  }

  function PlannedSessions(store: Store, scope: Scope): set<string> {
    set r | r in store.revisions && scope.Selects(r) :: r.sessionId
  }

  function PlannedJobs(store: Store, scope: Scope): set<string> {
    set j | j in store.jobs && (j.sourceId, j.revision) in PlannedRevisions(store, scope) :: j.id
  }

  function PlannedObservations(store: Store, scope: Scope): set<string> {
    var fallback := SessionFallback(scope, PlannedSessions(store, scope));
    set o | o in store.observations && SelectsObservation(scope.project, PlannedRevisions(store, scope), fallback, o) :: o.id
  }

  function PlannedSeeds(store: Store, scope: Scope): Seeds {
    Seeds(PlannedJobs(store, scope), SessionFallback(scope, PlannedSessions(store, scope)), PlannedObservations(store, scope))
  }

  ghost predicate IsPlan(render: Renderer, store: Store, scope: Scope, plan: Plan) {
    && plan.revisionKeys == PlannedRevisions(store, scope)
    && plan.jobIds == PlannedJobs(store, scope)
    && plan.sessionIds == PlannedSessions(store, scope)
    && plan.observationIds == PlannedObservations(store, scope)
    && LinkedRecords(render, scope.project, PlannedSeeds(store, scope), {}, {}, store.tables, plan.structured)
  }

  method PlanHardDelete(render: Renderer, store: Store, scope: Scope) returns (plan: Option<Plan>)
    ensures plan.Some? <==> scope.Valid()
    ensures plan.Some? ==> IsPlan(render, store, scope, plan.value)
  {
    if !scope.Valid() {
      return None;
    }
    var seeds := PlannedSeeds(store, scope);
    var structured := LinkedStructuredRecords(render, store.tables, scope.project, seeds, {}, {});
    return Some(Plan(PlannedRevisions(store, scope), seeds.jobs, PlannedSessions(store, scope), seeds.observations, structured));
  }

  // ---------------------------------------------------------------- deletion

  function Filter<T(!new)>(keep: T -> bool, s: seq<T>): (r: seq<T>)
    ensures forall x :: x in r <==> x in s && keep(x)
  {
    if s == [] then []
    else
      assert s == [s[0]] + s[1..];
      if keep(s[0]) then [s[0]] + Filter(keep, s[1..]) else Filter(keep, s[1..])
  }

  function EraseRecords(render: Renderer, tables: seq<Table>, keys: set<Key>): seq<Table> {
    seq(|tables|, i requires 0 <= i < |tables| =>
      Table(tables[i].collection,
            Filter(RecordOutside(render, tables[i].collection, keys), tables[i].payloads)))
  }

  function RecordOutside(render: Renderer, collection: string, keys: set<Key>): Json -> bool {
    (p: Json) => Key(collection, GetText(render, p, "id")) !in keys
  }

  function ObservationOutside(ids: set<string>): Observation -> bool {
    (o: Observation) => o.id !in ids
  }

  /** The ledger without the given revisions and the jobs over them. */
  function EraseRevisions(store: Store, keys: set<(string, string)>): Store {
    store.(revisions := Filter((r: Revision) => (r.sourceId, r.revision) !in keys, store.revisions),
           jobs := Filter((j: DistillJob) => (j.sourceId, j.revision) !in keys, store.jobs))
  }

  /** The store after every planned record has been deleted. */
  function Erase(render: Renderer, store: Store, plan: Plan): Store {
    EraseRevisions(store.(observations := Filter(ObservationOutside(plan.observationIds), store.observations),
                          tables := EraseRecords(render, store.tables, plan.structured)),
                   plan.revisionKeys)
  }

  lemma EraseKeepsTheRest(render: Renderer, tables: seq<Table>, keys: set<Key>)
    ensures forall collection, payload :: Holds(EraseRecords(render, tables, keys), collection, payload) <==>
              Holds(tables, collection, payload) && Key(collection, GetText(render, payload, "id")) !in keys
  {
    var erased := EraseRecords(render, tables, keys);
    forall collection, payload
      ensures Holds(erased, collection, payload) <==>
                Holds(tables, collection, payload) && Key(collection, GetText(render, payload, "id")) !in keys
    {
      if Holds(erased, collection, payload) {
        var t :| t in erased && t.collection == collection && payload in t.payloads;
        var i :| 0 <= i < |erased| && erased[i] == t;
        assert tables[i] in tables;
      }
      if Holds(tables, collection, payload) && Key(collection, GetText(render, payload, "id")) !in keys {
        var t :| t in tables && t.collection == collection && payload in t.payloads;
        var i :| 0 <= i < |tables| && tables[i] == t;
        assert erased[i] in erased;
      }
    }
  }

  // ---------------------------------------------------------------- verification

  datatype Remaining = Remaining(revisions: set<(string, string)>, jobs: set<string>, observations: set<string>, structured: set<Key>) {
    predicate Clean() {
      revisions == {} && jobs == {} && observations == {} && structured == {}
    }
  }

  function VerificationSessions(scope: Scope): set<string> {
    if scope.sessionId.Some? then {scope.sessionId.value} else {}
  }

  function Existing(render: Renderer, tables: seq<Table>, keys: set<Key>): set<Key> {
    set t, p | t in tables && p in t.payloads && Key(t.collection, GetText(render, p, "id")) in keys
      :: Key(t.collection, GetText(render, p, "id"))
  }

  /** The seeds of the second closure: what was planned, and what a fresh plan still finds. */
  function VerificationSeeds(scope: Scope, plan: Plan, residual: Plan): Seeds {
    Seeds(plan.jobIds + residual.jobIds, VerificationSessions(scope), plan.observationIds + residual.observationIds)
  }

  ghost predicate IsVerification(render: Renderer, store: Store, scope: Scope, plan: Plan, residual: Plan, remaining: Remaining) {
    var seeds := VerificationSeeds(scope, plan, residual);
    var preselected := plan.structured + residual.structured;
    && IsPlan(render, store, scope, residual)
    && remaining.revisions == (set r | r in store.revisions && (r.sourceId, r.revision) in plan.revisionKeys + residual.revisionKeys :: (r.sourceId, r.revision))
    && remaining.jobs == (set j | j in store.jobs && j.id in seeds.jobs :: j.id)
    && remaining.observations == (set o | o in store.observations && o.id in seeds.observations :: o.id)
    && LinkedRecords(render, scope.project, seeds, Ids(preselected), Existing(render, store.tables, preselected), store.tables, remaining.structured)
  }

  method VerifyHardDelete(render: Renderer, store: Store, scope: Scope, plan: Plan) returns (remaining: Remaining)
    requires scope.Valid()
    ensures exists residual :: IsVerification(render, store, scope, plan, residual, remaining)
  {
    var again := PlanHardDelete(render, store, scope);
    var found := again.value;
    var revisionKeys := plan.revisionKeys + found.revisionKeys;
    var seeds := VerificationSeeds(scope, plan, found);
    var preselected := plan.structured + found.structured;
    var structured := LinkedStructuredRecords(render, store.tables, scope.project, seeds,
                                              Existing(render, store.tables, preselected), Ids(preselected));
    remaining := Remaining(
      set r | r in store.revisions && (r.sourceId, r.revision) in revisionKeys :: (r.sourceId, r.revision),
      set j | j in store.jobs && j.id in seeds.jobs :: j.id,
      set o | o in store.observations && o.id in seeds.observations :: o.id,
      structured);
    assert IsVerification(render, store, scope, plan, found, remaining);
  }

  // ---------------------------------------------------------------- the two agree

  /** A record tied to a session by nothing but its id: directly, or by a reference. */
  ghost predicate NamesSession(render: Renderer, sessions: set<string>, payload: Json) {
    || DirectlyLinked(render, payload, Seeds({}, sessions, {}))
    || References(REFERENCE_SCHEMA, render, payload) * sessions != {}
  }

  ghost predicate NamesSessionUnplanned(render: Renderer, store: Store, scope: Scope, plan: Plan, collection: string, payload: Json) {
    && Holds(store.tables, collection, payload)
    && Key(collection, GetText(render, payload, "id")) !in plan.structured
    && GetText(render, payload, "id") != "" && GetText(render, payload, "project_name") == scope.project
    && NamesSession(render, VerificationSessions(scope), payload)
  }

  /** Some surviving record of the project still names a session that verification looks for. */
  ghost predicate SurvivorNamesSession(render: Renderer, store: Store, scope: Scope, plan: Plan) {
    exists collection, payload :: NamesSessionUnplanned(render, store, scope, plan, collection, payload)
  }

  /** Apart from the structured closure, a fresh plan after the deletion finds nothing. */
  lemma NothingLeftToPlan(render: Renderer, store: Store, scope: Scope, plan: Plan)
    requires IsPlan(render, store, scope, plan)
    ensures var after := Erase(render, store, plan);
            && PlannedRevisions(after, scope) == {} && PlannedSessions(after, scope) == {}
            && PlannedJobs(after, scope) == {} && PlannedObservations(after, scope) == {}
            && SessionFallback(scope, {}) <= PlannedSeeds(store, scope).sessions
  {
    var after := Erase(render, store, plan);
    assert forall r :: r in store.revisions && scope.Selects(r) ==> (r.sourceId, r.revision) in PlannedRevisions(store, scope);
    assert forall o :: o in store.observations && SelectsObservation(scope.project, {}, SessionFallback(scope, {}), o) ==>
        o.id in PlannedObservations(store, scope);
  }

  /** Every row of the erased tables is an unselected row of the first closure, seen with other seeds. */
  lemma SurvivorsAreOldRows(render: Renderer, store: Store, scope: Scope, plan: Plan, seeds: Seeds, row': Row) returns (row: Row, payload: Json)
    requires IsPlan(render, store, scope, plan)
    requires row' in RowsOf(RowsOfTables(render, scope.project, seeds, EraseRecords(render, store.tables, plan.structured)))
    ensures row in RowsOf(RowsOfTables(render, scope.project, PlannedSeeds(store, scope), store.tables))
    ensures Holds(store.tables, row.key.collection, payload)
    ensures row == RowOf(render, scope.project, PlannedSeeds(store, scope), row.key.collection, payload)
    ensures row' == RowOf(render, scope.project, seeds, row.key.collection, payload)
    ensures row.key !in plan.structured
  {
    var erased := EraseRecords(render, store.tables, plan.structured);
    RowsAreRecords(render, scope.project, seeds, erased);
    RowsAreRecords(render, scope.project, PlannedSeeds(store, scope), store.tables);
    EraseKeepsTheRest(render, store.tables, plan.structured);
    var collection;
    collection, payload :| Holds(erased, collection, payload) && row' == RowOf(render, scope.project, seeds, collection, payload);
    row := RowOf(render, scope.project, PlannedSeeds(store, scope), collection, payload);
  }

  /** A closure over the survivors that is seeded with nothing new selects nothing. */
  lemma SurvivorsStayUnlinked(render: Renderer, store: Store, scope: Scope, plan: Plan, seeds: Seeds, extra: set<string>, keys: set<Key>)
    requires IsPlan(render, store, scope, plan)
    requires var first := PlannedSeeds(store, scope);
             seeds.jobs <= first.jobs && seeds.sessions <= first.sessions && seeds.observations <= first.observations
    requires extra <= PlannedSeeds(store, scope).All() + Ids(plan.structured)
    requires LinkedRecords(render, scope.project, seeds, extra, {}, EraseRecords(render, store.tables, plan.structured), keys)
    ensures keys == {}
  {
    var first := PlannedSeeds(store, scope);
    var rows := RowsOf(RowsOfTables(render, scope.project, first, store.tables));
    var survivors := RowsOf(RowsOfTables(render, scope.project, seeds, EraseRecords(render, store.tables, plan.structured)));
    forall row' | row' in survivors
      ensures exists row :: row in rows && row.key == row'.key && row.key !in plan.structured
                            && row.eligible == row'.eligible && row.refs == row'.refs && (row'.direct ==> row.direct)
    {
      var row, payload := SurvivorsAreOldRows(render, store, scope, plan, seeds, row');
    }
    NothingLeftToSelect(rows, first.All(), {}, plan.structured, survivors, seeds.All() + extra);
    LeastIsUnique(survivors, seeds.All() + extra, {}, keys, {});
  }

  /** Deleting exactly the planned records satisfies the verification, if and only if no surviving
      record of the project names the verified session by its id alone. */
  lemma DeletionAndVerificationAgree(render: Renderer, store: Store, scope: Scope, plan: Plan, residual: Plan, remaining: Remaining)
    requires store.JobIdsUnique()
    requires IsPlan(render, store, scope, plan)
    requires IsVerification(render, Erase(render, store, plan), scope, plan, residual, remaining)
    ensures remaining.revisions == {} && remaining.jobs == {} && remaining.observations == {}
    ensures remaining.Clean() <==> !SurvivorNamesSession(render, store, scope, plan)
  {
    var after := Erase(render, store, plan);
    var first := PlannedSeeds(store, scope);
    NothingLeftToPlan(render, store, scope, plan);
    SurvivorsStayUnlinked(render, store, scope, plan, PlannedSeeds(after, scope), {}, residual.structured);
    assert forall j :: j in store.jobs && j.id in plan.jobIds ==> (j.sourceId, j.revision) in plan.revisionKeys;
    NoneExists(render, store.tables, plan.structured);
    assert plan.structured + residual.structured == plan.structured;
    AgreeOnRecords(render, store, scope, plan, residual, remaining.structured);
  }

  lemma NoneExists(render: Renderer, tables: seq<Table>, keys: set<Key>)
    ensures Existing(render, EraseRecords(render, tables, keys), keys) == {}
  {
    EraseKeepsTheRest(render, tables, keys);
    forall t, p | t in EraseRecords(render, tables, keys) && p in t.payloads ensures Key(t.collection, GetText(render, p, "id")) !in keys {
      assert Holds(EraseRecords(render, tables, keys), t.collection, p);
    }
  }

  lemma AgreeOnRecords(render: Renderer, store: Store, scope: Scope, plan: Plan, residual: Plan, keys: set<Key>)
    requires IsPlan(render, store, scope, plan)
    requires residual.jobIds == {} && residual.observationIds == {} && residual.structured == {}
    requires LinkedRecords(render, scope.project, VerificationSeeds(scope, plan, residual), Ids(plan.structured), {},
                           EraseRecords(render, store.tables, plan.structured), keys)
    ensures keys == {} <==> !SurvivorNamesSession(render, store, scope, plan)
  {
    var seeds := VerificationSeeds(scope, plan, residual);
    var survivors := RowsOf(RowsOfTables(render, scope.project, seeds, EraseRecords(render, store.tables, plan.structured)));
    var base := seeds.All() + Ids(plan.structured);
    if collection, payload :| NamesSessionUnplanned(render, store, scope, plan, collection, payload) {
      RowsAreRecords(render, scope.project, seeds, EraseRecords(render, store.tables, plan.structured));
      EraseKeepsTheRest(render, store.tables, plan.structured);
      var row := RowOf(render, scope.project, seeds, collection, payload);
      assert row in survivors;
      assert row.refs * VerificationSessions(scope) <= row.refs * (base + Ids(keys));
      assert row.key in keys;
    } else {
      forall row' | row' in survivors ensures !Pulled(row', base + Ids({})) {
        UnnamedIsUnlinked(render, store, scope, plan, residual, row');
      }
      assert Closed(survivors, base, {});
    }
  }

  lemma UnnamedIsUnlinked(render: Renderer, store: Store, scope: Scope, plan: Plan, residual: Plan, row': Row)
    requires IsPlan(render, store, scope, plan)
    requires residual.jobIds == {} && residual.observationIds == {}
    requires !SurvivorNamesSession(render, store, scope, plan)
    requires row' in RowsOf(RowsOfTables(render, scope.project, VerificationSeeds(scope, plan, residual),
                                         EraseRecords(render, store.tables, plan.structured)))
    ensures !Pulled(row', VerificationSeeds(scope, plan, residual).All() + Ids(plan.structured) + Ids({}))
  {
    var first, seeds, sessions := PlannedSeeds(store, scope), VerificationSeeds(scope, plan, residual), VerificationSessions(scope);
    var row, payload := SurvivorsAreOldRows(render, store, scope, plan, seeds, row');
    if row'.eligible {
      assert !NamesSessionUnplanned(render, store, scope, plan, row.key.collection, payload);
      assert !NamesSession(render, sessions, payload);
      assert !Pulled(row, first.All() + {} + Ids(plan.structured));
      var linked := seeds.All() + Ids(plan.structured) + Ids({});
      assert row'.refs * linked <= row.refs * (first.All() + {} + Ids(plan.structured)) + row.refs * sessions;
    }
  }

  /** The plan follows every session id that the verification looks for. An empty session id is
      followed only if the ledger has a revision with it. */
  predicate FollowsSession(store: Store, scope: Scope) {
    || scope.sessionId.None?
    || (scope.sourceId.None? && scope.before.None? && (scope.sessionId.value != "" || PlannedRevisions(store, scope) != {}))
  }

  lemma FollowedSessionIsSeed(store: Store, scope: Scope)
    requires FollowsSession(store, scope)
    ensures VerificationSessions(scope) <= PlannedSeeds(store, scope).sessions
  {
    if scope.sessionId.Some? && PlannedRevisions(store, scope) != {} {
      var key :| key in PlannedRevisions(store, scope);
      var r :| r in store.revisions && scope.Selects(r) && (r.sourceId, r.revision) == key;
      assert r.sessionId in PlannedSessions(store, scope);
    }
  }

  /** For a whole session, or without a session, the verification always passes. */
  lemma WholeSessionAgrees(render: Renderer, store: Store, scope: Scope, plan: Plan, residual: Plan, remaining: Remaining)
    requires store.JobIdsUnique() && FollowsSession(store, scope)
    requires IsPlan(render, store, scope, plan)
    requires IsVerification(render, Erase(render, store, plan), scope, plan, residual, remaining)
    ensures remaining.Clean()
  {
    DeletionAndVerificationAgree(render, store, scope, plan, residual, remaining);
    FollowedSessionIsSeed(store, scope);
    forall collection, payload
      ensures !NamesSessionUnplanned(render, store, scope, plan, collection, payload)
    {
      SessionIsPlanned(render, store, scope, plan, collection, payload);
    }
  }

  /** A record of the project that has the empty string, or nothing, in a place where a session id may
      stand: its session, its source session, or its provenance. */
  ghost predicate LacksSession(render: Renderer, store: Store, project: string, collection: string, payload: Json) {
    && Holds(store.tables, collection, payload)
    && GetText(render, payload, "id") != "" && GetText(render, payload, "project_name") == project
    && NamesSession(render, {""}, payload)
  }

  function EmptySession(project: string): Scope {
    Scope(project, Some(""), None, None)
  }

  /** The empty session id, without a revision to it: nothing is planned, but the verification takes a
      missing session id for the empty one, so it passes only if no record of the project lacks one. */
  lemma EmptySessionExactly(render: Renderer, store: Store, project: string, plan: Plan, residual: Plan, remaining: Remaining)
    requires store.JobIdsUnique() && PlannedRevisions(store, EmptySession(project)) == {}
    requires IsPlan(render, store, EmptySession(project), plan)
    requires IsVerification(render, Erase(render, store, plan), EmptySession(project), plan, residual, remaining)
    ensures plan.structured == {}
    ensures remaining.Clean() <==> !exists collection, payload :: LacksSession(render, store, project, collection, payload)
  {
    var scope := EmptySession(project);
    EmptySessionPlansNothing(render, store, project, plan);
    DeletionAndVerificationAgree(render, store, scope, plan, residual, remaining);
    assert VerificationSessions(scope) == {""};
    forall collection, payload
      ensures NamesSessionUnplanned(render, store, scope, plan, collection, payload) <==> LacksSession(render, store, project, collection, payload)
    {
    }
  }

  lemma EmptySessionPlansNothing(render: Renderer, store: Store, project: string, plan: Plan)
    requires PlannedRevisions(store, EmptySession(project)) == {}
    requires IsPlan(render, store, EmptySession(project), plan)
    ensures plan.structured == {}
  {
    var scope := EmptySession(project);
    var seeds := PlannedSeeds(store, scope);
    assert forall r :: r in store.revisions && scope.Selects(r) ==> (r.sourceId, r.revision) in PlannedRevisions(store, scope);
    assert PlannedSessions(store, scope) == {} && seeds.sessions == {} && seeds.jobs == {} && seeds.observations == {};
    RowsAreRecords(render, project, seeds, store.tables);
    forall row | row in RowsOf(RowsOfTables(render, project, seeds, store.tables))
      ensures !Pulled(row, seeds.All() + {} + Ids({}))
    {
    }
    assert Closed(RowsOf(RowsOfTables(render, project, seeds, store.tables)), seeds.All() + {}, {});
  }

  /** One record without a session id is enough. */
  lemma EmptySessionDisagrees(render: Renderer, plan: Plan, residual: Plan, remaining: Remaining)
    requires IsPlan(render, SessionlessStore(), EmptySession("p"), plan)
    requires IsVerification(render, Erase(render, SessionlessStore(), plan), EmptySession("p"), plan, residual, remaining)
    ensures EmptySession("p").Valid() && !remaining.Clean()
  {
    EmptySessionExactly(render, SessionlessStore(), "p", plan, residual, remaining);
    SessionlessStoreLacks(render);
  }

  lemma SessionlessStoreLacks(render: Renderer)
    ensures LacksSession(render, SessionlessStore(), "p", "memory_entries", SessionlessStore().tables[0].payloads[0])
  {
    var store := SessionlessStore();
    var payload := store.tables[0].payloads[0];
    assert Lookup(payload.fields[1..], "project_name") == Text("p");
    assert Lookup(payload.fields[2..], "session_id") == Null;
    assert Lookup(payload.fields[1..], "session_id") == Null;
    assert store.tables[0] in store.tables && payload in store.tables[0].payloads;
  }

  function SessionlessStore(): Store {
    Store([], [], [], [Table("memory_entries", [Object([Field("id", Text("m")), Field("project_name", Text("p"))])])])
  }

  /** When the plan follows the session id, every record that names it is planned. */
  lemma SessionIsPlanned(render: Renderer, store: Store, scope: Scope, plan: Plan, collection: string, payload: Json)
    requires IsPlan(render, store, scope, plan) && VerificationSessions(scope) <= PlannedSeeds(store, scope).sessions
    ensures !NamesSessionUnplanned(render, store, scope, plan, collection, payload)
  {
    var first := PlannedSeeds(store, scope);
    RowsAreRecords(render, scope.project, first, store.tables);
    var row := RowOf(render, scope.project, first, collection, payload);
    assert row.refs * VerificationSessions(scope) <= row.refs * (first.All() + {} + Ids(plan.structured));
    assert Holds(store.tables, collection, payload) && Pulled(row, first.All() + {} + Ids(plan.structured)) ==> row.key in plan.structured;
  }

  /** A session together with a source is the scope for which the two closures disagree: the plan does
      not follow the session id, the verification does. Here the one record of the session survives. */
  lemma CombinedScopeDisagrees(render: Renderer, plan: Plan, residual: Plan, remaining: Remaining)
    requires IsPlan(render, CombinedScopeStore(), CombinedScope(), plan)
    requires IsVerification(render, Erase(render, CombinedScopeStore(), plan), CombinedScope(), plan, residual, remaining)
    ensures !remaining.Clean()
  {
    var store, scope := CombinedScopeStore(), CombinedScope();
    var payload := store.tables[0].payloads[0];
    var seeds := PlannedSeeds(store, scope);
    RowsAreRecords(render, scope.project, seeds, store.tables);
    forall row | row in RowsOf(RowsOfTables(render, scope.project, seeds, store.tables))
      ensures !Pulled(row, seeds.All() + {} + Ids({}))
    {
    }
    assert Closed(RowsOf(RowsOfTables(render, scope.project, seeds, store.tables)), seeds.All() + {}, {});
    assert plan.structured == {};
    assert Lookup(payload.fields[1..], "project_name") == Text("p");
    assert Lookup(payload.fields[2..], "session_id") == Text("s");
    assert Lookup(payload.fields[1..], "session_id") == Text("s");
    assert store.tables[0] in store.tables && payload in store.tables[0].payloads;
    assert NamesSessionUnplanned(render, store, scope, plan, "memory_entries", payload);
    DeletionAndVerificationAgree(render, store, scope, plan, residual, remaining);
  }

  function CombinedScope(): Scope {
    Scope("p", Some("s"), Some("x"), None)
  }

  function CombinedScopeStore(): Store {
    Store([], [], [], [Table("memory_entries",
      [Object([Field("id", Text("m")), Field("project_name", Text("p")), Field("session_id", Text("s"))])])])
  }
}
