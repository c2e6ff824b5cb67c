/** Planning the removal of processed evidence without touching governed truth
    (_plan_structured_cleanup in harness_mem/processed_source_cleanup.py). */
module ProcessedCleanup {
  import opened Payloads
  import opened ReferenceClosure

  datatype Job = Job(id: string, project: string, sourceId: string, sourceRevision: string, sessionId: string, outputCandidateIds: set<string>)

  /** A record of one structured collection. */
  datatype Record = Record(collection: string, payload: Json)

  /** Observation payloads, the records of the three groups of collections, and the sources of the
      project as (id, session id). */
  datatype Store = Store(
    observations: seq<Json>,
    governed: seq<Record>,
    confirmed: seq<Record>,
    auxiliary: seq<seq<Record>>,
    sources: set<(string, string)>)

  datatype Plan = Plan(observationIds: set<string>, retain: set<Key>, delete: set<Key>, blocking: set<string>)

  const EVIDENCE_SCHEMA := Schema(
    {"distill_job_id", "session_id", "source_session_id", "source_candidate_id", "source", "observation_id", "signal_id",
     "truth_id", "candidate_id", "entry_id", "created_entry_id", "target_id", "replacement_id", "target_a_id", "target_b_id",
     "source_entity", "target_entity"},
    {"observation_ids", "signal_ids", "evidence_ids", "evidence_signal_ids", "selected_signal_ids", "selected_ids",
     "source_ids", "source_truth_ids"})

  const TRUTH_STATUSES := {"auto_confirmed", "provisional", "user_confirmed"}
  const HISTORICAL_STATUSES := {"superseded"}

  /** What the planner knows of the job. */
  datatype Evidence = Evidence(render: Renderer, job: Job, observationIds: set<string>, sessionFallback: bool)

  /** str(value.get(first) or value.get(second) or ""). */
  function EitherText(render: Renderer, value: Json, first: string, second: string): string {
    if Falsy(Get(value, first)) then GetText(render, value, second) else GetText(render, value, first)
  }

  predicate ObservationMatches(render: Renderer, job: Job, payload: Json) {
    var metadata := Get(payload, "metadata");
    && metadata.Object?
    && GetText(render, metadata, "project_name") == job.project
    && GetText(render, metadata, "transcript_source_id") == job.sourceId
    && GetText(render, metadata, "source_revision") == job.sourceRevision
  }

  predicate NamesRevision(e: Evidence, value: Json) {
    && EitherText(e.render, value, "transcript_source_id", "source_id") == e.job.sourceId
    && GetText(e.render, value, "source_revision") == e.job.sourceRevision
  }

  predicate MatchesJob(e: Evidence, payload: Json) {
    var provenance := Get(payload, "provenance");
    var refs := Get(provenance, "observation_ids");
    || GetText(e.render, payload, "distill_job_id") == e.job.id
    || GetText(e.render, payload, "source") in e.observationIds + {e.job.sourceId, "distill-job:" + e.job.id}
    || NamesRevision(e, payload)
    || (provenance.Object? && refs.List? && exists item :: item in refs.items && Str(e.render, item) in e.observationIds)
    || (provenance.Object? && NamesRevision(e, provenance))
    || (e.sessionFallback && e.job.sessionId != "" &&
        (|| GetText(e.render, payload, "session_id") == e.job.sessionId
         || GetText(e.render, payload, "source_session_id") == e.job.sessionId
         || (provenance.Object? && GetText(e.render, provenance, "session_id") == e.job.sessionId)))
  }

  /** A session id stands for the job only when it identifies one logical source. */
  predicate SessionFallbackAllowed(store: Store, job: Job) {
    && job.sessionId != ""
    && (set s | s in store.sources && s.1 == job.sessionId :: s.0) == {job.sourceId}
  }

  function EvidenceOf(render: Renderer, store: Store, job: Job): Evidence {
    Evidence(render, job,
             set payload | payload in store.observations && ObservationMatches(render, job, payload) :: GetText(render, payload, "id"),
             SessionFallbackAllowed(store, job))
  }

  function IdOf(e: Evidence, r: Record): string {
    GetText(e.render, r.payload, "id")
  }

  function KeyOf(e: Evidence, r: Record): Key {
    Key(r.collection, IdOf(e, r))
  }

  predicate InProject(e: Evidence, r: Record) {
    IdOf(e, r) != "" && GetText(e.render, r.payload, "project_name") == e.job.project
  }

  function StatusOf(e: Evidence, r: Record): string {
    var status := GetText(e.render, r.payload, "status");
    if status == "" then "pending" else status
  }

  predicate IsTruth(status: string) {
    status in TRUTH_STATUSES || status in HISTORICAL_STATUSES
  }

  // ---------------------------------------------------------------- governed candidates

  /** What the first loop looks at in one governed record. */
  datatype Subject = Subject(key: Key, inProject: bool, matches: bool, status: string)

  function SubjectOf(e: Evidence, r: Record): Subject {
    Subject(KeyOf(e, r), InProject(e, r), MatchesJob(e, r.payload), StatusOf(e, r))
  }

  function SubjectsOf(e: Evidence, records: seq<Record>): seq<Subject> {
    seq(|records|, i requires 0 <= i < |records| => SubjectOf(e, records[i]))
  }

  lemma SubjectsAreRecords(e: Evidence, records: seq<Record>)
    ensures forall s :: s in SubjectsOf(e, records) <==> exists r :: r in records && s == SubjectOf(e, r)
  {
    var subjects := SubjectsOf(e, records);
    forall r | r in records ensures SubjectOf(e, r) in subjects {
      var i :| 0 <= i < |records| && records[i] == r;
      assert subjects[i] in subjects;
    }
  }

  datatype Verdict = Verdict(candidateIds: set<string>, retain: set<Key>, delete: set<Key>, blocking: set<string>)

  /** One turn of the first loop. The candidate ids grow while the loop runs. */
  function Judge(v: Verdict, s: Subject): Verdict {
    if s.inProject && (s.key.id in v.candidateIds || s.matches) then
      var v' := v.(candidateIds := v.candidateIds + {s.key.id});
      if IsTruth(s.status) then v'.(retain := v.retain + {s.key})
      else if s.status == "rejected" then v'.(delete := v.delete + {s.key})
      else v'.(blocking := v.blocking + {s.key.id})
    else v
  }

  function JudgeAll(outputs: set<string>, subjects: seq<Subject>): Verdict {
    if subjects == [] then Verdict(outputs, {}, {}, {})
    else Judge(JudgeAll(outputs, subjects[..|subjects| - 1]), subjects[|subjects| - 1])
  }

  /** A governed record that the job produced or fed, whatever the order of the collections. */
  predicate IsCandidate(outputs: set<string>, s: Subject) {
    s.inProject && (s.key.id in outputs || s.matches)
  }

  predicate OtherStatus(status: string) {
    !IsTruth(status) && status != "rejected"
  }

  ghost predicate UniqueIds(subjects: seq<Subject>) {
    forall a, b :: a in subjects && b in subjects && a.inProject && b.inProject && a.key.id == b.key.id ==> a == b
  }

  function CandidateIds(outputs: set<string>, subjects: seq<Subject>): set<string> {
    outputs + set s | s in subjects && IsCandidate(outputs, s) :: s.key.id
  }

  function TruthKeys(outputs: set<string>, subjects: seq<Subject>): set<Key> {
    set s | s in subjects && IsCandidate(outputs, s) && IsTruth(s.status) :: s.key
  }

  function RejectedKeys(outputs: set<string>, subjects: seq<Subject>): set<Key> {
    set s | s in subjects && IsCandidate(outputs, s) && s.status == "rejected" :: s.key
  }

  function UnresolvedIds(outputs: set<string>, subjects: seq<Subject>): set<string> {
    set s | s in subjects && IsCandidate(outputs, s) && OtherStatus(s.status) :: s.key.id
  }

  /** With unique ids the first loop sorts exactly the candidates, each by its own status, in
      whatever order the collections are visited. */
  lemma {:induction false} JudgementIsExact(outputs: set<string>, subjects: seq<Subject>)
    requires UniqueIds(subjects)
    ensures JudgeAll(outputs, subjects) == Verdict(CandidateIds(outputs, subjects), TruthKeys(outputs, subjects),
                                                   RejectedKeys(outputs, subjects), UnresolvedIds(outputs, subjects))
  {
    if subjects != [] {
      var front, last := subjects[..|subjects| - 1], subjects[|subjects| - 1];
      assert forall s :: s in subjects <==> s in front || s == last;
      JudgementIsExact(outputs, front);
      assert last.inProject && last.key.id in CandidateIds(outputs, front) ==> IsCandidate(outputs, last);
      if IsCandidate(outputs, last) {
        assert CandidateIds(outputs, subjects) == CandidateIds(outputs, front) + {last.key.id};
        assert IsTruth(last.status) ==> TruthKeys(outputs, subjects) == TruthKeys(outputs, front) + {last.key};
        assert last.status == "rejected" ==> RejectedKeys(outputs, subjects) == RejectedKeys(outputs, front) + {last.key};
        assert OtherStatus(last.status) ==> UnresolvedIds(outputs, subjects) == UnresolvedIds(outputs, front) + {last.key.id};
      }
    }
  }

  // ---------------------------------------------------------------- auxiliary records

  function AuxiliaryRow(e: Evidence, r: Record): Row {
    Row(KeyOf(e, r), InProject(e, r), MatchesJob(e, r.payload), References(EVIDENCE_SCHEMA, e.render, r.payload))
  }

  function AuxiliaryRows(e: Evidence, tables: seq<seq<Record>>): seq<seq<Row>> {
    seq(|tables|, i requires 0 <= i < |tables| =>
      seq(|tables[i]|, j requires 0 <= j < |tables[i]| => AuxiliaryRow(e, tables[i][j])))
  }

  /** The ids whose removal pulls auxiliary records along: the job, its observations and the rejected
      candidates. Retained truth is not among them. */
  function RemovedIds(e: Evidence, rejected: set<Key>): set<string> {
    {e.job.id} + e.observationIds + Ids(rejected)
  }

  ghost predicate IsPlan(e: Evidence, store: Store, plan: Plan, evidence: set<Key>) {
    var v := JudgeAll(e.job.outputCandidateIds, SubjectsOf(e, store.governed));
    && plan.observationIds == e.observationIds
    && plan.blocking == v.blocking
    && plan.retain == v.retain + (set r | r in store.confirmed && IsConfirmedFrom(e, v, r) :: KeyOf(e, r))
    && plan.delete == v.delete + evidence
    && Least(RowsOf(AuxiliaryRows(e, store.auxiliary)), RemovedIds(e, v.delete), {}, evidence)
  }

  method PlanStructuredCleanup(render: Renderer, store: Store, job: Job) returns (plan: Plan)
    ensures exists evidence :: IsPlan(EvidenceOf(render, store, job), store, plan, evidence)
  {
    var e := EvidenceOf(render, store, job);
    var v := JudgeGoverned(e, store);
    var confirmed := ConfirmedKeys(e, v, store);
    var evidence := Saturate(AuxiliaryRows(e, store.auxiliary), RemovedIds(e, v.delete), {});
    plan := Plan(e.observationIds, v.retain + confirmed, v.delete + evidence, v.blocking);
    assert IsPlan(e, store, plan, evidence);
  }

  method JudgeGoverned(e: Evidence, store: Store) returns (v: Verdict)
    ensures v == JudgeAll(e.job.outputCandidateIds, SubjectsOf(e, store.governed))
  {
    v := Verdict(e.job.outputCandidateIds, {}, {}, {});
    ghost var subjects := SubjectsOf(e, store.governed);
    for i := 0 to |store.governed|
      invariant v == JudgeAll(e.job.outputCandidateIds, subjects[..i])
    {
      assert subjects[..i + 1] == subjects[..i] + [subjects[i]];
      v := Judge(v, SubjectOf(e, store.governed[i]));
    }
    assert subjects[..|subjects|] == subjects;
  }

  method ConfirmedKeys(e: Evidence, v: Verdict, store: Store) returns (keys: set<Key>)
    ensures keys == set r | r in store.confirmed && IsConfirmedFrom(e, v, r) :: KeyOf(e, r)
  {
    keys := {};
    for i := 0 to |store.confirmed|
      invariant keys == set r | r in store.confirmed[..i] && IsConfirmedFrom(e, v, r) :: KeyOf(e, r)
    {
      assert store.confirmed[..i + 1] == store.confirmed[..i] + [store.confirmed[i]];
      if IsConfirmedFrom(e, v, store.confirmed[i]) {
        keys := keys + {KeyOf(e, store.confirmed[i])};
      }
    }
    assert store.confirmed[..|store.confirmed|] == store.confirmed;
  }

  predicate IsConfirmedFrom(e: Evidence, v: Verdict, r: Record) {
    && InProject(e, r)
    && (GetText(e.render, r.payload, "source_candidate_id") in v.candidateIds || MatchesJob(e, r.payload))
  }

  // ---------------------------------------------------------------- what the plan means

  ghost predicate IsAuxiliary(store: Store, r: Record) {
    exists t :: t in store.auxiliary && r in t
  }

  /** Ids identify one record across all collections of the project, and neither the job nor an
      observation shares its id with a record. */
  ghost predicate GloballyUnique(e: Evidence, store: Store) {
    && (forall a, b :: Stored(store, a) && Stored(store, b) && InProject(e, a) && InProject(e, b) && IdOf(e, a) == IdOf(e, b) ==> a == b)
    && (forall r :: r in store.governed ==> r !in store.confirmed && !IsAuxiliary(store, r))
    && (forall r :: r in store.confirmed ==> !IsAuxiliary(store, r))
    && (forall r :: Stored(store, r) && InProject(e, r) ==> IdOf(e, r) != e.job.id && IdOf(e, r) !in e.observationIds)
  }

  ghost predicate Stored(store: Store, r: Record) {
    r in store.governed || r in store.confirmed || IsAuxiliary(store, r)
  }

  lemma RowsAreAuxiliary(e: Evidence, store: Store)
    ensures forall row :: row in RowsOf(AuxiliaryRows(e, store.auxiliary)) <==>
              exists r :: IsAuxiliary(store, r) && row == AuxiliaryRow(e, r)
  {
    var rows := AuxiliaryRows(e, store.auxiliary);
    forall row ensures row in RowsOf(rows) <==> exists r :: IsAuxiliary(store, r) && row == AuxiliaryRow(e, r) {
      if row in RowsOf(rows) {
        var t :| t in rows && row in t;
        var i :| 0 <= i < |rows| && rows[i] == t;
        var j :| 0 <= j < |t| && t[j] == row;
        assert store.auxiliary[i] in store.auxiliary && store.auxiliary[i][j] in store.auxiliary[i];
        assert IsAuxiliary(store, store.auxiliary[i][j]);
      }
      if r :| IsAuxiliary(store, r) && row == AuxiliaryRow(e, r) {
        var t :| t in store.auxiliary && r in t;
        var i :| 0 <= i < |store.auxiliary| && store.auxiliary[i] == t;
        var j :| 0 <= j < |t| && t[j] == r;
        assert rows[i] in rows && rows[i][j] in rows[i];
      }
    }
  }

  /** The selected auxiliary keys are keys of auxiliary records of the project. */
  lemma EvidenceIsAuxiliary(e: Evidence, store: Store, plan: Plan, evidence: set<Key>)
    requires IsPlan(e, store, plan, evidence)
    ensures forall key :: key in evidence ==> exists r :: IsAuxiliary(store, r) && InProject(e, r) && KeyOf(e, r) == key
  {
    var rows := RowsOf(AuxiliaryRows(e, store.auxiliary));
    RowsAreAuxiliary(e, store);
    var own := set row | row in rows && row.eligible :: row.key;
    assert forall row :: row in rows && row.eligible ==> row.key in own;
    assert evidence <= own;
  }

  lemma VerdictIsExact(e: Evidence, store: Store)
    requires GloballyUnique(e, store)
    ensures var outputs, subjects := e.job.outputCandidateIds, SubjectsOf(e, store.governed);
            JudgeAll(outputs, subjects) == Verdict(CandidateIds(outputs, subjects), TruthKeys(outputs, subjects),
                                                   RejectedKeys(outputs, subjects), UnresolvedIds(outputs, subjects))
  {
    SubjectsAreRecords(e, store.governed);
    JudgementIsExact(e.job.outputCandidateIds, SubjectsOf(e, store.governed));
  }

  /** The record behind a key or id of the plan. */
  lemma RetainedRecord(e: Evidence, store: Store, plan: Plan, evidence: set<Key>, key: Key) returns (r: Record)
    requires IsPlan(e, store, plan, evidence) && GloballyUnique(e, store) && key in plan.retain
    ensures InProject(e, r) && KeyOf(e, r) == key
    ensures r in store.confirmed || (r in store.governed && IsTruth(StatusOf(e, r)))
  {
    VerdictIsExact(e, store);
    SubjectsAreRecords(e, store.governed);
    var v := JudgeAll(e.job.outputCandidateIds, SubjectsOf(e, store.governed));
    if key in v.retain {
      var s :| s in SubjectsOf(e, store.governed) && s.inProject && IsTruth(s.status) && s.key == key;
      r :| r in store.governed && s == SubjectOf(e, r);
    } else {
      r :| r in store.confirmed && IsConfirmedFrom(e, v, r) && KeyOf(e, r) == key;
    }
  }

  lemma DeletedRecord(e: Evidence, store: Store, plan: Plan, evidence: set<Key>, key: Key) returns (r: Record)
    requires IsPlan(e, store, plan, evidence) && GloballyUnique(e, store) && key in plan.delete
    ensures InProject(e, r) && KeyOf(e, r) == key
    ensures if key in evidence then IsAuxiliary(store, r) else r in store.governed && StatusOf(e, r) == "rejected"
  {
    VerdictIsExact(e, store);
    SubjectsAreRecords(e, store.governed);
    EvidenceIsAuxiliary(e, store, plan, evidence);
    if key in evidence {
      r :| IsAuxiliary(store, r) && InProject(e, r) && KeyOf(e, r) == key;
    } else {
      var s :| s in SubjectsOf(e, store.governed) && s.inProject && s.status == "rejected" && s.key == key;
      r :| r in store.governed && s == SubjectOf(e, r);
    }
  }

  lemma BlockingRecord(e: Evidence, store: Store, plan: Plan, evidence: set<Key>, id: string) returns (r: Record)
    requires IsPlan(e, store, plan, evidence) && GloballyUnique(e, store) && id in plan.blocking
    ensures InProject(e, r) && IdOf(e, r) == id && r in store.governed && OtherStatus(StatusOf(e, r))
  {
    VerdictIsExact(e, store);
    SubjectsAreRecords(e, store.governed);
    var s :| s in SubjectsOf(e, store.governed) && s.inProject && OtherStatus(s.status) && s.key.id == id;
    r :| r in store.governed && s == SubjectOf(e, r);
  }

  /** Nothing is both kept and deleted, nothing that blocks is either, and no retained id is one that
      deletion spreads from. */
  lemma KindsAreDisjoint(e: Evidence, store: Store, plan: Plan, evidence: set<Key>)
    requires IsPlan(e, store, plan, evidence) && GloballyUnique(e, store)
    ensures plan.retain !! plan.delete
    ensures Ids(plan.retain) !! plan.blocking
    ensures Ids(plan.delete) !! plan.blocking
    ensures Ids(plan.retain) !! RemovedIds(e, plan.delete)
  {
    forall kept, gone | kept in plan.retain && gone in plan.delete ensures kept.id != gone.id {
      var r := RetainedRecord(e, store, plan, evidence, kept);
      var s := DeletedRecord(e, store, plan, evidence, gone);
    }
    forall kept, id | kept in plan.retain && id in plan.blocking ensures kept.id != id {
      var r := RetainedRecord(e, store, plan, evidence, kept);
      var s := BlockingRecord(e, store, plan, evidence, id);
    }
    forall gone, id | gone in plan.delete && id in plan.blocking ensures gone.id != id {
      var r := DeletedRecord(e, store, plan, evidence, gone);
      var s := BlockingRecord(e, store, plan, evidence, id);
    }
    forall kept | kept in plan.retain ensures kept.id != e.job.id && kept.id !in e.observationIds {
      var r := RetainedRecord(e, store, plan, evidence, kept);
    }
  }

  /** The job, its observations and the rejected candidates: where deletion starts. */
  function Roots(e: Evidence, store: Store): set<string> {
    RemovedIds(e, RejectedKeys(e.job.outputCandidateIds, SubjectsOf(e, store.governed)))
  }

  /** An auxiliary record is deleted exactly when a chain of auxiliary records leads from it to a match
      with the job, to the job, to one of its observations, or to a rejected candidate. */
  lemma AuxiliaryDeletedByChain(e: Evidence, store: Store, plan: Plan, evidence: set<Key>, r: Record)
    requires IsPlan(e, store, plan, evidence) && GloballyUnique(e, store)
    requires IsAuxiliary(store, r) && InProject(e, r)
    ensures KeyOf(e, r) in plan.delete <==> Reachable(RowsOf(AuxiliaryRows(e, store.auxiliary)), Roots(e, store), KeyOf(e, r))
  {
    VerdictIsExact(e, store);
    LeastIsReachable(RowsOf(AuxiliaryRows(e, store.auxiliary)), Roots(e, store), {}, evidence);
    assert Roots(e, store) + Ids({}) == Roots(e, store);
    if KeyOf(e, r) in plan.delete {
      var s := DeletedRecord(e, store, plan, evidence, KeyOf(e, r));
    }
  }

  /** References to retained truth delete nothing: an auxiliary record that does not match the job and
      refers to nothing that goes survives, and no retained id is among what goes. */
  lemma TruthDoesNotSpread(e: Evidence, store: Store, plan: Plan, evidence: set<Key>, r: Record)
    requires IsPlan(e, store, plan, evidence) && GloballyUnique(e, store)
    requires IsAuxiliary(store, r) && InProject(e, r) && !MatchesJob(e, r.payload)
    requires References(EVIDENCE_SCHEMA, e.render, r.payload) <= Ids(plan.retain) || References(EVIDENCE_SCHEMA, e.render, r.payload) !! RemovedIds(e, plan.delete)
    ensures KeyOf(e, r) !in plan.delete
  {
    KindsAreDisjoint(e, store, plan, evidence);
    VerdictIsExact(e, store);
    if KeyOf(e, r) in plan.delete {
      var s := DeletedRecord(e, store, plan, evidence, KeyOf(e, r));
      RowsAreAuxiliary(e, store);
      SelectedIsPulled(RowsOf(AuxiliaryRows(e, store.auxiliary)), Roots(e, store), evidence, AuxiliaryRow(e, r));
    }
  }
}
