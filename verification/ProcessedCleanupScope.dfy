/** Which records are evidence of one job, said over their fields, and what becomes of evidence and of
    everything else (_payload_matches_job, _observation_matches and _legacy_session_fallback_allowed in
    harness_mem/processed_source_cleanup.py). */
module ProcessedCleanupScope {
  import opened Payloads
  import opened ReferenceClosure
  import opened ProcessedCleanup

  // ---------------------------------------------------------------- what evidence is

  /** An observation of the job's revision: its metadata has the job's project, source and revision. */
  predicate IsOwnObservation(render: Renderer, job: Job, o: Json) {
    var metadata := Get(o, "metadata");
    && metadata.Object?
    && GetText(render, metadata, "project_name") == job.project
    && GetText(render, metadata, "transcript_source_id") == job.sourceId
    && GetText(render, metadata, "source_revision") == job.sourceRevision
  }

  ghost predicate IsOwnObservationId(render: Renderer, store: Store, job: Job, id: string) {
    exists o :: o in store.observations && IsOwnObservation(render, job, o) && GetText(render, o, "id") == id
  }

  /** The source that a value names, under the newer name or, without that, under the older one. */
  predicate NamesSource(render: Renderer, value: Json, id: string) {
    if Falsy(Get(value, "transcript_source_id")) then GetText(render, value, "source_id") == id
    else Str(render, Get(value, "transcript_source_id")) == id
  }

  predicate NamesOwnRevision(render: Renderer, job: Job, value: Json) {
    NamesSource(render, value, job.sourceId) && GetText(render, value, "source_revision") == job.sourceRevision
  }

  /** The session has the job's source and no other source. */
  predicate SessionIsOwn(store: Store, job: Job) {
    && job.sessionId != ""
    && (job.sourceId, job.sessionId) in store.sources
    && forall s :: s in store.sources && s.1 == job.sessionId ==> s.0 == job.sourceId
  }

  predicate NamesSessionOf(render: Renderer, job: Job, p: Json) {
    || GetText(render, p, "session_id") == job.sessionId
    || GetText(render, p, "source_session_id") == job.sessionId
    || (Get(p, "provenance").Object? && GetText(render, Get(p, "provenance"), "session_id") == job.sessionId)
  }

  ghost predicate CitesOwnObservation(render: Renderer, store: Store, job: Job, p: Json) {
    var provenance := Get(p, "provenance");
    var refs := Get(provenance, "observation_ids");
    provenance.Object? && refs.List? && exists item :: item in refs.items && IsOwnObservationId(render, store, job, Str(render, item))
  }

  /** A record is evidence of the job if it names the job, the source, the revision with its source, or one
      of the revision's observations; a session only if it is the session of that source alone. */
  ghost predicate IsEvidence(render: Renderer, store: Store, job: Job, p: Json) {
    || GetText(render, p, "distill_job_id") == job.id
    || GetText(render, p, "source") == job.sourceId || GetText(render, p, "source") == "distill-job:" + job.id
    || IsOwnObservationId(render, store, job, GetText(render, p, "source"))
    || NamesOwnRevision(render, job, p)
    || (Get(p, "provenance").Object? && NamesOwnRevision(render, job, Get(p, "provenance")))
    || CitesOwnObservation(render, store, job, p)
    || (SessionIsOwn(store, job) && NamesSessionOf(render, job, p))
  }

  lemma ObservationsExactly(render: Renderer, store: Store, job: Job, id: string)
    ensures id in EvidenceOf(render, store, job).observationIds <==> IsOwnObservationId(render, store, job, id)
  {
    assert forall o :: ObservationMatches(render, job, o) <==> IsOwnObservation(render, job, o);
  }

  lemma FallbackExactly(store: Store, job: Job)
    ensures SessionFallbackAllowed(store, job) <==> SessionIsOwn(store, job)
  {
    var ids := set s | s in store.sources && s.1 == job.sessionId :: s.0;
    if job.sessionId != "" {
      forall s | s in store.sources && s.1 == job.sessionId ensures s.0 in ids {
      }
      assert job.sourceId in ids <==> (job.sourceId, job.sessionId) in store.sources;
    }
  }

  /** What the planner takes for evidence is exactly this. */
  lemma MatchesExactly(render: Renderer, store: Store, job: Job, p: Json)
    ensures MatchesJob(EvidenceOf(render, store, job), p) <==> IsEvidence(render, store, job, p)
  {
    FallbackExactly(store, job);
    forall id ensures id in EvidenceOf(render, store, job).observationIds <==> IsOwnObservationId(render, store, job, id) {
      ObservationsExactly(render, store, job, id);
    }
    var e := EvidenceOf(render, store, job);
    assert forall v :: NamesRevision(e, v) <==> NamesOwnRevision(render, job, v);
  }

  // ---------------------------------------------------------------- what becomes of it

  ghost predicate IsPlanFor(render: Renderer, store: Store, job: Job, plan: Plan, evidence: set<Key>) {
    IsPlan(EvidenceOf(render, store, job), store, plan, evidence) && GloballyUnique(EvidenceOf(render, store, job), store)
  }

  /** Evidence is sorted by what it is: the auxiliary records go; of the governed ones the rejected go, truth
      stays, and everything else blocks; confirmed ones stay. */
  lemma EvidenceFate(render: Renderer, store: Store, job: Job, plan: Plan, evidence: set<Key>, r: Record)
    requires IsPlanFor(render, store, job, plan, evidence) && Stored(store, r)
    requires GetText(render, r.payload, "id") != "" && GetText(render, r.payload, "project_name") == job.project
    requires IsEvidence(render, store, job, r.payload) || (r in store.governed && GetText(render, r.payload, "id") in job.outputCandidateIds)
    ensures var key, status := Key(r.collection, GetText(render, r.payload, "id")), GetText(render, r.payload, "status");
            && (IsAuxiliary(store, r) ==> key in plan.delete)
            && (r in store.confirmed ==> key in plan.retain)
            && (r in store.governed && status == "rejected" ==> key in plan.delete)
            && (r in store.governed && status in {"auto_confirmed", "provisional", "user_confirmed", "superseded"} ==> key in plan.retain)
            && (r in store.governed && status !in {"rejected", "auto_confirmed", "provisional", "user_confirmed", "superseded"} ==>
                  key.id in plan.blocking)
  {
    var e := EvidenceOf(render, store, job);
    MatchesExactly(render, store, job, r.payload);
    if r in store.governed {
      GovernedFate(e, store, plan, evidence, r);
    } else if r in store.confirmed {
      assert IsConfirmedFrom(e, JudgeAll(job.outputCandidateIds, SubjectsOf(e, store.governed)), r);
    } else {
      AuxiliaryFate(e, store, plan, evidence, r);
    }
  }

  lemma GovernedFate(e: Evidence, store: Store, plan: Plan, evidence: set<Key>, r: Record)
    requires IsPlan(e, store, plan, evidence) && GloballyUnique(e, store)
    requires r in store.governed && InProject(e, r) && (IdOf(e, r) in e.job.outputCandidateIds || MatchesJob(e, r.payload))
    ensures var status := StatusOf(e, r);
            && (IsTruth(status) ==> KeyOf(e, r) in plan.retain)
            && (status == "rejected" ==> KeyOf(e, r) in plan.delete)
            && (OtherStatus(status) ==> IdOf(e, r) in plan.blocking)
  {
    VerdictIsExact(e, store);
    SubjectsAreRecords(e, store.governed);
    assert SubjectOf(e, r) in SubjectsOf(e, store.governed) && IsCandidate(e.job.outputCandidateIds, SubjectOf(e, r));
  }

  lemma AuxiliaryFate(e: Evidence, store: Store, plan: Plan, evidence: set<Key>, r: Record)
    requires IsPlan(e, store, plan, evidence) && IsAuxiliary(store, r) && InProject(e, r) && MatchesJob(e, r.payload)
    ensures KeyOf(e, r) in plan.delete
  {
    RowsAreAuxiliary(e, store);
    assert AuxiliaryRow(e, r) in RowsOf(AuxiliaryRows(e, store.auxiliary));
  }

  /** A confirmed record derived from an output of the job, or from governed evidence, is kept as well. */
  lemma DerivedTruthIsKept(render: Renderer, store: Store, job: Job, plan: Plan, evidence: set<Key>, r: Record)
    requires IsPlanFor(render, store, job, plan, evidence) && r in store.confirmed
    requires GetText(render, r.payload, "id") != "" && GetText(render, r.payload, "project_name") == job.project
    requires var from := GetText(render, r.payload, "source_candidate_id");
             || from in job.outputCandidateIds
             || exists q :: q in store.governed && IsEvidence(render, store, job, q.payload) && from != ""
                            && GetText(render, q.payload, "project_name") == job.project && GetText(render, q.payload, "id") == from
    ensures Key(r.collection, GetText(render, r.payload, "id")) in plan.retain
  {
    var e, from := EvidenceOf(render, store, job), GetText(render, r.payload, "source_candidate_id");
    VerdictIsExact(e, store);
    SubjectsAreRecords(e, store.governed);
    if from !in job.outputCandidateIds {
      var q :| q in store.governed && IsEvidence(render, store, job, q.payload) && from != ""
               && GetText(render, q.payload, "project_name") == job.project && GetText(render, q.payload, "id") == from;
      MatchesExactly(render, store, job, q.payload);
      assert IsCandidate(job.outputCandidateIds, SubjectOf(e, q)) && SubjectOf(e, q) in SubjectsOf(e, store.governed);
    }
    assert IsConfirmedFrom(e, JudgeAll(job.outputCandidateIds, SubjectsOf(e, store.governed)), r);
  }

  // ---------------------------------------------------------------- what is left alone

  /** The governed record behind what the first loop did is a candidate. */
  lemma JudgedIsCandidate(e: Evidence, store: Store, key: Key) returns (q: Record)
    requires GloballyUnique(e, store)
    requires var v := JudgeAll(e.job.outputCandidateIds, SubjectsOf(e, store.governed)); key in v.retain || key in v.delete || key.id in v.blocking
    ensures q in store.governed && InProject(e, q) && IdOf(e, q) == key.id
    ensures IdOf(e, q) in e.job.outputCandidateIds || MatchesJob(e, q.payload)
  {
    VerdictIsExact(e, store);
    SubjectsAreRecords(e, store.governed);
    var s :| s in SubjectsOf(e, store.governed) && IsCandidate(e.job.outputCandidateIds, s) && s.key.id == key.id;
    q :| q in store.governed && s == SubjectOf(e, q);
  }

  lemma NotJudged(e: Evidence, store: Store, r: Record)
    requires GloballyUnique(e, store) && Stored(store, r) && InProject(e, r)
    requires IdOf(e, r) !in e.job.outputCandidateIds && !MatchesJob(e, r.payload)
    ensures var v := JudgeAll(e.job.outputCandidateIds, SubjectsOf(e, store.governed));
            KeyOf(e, r) !in v.retain && KeyOf(e, r) !in v.delete && IdOf(e, r) !in v.blocking
  {
    var v := JudgeAll(e.job.outputCandidateIds, SubjectsOf(e, store.governed));
    if KeyOf(e, r) in v.retain || KeyOf(e, r) in v.delete || KeyOf(e, r).id in v.blocking {
      var q := JudgedIsCandidate(e, store, KeyOf(e, r));
    }
  }

  lemma NotSelected(e: Evidence, store: Store, plan: Plan, evidence: set<Key>, r: Record)
    requires IsPlan(e, store, plan, evidence) && GloballyUnique(e, store)
    requires Stored(store, r) && InProject(e, r) && !MatchesJob(e, r.payload)
    requires References(EVIDENCE_SCHEMA, e.render, r.payload) !! RemovedIds(e, plan.delete)
    ensures KeyOf(e, r) !in evidence
  {
    if KeyOf(e, r) in evidence {
      var s := DeletedRecord(e, store, plan, evidence, KeyOf(e, r));
      TruthDoesNotSpread(e, store, plan, evidence, r);
    }
  }

  lemma NotConfirmed(e: Evidence, store: Store, r: Record)
    requires GloballyUnique(e, store) && Stored(store, r) && InProject(e, r) && !MatchesJob(e, r.payload)
    requires GetText(e.render, r.payload, "source_candidate_id") !in JudgeAll(e.job.outputCandidateIds, SubjectsOf(e, store.governed)).candidateIds
    ensures forall q :: q in store.confirmed && IsConfirmedFrom(e, JudgeAll(e.job.outputCandidateIds, SubjectsOf(e, store.governed)), q) ==>
              KeyOf(e, q) != KeyOf(e, r)
  {
  }

  lemma CandidatesExactly(render: Renderer, store: Store, job: Job, id: string)
    requires GloballyUnique(EvidenceOf(render, store, job), store)
    requires id in JudgeAll(job.outputCandidateIds, SubjectsOf(EvidenceOf(render, store, job), store.governed)).candidateIds
    ensures id in job.outputCandidateIds
            || exists q :: q in store.governed && IsEvidence(render, store, job, q.payload) && GetText(render, q.payload, "id") == id
  {
    var e := EvidenceOf(render, store, job);
    VerdictIsExact(e, store);
    SubjectsAreRecords(e, store.governed);
    if id !in job.outputCandidateIds {
      var s :| s in SubjectsOf(e, store.governed) && IsCandidate(job.outputCandidateIds, s) && s.key.id == id;
      var q :| q in store.governed && s == SubjectOf(e, q);
      MatchesExactly(render, store, job, q.payload);
    }
  }

  /** Everything else is left alone: a record that is no evidence and no output of the job, derives from no
      candidate of it, and refers to nothing that goes. Evidence of another revision, or of another source
      in a session that is shared, is such a record. */
  lemma OthersAreLeftAlone(render: Renderer, store: Store, job: Job, plan: Plan, evidence: set<Key>, r: Record)
    requires IsPlanFor(render, store, job, plan, evidence) && Stored(store, r)
    requires var id := GetText(render, r.payload, "id");
             id != "" && GetText(render, r.payload, "project_name") == job.project && id !in job.outputCandidateIds
    requires !IsEvidence(render, store, job, r.payload)
    requires GetText(render, r.payload, "source_candidate_id") !in
               job.outputCandidateIds + (set q | q in store.governed && IsEvidence(render, store, job, q.payload) :: GetText(render, q.payload, "id"))
    requires References(EVIDENCE_SCHEMA, render, r.payload) !! {job.id} + plan.observationIds + Ids(plan.delete)
    ensures var key := Key(r.collection, GetText(render, r.payload, "id"));
            key !in plan.delete && key !in plan.retain && key.id !in plan.blocking
  {
    var e := EvidenceOf(render, store, job);
    MatchesExactly(render, store, job, r.payload);
    NotJudged(e, store, r);
    NotSelected(e, store, plan, evidence, r);
    if GetText(render, r.payload, "source_candidate_id") in JudgeAll(job.outputCandidateIds, SubjectsOf(e, store.governed)).candidateIds {
      CandidatesExactly(render, store, job, GetText(render, r.payload, "source_candidate_id"));
    } else {
      NotConfirmed(e, store, r);
    }
  }

  /** Whatever is planned belongs to the project of the job. */
  lemma OtherProjectsAreLeftAlone(render: Renderer, store: Store, job: Job, plan: Plan, evidence: set<Key>, key: Key)
    requires IsPlanFor(render, store, job, plan, evidence)
    requires key in plan.delete || key in plan.retain || key.id in plan.blocking
    ensures exists r :: Stored(store, r) && GetText(render, r.payload, "project_name") == job.project && GetText(render, r.payload, "id") == key.id
  {
    var e := EvidenceOf(render, store, job);
    if key in plan.delete {
      var r := DeletedRecord(e, store, plan, evidence, key);
      assert Stored(store, r);
    } else if key in plan.retain {
      var r := RetainedRecord(e, store, plan, evidence, key);
      assert Stored(store, r);
    } else {
      var r := BlockingRecord(e, store, plan, evidence, key.id);
      assert Stored(store, r);
    }
  }
}
