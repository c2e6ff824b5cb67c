/** How long a request can be overtaken, over runs of HookProtocol (load_background_request and
    finish_background_worker in harness_mem/hook_background.py).

    Every release of the lock by a finishing worker counts as one serve. The argument is a debt: the
    requests ordered no later than the waiting one, plus one while a worker is at work that may finish
    without removing any of them. Nothing adds to the debt, and every serve pays off part of it. */
module HookFairness {
  import opened HookRequests
  import opened HookProtocol

  /** The pending requests that are served before `r` can be, and `r` itself. */
  function Ahead(pending: Queue, r: Request): set<Generation> {
    set g | g in pending && NotLater(pending[g], r)
  }

  ghost predicate Waits(s: State, r: Request) {
    r.generation in s.pending && s.pending[r.generation] == r
  }

  /** Each list a worker holds still covers the requests ahead of `r` in the session it was taken for. */
  ghost predicate Covers(s: State, loaded: map<Generation, Snapshot>, r: Request) {
    forall g :: g in loaded ==> CoversSession(s, loaded[g].files, g, r)
  }

  ghost predicate CoversSession(s: State, files: set<Generation>, g: Generation, r: Request) {
    g in s.issued && SessionMembers(s.pending, SessionOf(s.issued[g])) * Ahead(s.pending, r) <= files
  }

  /** A process that relies on the lock will remove a request ahead of `r` before it releases the lock. */
  ghost predicate PaysOff(s: State, pc: Pc, r: Request) {
    match pc
    case Working(_, loaded, current) => Covers(s, loaded, r) && (current in loaded ==> loaded[current].files * Ahead(s.pending, r) != {})
    case Retiring(_, _, _, rest) => rest * Ahead(s.pending, r) != {}
    case _ => true
  }

  ghost predicate Indebted(s: State, r: Request) {
    exists p :: p in s.procs && Committed(s.procs[p]) && !PaysOff(s, s.procs[p], r)
  }

  ghost function Debt(s: State, r: Request): nat {
    |Ahead(s.pending, r)| + if Indebted(s, r) then 1 else 0
  }

  /** No live process loses its lock; later arrivals are ordered later; sessions are chosen among all;
      and a worker finishes only with a request it has loaded, together with some file. Crashes and
      failed spawns may happen. */
  ghost predicate Fair(s: State, step: Step, r: Request) {
    && !ReclaimsLive(s, step)
    && (step.DispatchStep? ==> Earlier(r, step.r))
    && (step.LoadStep? ==> step.eligible == Sessions(s.pending))
    && (step.FinishStep? && step.p in s.procs && s.procs[step.p].Working? ==>
          var w := s.procs[step.p]; w.current in w.loaded && w.loaded[w.current].files != {})
  }

  // ---------------------------------------------------------------- one step

  lemma CardinalityKept(a: set<Generation>, b: set<Generation>)
    requires a <= b
    ensures |a| <= |b| && (a != b ==> |a| < |b|)
  {
    assert b == a + (b - a);
    if a != b {
      assert b - a != {};
    }
  }

  /** Between two states with the same requests ahead, a process owes the same. */
  lemma SameDebt(s: State, s': State, pc: Pc, r: Request)
    requires Ahead(s'.pending, r) == Ahead(s.pending, r)
    requires forall g :: g in Ahead(s.pending, r) ==> g in s.pending && g in s'.pending && s'.pending[g] == s.pending[g]
    requires forall g :: g in s.issued ==> g in s'.issued && s'.issued[g] == s.issued[g]
    requires PaysOff(s, pc, r)
    ensures PaysOff(s', pc, r)
  {
    if pc.Working? {
      forall g | g in pc.loaded ensures CoversSession(s', pc.loaded[g].files, g, r) {
        assert CoversSession(s, pc.loaded[g].files, g, r);
        var session := SessionOf(s.issued[g]);
        assert SessionMembers(s'.pending, session) * Ahead(s'.pending, r) <= SessionMembers(s.pending, session) * Ahead(s.pending, r);
      }
    }
  }

  lemma DispatchKeepsAhead(s: State, s': State, p: Pid, q: Request, r: Request)
    requires Dispatch(s, s', p, q) && Lawful(s) && Earlier(r, q) && Waits(s, r)
    ensures Ahead(s'.pending, r) == Ahead(s.pending, r) && Waits(s', r)
  {
    OrderIsTotal(q, r, r);
  }

  lemma LoadKeepsCover(s: State, s': State, p: Pid, q: Request, r: Request)
    requires Load(s, s', p, Sessions(s.pending), q) && Lawful(s) && Covers(s, s.procs[p].loaded, r)
    ensures Covers(s', s'.procs[p].loaded, r)
  {
    var w, w' := s.procs[p], s'.procs[p];
    assert s.issued[q.generation] == q;
    forall g | g in w'.loaded ensures CoversSession(s', w'.loaded[g].files, g, r) {
      if g in w.loaded {
        assert CoversSession(s, w.loaded[g].files, g, r);
      }
    }
  }

  /** A fresh list, or the one a generation was loaded with before, holds the oldest request of all. */
  lemma LoadPaysOff(s: State, s': State, p: Pid, q: Request, r: Request)
    requires Load(s, s', p, Sessions(s.pending), q) && Lawful(s) && Waits(s, r) && PaysOff(s, s.procs[p], r)
    ensures PaysOff(s', s'.procs[p], r)
  {
    LoadKeepsCover(s, s', p, q, r);
    var oldest :| IsOldest(s.pending, Sessions(s.pending), oldest) && SessionOf(oldest) == SessionOf(q);
    assert SessionOf(s.pending[r.generation]) in Sessions(s.pending);
    assert oldest.generation in SessionMembers(s.pending, SessionOf(q)) * Ahead(s.pending, r);
    assert CoversSession(s', s'.procs[p].loaded[q.generation].files, q.generation, r) && s.issued[q.generation] == q;
    assert oldest.generation in s'.procs[p].loaded[q.generation].files * Ahead(s'.pending, r);
  }

  /** Unless a file is removed or the lock released, the process that moves owes no more than before. */
  lemma MoverPaysOff(s: State, s': State, step: Step, r: Request)
    requires Next(s, s', step) && Fair(s, step, r) && Lawful(s) && Waits(s, r)
    requires !step.RetireStep? && !step.UnlockStep?
    requires step.p in s.procs ==> PaysOff(s, s.procs[step.p], r)
    ensures step.p in s'.procs && Committed(s'.procs[step.p]) ==> PaysOff(s', s'.procs[step.p], r)
    ensures step.SpawnStep? ==> PaysOff(s', s'.procs[step.worker], r)
  {
    match step
    case LoadStep(p, eligible, q) => LoadPaysOff(s, s', p, q, r);
    case FinishStep(p) =>
    case _ =>
  }

  lemma SameQueue(s: State, s': State, step: Step)
    requires Next(s, s', step) && Lawful(s) && !step.RetireStep? && !step.DispatchStep?
    ensures s'.pending == s.pending && s'.issued == s.issued
  {
  }

  lemma QuietStepKeepsDebt(s: State, s': State, step: Step, r: Request)
    requires Next(s, s', step) && Fair(s, step, r) && Lawful(s) && Waits(s, r)
    requires !step.RetireStep? && !step.UnlockStep?
    ensures Waits(s', r) && Debt(s', r) <= Debt(s, r)
  {
    if step.DispatchStep? {
      DispatchKeepsAhead(s, s', step.p, step.r, r);
    } else {
      SameQueue(s, s', step);
    }
    if !Indebted(s, r) {
      forall p | p in s'.procs && Committed(s'.procs[p]) ensures PaysOff(s', s'.procs[p], r) {
        QuietStepPaysOff(s, s', step, r, p);
      }
    }
  }

  lemma QuietStepPaysOff(s: State, s': State, step: Step, r: Request, p: Pid)
    requires Next(s, s', step) && Fair(s, step, r) && Lawful(s) && Waits(s, r) && !Indebted(s, r)
    requires !step.RetireStep? && !step.UnlockStep?
    requires Ahead(s'.pending, r) == Ahead(s.pending, r)
    requires p in s'.procs && Committed(s'.procs[p])
    ensures PaysOff(s', s'.procs[p], r)
  {
    if p == step.p || (step.SpawnStep? && p == step.worker) {
      assert step.p in s.procs ==> PaysOff(s, s.procs[step.p], r);
      MoverPaysOff(s, s', step, r);
    } else {
      OthersStay(s, s', step, p);
      StepGrows(s, s', step);
      SameDebt(s, s', s.procs[p], r);
    }
  }

  /** Removing a request that is ahead pays off; removing another one changes nothing. */
  lemma RetireKeepsDebt(s: State, s': State, p: Pid, g: Generation, r: Request)
    requires Retire(s, s', p, g) && Exclusive(s) && Waits(s, r) && r.generation in s'.pending
    ensures Waits(s', r) && Debt(s', r) <= Debt(s, r)
  {
    var before, after := Ahead(s.pending, r), Ahead(s'.pending, r);
    assert after == before - {g};
    CardinalityKept(after, before);
    if g !in before {
      assert after == before;
      RetireElsewhere(s, s', p, g, r);
    }
  }

  lemma RetireElsewhere(s: State, s': State, p: Pid, g: Generation, r: Request)
    requires Retire(s, s', p, g) && Exclusive(s) && g !in Ahead(s.pending, r)
    requires Ahead(s'.pending, r) == Ahead(s.pending, r)
    ensures Indebted(s', r) ==> Indebted(s, r)
  {
    if Indebted(s', r) {
      var q :| q in s'.procs && Committed(s'.procs[q]) && !PaysOff(s', s'.procs[q], r);
      OnlyTheRetirer(s, s', p, g, q);
      assert s'.procs[p].rest * Ahead(s'.pending, r) == s.procs[p].rest * Ahead(s.pending, r);
      assert !PaysOff(s, s.procs[p], r);
    }
  }

  lemma OnlyTheRetirer(s: State, s': State, p: Pid, g: Generation, q: Pid)
    requires Retire(s, s', p, g) && Exclusive(s) && q in s'.procs && Committed(s'.procs[q])
    ensures q == p
  {
    if q != p {
      OthersStay(s, s', RetireStep(p, g), q);
    }
  }

  /** A worker that releases the lock owed until then, and leaves nobody who owes. */
  lemma UnlockPaysOff(s: State, s': State, p: Pid, r: Request)
    requires Unlock(s, s', p) && Exclusive(s) && Waits(s, r)
    ensures Waits(s', r) && Debt(s', r) + 1 <= Debt(s, r)
  {
    assert !PaysOff(s, s.procs[p], r) && Committed(s.procs[p]);
    forall q | q in s'.procs ensures !Committed(s'.procs[q]) {
      if q != p {
        OthersStay(s, s', UnlockStep(p), q);
      }
    }
  }

  lemma StepKeepsDebt(s: State, s': State, step: Step, r: Request)
    requires Next(s, s', step) && Fair(s, step, r) && Lawful(s) && Exclusive(s) && Waits(s, r)
    requires r.generation in s'.pending
    ensures Waits(s', r)
    ensures Debt(s', r) + (if step.UnlockStep? then 1 else 0) <= Debt(s, r)
  {
    if step.RetireStep? {
      RetireStepKeepsDebt(s, s', step, r);
    } else if step.UnlockStep? {
      UnlockStepPaysOff(s, s', step, r);
    } else {
      QuietStepKeepsDebt(s, s', step, r);
    }
  }

  lemma RetireStepKeepsDebt(s: State, s': State, step: Step, r: Request)
    requires Next(s, s', step) && step.RetireStep? && Exclusive(s) && Waits(s, r) && r.generation in s'.pending
    ensures Waits(s', r) && Debt(s', r) <= Debt(s, r)
  {
    RetireKeepsDebt(s, s', step.p, step.g, r);
  }

  lemma UnlockStepPaysOff(s: State, s': State, step: Step, r: Request)
    requires Next(s, s', step) && step.UnlockStep? && Exclusive(s) && Waits(s, r)
    ensures Waits(s', r) && Debt(s', r) + 1 <= Debt(s, r)
  {
    UnlockPaysOff(s, s', step.p, r);
  }

  // ---------------------------------------------------------------- whole runs

  /** The serves of a run after its first `begin` steps. */
  function Serves(steps: seq<Step>, begin: nat): nat
    requires begin <= |steps|
    decreases |steps|
  {
    if begin == |steps| then 0
    else Serves(steps[..|steps| - 1], begin) + if steps[|steps| - 1].UnlockStep? then 1 else 0
  }

  /** The run is fair to `r` from state `begin` to state `end`, and `r` is still pending in the end. */
  ghost predicate FairWait(states: seq<State>, steps: seq<Step>, begin: nat, end: nat, r: Request) {
    && IsRun(states, steps) && begin <= end <= |steps|
    && Waits(states[begin], r) && r.generation in states[end].pending
    && (forall k :: 0 <= k < end ==> !ReclaimsLive(states[k], steps[k]))
    && (forall k :: begin <= k < end ==> Fair(states[k], steps[k], r))
  }

  /** A retired request does not come back. */
  lemma StillPending(states: seq<State>, steps: seq<Step>, i: nat, g: Generation)
    requires IsRun(states, steps) && i < |steps| && g in states[i].issued && g in states[i + 1].pending
    ensures g in states[i].pending
  {
    assert Next(states[i], states[i + 1], steps[i]);
    if steps[i].DispatchStep? {
      assert steps[i].r.generation !in states[i].issued;
    } else {
      RetirementIsSafe(states, steps, i);
      NothingElseWrites(states[i], states[i + 1], steps[i]);
    }
  }

  lemma IssuedKept(states: seq<State>, steps: seq<Step>, i: nat, g: Generation)
    requires IsRun(states, steps) && i < |steps| && g in states[i].issued
    ensures g in states[i + 1].issued
  {
    RetirementIsSafe(states, steps, i);
    assert Next(states[i], states[i + 1], steps[i]);
    StepGrows(states[i], states[i + 1], steps[i]);
  }

  lemma {:induction false} IssuedStays(states: seq<State>, steps: seq<Step>, begin: nat, end: nat, g: Generation)
    requires IsRun(states, steps) && begin <= end <= |steps| && g in states[begin].issued
    ensures g in states[end].issued
    decreases end
  {
    if begin < end {
      IssuedStays(states, steps, begin, end - 1, g);
      IssuedKept(states, steps, end - 1, g);
    }
  }

  lemma RunStepKeepsDebt(states: seq<State>, steps: seq<Step>, i: nat, r: Request)
    requires IsRun(states, steps) && i < |steps| && Waits(states[i], r) && r.generation in states[i + 1].pending
    requires forall k :: 0 <= k < i ==> !ReclaimsLive(states[k], steps[k])
    requires Fair(states[i], steps[i], r)
    ensures Waits(states[i + 1], r)
    ensures Debt(states[i + 1], r) + (if steps[i].UnlockStep? then 1 else 0) <= Debt(states[i], r)
  {
    OneWorkerPerProject(states, steps, i);
    RetirementIsSafe(states, steps, i);
    assert Next(states[i], states[i + 1], steps[i]);
    StepKeepsDebt(states[i], states[i + 1], steps[i], r);
  }

  lemma WasPending(states: seq<State>, steps: seq<Step>, begin: nat, i: nat, r: Request)
    requires IsRun(states, steps) && begin <= i < |steps|
    requires Waits(states[begin], r) && r.generation in states[i + 1].pending
    ensures r.generation in states[i].pending
  {
    RetirementIsSafe(states, steps, begin);
    IssuedStays(states, steps, begin, i, r.generation);
    StillPending(states, steps, i, r.generation);
  }

  /** What has been served so far, and what is still owed, is no more than was owed at the start. */
  ghost predicate WithinDebt(states: seq<State>, steps: seq<Step>, begin: nat, i: nat, r: Request)
    requires begin <= i <= |steps| && i < |states|
  {
    Waits(states[i], r) && Serves(steps[..i], begin) + Debt(states[i], r) <= Debt(states[begin], r)
  }

  lemma ShorterWait(states: seq<State>, steps: seq<Step>, begin: nat, end: nat, r: Request)
    requires FairWait(states, steps, begin, end, r) && begin < end
    ensures FairWait(states, steps, begin, end - 1, r)
  {
    WasPending(states, steps, begin, end - 1, r);
  }

  /** From one state of the wait to the next. */
  lemma OneMoreStep(states: seq<State>, steps: seq<Step>, begin: nat, k: nat, r: Request)
    requires IsRun(states, steps) && begin <= k < |steps| && WithinDebt(states, steps, begin, k, r)
    requires r.generation in states[k + 1].pending && Fair(states[k], steps[k], r)
    requires forall i :: 0 <= i < k ==> !ReclaimsLive(states[i], steps[i])
    ensures WithinDebt(states, steps, begin, k + 1, r)
  {
    ServesStep(steps, begin, k);
    RunStepKeepsDebt(states, steps, k, r);
  }

  lemma DebtGoesOn(states: seq<State>, steps: seq<Step>, begin: nat, end: nat, r: Request)
    requires FairWait(states, steps, begin, end, r) && begin < end && WithinDebt(states, steps, begin, end - 1, r)
    ensures WithinDebt(states, steps, begin, end, r)
  {
    OneMoreStep(states, steps, begin, end - 1, r);
  }

  lemma {:induction false} ServesAreBounded(states: seq<State>, steps: seq<Step>, begin: nat, end: nat, r: Request)
    requires FairWait(states, steps, begin, end, r)
    ensures WithinDebt(states, steps, begin, end, r)
    decreases end
  {
    if begin < end {
      ShorterWait(states, steps, begin, end, r);
      ServesAreBounded(states, steps, begin, end - 1, r);
      DebtGoesOn(states, steps, begin, end, r);
    } else {
      NothingServedYet(states, steps, begin, r);
    }
  }

  lemma NothingServedYet(states: seq<State>, steps: seq<Step>, begin: nat, r: Request)
    requires begin <= |steps| && begin < |states| && Waits(states[begin], r)
    ensures WithinDebt(states, steps, begin, begin, r)
  {
    assert Serves(steps[..begin], begin) == 0;
  }

  lemma ServesStep(steps: seq<Step>, begin: nat, i: nat)
    requires begin <= i < |steps|
    ensures Serves(steps[..i + 1], begin) == Serves(steps[..i], begin) + if steps[i].UnlockStep? then 1 else 0
  {
    assert steps[..i + 1][..i] == steps[..i];
  }

  lemma WaitingIsAhead(s: State, r: Request)
    requires Waits(s, r)
    ensures |Ahead(s.pending, r)| == |Ahead(s.pending, r) - {r.generation}| + 1
  {
    assert Ahead(s.pending, r) == (Ahead(s.pending, r) - {r.generation}) + {r.generation};
  }

  /** A waiting request is gone after as many serves as there were requests ahead of it, its own, and
      one by a worker that was at work already. */
  lemma OvertakingIsBounded(states: seq<State>, steps: seq<Step>, begin: nat, end: nat, r: Request)
    requires IsRun(states, steps) && begin <= end <= |steps| && Waits(states[begin], r)
    requires forall k :: 0 <= k < end ==> !ReclaimsLive(states[k], steps[k])
    requires forall k :: begin <= k < end ==> Fair(states[k], steps[k], r)
    requires Serves(steps[..end], begin) > |Ahead(states[begin].pending, r) - {r.generation}| + (if Indebted(states[begin], r) then 1 else 0)
    ensures r.generation !in states[end].pending
  {
    WaitingIsAhead(states[begin], r);
    if FairWait(states, steps, begin, end, r) {
      ServesAreBounded(states, steps, begin, end, r);
      WaitingIsAhead(states[end], r);
    }
  }
}
