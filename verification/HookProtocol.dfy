/** The dispatch protocol of harness_mem/hook_background.py as a transition system over the pending
    files, the lock file and the program counters of any number of processes.

    A foreground hook writes its request and tries to create the lock exclusively; whoever creates it
    spawns a worker that carries the lock's content as its lease. A worker that finishes checks the
    lease, retires the files it loaded, unlinks the lock, lists the queue and tries to create the lock
    again. A lock may be found stale at any time; the probe, the unlink and the second exclusive
    creation are separate steps, so locks of live processes may be taken over. */
module HookProtocol {
  import opened Wrappers
  import opened HookRequests

  type Pid = nat

  /** The files a request may be retired with: `since` is when they were listed. */
  datatype Snapshot = Snapshot(files: set<Generation>, since: nat)

  datatype Pc =
    | Opening(generation: Generation)      // about to create the lock exclusively
    | Probing(generation: Generation)      // the lock existed: about to look at its age
    | Reclaiming(generation: Generation)   // it looked stale: about to unlink it
    | Recreating(generation: Generation)   // unlinked: about to create it exclusively again
    | Holding(generation: Generation)      // created it: about to spawn the worker
    | Working(lease: Generation, loaded: map<Generation, Snapshot>, current: Generation)
    | Retiring(lease: Generation, served: Generation, since: nat, rest: set<Generation>)
    | Released                             // unlinked the lock: about to list the queue
    | Done

  /** A file was removed while serving `served` with a list taken at `since`; `lock` was the lock then. */
  datatype Retirement = Retirement(generation: Generation, served: Generation, lease: Generation, since: nat, lock: Option<Generation>)

  datatype State = State(
    pending: Queue,
    lock: Option<Generation>,
    procs: map<Pid, Pc>,
    // The rest is history.
    issued: Queue,
    writtenAt: map<Generation, nat>,
    clock: nat,
    retirements: seq<Retirement>,
    faults: nat)

  ghost predicate Init(s: State) {
    s == State(map[], None, map[], map[], map[], 0, [], 0)
  }

  function Move(s: State, p: Pid, pc: Pc): State {
    s.(procs := s.procs[p := pc], clock := s.clock + 1)
  }

  predicate At(s: State, p: Pid) {
    p in s.procs
  }

  // ---------------------------------------------------------------- acquiring the lock

  /** dispatch_post_turn persists a fresh request; the rename makes it visible in one step. */
  ghost predicate Dispatch(s: State, s': State, p: Pid, r: Request) {
    && p !in s.procs && r.generation !in s.issued
    && s' == Move(s, p, Opening(r.generation)).(
               pending := s.pending[r.generation := r],
               issued := s.issued[r.generation := r],
               writtenAt := s.writtenAt[r.generation := s.clock])
  }

  ghost predicate Open(s: State, s': State, p: Pid) {
    && At(s, p) && s.procs[p].Opening?
    && var g := s.procs[p].generation;
       s' == if s.lock == None then Move(s, p, Holding(g)).(lock := Some(g)) else Move(s, p, Probing(g))
  }

  /** A vanished or fresh lock ends the attempt; a stale one is to be reclaimed. */
  ghost predicate Probe(s: State, s': State, p: Pid, stale: bool) {
    && At(s, p) && s.procs[p].Probing?
    && s' == Move(s, p, if s.lock.Some? && stale then Reclaiming(s.procs[p].generation) else Done)
  }

  /** The unlink does not look at the content again; a lock that is gone by now ends the attempt. */
  ghost predicate Reclaim(s: State, s': State, p: Pid) {
    && At(s, p) && s.procs[p].Reclaiming?
    && s' == if s.lock == None then Move(s, p, Done)
             else Move(s, p, Recreating(s.procs[p].generation)).(lock := None)
  }

  ghost predicate Recreate(s: State, s': State, p: Pid) {
    && At(s, p) && s.procs[p].Recreating?
    && var g := s.procs[p].generation;
       s' == if s.lock == None then Move(s, p, Holding(g)).(lock := Some(g)) else Move(s, p, Done)
  }

  ghost predicate Spawn(s: State, s': State, p: Pid, worker: Pid) {
    && At(s, p) && s.procs[p].Holding? && worker !in s.procs
    && var g := s.procs[p].generation;
       s' == Move(Move(s, p, Done), worker, Working(g, map[], g))
  }

  /** A failed spawn unlinks whatever lock is there. */
  ghost predicate SpawnFails(s: State, s': State, p: Pid) {
    && At(s, p) && s.procs[p].Holding?
    && s' == Move(s, p, Done).(lock := None, faults := s.faults + 1)
  }

  ghost predicate Crash(s: State, s': State, p: Pid) {
    && At(s, p) && s.procs[p] != Done
    && s' == Move(s, p, Done).(faults := s.faults + 1)
  }

  // ---------------------------------------------------------------- serving and finishing

  /** The worker picks a request from some set of eligible sessions. */
  ghost predicate Load(s: State, s': State, p: Pid, eligible: set<SessionKey>, r: Request) {
    && At(s, p) && s.procs[p].Working?
    && IsServed(s.pending, eligible, r)
    && var w := s.procs[p];
       var files := Snapshot(SessionMembers(s.pending, SessionOf(r)), s.clock);
       s' == Move(s, p, Working(w.lease, if r.generation in w.loaded then w.loaded else w.loaded[r.generation := files], r.generation))
  }

  /** finish_background_worker: a lease that no longer matches ends the worker without any effect. */
  ghost predicate Finish(s: State, s': State, p: Pid) {
    && At(s, p) && s.procs[p].Working?
    && var w := s.procs[p];
       s' == if s.lock != Some(w.lease) then Move(s, p, Done)
             else if w.current in w.loaded && w.loaded[w.current].files != {} then
               Move(s, p, Retiring(w.lease, w.current, w.loaded[w.current].since, w.loaded[w.current].files))
             else
               Move(s, p, Retiring(w.lease, w.current, s.clock, s.pending.Keys * {w.current}))
  }

  ghost predicate Retire(s: State, s': State, p: Pid, g: Generation) {
    && At(s, p) && s.procs[p].Retiring? && g in s.procs[p].rest
    && var w := s.procs[p];
       var moved := Move(s, p, w.(rest := w.rest - {g}));
       s' == if g in s.pending then
               moved.(pending := s.pending - {g},
                      retirements := s.retirements + [Retirement(g, w.served, w.lease, w.since, s.lock)])
             else moved
  }

  ghost predicate Unlock(s: State, s': State, p: Pid) {
    && At(s, p) && s.procs[p].Retiring? && s.procs[p].rest == {}
    && s' == Move(s, p, Released).(lock := None)
  }

  /** An empty queue ends the process; otherwise it competes for the lock on behalf of the next request. */
  ghost predicate Relist(s: State, s': State, p: Pid, r: Request) {
    && At(s, p) && s.procs[p].Released?
    && if s.pending == map[] then s' == Move(s, p, Done)
       else IsServed(s.pending, Sessions(s.pending), r) && s' == Move(s, p, Opening(r.generation))
  }

  datatype Step =
    | DispatchStep(p: Pid, r: Request)
    | OpenStep(p: Pid)
    | ProbeStep(p: Pid, stale: bool)
    | ReclaimStep(p: Pid)
    | RecreateStep(p: Pid)
    | SpawnStep(p: Pid, worker: Pid)
    | SpawnFailsStep(p: Pid)
    | CrashStep(p: Pid)
    | LoadStep(p: Pid, eligible: set<SessionKey>, r: Request)
    | FinishStep(p: Pid)
    | RetireStep(p: Pid, g: Generation)
    | UnlockStep(p: Pid)
    | RelistStep(p: Pid, r: Request)

  ghost predicate Next(s: State, s': State, step: Step) {
    match step
    case DispatchStep(p, r) => Dispatch(s, s', p, r)
    case OpenStep(p) => Open(s, s', p)
    case ProbeStep(p, stale) => Probe(s, s', p, stale)
    case ReclaimStep(p) => Reclaim(s, s', p)
    case RecreateStep(p) => Recreate(s, s', p)
    case SpawnStep(p, worker) => Spawn(s, s', p, worker)
    case SpawnFailsStep(p) => SpawnFails(s, s', p)
    case CrashStep(p) => Crash(s, s', p)
    case LoadStep(p, eligible, r) => Load(s, s', p, eligible, r)
    case FinishStep(p) => Finish(s, s', p)
    case RetireStep(p, g) => Retire(s, s', p, g)
    case UnlockStep(p) => Unlock(s, s', p)
    case RelistStep(p, r) => Relist(s, s', p, r)
  }

  /** A run: states[i] becomes states[i + 1] by steps[i]. */
  ghost predicate IsRun(states: seq<State>, steps: seq<Step>) {
    && |states| == |steps| + 1
    && Init(states[0])
    && forall i :: 0 <= i < |steps| ==> Next(states[i], states[i + 1], steps[i])
  }

  // ---------------------------------------------------------------- no lost wakeup

  /** Will unlink the lock with this content, or hand it to a worker that will. */
  predicate Responsible(pc: Pc, g: Generation) {
    (pc.Holding? && pc.generation == g) || ((pc.Working? || pc.Retiring?) && pc.lease == g)
  }

  /** Will look at the queue, or create the lock, without depending on anyone else. */
  predicate Contending(pc: Pc) {
    pc.Opening? || pc.Recreating? || pc.Released?
  }

  ghost predicate LockIsOwned(s: State) {
    s.lock.Some? ==> exists p :: p in s.procs && Responsible(s.procs[p], s.lock.value)
  }

  ghost predicate QueueIsWatched(s: State) {
    s.lock == None && s.pending != map[] ==> exists p :: p in s.procs && Contending(s.procs[p])
  }

  /** A lock has a live process that is responsible for it, and a queue without a lock has a live
      process that is about to act on it. */
  ghost predicate Awake(s: State) {
    LockIsOwned(s) && QueueIsWatched(s)
  }

  predicate IsFault(step: Step) {
    step.CrashStep? || step.SpawnFailsStep?
  }

  lemma StepKeepsOwned(s: State, s': State, step: Step)
    requires Next(s, s', step) && !IsFault(step)
    requires LockIsOwned(s)
    ensures LockIsOwned(s')
  {
    if s'.lock.Some? {
      if s'.lock != s.lock {
        assert Responsible(s'.procs[step.p], s'.lock.value);
      } else {
        var q :| q in s.procs && Responsible(s.procs[q], s.lock.value);
        if q != step.p {
          assert !(step.SpawnStep? && q == step.worker);
          OthersStay(s, s', step, q);
          assert Responsible(s'.procs[q], s'.lock.value);
        } else if step.SpawnStep? {
          assert Responsible(s'.procs[step.worker], s'.lock.value);
        } else {
          assert Responsible(s'.procs[step.p], s'.lock.value);
        }
      }
    }
  }

  lemma StepKeepsWatched(s: State, s': State, step: Step)
    requires Next(s, s', step) && !IsFault(step)
    requires QueueIsWatched(s)
    ensures QueueIsWatched(s')
  {
    if s'.lock == None && s'.pending != map[] {
      if s.lock.Some? || step.DispatchStep? {
        assert Contending(s'.procs[step.p]);
      } else {
        assert s.pending != map[];
        var q :| q in s.procs && Contending(s.procs[q]);
        assert Contending(s'.procs[if q == step.p then step.p else q]);
      }
    }
  }

  /** No process but `p` is responsible for the lock. */
  ghost predicate OnlyGuardian(s: State, p: Pid) {
    && s.lock.Some? && p in s.procs && Responsible(s.procs[p], s.lock.value)
    && forall q :: q in s.procs && q != p ==> !Responsible(s.procs[q], s.lock.value)
  }

  /** No process but `p` is about to act on the queue. */
  ghost predicate NobodyElseContends(s: State, p: Pid) {
    forall q :: q in s.procs && q != p ==> !Contending(s.procs[q])
  }

  /** The faults that strand work: the crash of the only process responsible for the lock, the crash of
      the only one about to act on a waiting queue, and a failed spawn with requests waiting and nobody
      else about to act on them. */
  ghost predicate Strands(s: State, step: Step) {
    match step
    case CrashStep(p) =>
      || OnlyGuardian(s, p)
      || (s.lock == None && s.pending != map[] && p in s.procs && Contending(s.procs[p]) && NobodyElseContends(s, p))
    case SpawnFailsStep(p) => s.pending != map[] && NobodyElseContends(s, p)
    case _ => false
  }

  /** A step leaves a lock without its process, or a queue without a watcher, exactly if it is one of
      those faults. Takeovers of locks, live or stale, are harmless here. */
  lemma StepAwakeIff(s: State, s': State, step: Step)
    requires Next(s, s', step) && Awake(s)
    ensures Awake(s') <==> !Strands(s, step)
  {
    match step
    case CrashStep(p) => CrashAwakeIff(s, s', p);
    case SpawnFailsStep(p) => SpawnFailureAwakeIff(s, s', p);
    case _ =>
      StepKeepsOwned(s, s', step);
      StepKeepsWatched(s, s', step);
  }

  lemma CrashAwakeIff(s: State, s': State, p: Pid)
    requires Crash(s, s', p) && Awake(s)
    ensures Awake(s') <==> !Strands(s, CrashStep(p))
  {
    assert s'.lock == s.lock && s'.pending == s.pending;
    assert forall q :: q in s.procs && q != p ==> s'.procs[q] == s.procs[q];
    if !Strands(s, CrashStep(p)) {
      if s.lock.Some? {
        var q :| q in s.procs && q != p && Responsible(s.procs[q], s.lock.value);
        assert Responsible(s'.procs[q], s'.lock.value);
      } else if s.pending != map[] {
        var q :| q in s.procs && q != p && Contending(s.procs[q]);
        assert Contending(s'.procs[q]);
      }
    }
  }

  lemma SpawnFailureAwakeIff(s: State, s': State, p: Pid)
    requires SpawnFails(s, s', p)
    ensures Awake(s') <==> !Strands(s, SpawnFailsStep(p))
  {
    assert forall q :: q in s.procs && q != p ==> s'.procs[q] == s.procs[q];
    if s.pending != map[] && !NobodyElseContends(s, p) {
      var q :| q in s.procs && q != p && Contending(s.procs[q]);
      assert Contending(s'.procs[q]);
    }
  }

  /** In every reachable state a lock has a live process that is responsible for it, and a queue without
      a lock has one that is about to act on it, as long as no fault strands work. */
  lemma {:induction false} NoLostWakeup(states: seq<State>, steps: seq<Step>, i: nat)
    requires IsRun(states, steps) && i < |states|
    requires forall k :: 0 <= k < i ==> !Strands(states[k], steps[k])
    ensures Awake(states[i])
  {
    if i > 0 {
      NoLostWakeup(states, steps, i - 1);
      StepAwakeIff(states[i - 1], states[i], steps[i - 1]);
    }
  }

  /** Runs without any fault are among these. */
  lemma {:induction false} FaultlessRunsStrandNothing(states: seq<State>, steps: seq<Step>, i: nat, k: nat)
    requires IsRun(states, steps) && k < i < |states| && states[i].faults == 0
    ensures !Strands(states[k], steps[k]) && states[k].faults == 0
    decreases i - k
  {
    if k + 1 < i {
      FaultlessRunsStrandNothing(states, steps, i, k + 1);
    }
    assert Next(states[k], states[k + 1], steps[k]);
  }

  predicate Quiescent(s: State) {
    forall p :: p in s.procs ==> s.procs[p] == Done
  }

  /** When everybody is done, nothing is stranded: neither a request nor a lock. */
  lemma QuiescentMeansServed(states: seq<State>, steps: seq<Step>, i: nat)
    requires IsRun(states, steps) && i < |states| && Quiescent(states[i])
    requires forall k :: 0 <= k < i ==> !Strands(states[k], steps[k])
    ensures states[i].pending == map[] && states[i].lock == None
  {
    NoLostWakeup(states, steps, i);
  }

  /** What wakes the project up again after such a fault, whatever the state: a new request when there
      is no lock, and the reclaim of a lock. */
  lemma NextHookWakes(s: State, s': State, step: Step)
    requires Next(s, s', step)
    requires (step.DispatchStep? && s.lock == None) || (step.ReclaimStep? && s.lock.Some?)
    ensures Awake(s')
  {
    assert Contending(s'.procs[step.p]);
  }

  /** Such a fault does happen: a failed spawn strands the request it was for. */
  lemma FailedSpawnStrands(r: Request) returns (states: seq<State>, steps: seq<Step>)
    ensures IsRun(states, steps)
    ensures var s := states[|states| - 1]; Quiescent(s) && s.lock == None && s.pending == map[r.generation := r]
  {
    var s0 := State(map[], None, map[], map[], map[], 0, [], 0);
    var s1 := Move(s0, 0, Opening(r.generation)).(
                pending := s0.pending[r.generation := r], issued := s0.issued[r.generation := r],
                writtenAt := s0.writtenAt[r.generation := s0.clock]);
    var s2 := Move(s1, 0, Holding(r.generation)).(lock := Some(r.generation));
    var s3 := Move(s2, 0, Done).(lock := None, faults := s2.faults + 1);
    states := [s0, s1, s2, s3];
    steps := [DispatchStep(0, r), OpenStep(0), SpawnFailsStep(0)];
    assert Next(s0, s1, steps[0]) && Next(s1, s2, steps[1]) && Next(s2, s3, steps[2]);
  }

  // ---------------------------------------------------------------- retirement

  /** Every file of the list was written before the list was taken, by the session of `served`, and is
      ordered no later than `served`. */
  ghost predicate LawfulFiles(s: State, served: Generation, files: set<Generation>, since: nat) {
    && served in s.issued && since <= s.clock
    && forall g :: g in files ==>
         && g in s.issued && g in s.writtenAt && s.writtenAt[g] < since
         && SessionOf(s.issued[g]) == SessionOf(s.issued[served])
         && NotLater(s.issued[g], s.issued[served])
  }

  ghost predicate LawfulProcess(s: State, pc: Pc) {
    && (pc.Opening? || pc.Probing? || pc.Reclaiming? || pc.Recreating? || pc.Holding? ==> pc.generation in s.issued)
    && (pc.Working? ==> pc.current in s.issued && pc.lease in s.issued
                        && forall g :: g in pc.loaded ==> LawfulFiles(s, g, pc.loaded[g].files, pc.loaded[g].since))
    && (pc.Retiring? ==> LawfulFiles(s, pc.served, pc.rest, pc.since))
  }

  ghost predicate LawfulRetirement(s: State, r: Retirement) {
    LawfulFiles(s, r.served, {r.generation}, r.since)
  }

  ghost predicate HistoryMatches(s: State) {
    && WellNamed(s.issued)
    && s.writtenAt.Keys == s.issued.Keys
    && (forall g :: g in s.writtenAt ==> s.writtenAt[g] < s.clock)
    && (forall g :: g in s.pending ==> g in s.issued && s.issued[g] == s.pending[g])
  }

  ghost predicate ProcessesLawful(s: State) {
    forall p :: p in s.procs ==> LawfulProcess(s, s.procs[p])
  }

  ghost predicate RetirementsLawful(s: State) {
    forall i :: 0 <= i < |s.retirements| ==> LawfulRetirement(s, s.retirements[i])
  }

  ghost predicate Retired(s: State, g: Generation) {
    exists i :: 0 <= i < |s.retirements| && s.retirements[i].generation == g
  }

  /** Requests are removed only by retirement, and every retirement is lawful. */
  ghost predicate Lawful(s: State) {
    && HistoryMatches(s)
    && ProcessesLawful(s)
    && RetirementsLawful(s)
    && (forall g :: g in s.issued && g !in s.pending ==> Retired(s, g))
  }

  /** History only grows. */
  ghost predicate Grows(s: State, s': State) {
    && s.clock < s'.clock
    && (forall g :: g in s.issued ==> g in s'.issued && s'.issued[g] == s.issued[g])
    && (forall g :: g in s.writtenAt ==> g in s'.writtenAt && s'.writtenAt[g] == s.writtenAt[g])
  }

  lemma StepGrows(s: State, s': State, step: Step)
    requires Next(s, s', step) && s.writtenAt.Keys == s.issued.Keys
    ensures Grows(s, s')
  {
  }

  lemma FilesStayLawful(s: State, s': State, served: Generation, files: set<Generation>, since: nat)
    requires Grows(s, s') && LawfulFiles(s, served, files, since)
    ensures LawfulFiles(s', served, files, since)
  {
  }

  lemma ProcessStaysLawful(s: State, s': State, pc: Pc)
    requires Grows(s, s') && LawfulProcess(s, pc)
    ensures LawfulProcess(s', pc)
  {
    if pc.Working? {
      forall g | g in pc.loaded ensures LawfulFiles(s', g, pc.loaded[g].files, pc.loaded[g].since) {
        FilesStayLawful(s, s', g, pc.loaded[g].files, pc.loaded[g].since);
      }
    } else if pc.Retiring? {
      FilesStayLawful(s, s', pc.served, pc.rest, pc.since);
    }
  }

  lemma LoaderIsLawful(s: State, s': State, p: Pid, eligible: set<SessionKey>, r: Request)
    requires Load(s, s', p, eligible, r) && HistoryMatches(s) && ProcessesLawful(s) && Grows(s, s')
    ensures LawfulProcess(s', s'.procs[p])
  {
    var w := s.procs[p];
    var files := SessionMembers(s.pending, SessionOf(r));
    assert LawfulFiles(s, r.generation, files, s.clock);
    FilesStayLawful(s, s', r.generation, files, s.clock);
    assert LawfulProcess(s, w);
    ProcessStaysLawful(s, s', w);
  }

  lemma FinisherIsLawful(s: State, s': State, p: Pid)
    requires Finish(s, s', p) && HistoryMatches(s) && ProcessesLawful(s) && Grows(s, s')
    ensures LawfulProcess(s', s'.procs[p])
  {
    var w := s.procs[p];
    assert LawfulProcess(s, w);
    ProcessStaysLawful(s, s', w);
  }

  lemma RetirerIsLawful(s: State, s': State, p: Pid, g: Generation)
    requires Retire(s, s', p, g) && HistoryMatches(s) && ProcessesLawful(s) && Grows(s, s')
    ensures LawfulProcess(s', s'.procs[p])
    ensures LawfulFiles(s', s.procs[p].served, {g}, s.procs[p].since)
  {
    var w := s.procs[p];
    assert LawfulProcess(s, w);
    FilesStayLawful(s, s', w.served, w.rest, w.since);
  }

  predicate IsWorkerStep(step: Step) {
    step.LoadStep? || step.FinishStep? || step.RetireStep?
  }

  lemma WorkersAreLawful(s: State, s': State, step: Step)
    requires Next(s, s', step) && IsWorkerStep(step) && HistoryMatches(s) && ProcessesLawful(s) && Grows(s, s')
    ensures LawfulProcess(s', s'.procs[step.p])
  {
    match step
    case LoadStep(p, eligible, r) => LoaderIsLawful(s, s', p, eligible, r);
    case FinishStep(p) => FinisherIsLawful(s, s', p);
    case RetireStep(p, g) => RetirerIsLawful(s, s', p, g);
  }

  /** The processes that move are lawful afterwards. */
  lemma MoversAreLawful(s: State, s': State, step: Step)
    requires Next(s, s', step) && HistoryMatches(s) && ProcessesLawful(s) && Grows(s, s')
    ensures LawfulProcess(s', s'.procs[step.p])
  {
    if IsWorkerStep(step) {
      WorkersAreLawful(s, s', step);
    } else {
      match step
      case SpawnStep(p, worker) => SpawnedIsLawful(s, s', p, worker);
      case DispatchStep(p, r) => DispatcherIsLawful(s, s', p, r);
      case RelistStep(p, r) => RelisterIsLawful(s, s', p, r);
      case _ => LockUserIsLawful(s, s', step);
    }
  }

  lemma SpawnedIsLawful(s: State, s': State, p: Pid, worker: Pid)
    requires Spawn(s, s', p, worker) && ProcessesLawful(s) && Grows(s, s')
    ensures LawfulProcess(s', s'.procs[p]) && LawfulProcess(s', s'.procs[worker])
  {
    assert LawfulProcess(s, s.procs[p]);
  }

  lemma DispatcherIsLawful(s: State, s': State, p: Pid, r: Request)
    requires Dispatch(s, s', p, r)
    ensures LawfulProcess(s', s'.procs[p])
  {
  }

  lemma RelisterIsLawful(s: State, s': State, p: Pid, r: Request)
    requires Relist(s, s', p, r) && HistoryMatches(s) && Grows(s, s')
    ensures LawfulProcess(s', s'.procs[p])
  {
  }

  /** Steps that leave a process done, or with the generation it had. */
  lemma LockUserIsLawful(s: State, s': State, step: Step)
    requires Next(s, s', step) && ProcessesLawful(s) && Grows(s, s')
    requires !(step.LoadStep? || step.FinishStep? || step.RetireStep? || step.SpawnStep? || step.DispatchStep? || step.RelistStep?)
    ensures LawfulProcess(s', s'.procs[step.p])
  {
    assert LawfulProcess(s, s.procs[step.p]);
  }

  lemma StepKeepsProcessesLawful(s: State, s': State, step: Step)
    requires Next(s, s', step) && HistoryMatches(s) && ProcessesLawful(s) && Grows(s, s')
    ensures ProcessesLawful(s')
  {
    MoversAreLawful(s, s', step);
    if step.SpawnStep? {
      SpawnedIsLawful(s, s', step.p, step.worker);
    }
    forall p | p in s'.procs ensures LawfulProcess(s', s'.procs[p]) {
      if p != step.p && !(step.SpawnStep? && p == step.worker) {
        OthersStay(s, s', step, p);
        ProcessStaysLawful(s, s', s.procs[p]);
      }
    }
  }

  /** A step moves one process, and a spawn adds one. */
  lemma OthersStay(s: State, s': State, step: Step, p: Pid)
    requires Next(s, s', step) && p != step.p && !(step.SpawnStep? && p == step.worker)
    ensures p in s'.procs <==> p in s.procs
    ensures p in s.procs ==> s'.procs[p] == s.procs[p]
  {
  }

  lemma RetirementStaysLawful(s: State, s': State, r: Retirement)
    requires Grows(s, s') && LawfulRetirement(s, r)
    ensures LawfulRetirement(s', r)
  {
    FilesStayLawful(s, s', r.served, {r.generation}, r.since);
  }

  /** A step adds at most the record of the file it removes. */
  lemma RetirementsAppended(s: State, s': State, step: Step)
    requires Next(s, s', step)
    ensures s'.retirements == s.retirements
            || (step.RetireStep? && At(s, step.p) && s.procs[step.p].Retiring?
                && var w := s.procs[step.p];
                   s'.retirements == s.retirements + [Retirement(step.g, w.served, w.lease, w.since, s.lock)])
  {
  }

  lemma StepKeepsRetirementsLawful(s: State, s': State, step: Step)
    requires Next(s, s', step) && Lawful(s) && Grows(s, s')
    ensures RetirementsLawful(s')
  {
    if step.RetireStep? {
      RetirerIsLawful(s, s', step.p, step.g);
    }
    RetirementsAppended(s, s', step);
    forall i | 0 <= i < |s'.retirements| ensures LawfulRetirement(s', s'.retirements[i]) {
      if i < |s.retirements| {
        RetirementStaysLawful(s, s', s.retirements[i]);
      }
    }
  }

  lemma StepKeepsAccount(s: State, s': State, step: Step, g: Generation)
    requires Next(s, s', step) && g in s'.issued && g !in s'.pending
    requires g in s.issued && g !in s.pending ==> Retired(s, g)
    ensures Retired(s', g)
  {
    if g in s.issued && g !in s.pending {
      var i :| 0 <= i < |s.retirements| && s.retirements[i].generation == g;
      assert s'.retirements[i] == s.retirements[i];
    } else {
      assert s'.retirements[|s.retirements|].generation == g;
    }
  }

  lemma StepKeepsHistory(s: State, s': State, step: Step)
    requires Next(s, s', step) && HistoryMatches(s)
    ensures HistoryMatches(s')
  {
    match step
    case DispatchStep(p, r) => DispatchKeepsHistory(s, s', p, r);
    case _ => NothingElseWrites(s, s', step);
  }

  lemma DispatchKeepsHistory(s: State, s': State, p: Pid, r: Request)
    requires Dispatch(s, s', p, r) && HistoryMatches(s)
    ensures HistoryMatches(s')
  {
  }

  lemma NothingElseWrites(s: State, s': State, step: Step)
    requires Next(s, s', step) && !step.DispatchStep?
    ensures s'.issued == s.issued && s'.writtenAt == s.writtenAt && s.clock < s'.clock
    ensures forall g :: g in s'.pending ==> g in s.pending && s'.pending[g] == s.pending[g]
  {
  }

  lemma StepKeepsLawful(s: State, s': State, step: Step)
    requires Next(s, s', step) && Lawful(s)
    ensures Lawful(s')
  {
    StepGrows(s, s', step);
    StepKeepsHistory(s, s', step);
    StepKeepsProcessesLawful(s, s', step);
    StepKeepsRetirementsLawful(s, s', step);
    forall g | g in s'.issued && g !in s'.pending ensures Retired(s', g) {
      StepKeepsAccount(s, s', step, g);
    }
  }

  /** Retirement safety over all runs, whatever is reclaimed when: a file disappears only together with
      the record of a lawful retirement. In particular a request written after the list was taken
      survives that retirement, whatever its timestamp. */
  lemma {:induction false} RetirementIsSafe(states: seq<State>, steps: seq<Step>, i: nat)
    requires IsRun(states, steps) && i < |states|
    ensures Lawful(states[i])
  {
    if i > 0 {
      RetirementIsSafe(states, steps, i - 1);
      StepKeepsLawful(states[i - 1], states[i], steps[i - 1]);
    }
  }

  /** In every run, a request that is removed while another one was served is of the same conversation: the
      same source, and the same real trigger id. One without is only removed when it was served itself. */
  lemma RetiredWithItsConversation(states: seq<State>, steps: seq<Step>, i: nat, k: nat)
    requires IsRun(states, steps) && i < |states| && k < |states[i].retirements|
    ensures var s, x := states[i], states[i].retirements[k];
            && x.generation in s.issued && x.served in s.issued
            && (x.generation != x.served ==>
                  var gone, served := s.issued[x.generation], s.issued[x.served];
                  && gone.source == served.source && gone.triggerId == served.triggerId
                  && gone.triggerId.Some?
                  && gone.triggerId.value !in {"", "codex-stop", "antigravity-stop", "hermes-post-llm"}
                  && gone.requestedAt <= served.requestedAt)
  {
    RetirementIsSafe(states, steps, i);
    var s, x := states[i], states[i].retirements[k];
    assert LawfulRetirement(s, x);
    if x.generation != x.served {
      SessionsAreConversations(s.issued[x.generation], s.issued[x.served]);
    }
  }

  /** A worker that loads a request for the first time takes everything along that is pending of its
      conversation, and of no other. */
  lemma LoadTakesItsConversation(states: seq<State>, steps: seq<Step>, i: nat, g: Generation)
    requires IsRun(states, steps) && i < |steps| && steps[i].LoadStep?
    requires At(states[i], steps[i].p) && states[i].procs[steps[i].p].Working?
    requires steps[i].r.generation !in states[i].procs[steps[i].p].loaded
    ensures var r, s, w := steps[i].r, states[i], states[i + 1].procs[steps[i].p];
            && w.Working? && w.current == r.generation && r.generation in w.loaded
            && (g in w.loaded[r.generation].files <==> g in s.pending && (g == r.generation || SameConversation(s.pending[g], r)))
  {
    RetirementIsSafe(states, steps, i);
    assert Next(states[i], states[i + 1], steps[i]);
    SnapshotIsConversation(states[i].pending, steps[i].r, g);
  }

  // ---------------------------------------------------------------- one worker per project

  /** Relies on the lock it created, or inherited as a lease. */
  predicate Committed(pc: Pc) {
    pc.Holding? || pc.Working? || pc.Retiring?
  }

  function LeaseOf(pc: Pc): Generation
    requires Committed(pc)
  {
    if pc.Holding? then pc.generation else pc.lease
  }

  /** At most one process relies on the lock, and the lock carries its lease. */
  ghost predicate Exclusive(s: State) {
    && (forall p :: p in s.procs && Committed(s.procs[p]) ==> s.lock == Some(LeaseOf(s.procs[p])))
    && (forall p, q :: p in s.procs && q in s.procs && Committed(s.procs[p]) && Committed(s.procs[q]) ==> p == q)
  }

  /** A lock is unlinked as stale although the process that relies on it is alive. */
  ghost predicate ReclaimsLive(s: State, step: Step) {
    step.ReclaimStep? && s.lock.Some? && exists p :: p in s.procs && Committed(s.procs[p])
  }

  /** Exclusiveness survives a step exactly when the step does not take the lock from a live process:
      this is what the heartbeats are for. Crashes and failed spawns do not endanger it. */
  lemma StepExclusiveIff(s: State, s': State, step: Step)
    requires Next(s, s', step) && Exclusive(s)
    ensures Exclusive(s') <==> !ReclaimsLive(s, step)
  {
    if ReclaimsLive(s, step) {
      var q :| q in s.procs && Committed(s.procs[q]);
      OthersStay(s, s', step, q);
      assert Committed(s'.procs[q]) && s'.lock == None;
    } else {
      StepKeepsExclusive(s, s', step);
    }
  }

  /** The only process a step can make rely on the lock. */
  function Newcomer(step: Step): Pid {
    if step.SpawnStep? then step.worker else step.p
  }

  lemma NewcomerIsAlone(s: State, s': State, step: Step, p: Pid)
    requires Next(s, s', step) && Exclusive(s) && !ReclaimsLive(s, step)
    requires p in s'.procs && Committed(s'.procs[p]) && p != Newcomer(step)
    ensures s'.lock == Some(LeaseOf(s'.procs[p])) && p in s.procs && s.procs[p] == s'.procs[p]
    ensures p != step.p && (Newcomer(step) in s'.procs ==> !Committed(s'.procs[Newcomer(step)]))
  {
    assert p != step.p;
    OthersStay(s, s', step, p);
    assert Committed(s.procs[p]);
  }

  lemma NewcomerHasTheLock(s: State, s': State, step: Step)
    requires Next(s, s', step) && Exclusive(s)
    ensures Newcomer(step) in s'.procs && (Committed(s'.procs[Newcomer(step)]) ==> s'.lock == Some(LeaseOf(s'.procs[Newcomer(step)])))
  {
    match step
    case LoadStep(p, eligible, r) => LoaderKeepsTheLock(s, s', p, eligible, r);
    case FinishStep(p) => FinisherHasTheLock(s, s', p);
    case RetireStep(p, g) => RetirerKeepsTheLock(s, s', p, g);
    case _ =>
  }

  lemma LoaderKeepsTheLock(s: State, s': State, p: Pid, eligible: set<SessionKey>, r: Request)
    requires Load(s, s', p, eligible, r) && Exclusive(s)
    ensures s'.lock == Some(LeaseOf(s'.procs[p]))
  {
    assert Committed(s.procs[p]);
  }

  lemma FinisherHasTheLock(s: State, s': State, p: Pid)
    requires Finish(s, s', p)
    ensures Committed(s'.procs[p]) ==> s'.lock == Some(LeaseOf(s'.procs[p]))
  {
  }

  lemma RetirerKeepsTheLock(s: State, s': State, p: Pid, g: Generation)
    requires Retire(s, s', p, g) && Exclusive(s)
    ensures s'.lock == Some(LeaseOf(s'.procs[p]))
  {
    assert Committed(s.procs[p]);
  }

  lemma StepKeepsExclusive(s: State, s': State, step: Step)
    requires Next(s, s', step) && Exclusive(s) && !ReclaimsLive(s, step)
    ensures Exclusive(s')
  {
    NewcomerHasTheLock(s, s', step);
    forall p | p in s'.procs && Committed(s'.procs[p]) && p != Newcomer(step)
      ensures s'.lock == Some(LeaseOf(s'.procs[p])) && p in s.procs && s.procs[p] == s'.procs[p]
      ensures !Committed(s'.procs[Newcomer(step)])
    {
      NewcomerIsAlone(s, s', step, p);
    }
  }

  /** Every file is removed while the lock carries the lease of the process that removes it. */
  ghost predicate Fenced(s: State) {
    forall i :: 0 <= i < |s.retirements| ==> s.retirements[i].lock == Some(s.retirements[i].lease)
  }

  lemma StepKeepsFenced(s: State, s': State, step: Step)
    requires Next(s, s', step) && Exclusive(s) && Fenced(s)
    ensures Fenced(s')
  {
    if step.RetireStep? {
      assert Committed(s.procs[step.p]);
    }
  }

  /** As long as no live process loses its lock, one process at a time works for the project, and
      every file is removed under the lease that is in the lock. */
  lemma {:induction false} OneWorkerPerProject(states: seq<State>, steps: seq<Step>, i: nat)
    requires IsRun(states, steps) && i < |states|
    requires forall k :: 0 <= k < i ==> !ReclaimsLive(states[k], steps[k])
    ensures Exclusive(states[i]) && Fenced(states[i])
  {
    if i > 0 {
      OneWorkerPerProject(states, steps, i - 1);
      StepExclusiveIff(states[i - 1], states[i], steps[i - 1]);
      StepKeepsFenced(states[i - 1], states[i], steps[i - 1]);
    }
  }

  lemma ExtendRun(states: seq<State>, steps: seq<Step>, s: State, step: Step)
    requires IsRun(states, steps) && Next(states[|states| - 1], s, step)
    ensures IsRun(states + [s], steps + [step])
  {
    var longer, more := states + [s], steps + [step];
    forall i | 0 <= i < |more| ensures Next(longer[i], longer[i + 1], more[i]) {
      if i < |steps| {
        assert Next(states[i], states[i + 1], steps[i]);
      }
    }
  }

  /** The condition is needed: a worker that is slow between its lease check and its unlinks loses the
      lock to a later request and then removes its file under the other lease. */
  lemma TakeoverBreaksTheFence(first: Request, second: Request) returns (states: seq<State>, steps: seq<Step>)
    requires first.generation != second.generation
    ensures IsRun(states, steps) && !Fenced(states[|states| - 1])
  {
    var g, h := first.generation, second.generation;
    var s0 := State(map[], None, map[], map[], map[], 0, [], 0);
    var s1 := Move(s0, 0, Opening(g)).(pending := map[g := first], issued := map[g := first], writtenAt := map[g := 0]);
    var s2 := Move(s1, 0, Holding(g)).(lock := Some(g));
    var s3 := Move(Move(s2, 0, Done), 1, Working(g, map[], g));
    var s4 := Move(s3, 1, Retiring(g, g, s3.clock, s3.pending.Keys * {g}));
    states, steps := [s0], [];
    ExtendRun(states, steps, s1, DispatchStep(0, first));
    states, steps := states + [s1], steps + [DispatchStep(0, first)];
    ExtendRun(states, steps, s2, OpenStep(0));
    states, steps := states + [s2], steps + [OpenStep(0)];
    ExtendRun(states, steps, s3, SpawnStep(0, 1));
    states, steps := states + [s3], steps + [SpawnStep(0, 1)];
    ExtendRun(states, steps, s4, FinishStep(1));
    states, steps := states + [s4], steps + [FinishStep(1)];
    states, steps := TakeOver(states, steps, second, g);
  }

  lemma TakeOver(states0: seq<State>, steps0: seq<Step>, second: Request, g: Generation) returns (states: seq<State>, steps: seq<Step>)
    requires IsRun(states0, steps0)
    requires var s := states0[|states0| - 1];
             && s.lock == Some(g) && second.generation !in s.issued && second.generation != g
             && 1 in s.procs && 2 !in s.procs && s.procs[1].Retiring? && s.procs[1].lease == g
             && g in s.procs[1].rest && g in s.pending
    ensures IsRun(states, steps) && !Fenced(states[|states| - 1])
  {
    states, steps := states0, steps0;
    var h := second.generation;
    var s4 := states[|states| - 1];
    var s5 := Move(s4, 2, Opening(h)).(pending := s4.pending[h := second], issued := s4.issued[h := second], writtenAt := s4.writtenAt[h := s4.clock]);
    ExtendRun(states, steps, s5, DispatchStep(2, second));
    states, steps := states + [s5], steps + [DispatchStep(2, second)];
    var s6 := Move(s5, 2, Probing(h));
    ExtendRun(states, steps, s6, OpenStep(2));
    states, steps := states + [s6], steps + [OpenStep(2)];
    var s7 := Move(s6, 2, Reclaiming(h));
    ExtendRun(states, steps, s7, ProbeStep(2, true));
    states, steps := states + [s7], steps + [ProbeStep(2, true)];
    var s8 := Move(s7, 2, Recreating(h)).(lock := None);
    ExtendRun(states, steps, s8, ReclaimStep(2));
    states, steps := states + [s8], steps + [ReclaimStep(2)];
    var s9 := Move(s8, 2, Holding(h)).(lock := Some(h));
    ExtendRun(states, steps, s9, RecreateStep(2));
    states, steps := states + [s9], steps + [RecreateStep(2)];
    var w := s9.procs[1];
    var last := Retirement(g, w.served, w.lease, w.since, s9.lock);
    var s10 := Move(s9, 1, w.(rest := w.rest - {g})).(pending := s9.pending - {g}, retirements := s9.retirements + [last]);
    ExtendRun(states, steps, s10, RetireStep(1, g));
    states, steps := states + [s10], steps + [RetireStep(1, g)];
    assert s10.retirements[|s9.retirements|] == last;
  }
}
