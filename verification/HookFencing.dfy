/** What the lease check protects after a takeover (_lease_matches and finish_background_worker in
    harness_mem/hook_background.py), over runs of HookProtocol in which locks of live processes may be
    reclaimed.

    A lease is the generation of the request the lock was created for, and a finishing worker creates
    the next lock for whatever request is next. So the content of the lock says who may finish only as
    long as no lock is created with the lease of a worker that was superseded but is still at work. */
module HookFencing {
  import opened Wrappers
  import opened HookRequests
  import opened HookProtocol

  // ---------------------------------------------------------------- the guard

  /** Whoever removes files and is about to release the lock has its lease in the lock, and nobody
      else relies on that lease. */
  ghost predicate Guarded(s: State) {
    && (forall p :: p in s.procs && s.procs[p].Retiring? ==> s.lock == Some(s.procs[p].lease))
    && (forall p, q :: p in s.procs && q in s.procs && OwnsLock(s, p) && OwnsLock(s, q) ==> p == q)
  }

  ghost predicate OwnsLock(s: State, p: Pid)
    requires p in s.procs
  {
    Committed(s.procs[p]) && s.lock == Some(LeaseOf(s.procs[p]))
  }

  ghost predicate SomebodyRetires(s: State) {
    exists p :: p in s.procs && s.procs[p].Retiring?
  }

  /** Some live process works, or is about to spawn, under this lease. */
  ghost predicate LeaseInUse(s: State, g: Generation) {
    exists p :: p in s.procs && Committed(s.procs[p]) && LeaseOf(s.procs[p]) == g
  }

  /** The lock is unlinked as stale, or after a failed spawn, while somebody is between the lease check
      and the release; or a lock is created for a generation that a live process holds as its lease. */
  ghost predicate Disarms(s: State, step: Step) {
    match step
    case ReclaimStep(p) => SomebodyRetires(s)
    case SpawnFailsStep(p) => SomebodyRetires(s)
    case OpenStep(p) => s.lock == None && p in s.procs && s.procs[p].Opening? && LeaseInUse(s, s.procs[p].generation)
    case RecreateStep(p) => s.lock == None && p in s.procs && s.procs[p].Recreating? && LeaseInUse(s, s.procs[p].generation)
    case _ => false
  }

  /** The guard survives a step exactly if the step is none of these. Reclaiming the lock of a worker
      that is still at work is harmless by itself. */
  lemma StepGuardedIff(s: State, s': State, step: Step)
    requires Next(s, s', step) && Guarded(s)
    ensures Guarded(s') <==> !Disarms(s, step)
  {
    match step
    case ReclaimStep(p) => UnlinkGuardedIff(s, s', step);
    case SpawnFailsStep(p) => UnlinkGuardedIff(s, s', step);
    case OpenStep(p) => CreateGuardedIff(s, s', step);
    case RecreateStep(p) => CreateGuardedIff(s, s', step);
    case _ => OthersKeepGuarded(s, s', step);
  }

  lemma UnlinkGuardedIff(s: State, s': State, step: Step)
    requires Next(s, s', step) && Guarded(s) && (step.ReclaimStep? || step.SpawnFailsStep?)
    ensures Guarded(s') <==> !Disarms(s, step)
  {
    if SomebodyRetires(s) {
      var q :| q in s.procs && s.procs[q].Retiring?;
      OthersStay(s, s', step, q);
      assert s'.procs[q].Retiring? && s'.lock == None;
    } else {
      forall q | q in s'.procs ensures !s'.procs[q].Retiring? {
        if q != step.p {
          OthersStay(s, s', step, q);
        }
      }
    }
  }

  lemma CreateGuardedIff(s: State, s': State, step: Step)
    requires Next(s, s', step) && Guarded(s) && (step.OpenStep? || step.RecreateStep?)
    ensures Guarded(s') <==> !Disarms(s, step)
  {
    var p, g := step.p, s.procs[step.p].generation;
    forall q | q != p ensures q in s'.procs <==> q in s.procs
                      ensures q in s.procs ==> s'.procs[q] == s.procs[q] {
      OthersStay(s, s', step, q);
    }
    if s.lock == None {
      assert s'.procs[p] == Holding(g) && s'.lock == Some(g) && OwnsLock(s', p);
      if LeaseInUse(s, g) {
        var q :| q in s.procs && Committed(s.procs[q]) && LeaseOf(s.procs[q]) == g;
        assert q != p && OwnsLock(s', q);
      }
    }
  }

  /** All other steps keep the guard: nobody but the one owner of the lock can be retiring. */
  lemma OthersKeepGuarded(s: State, s': State, step: Step)
    requires Next(s, s', step) && Guarded(s)
    requires !(step.ReclaimStep? || step.SpawnFailsStep? || step.OpenStep? || step.RecreateStep?)
    ensures Guarded(s')
  {
    var mover := Newcomer(step);
    forall q | q in s'.procs && q != mover && Committed(s'.procs[q])
      ensures q in s.procs && s'.procs[q] == s.procs[q]
    {
      if q != step.p {
        OthersStay(s, s', step, q);
      }
    }
    MoverOwned(s, s', step);
    if step.UnlockStep? {
      forall q | q in s'.procs && s'.procs[q].Retiring? ensures false {
        assert OwnsLock(s, q) && OwnsLock(s, step.p);
      }
    }
  }

  /** A process that owns the lock after such a step owned it before, or inherited it in a spawn. */
  lemma MoverOwned(s: State, s': State, step: Step)
    requires Next(s, s', step) && Guarded(s)
    requires !(step.ReclaimStep? || step.SpawnFailsStep? || step.OpenStep? || step.RecreateStep?)
    ensures Newcomer(step) in s'.procs && step.p in s'.procs
    ensures OwnsLock(s', Newcomer(step)) ==> step.p in s.procs && OwnsLock(s, step.p)
    ensures s'.procs[Newcomer(step)].Retiring? ==> OwnsLock(s', Newcomer(step))
    ensures step.SpawnStep? ==> s'.procs[step.p] == Done
    ensures !step.UnlockStep? ==> s'.lock == s.lock
  {
    match step
    case RetireStep(p, g) => assert s'.procs[p].lease == s.procs[p].lease;
    case _ =>
  }

  // ---------------------------------------------------------------- over whole runs

  /** In every run without such a step, also when workers lose their locks: whoever is retiring owns
      the lock alone, every file is removed while the lock carries the lease of its remover, and a
      finishing worker releases no lock but its own. */
  lemma {:induction false} RemovalsAreFenced(states: seq<State>, steps: seq<Step>, i: nat)
    requires IsRun(states, steps) && i < |states|
    requires forall k :: 0 <= k < i ==> !Disarms(states[k], steps[k])
    ensures Guarded(states[i]) && Fenced(states[i])
    ensures forall k :: 0 <= k < i && steps[k].UnlockStep? ==> steps[k].p in states[k].procs && OwnsLock(states[k], steps[k].p)
  {
    if i > 0 {
      RemovalsAreFenced(states, steps, i - 1);
      StepGuardedIff(states[i - 1], states[i], steps[i - 1]);
      GuardedStepIsFenced(states[i - 1], states[i], steps[i - 1]);
    }
  }

  lemma GuardedStepIsFenced(s: State, s': State, step: Step)
    requires Next(s, s', step) && Guarded(s) && Fenced(s)
    ensures Fenced(s')
  {
  }

  /** A worker whose lock was taken over. */
  ghost predicate Superseded(s: State, p: Pid) {
    p in s.procs && s.procs[p].Working? && s.lock != Some(s.procs[p].lease)
  }

  /** A superseded worker stays at work under its lost lease, or is done. */
  ghost predicate StillSuperseded(s: State, p: Pid, lease: Generation) {
    p in s.procs && (s.procs[p] == Done || (Superseded(s, p) && s.procs[p].lease == lease))
  }

  /** What such a worker may still do: load requests, find its lease lost, or crash. It removes no file
      and leaves the lock alone. */
  ghost predicate IsIdle(s: State, s': State, step: Step) {
    && (step.LoadStep? || step.FinishStep? || step.CrashStep?)
    && s'.pending == s.pending && s'.lock == s.lock && s'.retirements == s.retirements
  }

  lemma StepKeepsSuperseded(s: State, s': State, step: Step, p: Pid, lease: Generation)
    requires Next(s, s', step) && !Disarms(s, step) && StillSuperseded(s, p, lease)
    ensures StillSuperseded(s', p, lease)
    ensures step.p == p ==> IsIdle(s, s', step)
  {
    if step.p != p {
      assert !(step.SpawnStep? && p == step.worker);
      OthersStay(s, s', step, p);
      if s.procs[p] != Done && s'.lock != s.lock && s'.lock.Some? {
        assert step.OpenStep? || step.RecreateStep?;
        assert s'.lock.value == lease ==> LeaseInUse(s, lease);
      }
    }
  }

  /** From the moment it lost its lock, a worker retires and releases nothing, whatever comes after. */
  lemma {:induction false} SupersededDoesNothing(states: seq<State>, steps: seq<Step>, p: Pid, i: nat, j: nat)
    requires IsRun(states, steps) && i <= j < |states| && Superseded(states[i], p)
    requires forall k :: i <= k < j ==> !Disarms(states[k], steps[k])
    ensures StillSuperseded(states[j], p, states[i].procs[p].lease)
    ensures forall k :: i <= k < j && steps[k].p == p ==> IsIdle(states[k], states[k + 1], steps[k])
    decreases j - i
  {
    if i < j {
      SupersededDoesNothing(states, steps, p, i, j - 1);
      StepKeepsSuperseded(states[j - 1], states[j], steps[j - 1], p, states[i].procs[p].lease);
    }
  }

  /** One worker at a time is the special case in which nobody is ever superseded. */
  lemma ExclusiveIsGuarded(s: State, s': State, step: Step)
    requires Next(s, s', step) && Exclusive(s)
    ensures Guarded(s)
    ensures !ReclaimsLive(s, step) ==> !Disarms(s, step)
  {
    if step.ReclaimStep? && SomebodyRetires(s) {
      var q :| q in s.procs && s.procs[q].Retiring?;
      assert Committed(s.procs[q]);
    } else if step.SpawnFailsStep? && SomebodyRetires(s) {
      var q :| q in s.procs && s.procs[q].Retiring?;
      assert Committed(s.procs[q]) && Committed(s.procs[step.p]);
    }
  }

  // ---------------------------------------------------------------- a lease that comes back

  /** Requests of two sessions, the first one waiting longer. */
  predicate InTurn(h: Request, g: Request) {
    Earlier(h, g) && h.generation != g.generation && SessionOf(h) != SessionOf(g)
  }

  /** The lock is created for a request whose generation a superseded worker still holds as its lease:
      that worker passes the lease check and releases the lock of the other one. Nobody was reclaimed
      between a lease check and its unlinks, and every removal was fenced; but the second worker is left
      at work without a lock, and the next hook can start a third one beside it. */
  lemma HandOffRevivesLease(h: Request, g: Request) returns (states: seq<State>, steps: seq<Step>)
    requires InTurn(h, g)
    ensures IsRun(states, steps) && |steps| == 19
    ensures forall k :: 0 <= k < |steps| && steps[k].ReclaimStep? ==> !SomebodyRetires(states[k])
    ensures Superseded(states[10], 2) && steps[18] == UnlockStep(2) && states[18].lock == Some(g.generation)
    ensures var s := states[19];
            && s.lock == None && Fenced(s) && g.generation in s.pending
            && 4 in s.procs && s.procs[4] == Working(g.generation, map[], g.generation)
  {
    states, steps := FirstWorkerLoads(h, g);
    states, steps := SecondWorkerTakesOver(h, g, states, steps);
    states, steps := SecondWorkerRetires(h, g, states, steps);
    states, steps := SecondWorkerHandsOff(g, states, steps);
    states, steps := LeaseComesBack(h, g, states, steps);
  }

  lemma OlderIsServed(pending: Queue, h: Request, g: Request)
    requires InTurn(h, g) && pending == map[h.generation := h, g.generation := g]
    ensures IsServed(pending, Sessions(pending), h) && SessionMembers(pending, SessionOf(h)) == {h.generation}
  {
    assert pending[h.generation] == h && SessionOf(h) in Sessions(pending);
    assert IsOldest(pending, Sessions(pending), h) && IsLatest(pending, h);
  }

  lemma LastIsServed(pending: Queue, g: Request)
    requires pending == map[g.generation := g]
    ensures IsServed(pending, Sessions(pending), g) && pending != map[]
  {
    assert pending[g.generation] == g && SessionOf(g) in Sessions(pending);
    assert IsOldest(pending, Sessions(pending), g) && IsLatest(pending, g);
  }

  /** Two hooks; the second one gets the lock and spawns worker 2. */
  lemma TwoHooks(h: Request, g: Request) returns (states: seq<State>, steps: seq<Step>)
    requires InTurn(h, g)
    ensures IsRun(states, steps) && |steps| == 4 && NoReclaims(steps)
    ensures var s, a, b := states[4], h.generation, g.generation;
            && s.pending == map[a := h, b := g] && s.issued == s.pending && s.retirements == [] && s.lock == Some(b)
            && s.procs == map[0 := Opening(a), 1 := Done, 2 := Working(b, map[], b)]
  {
    var a, b := h.generation, g.generation;
    var s0 := State(map[], None, map[], map[], map[], 0, [], 0);
    var s1 := Move(s0, 0, Opening(a)).(pending := map[a := h], issued := map[a := h], writtenAt := map[a := 0]);
    var s2 := Move(s1, 1, Opening(b)).(pending := map[a := h, b := g], issued := map[a := h, b := g], writtenAt := map[a := 0, b := 1]);
    var s3 := Move(s2, 1, Holding(b)).(lock := Some(b));
    var s4 := Move(Move(s3, 1, Done), 2, Working(b, map[], b));
    states, steps := [s0], [];
    states, steps := Grow(states, steps, s1, DispatchStep(0, h));
    states, steps := Grow(states, steps, s2, DispatchStep(1, g));
    states, steps := Grow(states, steps, s3, OpenStep(1));
    states, steps := Grow(states, steps, s4, SpawnStep(1, 2));
  }

  /** Worker 2 loads the older request. */
  lemma FirstWorkerLoads(h: Request, g: Request) returns (states: seq<State>, steps: seq<Step>)
    requires InTurn(h, g)
    ensures IsRun(states, steps) && |steps| == 5 && NoReclaims(steps)
    ensures AtWork(h, g, states[5]) && states[5].lock == Some(g.generation)
    ensures states[5].procs == map[0 := Opening(h.generation), 1 := Done, 2 := states[5].procs[2]]
  {
    states, steps := TwoHooks(h, g);
    var s4 := states[4];
    OlderIsServed(s4.pending, h, g);
    var files := Snapshot({h.generation}, s4.clock);
    var s5 := Move(s4, 2, Working(g.generation, map[h.generation := files], h.generation));
    states, steps := Grow(states, steps, s5, LoadStep(2, Sessions(s4.pending), h));
  }

  /** Both requests wait, and worker 2, with the lease of the younger one, has loaded the older one. */
  ghost predicate AtWork(h: Request, g: Request, s: State) {
    && s.pending == map[h.generation := h, g.generation := g] && s.issued == s.pending && s.retirements == []
    && 2 in s.procs && s.procs[2].Working?
    && s.procs[2].lease == g.generation && s.procs[2].current == h.generation
    && h.generation in s.procs[2].loaded && s.procs[2].loaded[h.generation].files == {h.generation}
  }

  predicate NoReclaims(steps: seq<Step>) {
    forall k :: 0 <= k < |steps| ==> !steps[k].ReclaimStep?
  }

  lemma Grow(states: seq<State>, steps: seq<Step>, s: State, step: Step) returns (states': seq<State>, steps': seq<Step>)
    requires IsRun(states, steps) && Next(states[|states| - 1], s, step)
    ensures IsRun(states', steps') && states' == states + [s] && steps' == steps + [step]
  {
    ExtendRun(states, steps, s, step);
    states', steps' := states + [s], steps + [step];
  }

  /** The first hook finds the lock stale, takes it over and spawns worker 3. */
  lemma SecondWorkerTakesOver(h: Request, g: Request, states0: seq<State>, steps0: seq<Step>) returns (states: seq<State>, steps: seq<Step>)
    requires IsRun(states0, steps0) && |steps0| == 5 && NoReclaims(steps0)
    requires AtWork(h, g, states0[5]) && states0[5].lock == Some(g.generation) && InTurn(h, g)
    requires states0[5].procs == map[0 := Opening(h.generation), 1 := Done, 2 := states0[5].procs[2]]
    ensures IsRun(states, steps) && |steps| == 10 && ReclaimsAreHarmless(states, steps)
    ensures AtWork(h, g, states[10]) && states[10].lock == Some(h.generation)
    ensures states[10].procs == map[0 := Done, 1 := Done, 2 := states[10].procs[2], 3 := Working(h.generation, map[], h.generation)]
  {
    var a := h.generation;
    states, steps := states0, steps0;
    var s5 := states[5];
    var s6 := Move(s5, 0, Probing(a));
    var s7 := Move(s6, 0, Reclaiming(a));
    var s8 := Move(s7, 0, Recreating(a)).(lock := None);
    var s9 := Move(s8, 0, Holding(a)).(lock := Some(a));
    var s10 := Move(Move(s9, 0, Done), 3, Working(a, map[], a));
    states, steps := Grow(states, steps, s6, OpenStep(0));
    states, steps := Grow(states, steps, s7, ProbeStep(0, true));
    states, steps := Grow(states, steps, s8, ReclaimStep(0));
    states, steps := Grow(states, steps, s9, RecreateStep(0));
    states, steps := Grow(states, steps, s10, SpawnStep(0, 3));
    assert states[7] == s7 && !SomebodyRetires(s7);
  }

  ghost predicate ReclaimsAreHarmless(states: seq<State>, steps: seq<Step>)
    requires |states| == |steps| + 1
  {
    forall k :: 0 <= k < |steps| && steps[k].ReclaimStep? ==> !SomebodyRetires(states[k])
  }

  /** Worker 3 retires the older request and releases its lock. */
  lemma SecondWorkerRetires(h: Request, g: Request, states0: seq<State>, steps0: seq<Step>) returns (states: seq<State>, steps: seq<Step>)
    requires IsRun(states0, steps0) && |steps0| == 10 && ReclaimsAreHarmless(states0, steps0) && InTurn(h, g)
    requires AtWork(h, g, states0[10]) && states0[10].lock == Some(h.generation)
    requires states0[10].procs == map[0 := Done, 1 := Done, 2 := states0[10].procs[2], 3 := Working(h.generation, map[], h.generation)]
    ensures IsRun(states, steps) && |steps| == 13 && ReclaimsAreHarmless(states, steps) && states0 <= states
    ensures var s := states[13];
            && s.lock == None && s.pending == map[g.generation := g] && Fenced(s)
            && s.procs == map[0 := Done, 1 := Done, 2 := states0[10].procs[2], 3 := Released]
  {
    var a := h.generation;
    states, steps := states0, steps0;
    var s10 := states[10];
    var s11 := Move(s10, 3, Retiring(a, a, s10.clock, {a}));
    assert s10.pending.Keys * {a} == {a};
    var gone := Retirement(a, a, a, s10.clock, s11.lock);
    var s12 := Move(s11, 3, Retiring(a, a, s10.clock, {})).(pending := s11.pending - {a}, retirements := [gone]);
    var s13 := Move(s12, 3, Released).(lock := None);
    states, steps := Grow(states, steps, s11, FinishStep(3));
    assert s11.procs[3].rest - {a} == {} && s11.retirements + [gone] == [gone];
    states, steps := Grow(states, steps, s12, RetireStep(3, a));
    assert s12.pending == map[g.generation := g];
    states, steps := Grow(states, steps, s13, UnlockStep(3));
  }

  /** Then it hands the younger request to worker 4. */
  lemma SecondWorkerHandsOff(g: Request, states0: seq<State>, steps0: seq<Step>) returns (states: seq<State>, steps: seq<Step>)
    requires IsRun(states0, steps0) && |steps0| == 13 && ReclaimsAreHarmless(states0, steps0)
    requires var s := states0[13];
             && s.lock == None && s.pending == map[g.generation := g] && Fenced(s)
             && 2 in s.procs && s.procs == map[0 := Done, 1 := Done, 2 := s.procs[2], 3 := Released]
    ensures IsRun(states, steps) && |steps| == 16 && ReclaimsAreHarmless(states, steps) && states0 <= states
    ensures var s := states[16];
            && s.lock == Some(g.generation) && s.pending == map[g.generation := g] && Fenced(s)
            && 2 in s.procs && s.procs[2] == states0[13].procs[2]
            && 4 in s.procs && s.procs[4] == Working(g.generation, map[], g.generation)
  {
    var b := g.generation;
    states, steps := states0, steps0;
    var s13 := states[13];
    var s14 := Move(s13, 3, Opening(b));
    var s15 := Move(s14, 3, Holding(b)).(lock := Some(b));
    var s16 := Move(Move(s15, 3, Done), 4, Working(b, map[], b));
    LastIsServed(s13.pending, g);
    states, steps := Grow(states, steps, s14, RelistStep(3, g));
    states, steps := Grow(states, steps, s15, OpenStep(3));
    states, steps := Grow(states, steps, s16, SpawnStep(3, 4));
  }

  /** Worker 2 finishes: the lock carries its lease again. Its file is gone already, so it just
      releases the lock, which is that of worker 4. */
  lemma LeaseComesBack(h: Request, g: Request, states0: seq<State>, steps0: seq<Step>) returns (states: seq<State>, steps: seq<Step>)
    requires IsRun(states0, steps0) && |steps0| == 16 && ReclaimsAreHarmless(states0, steps0) && InTurn(h, g)
    requires Superseded(states0[10], 2)
    requires var s := states0[16];
             && s.lock == Some(g.generation) && s.pending == map[g.generation := g] && Fenced(s)
             && 2 in s.procs && s.procs[2].Working? && s.procs[2].lease == g.generation && s.procs[2].current == h.generation
             && h.generation in s.procs[2].loaded && s.procs[2].loaded[h.generation].files == {h.generation}
             && 4 in s.procs && s.procs[4] == Working(g.generation, map[], g.generation)
    ensures IsRun(states, steps) && |steps| == 19 && ReclaimsAreHarmless(states, steps) && states0 <= states
    ensures steps[18] == UnlockStep(2) && states[18].lock == Some(g.generation)
    ensures var s := states[19];
            && s.lock == None && s.pending == map[g.generation := g] && Fenced(s)
            && 4 in s.procs && s.procs[4] == Working(g.generation, map[], g.generation)
  {
    var a, b := h.generation, g.generation;
    states, steps := states0, steps0;
    var s16 := states[16];
    var since := s16.procs[2].loaded[a].since;
    var s17 := Move(s16, 2, Retiring(b, a, since, {a}));
    var s18 := Move(s17, 2, Retiring(b, a, since, {}));
    var s19 := Move(s18, 2, Released).(lock := None);
    states, steps := Grow(states, steps, s17, FinishStep(2));
    assert s17.procs[2].rest - {a} == {};
    states, steps := Grow(states, steps, s18, RetireStep(2, a));
    states, steps := Grow(states, steps, s19, UnlockStep(2));
  }
}
