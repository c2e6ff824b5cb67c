/** dispatch_post_turn, _acquire_lock, load_background_request and finish_background_worker as
    sequential code (harness_mem/hook_background.py), with every other process free to move between
    any two of their file operations. Whatever happens is a run of HookProtocol. */
module HookProcesses {
  import opened Wrappers
  import opened HookRequests
  import opened HookProtocol
  import opened HookFencing

  /** A piece of a run in which process `p` stands still. */
  ghost predicate IsDetour(p: Pid, states: seq<State>, steps: seq<Step>) {
    && |states| == |steps| + 1
    && forall i :: 0 <= i < |steps| ==>
         && Next(states[i], states[i + 1], steps[i])
         && steps[i].p != p && !(steps[i].SpawnStep? && steps[i].worker == p)
  }

  ghost predicate MovedByOthers(p: Pid, s: State, s': State) {
    exists states, steps :: IsDetour(p, states, steps) && states[0] == s && states[|steps|] == s'
  }

  lemma {:induction false} DetourKeepsProcess(p: Pid, states: seq<State>, steps: seq<Step>)
    requires IsDetour(p, states, steps)
    ensures p in states[|steps|].procs <==> p in states[0].procs
    ensures p in states[0].procs ==> states[|steps|].procs[p] == states[0].procs[p]
    decreases |steps|
  {
    if steps != [] {
      var n := |steps| - 1;
      DetourKeepsProcess(p, states[..n + 1], steps[..n]);
      OthersStay(states[n], states[n + 1], steps[n], p);
    }
  }

  lemma JoinRuns(p: Pid, states: seq<State>, steps: seq<Step>, more: seq<State>, moreSteps: seq<Step>)
    requires IsRun(states, steps) && IsDetour(p, more, moreSteps)
    requires more[0] == states[|states| - 1]
    ensures IsRun(states + more[1..], steps + moreSteps)
    ensures (states + more[1..])[|steps + moreSteps|] == more[|moreSteps|]
  {
    var longer, all := states + more[1..], steps + moreSteps;
    forall i | 0 <= i < |all| ensures Next(longer[i], longer[i + 1], all[i]) {
      if i < |steps| {
        assert Next(states[i], states[i + 1], steps[i]);
      } else {
        var k := i - |steps|;
        assert Next(more[k], more[k + 1], moreSteps[k]);
      }
    }
  }

  // ---------------------------------------------------------------- the steps of one process

  predicate IsLockStep(step: Step) {
    step.OpenStep? || step.ProbeStep? || step.ReclaimStep? || step.RecreateStep?
  }

  predicate LockStepsOnly(mine: seq<Step>) {
    forall k :: 0 <= k < |mine| ==> IsLockStep(mine[k])
  }

  /** Attempts at the lock, followed by a spawn unless the attempts failed. */
  predicate Competed(mine: seq<Step>, spawned: bool, gaveUp: bool) {
    && mine != []
    && LockStepsOnly(if gaveUp then mine else mine[..|mine| - 1])
    && (!gaveUp ==> var last := mine[|mine| - 1]; if spawned then last.SpawnStep? else last.SpawnFailsStep?)
  }

  /** The queue was listed, and unless it was empty the process competed for the lock. */
  predicate Relisted(mine: seq<Step>, spawned: bool) {
    && mine != [] && mine[0].RelistStep?
    && (if mine[1..] == [] then !spawned else (!spawned && Competed(mine[1..], false, true)) || Competed(mine[1..], spawned, false))
  }

  /** After `n` removals of files the lock was released, and only then the queue was listed. */
  predicate RetiredAndReleased(mine: seq<Step>, n: nat, spawned: bool) {
    && n < |mine|
    && (forall k :: 0 <= k < n ==> mine[k].RetireStep?)
    && mine[n].UnlockStep?
    && Relisted(mine[n + 1..], spawned)
  }

  /** The shared directory as process `me` sees it. The environment decides what the others do, how old
      a lock looks, which process id a spawned worker gets and whether the spawn works. */
  class Process {
    const me: Pid
    const others: (State, nat) -> State
    const looksStale: (State, nat) -> bool
    const freshPid: State -> Pid
    const spawnWorks: (State, nat) -> bool
    var s: State
    var tick: nat
    ghost var states: seq<State>
    ghost var steps: seq<Step>
    /** The steps of the run that this process took itself. */
    ghost var mine: seq<Step>

    ghost predicate Valid()
      reads this
    {
      && IsRun(states, steps) && states[|states| - 1] == s
      && (forall x, n :: MovedByOthers(me, x, others(x, n)))
      && (forall x :: freshPid(x) !in x.procs && freshPid(x) != me)
    }

    constructor (me: Pid, others: (State, nat) -> State, looksStale: (State, nat) -> bool, freshPid: State -> Pid,
                 spawnWorks: (State, nat) -> bool, s: State, ghost states: seq<State>, ghost steps: seq<Step>)
      requires IsRun(states, steps) && states[|states| - 1] == s
      requires forall x, n :: MovedByOthers(me, x, others(x, n))
      requires forall x :: freshPid(x) !in x.procs && freshPid(x) != me
      ensures Valid() && this.s == s && this.me == me && this.states == states && this.steps == steps
    {
      this.me, this.others, this.looksStale, this.freshPid, this.spawnWorks := me, others, looksStale, freshPid, spawnWorks;
      this.s, this.tick, this.states, this.steps, this.mine := s, 0, states, steps, [];
    }

    /** The others move. */
    method Interleave()
      requires Valid()
      modifies this
      ensures Valid() && old(steps) <= steps && mine == old(mine)
      ensures me in s.procs <==> me in old(s).procs
      ensures me in s.procs ==> s.procs[me] == old(s).procs[me]
    {
      assert MovedByOthers(me, s, others(s, tick));
      ghost var more, moreSteps :| IsDetour(me, more, moreSteps) && more[0] == s && more[|moreSteps|] == others(s, tick);
      DetourKeepsProcess(me, more, moreSteps);
      JoinRuns(me, states, steps, more, moreSteps);
      states, steps := states + more[1..], steps + moreSteps;
      s := others(s, tick);
      tick := tick + 1;
    }

    /** This process makes one step. */
    method Take(next: State, ghost step: Step)
      requires Valid() && Next(s, next, step)
      modifies this
      ensures Valid() && s == next && steps == old(steps) + [step] && mine == old(mine) + [step]
    {
      ExtendRun(states, steps, next, step);
      states, steps, mine := states + [next], steps + [step], mine + [step];
      s := next;
      tick := tick + 1;
    }

    /** _acquire_lock: false leaves the process without a lock and with nothing more to do. */
    method AcquireLock() returns (acquired: bool)
      requires Valid() && me in s.procs && s.procs[me].Opening?
      modifies this
      ensures Valid() && old(steps) <= steps && me in s.procs
      ensures s.procs[me] == if acquired then Holding(old(s).procs[me].generation) else Done
      ensures old(mine) < mine && LockStepsOnly(mine[|old(mine)|..])
    {
      var g := s.procs[me].generation;
      Interleave();
      if s.lock == None {
        Take(Move(s, me, Holding(g)).(lock := Some(g)), OpenStep(me));
        return true;
      }
      Take(Move(s, me, Probing(g)), OpenStep(me));
      Interleave();
      var stale := s.lock.Some? && looksStale(s, tick);
      Take(Move(s, me, if stale then Reclaiming(g) else Done), ProbeStep(me, stale));
      if !stale {
        return false;
      }
      acquired := ReclaimLock();
    }

    /** The lock looked stale: unlink it, and create it again. */
    method ReclaimLock() returns (acquired: bool)
      requires Valid() && me in s.procs && s.procs[me].Reclaiming?
      modifies this
      ensures Valid() && old(steps) <= steps && me in s.procs
      ensures s.procs[me] == if acquired then Holding(old(s).procs[me].generation) else Done
      ensures old(mine) < mine && LockStepsOnly(mine[|old(mine)|..])
    {
      var g := s.procs[me].generation;
      Interleave();
      if s.lock == None {
        Take(Move(s, me, Done), ReclaimStep(me));
        return false;
      }
      Take(Move(s, me, Recreating(g)).(lock := None), ReclaimStep(me));
      Interleave();
      if s.lock.Some? {
        Take(Move(s, me, Done), RecreateStep(me));
        return false;
      }
      Take(Move(s, me, Holding(g)).(lock := Some(g)), RecreateStep(me));
      return true;
    }

    method SpawnWorker() returns (spawned: bool, ghost worker: Pid)
      requires Valid() && me in s.procs && s.procs[me].Holding?
      modifies this
      ensures Valid() && old(steps) <= steps && me in s.procs && s.procs[me] == Done
      ensures mine == old(mine) + [if spawned then SpawnStep(me, worker) else SpawnFailsStep(me)]
    {
      Interleave();
      var g := s.procs[me].generation;
      spawned := spawnWorks(s, tick);
      worker := freshPid(s);
      if spawned {
        Take(Move(Move(s, me, Done), freshPid(s), Working(g, map[], g)), SpawnStep(me, worker));
      } else {
        Take(Move(s, me, Done).(lock := None, faults := s.faults + 1), SpawnFailsStep(me));
      }
    }

    /** The foreground hook: persist first, then make sure that somebody holds the lock. */
    method DispatchPostTurn(r: Request) returns (spawned: bool, coalesced: bool)
      requires Valid() && me !in s.procs && r.generation !in s.issued
      modifies this
      ensures Valid() && old(steps) + [DispatchStep(me, r)] <= steps
      ensures me in s.procs && s.procs[me] == Done
      ensures !(spawned && coalesced)
      // The request is written first; then there are only attempts at the lock, and a spawn if one succeeds.
      ensures old(mine) + [DispatchStep(me, r)] <= mine
      ensures Competed(mine[|old(mine)| + 1..], spawned, coalesced)
    {
      Take(Move(s, me, Opening(r.generation)).(
             pending := s.pending[r.generation := r],
             issued := s.issued[r.generation := r],
             writtenAt := s.writtenAt[r.generation := s.clock]), DispatchStep(me, r));
      spawned, coalesced := Compete();
    }

    /** Tries to create the lock, and spawns a worker with it. */
    method Compete() returns (spawned: bool, gaveUp: bool)
      requires Valid() && me in s.procs && s.procs[me].Opening?
      modifies this
      ensures Valid() && old(steps) <= steps && me in s.procs && s.procs[me] == Done
      ensures !(spawned && gaveUp)
      ensures old(mine) < mine && Competed(mine[|old(mine)|..], spawned, gaveUp)
    {
      var acquired := AcquireLock();
      if !acquired {
        return false, true;
      }
      ghost var worker;
      spawned, worker := SpawnWorker();
      gaveUp := false;
    }

    /** One call of load_background_request by the worker. */
    method LoadBackgroundRequest(activity: Activity, idleClient: bool, readyOnly: bool, now: real) returns (r: Option<Request>)
      requires Valid() && me in s.procs && s.procs[me].Working?
      modifies this
      ensures Valid() && old(steps) <= steps && me in s.procs && s.procs[me].Working?
      ensures s.procs[me].lease == old(s).procs[me].lease
      ensures s.procs[me].current == if r.Some? then r.value.generation else old(s).procs[me].current
      ensures r.Some? ==> s.procs[me].current in s.procs[me].loaded
      ensures r == None ==> mine == old(mine)
      ensures r.Some? ==> |mine| == |old(mine)| + 1 && old(mine) < mine && mine[|old(mine)|].LoadStep? && mine[|old(mine)|].r == r.value
    {
      Interleave();
      RetirementIsSafe(states, steps, |states| - 1);
      var chosen;
      ghost var eligible := Eligible(s.pending, activity, idleClient, readyOnly, now);
      chosen := Choose(s.pending, activity, idleClient, readyOnly, now);
      r := chosen;
      if chosen.Some? {
        var w, g := s.procs[me], chosen.value.generation;
        var files := Snapshot(SessionMembers(s.pending, SessionOf(chosen.value)), s.clock);
        Take(Move(s, me, Working(w.lease, if g in w.loaded then w.loaded else w.loaded[g := files], g)), LoadStep(me, eligible, chosen.value));
      }
    }

    /** finish_background_worker. Without the matching lease it changes nothing; otherwise it retires
        its files, releases the lock and, if the queue is not empty, competes for it again. */
    method FinishBackgroundWorker() returns (handedOff: bool)
      requires Valid() && me in s.procs && s.procs[me].Working?
      modifies this
      ensures Valid() && old(steps) <= steps && me in s.procs && s.procs[me] == Done
      ensures old(mine) < mine && mine[|old(mine)|] == FinishStep(me)
      ensures var after := mine[|old(mine)| + 1..];
              (after == [] && !handedOff) || exists n :: RetiredAndReleased(after, n, handedOff)
    {
      Interleave();
      var w := s.procs[me];
      if s.lock != Some(w.lease) {
        Take(Move(s, me, Done), FinishStep(me));
        return false;
      }
      if w.current in w.loaded && w.loaded[w.current].files != {} {
        Take(Move(s, me, Retiring(w.lease, w.current, w.loaded[w.current].since, w.loaded[w.current].files)), FinishStep(me));
      } else {
        Take(Move(s, me, Retiring(w.lease, w.current, s.clock, s.pending.Keys * {w.current})), FinishStep(me));
      }
      handedOff := RetireAndRelease();
    }

    method RetireAndRelease() returns (handedOff: bool)
      requires Valid() && me in s.procs && s.procs[me].Retiring?
      modifies this
      ensures Valid() && old(steps) <= steps && me in s.procs && s.procs[me] == Done
      ensures old(mine) < mine && exists n :: RetiredAndReleased(mine[|old(mine)|..], n, handedOff)
    {
      RetireFiles();
      ghost var n := |mine| - |old(mine)|;
      Interleave();
      Take(Move(s, me, Released).(lock := None), UnlockStep(me));
      ghost var released := mine;
      handedOff := HandOff();
      assert mine[|old(mine)|..][n] == released[|released| - 1];
      assert mine[|old(mine)|..][n + 1..] == mine[|released|..];
      assert RetiredAndReleased(mine[|old(mine)|..], n, handedOff);
    }

    /** After the release: list the queue and compete for the lock on behalf of its next request. */
    method HandOff() returns (handedOff: bool)
      requires Valid() && me in s.procs && s.procs[me].Released?
      modifies this
      ensures Valid() && old(steps) <= steps && me in s.procs && s.procs[me] == Done
      ensures old(mine) < mine && Relisted(mine[|old(mine)|..], handedOff)
    {
      var empty := ListQueue();
      if empty {
        return false;
      }
      var gaveUp;
      ghost var listed := mine;
      handedOff, gaveUp := Compete();
      assert mine[|old(mine)|..][1..] == mine[|listed|..];
    }

    method ListQueue() returns (empty: bool)
      requires Valid() && me in s.procs && s.procs[me].Released?
      modifies this
      ensures Valid() && old(steps) <= steps && me in s.procs
      ensures |mine| == |old(mine)| + 1 && old(mine) < mine && mine[|old(mine)|].RelistStep?
      ensures empty <==> s.pending == map[]
      ensures s.procs[me] == if empty then Done else Opening(mine[|old(mine)|].r.generation)
    {
      Interleave();
      RetirementIsSafe(states, steps, |states| - 1);
      var latest := Choose(s.pending, map[], false, false, 0.0);
      empty := latest == None;
      if empty {
        NobodyIsWaiting(s.pending);
        Take(Move(s, me, Done), RelistStep(me, Request(0, "", None, 0.0)));
      } else {
        assert s.pending != map[];
        Take(Move(s, me, Opening(latest.value.generation)), RelistStep(me, latest.value));
      }
    }

    method RetireFiles()
      requires Valid() && me in s.procs && s.procs[me].Retiring?
      modifies this
      ensures Valid() && old(steps) <= steps && me in s.procs
      ensures s.procs[me] == old(s).procs[me].(rest := {})
      ensures old(mine) <= mine && forall k :: |old(mine)| <= k < |mine| ==> mine[k].RetireStep?
    {
      var todo := s.procs[me].rest;
      while todo != {}
        invariant Valid() && old(steps) <= steps && me in s.procs
        invariant s.procs[me] == old(s).procs[me].(rest := todo)
        invariant old(mine) <= mine && forall k :: |old(mine)| <= k < |mine| ==> mine[k].RetireStep?
        decreases todo
      {
        Interleave();
        var g :| g in todo;
        var w := s.procs[me];
        var moved := Move(s, me, w.(rest := w.rest - {g}));
        if g in s.pending {
          Take(moved.(pending := s.pending - {g},
                      retirements := s.retirements + [Retirement(g, w.served, w.lease, w.since, s.lock)]), RetireStep(me, g));
        } else {
          Take(moved, RetireStep(me, g));
        }
        todo := todo - {g};
      }
    }
  }

  /** Whatever the environment does between the operations, the protocol's guarantees hold. */
  lemma EveryInterleavingIsSafe(process: Process)
    requires process.Valid()
    ensures Lawful(process.s)
    ensures (forall k :: 0 <= k < |process.steps| ==> !Strands(process.states[k], process.steps[k])) ==> Awake(process.s)
    ensures process.s.faults == 0 ==> Awake(process.s)
    ensures (forall k :: 0 <= k < |process.steps| ==> !Disarms(process.states[k], process.steps[k])) ==>
              Guarded(process.s) && Fenced(process.s)
  {
    var last := |process.states| - 1;
    if forall k :: 0 <= k < last ==> !Disarms(process.states[k], process.steps[k]) {
      RemovalsAreFenced(process.states, process.steps, last);
    }
    if forall k :: 0 <= k < last ==> !Strands(process.states[k], process.steps[k]) {
      NoLostWakeup(process.states, process.steps, last);
    }
    if process.s.faults == 0 {
      forall k | 0 <= k < last ensures !Strands(process.states[k], process.steps[k]) {
        FaultlessRunsStrandNothing(process.states, process.steps, last, k);
      }
      NoLostWakeup(process.states, process.steps, last);
    }
    RetirementIsSafe(process.states, process.steps, |process.states| - 1);
  }

  lemma NobodyIsWaiting(pending: Queue)
    requires Sessions(pending) == {}
    ensures pending == map[]
  {
    assert forall g :: g in pending ==> SessionOf(pending[g]) in Sessions(pending);
  }
}
