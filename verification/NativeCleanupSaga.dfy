/** Applying a native cleanup plan (apply_native_source_cleanup in harness_mem/native_source_cleanup.py). */
module NativeCleanupSaga {
  import opened Wrappers
  import opened NativeCleanup
  import opened NativeCleanupClaims

  /** One plan, the file system it is applied to, and what has been done so far, over any number of
      applications. */
  class Saga {
    const plan: Plan
    /** The host leaves the original names alone. */
    const namesQuiet: bool
    /** The host has no handles open through which it writes into claimed objects. */
    const claimsQuiet: bool
    /** File operations do not fail. */
    const reliable: bool
    var files: map<Loc, Obj>
    ghost const initial: map<Path, Obj>
    ghost var journal: seq<Event>

    predicate HostQuiet() {
      namesQuiet && claimsQuiet
    }

    ghost predicate Valid()
      reads this
    {
      Accounted(plan, claimsQuiet, initial, files, journal)
    }

    constructor (plan: Plan, namesQuiet: bool, claimsQuiet: bool, reliable: bool, files: map<Loc, Obj>)
      requires plan.DistinctTargets()
      ensures Valid() && this.plan == plan && this.files == files && journal == []
      ensures this.namesQuiet == namesQuiet && this.claimsQuiet == claimsQuiet && this.reliable == reliable
    {
      this.plan, this.files, this.journal := plan, files, [];
      this.namesQuiet, this.claimsQuiet, this.reliable := namesQuiet, claimsQuiet, reliable;
      this.initial := HeldNow(plan, files);
    }

    /** Whatever each name held is still there, under the original name or its claim name. */
    twostate predicate ContentStays()
      reads this
    {
      HostQuiet() ==> forall p :: Content(plan, files, p) == Content(plan, old(files), p)
    }

    /** What each claim held it still holds, or that object was renamed back as it was, or the host wrote
        into it. */
    twostate predicate ObjectsKept()
      reads this
    {
      forall p :: p in HeldNow(plan, old(files)) ==> ObjectKept(p)
    }

    twostate predicate ObjectKept(p: Path)
      requires p in HeldNow(plan, old(files))
      reads this
    {
      var o := HeldNow(plan, old(files))[p];
      || (p in HeldNow(plan, files) && HeldNow(plan, files)[p] == o)
      || Returned(journal, |old(journal)|, p, o)
      || (!claimsQuiet && Overwritten(journal, |old(journal)|, p, o))
    }

    /** Whatever the host does to the original names, the process makes objects disappear by removal only. */
    twostate lemma KeepsObjects()
      requires old(Valid()) && Valid() && NoRemovals(old(journal), journal)
      ensures ObjectsKept()
    {
      forall p | p in HeldNow(plan, old(files)) ensures ObjectKept(p) {
        assert journal[..|old(journal)|] == old(journal);
        NothingIsLost(plan, initial, journal, |old(journal)|, p);
        if claimsQuiet {
          NeverOverwritten(journal, |old(journal)|, p, HeldNow(plan, old(files))[p]);
        }
      }
    }

    // -------------------------------------------------------------- the environment

    /** Claimed objects stay where they are, and are written to at most where the host has handles open. */
    twostate predicate ClaimsStay(open: set<Loc>)
      reads this
    {
      forall l: Loc :: l.Claim? ==>
        && (l in files <==> l in old(files))
        && (l in files && (claimsQuiet || l !in open) ==> files[l] == old(files)[l])
    }

    /** What the host does to the original names is its own business, if it does anything. */
    twostate predicate NamesStay()
      reads this
    {
      namesQuiet ==> forall l: Loc :: l.Original? ==> (l in files <==> l in old(files)) && (l in files ==> files[l] == old(files)[l])
    }

    /** The host does what it likes with the original names, it may write into the claims that are `open`
        to it, and the process may stop here. */
    method Interfere(open: set<Loc>) returns (stop: bool)
      requires Valid()
      modifies this`files, this`journal
      ensures Valid() && ClaimsStay(open) && NamesStay()
      ensures Idle(old(journal), journal) && (claimsQuiet || open == {} ==> journal == old(journal))
      ensures HostQuiet() ==> files == old(files)
    {
      stop := *;
      files := Host(files, namesQuiet, if claimsQuiet then {} else open);
      ClaimsUnchanged(plan, old(files), files);
      if claimsQuiet || open == {} {
        HeldUnchanged(plan, old(files), files);
      } else {
        StaysAccounted(plan, claimsQuiet, initial, old(files), files, journal, Written(HeldNow(plan, files)));
        journal := journal + [Written(HeldNow(plan, files))];
      }
      if HostQuiet() {
        QuietHost(old(files), files);
      }
    }

    /** os.rename onto a name that was just seen to be free: nothing is overwritten. */
    method Claim(action: Action) returns (raised: bool)
      requires Valid() && HasPrimary(plan) && action in plan.actions
      requires Original(action.target) in files && ClaimOf(plan, action) !in files
      modifies this`files, this`journal
      ensures ContentStays()
      ensures Valid()
      ensures reliable ==> !raised
      ensures raised ==> files == old(files) && journal == old(journal)
      ensures !raised ==> journal == old(journal) + [Claimed(action, old(files)[Original(action.target)])]
      ensures !raised ==> Moved(plan, old(files), files, action)
    {
      raised := *;
      if reliable {
        raised := false;
      }
      if !raised {
        var claim, original := ClaimOf(plan, action), Original(action.target);
        var o := files[original];
        files := files[claim := o] - {original};
        HeldAppears(plan, old(files), files, action);
        StaysAccounted(plan, claimsQuiet, initial, old(files), files, journal, Claimed(action, o));
        forall p ensures Content(plan, files, p) == Content(plan, old(files), p) {
          MovingKeepsContent(plan, old(files), files, action, p);
        }
        journal := journal + [Claimed(action, o)];
      }
    }

    method Restore(action: Action) returns (raised: bool)
      requires Valid() && HasPrimary(plan) && action in plan.actions
      requires Original(action.target) !in files && ClaimOf(plan, action) in files
      modifies this`files, this`journal
      ensures ContentStays()
      ensures Valid()
      ensures reliable ==> !raised
      ensures raised ==> files == old(files) && journal == old(journal)
      ensures !raised ==> journal == old(journal) + [Restored(action, old(files)[ClaimOf(plan, action)])]
      ensures !raised ==> MovedBack(plan, old(files), files, action)
    {
      raised := *;
      if reliable {
        raised := false;
      }
      if !raised {
        var claim, original := ClaimOf(plan, action), Original(action.target);
        var o := files[claim];
        files := files[original := o] - {claim};
        HeldVanishes(plan, old(files), files, action);
        StaysAccounted(plan, claimsQuiet, initial, old(files), files, journal, Restored(action, o));
        forall p ensures Content(plan, files, p) == Content(plan, old(files), p) {
          MovingKeepsContent(plan, old(files), files, action, p);
        }
        journal := journal + [Restored(action, o)];
      }
    }

    // -------------------------------------------------------------- claiming

    /** An existing claim is taken over unless the original name is in use again. */
    method ClaimAction(action: Action) returns (r: ClaimResult)
      requires Valid() && HasPrimary(plan) && action in plan.actions
      modifies this`files, this`journal
      ensures ContentStays()
      ensures Valid()
      ensures ClaimEffect(plan, old(files), files, action, r, reliable)
      ensures journal == if r == Taken && ClaimOf(plan, action) !in old(files)
                         then old(journal) + [Claimed(action, old(files)[Original(action.target)])] else old(journal)
    {
      var claim, original := ClaimOf(plan, action), Original(action.target);
      if claim in files {
        return if original in files then Failed else Taken;
      }
      if original !in files {
        return Absent;
      }
      var raised := Claim(action);
      r := if raised then Failed else Taken;
    }

    /** A claim goes back unless its original name is in use again. */
    method RestoreClaim(action: Action) returns (conflict: bool, stop: bool)
      requires Valid() && HasPrimary(plan) && action in plan.actions
      modifies this`files, this`journal
      ensures ContentStays()
      ensures Valid() && Undone(old(journal), journal)
      ensures ClaimsIn(plan, files) == old(ClaimsIn(plan, files)) - (if conflict || stop then {} else {action.target})
      ensures HostQuiet() && old(NoneTwice(plan, files)) ==> NoneTwice(plan, files) && (reliable ==> !conflict)
    {
      conflict := false;
      stop := Interfere(files.Keys);
      ClaimsUnchanged(plan, old(files), files);
      if stop {
        return;
      }
      conflict := PutBack(action);
    }

    method PutBack(action: Action) returns (conflict: bool)
      requires Valid() && HasPrimary(plan) && action in plan.actions
      modifies this`files, this`journal
      ensures ContentStays()
      ensures Valid() && Undone(old(journal), journal)
      ensures ClaimsIn(plan, files) == old(ClaimsIn(plan, files)) - (if conflict then {} else {action.target})
      ensures old(NoneTwice(plan, files)) ==> NoneTwice(plan, files) && (reliable ==> !conflict)
    {
      if ClaimOf(plan, action) !in files {
        NothingToRestore(plan, files, action);
        return false;
      }
      if Original(action.target) in files {
        assert !NoneTwice(plan, files);
        return true;
      }
      conflict := Restore(action);
      if !conflict {
        EffectOfRestoring(plan, old(files), files, action);
      }
    }

    /** Undo: every claim goes back unless its original name is in use again. */
    method RestoreClaims(claims: seq<Action>) returns (conflict: bool, stop: bool)
      requires Valid() && HasPrimary(plan)
      requires forall a :: a in claims ==> a in plan.actions
      modifies this`files, this`journal
      ensures ContentStays()
      ensures Valid() && Undone(old(journal), journal) && ObjectsKept()
      // Every claim is back under its original name, or still there with a conflict reported.
      ensures !stop && !conflict ==> ClaimsIn(plan, files) == old(ClaimsIn(plan, files)) - TargetsOf(claims)
      ensures old(ClaimsIn(plan, files)) - TargetsOf(claims) <= ClaimsIn(plan, files) <= old(ClaimsIn(plan, files))
      ensures HostQuiet() && reliable && old(NoneTwice(plan, files)) ==> !conflict
    {
      conflict, stop := false, false;
      var i := |claims|;
      while i > 0
        invariant 0 <= i <= |claims|
        invariant Valid() && Undone(old(journal), journal) && ContentStays()
        invariant !conflict ==> ClaimsIn(plan, files) == old(ClaimsIn(plan, files)) - TargetsOf(claims[i..])
        invariant old(ClaimsIn(plan, files)) - TargetsOf(claims[i..]) <= ClaimsIn(plan, files) <= old(ClaimsIn(plan, files))
        invariant HostQuiet() && reliable && old(NoneTwice(plan, files)) ==> NoneTwice(plan, files) && !conflict
      {
        assert TargetsOf(claims[i..]) <= TargetsOf(claims);
        var failed;
        ghost var soFar := journal;
        failed, stop := RestoreClaim(claims[i - 1]);
        UndoneFurther(old(journal), soFar, journal);
        if stop {
          KeepsObjects();
          return;
        }
        i := i - 1;
        TargetsStep(claims, i);
        conflict := conflict || failed;
      }
      assert claims[0..] == claims;
      KeepsObjects();
    }

    // -------------------------------------------------------------- checking

    method SourceMismatch() returns (mismatch: Option<Reason>)
      requires Valid() && HasPrimary(plan) && ClaimOf(plan, PrimaryOf(plan)) in files
      ensures mismatch.Some? ==> IsMismatch(mismatch.value)
      ensures mismatch == None ==> SourceMatches(plan, PrimaryOf(plan), files[ClaimOf(plan, PrimaryOf(plan))], plan.verification.value)
      ensures reliable ==> mismatch == SourceReason(plan, files[ClaimOf(plan, PrimaryOf(plan))])
    {
      var primary := PrimaryOf(plan);
      var raised: bool := *;
      if raised && !reliable {
        return Some(VerificationFailed);
      }
      var entry := SourceEntry(primary, files[ClaimOf(plan, primary)], plan.verification.value);
      if entry.None? || !entry.value.File? {
        return Some(NotRegularFile);
      }
      if plan.expectedMtime != Some(entry.value.mtime) || plan.expectedDigest != Some(Sha256(entry.value.content)) {
        return Some(ChangedAfterClaim);
      }
      return None;
    }

    method ActionMismatch(action: Action) returns (mismatch: Option<Reason>)
      requires Valid() && ClaimOf(plan, action) in files
      ensures mismatch.Some? ==> IsMismatch(mismatch.value)
      ensures mismatch == None ==> ActionMatches(action, files[ClaimOf(plan, action)])
      ensures reliable ==> mismatch == ActionReason(action, files[ClaimOf(plan, action)])
    {
      if action.expected == None {
        return Some(ManifestUnavailable);
      }
      var current := ManifestOf(files[ClaimOf(plan, action)], action.kind);
      var raised: bool := *;
      if current == None || (raised && !reliable) {
        return Some(VerificationFailed);
      }
      return if current != action.expected then Some(ActionChanged) else None;
    }

    /** All claims but the primary one and those already checked. */
    function OpenClaims(checked: seq<Action>): (open: set<Loc>)
      requires HasPrimary(plan)
      reads this`files
      ensures open <= files.Keys && ClaimOf(plan, PrimaryOf(plan)) !in open
      ensures forall a :: a in checked ==> ClaimOf(plan, a) !in open
    {
      set l | l in files && l != ClaimOf(plan, PrimaryOf(plan)) && forall a :: a in checked ==> ClaimOf(plan, a) != l
    }

    /** The last check: the source file and the manifests of all claims. Until the check of a claim begins
        the host may write into it, and after that it has no handle to the claimed object any more. */
    method FinalMismatch(claims: seq<Action>) returns (mismatch: Option<Reason>, stop: bool)
      requires Valid() && HasPrimary(plan) && claims != [] && claims[0] == PrimaryOf(plan)
      requires forall a :: a in claims ==> a in plan.actions && ClaimOf(plan, a) in files
      modifies this`files, this`journal
      ensures Valid() && ClaimsStay(old(files.Keys)) && Idle(old(journal), journal)
      ensures mismatch.Some? ==> IsMismatch(mismatch.value)
      ensures NamesStay() && (HostQuiet() ==> files == old(files))
      ensures mismatch == None && !stop ==> AllMatch(plan, files, claims)
      ensures reliable && HostQuiet() && AllMatch(plan, files, claims) ==> mismatch == None
    {
      stop := false;
      mismatch := SourceMismatch();
      if mismatch.Some? {
        return;
      }
      for i := 0 to |claims|
        invariant Valid() && ClaimsStay(old(files.Keys)) && Idle(old(journal), journal) && !stop && mismatch == None
        invariant NamesStay() && (HostQuiet() ==> files == old(files))
        invariant SourceMatches(plan, PrimaryOf(plan), files[ClaimOf(plan, PrimaryOf(plan))], plan.verification.value)
        invariant forall a :: a in claims[..i] ==> ActionMatches(a, files[ClaimOf(plan, a)])
      {
        stop := Interfere(OpenClaims(claims[..i]));
        if stop {
          return;
        }
        mismatch := ActionMismatch(claims[i]);
        if mismatch.Some? {
          return;
        }
        assert claims[..i + 1] == claims[..i] + [claims[i]];
      }
      assert claims[..] == claims;
    }

    // -------------------------------------------------------------- deleting

    /** Everything except one claim is as it was, apart from what the host did to original names. */
    twostate predicate OnlyClaimChanges(claim: Loc)
      reads this
    {
      && OtherClaimsStay(old(files), files, claim)
      && NamesStay()
    }

    /** Removes one verified claim: a file at once, a directory entry by entry. */
    method DeleteClaim(action: Action) returns (failed: bool, stop: bool)
      requires Valid() && HasPrimary(plan) && action in plan.actions && ClaimOf(plan, action) in files
      requires ActionMatches(action, files[ClaimOf(plan, action)])
      requires action == PrimaryOf(plan) ==>
                 && SourceMatches(plan, action, files[ClaimOf(plan, action)], plan.verification.value)
                 && CompanionClaims(plan, files) == {}
      modifies this`files, this`journal
      ensures Valid() && OnlyClaimChanges(ClaimOf(plan, action)) && old(journal) <= journal
      ensures !failed && !stop ==> ClaimOf(plan, action) !in files && WasRemoved(old(journal), journal, action)
      ensures reliable ==> !failed
      ensures HostQuiet() && stop && action.kind == FileKind ==> files == old(files)
    {
      failed := false;
      stop := Interfere({});
      if stop {
        return;
      }
      ClaimsUnchanged(plan, old(files), files);
      failed, stop := EraseClaim(action);
    }

    /** A file goes at once, a directory entry by entry. */
    method EraseClaim(action: Action) returns (failed: bool, stop: bool)
      requires Valid() && HasPrimary(plan) && action in plan.actions && ClaimOf(plan, action) in files
      requires ActionMatches(action, files[ClaimOf(plan, action)])
      requires action == PrimaryOf(plan) ==>
                 && SourceMatches(plan, action, files[ClaimOf(plan, action)], plan.verification.value)
                 && CompanionClaims(plan, files) == {}
      modifies this`files, this`journal
      ensures Valid() && OnlyClaimChanges(ClaimOf(plan, action)) && old(journal) <= journal
      ensures !failed && !stop ==> ClaimOf(plan, action) !in files && WasRemoved(old(journal), journal, action)
      ensures reliable ==> !failed
      ensures stop && action.kind == FileKind ==> files == old(files)
    {
      ghost var whole := files[ClaimOf(plan, action)];
      failed, stop := false, false;
      if action.kind == DirectoryKind {
        failed, stop := EmptyDirectory(action, whole);
        if failed || stop {
          return;
        }
      }
      failed := *;
      if failed && !reliable {
        return;
      }
      failed := false;
      ClaimsUnchanged(plan, old(files), files);
      RemoveRoot(action, whole);
    }

    method RemoveRoot(action: Action, ghost whole: Obj)
      requires Valid() && HasPrimary(plan) && action in plan.actions && ClaimOf(plan, action) in files
      requires ActionMatches(action, whole) && Remainder(action.kind, files[ClaimOf(plan, action)], whole)
      requires action.kind == DirectoryKind ==> files[ClaimOf(plan, action)].inside == map[]
      requires action == PrimaryOf(plan) ==>
                 && SourceMatches(plan, action, whole, plan.verification.value)
                 && CompanionClaims(plan, files) == {}
      modifies this`files, this`journal
      ensures Valid() && files == old(files) - {ClaimOf(plan, action)}
      ensures journal == old(journal) + [Removed(action, whole, [], whole, old(CompanionClaims(plan, files)))]
    {
      ghost var e := Removed(action, whole, [], whole, CompanionClaims(plan, files));
      files := files - {ClaimOf(plan, action)};
      HeldVanishes(plan, old(files), files, action);
      StaysAccounted(plan, claimsQuiet, initial, old(files), files, journal, e);
      journal := journal + [e];
    }

    /** Removing one entry of a directory touches the entries of directories around it. */
    static method RemoveInside(o: Obj, at: Path) returns (rest: Obj)
      ensures IsWithout(rest, o, at)
    {
      var touched: map<Relative, Entry> := *;
      var size: int, mtime: int := *, *;
      rest := Obj(
        Directory(size, mtime),
        map p | p in o.inside && p != at ::
          if o.inside[p].Directory? && p in touched && touched[p].Directory? then touched[p] else o.inside[p]);
    }

    method RemoveEntry(action: Action, ghost whole: Obj, at: Path)
      requires Valid() && HasPrimary(plan) && action in plan.actions && ClaimOf(plan, action) in files
      requires ActionMatches(action, whole) && Remainder(action.kind, files[ClaimOf(plan, action)], whole)
      requires action.kind == DirectoryKind && at != [] && at in files[ClaimOf(plan, action)].inside
      requires action == PrimaryOf(plan) ==>
                 && SourceMatches(plan, action, whole, plan.verification.value)
                 && CompanionClaims(plan, files) == {}
      modifies this`files, this`journal
      ensures Valid() && OnlyClaimChanges(ClaimOf(plan, action)) && ClaimOf(plan, action) in files
      ensures Remainder(action.kind, files[ClaimOf(plan, action)], whole)
      ensures IsWithout(files[ClaimOf(plan, action)], old(files)[ClaimOf(plan, action)], at)
      ensures old(journal) <= journal
    {
      var claim := ClaimOf(plan, action);
      var rest := RemoveInside(files[claim], at);
      ghost var e := Removed(action, whole, at, rest, CompanionClaims(plan, files));
      files := files[claim := rest];
      HeldAppears(plan, old(files), files, action);
      StaysAccounted(plan, claimsQuiet, initial, old(files), files, journal, e);
      journal := journal + [e];
    }

    method EmptyDirectory(action: Action, ghost whole: Obj) returns (failed: bool, stop: bool)
      requires Valid() && HasPrimary(plan) && action in plan.actions && ClaimOf(plan, action) in files
      requires files[ClaimOf(plan, action)] == whole && ActionMatches(action, whole) && action.kind == DirectoryKind
      requires action == PrimaryOf(plan) ==>
                 && SourceMatches(plan, action, whole, plan.verification.value)
                 && CompanionClaims(plan, files) == {}
      modifies this`files, this`journal
      ensures Valid() && OnlyClaimChanges(ClaimOf(plan, action)) && ClaimOf(plan, action) in files
      ensures Remainder(action.kind, files[ClaimOf(plan, action)], whole)
      ensures !failed && !stop ==> files[ClaimOf(plan, action)].inside == map[]
      ensures reliable ==> !failed
      ensures old(journal) <= journal
    {
      var claim := ClaimOf(plan, action);
      failed, stop := false, false;
      while files[claim].inside.Keys != {}
        invariant Valid() && OnlyClaimChanges(claim) && claim in files && !failed && !stop
        invariant Remainder(action.kind, files[claim], whole)
        invariant ClaimsIn(plan, files) == old(ClaimsIn(plan, files)) && old(journal) <= journal
        decreases files[claim].inside.Keys
      {
        stop := Interfere({});
        ClaimsUnchanged(plan, old(files), files);
        if stop {
          return;
        }
        failed := *;
        if failed && !reliable {
          return;
        }
        failed := false;
        var at :| at in files[claim].inside.Keys;
        RemoveEntry(action, whole, at);
        ClaimsUnchanged(plan, old(files), files);
      }
    }

    ghost predicate CanResume()
      reads this
    {
      HostQuiet() && reliable && OnlyFiles(plan) && Resumable(plan, files)
    }

    twostate predicate OriginalsStay()
      reads this
    {
      namesQuiet ==> forall p :: Original(p) in files <==> Original(p) in old(files)
    }

    method DeleteCompanion(claims: seq<Action>, i: nat, failedBefore: bool) returns (failed: bool, stop: bool)
      requires Valid() && AreClaimsOf(plan, claims) && 1 <= i < |claims| && Pending(plan, files, claims, i, failedBefore)
      modifies this`files, this`journal
      ensures Valid() && old(journal) <= journal && OriginalsStay()
      ensures !stop ==> (failedBefore ==> failed) && Pending(plan, files, claims, i + 1, failed)
      ensures reliable && !failedBefore ==> !failed
      ensures old(CanResume()) && !failedBefore ==> CanResume()
    {
      assert claims[i] == claims[i..][0] && claims[i] in claims;
      failed, stop := DeleteClaim(claims[i]);
      if !stop {
        PendingStep(plan, old(files), files, claims, i, failedBefore);
        if old(CanResume()) && !failed {
          OneClaimLess(claims[i]);
          DroppingKeepsResumable(plan, old(files), files, claims[i]);
        }
      }
      failed := failed || failedBefore;
    }

    twostate lemma OneClaimLess(action: Action)
      requires HostQuiet() && OnlyClaimChanges(ClaimOf(plan, action)) && ClaimOf(plan, action) !in files
      ensures files == old(files) - {ClaimOf(plan, action)}
    {
    }

    method DeleteCompanions(claims: seq<Action>) returns (failed: bool, stop: bool)
      requires Valid() && AreClaimsOf(plan, claims) && Pending(plan, files, claims, 1, false)
      modifies this`files, this`journal
      ensures Valid() && old(journal) <= journal && OriginalsStay()
      ensures !stop ==> Pending(plan, files, claims, |claims|, failed)
      ensures reliable ==> !failed
      ensures old(CanResume()) ==> CanResume()
    {
      failed, stop := false, false;
      for i := 1 to |claims|
        invariant Valid() && old(journal) <= journal && (reliable ==> !failed) && OriginalsStay() && !stop
        invariant Pending(plan, files, claims, i, failed)
        invariant old(CanResume()) ==> CanResume()
      {
        failed, stop := DeleteCompanion(claims, i, failed);
        if stop {
          return;
        }
      }
    }

    /** In the order of the code: companions first, the primary claim only if all of them are gone. */
    method DeleteClaims(claims: seq<Action>) returns (failed: bool, stop: bool)
      requires Valid() && AreClaimsOf(plan, claims) && AllMatch(plan, files, claims) && ClaimsIn(plan, files) == TargetsOf(claims)
      modifies this`files, this`journal
      ensures Valid() && old(journal) <= journal && OriginalsStay()
      ensures !failed && !stop ==> ClaimsIn(plan, files) == {} && WasRemoved(old(journal), journal, PrimaryOf(plan))
      ensures reliable ==> !failed
      ensures old(CanResume()) && stop ==> CanResume()
    {
      AllPending(plan, files, claims);
      failed, stop := DeleteCompanions(claims);
      if failed || stop {
        return;
      }
      OnlyPrimaryPending(plan, files, claims);
      ghost var soFar := journal;
      failed, stop := DeletePrimary();
      if !failed && !stop {
        Later(old(journal), soFar, journal, PrimaryOf(plan));
      }
    }

    method DeletePrimary() returns (failed: bool, stop: bool)
      requires Valid() && HasPrimary(plan) && ClaimsIn(plan, files) == {PrimaryOf(plan).target}
      requires ClaimOf(plan, PrimaryOf(plan)) in files && IsPreviewed(plan, files[ClaimOf(plan, PrimaryOf(plan))])
      modifies this`files, this`journal
      ensures Valid() && old(journal) <= journal && OriginalsStay()
      ensures !failed && !stop ==> ClaimsIn(plan, files) == {} && WasRemoved(old(journal), journal, PrimaryOf(plan))
      ensures reliable ==> !failed
      ensures old(CanResume()) && stop ==> CanResume()
    {
      failed, stop := DeleteClaim(PrimaryOf(plan));
      if !failed && !stop {
        ClaimVanishes(plan, old(files), files, PrimaryOf(plan));
      }
    }

    // -------------------------------------------------------------- the phases of an application

    method Preflight() returns (reason: Option<Reason>)
      requires Valid()
      ensures reason == None <==> forall a :: a in plan.actions ==> Clear(plan, files, a)
      ensures reason.Some? ==> reason.value in {LinkRejected, TypeMismatch, ClaimConflict}
      ensures reason == Some(ClaimConflict) ==> exists a :: a in plan.actions && Original(a.target) in files && ClaimOf(plan, a) in files
    {
      for i := 0 to |plan.actions|
        invariant forall k :: 0 <= k < i && Original(plan.actions[k].target) in files ==>
                    ObjProblem(files[Original(plan.actions[k].target)], plan.actions[k].kind) == None
      {
        var a := plan.actions[i];
        if Original(a.target) in files && ObjProblem(files[Original(a.target)], a.kind).Some? {
          assert !Clear(plan, files, a);
          return ObjProblem(files[Original(a.target)], a.kind);
        }
      }
      for i := 0 to |plan.actions|
        invariant forall k :: 0 <= k < i ==> Clear(plan, files, plan.actions[k])
      {
        var a := plan.actions[i];
        if ClaimOf(plan, a) in files {
          if Original(a.target) in files {
            assert !Clear(plan, files, a);
            return Some(ClaimConflict);
          }
          if ObjProblem(files[ClaimOf(plan, a)], a.kind).Some? {
            assert !Clear(plan, files, a);
            return ObjProblem(files[ClaimOf(plan, a)], a.kind);
          }
        }
      }
      return None;
    }

    /** Restores the claims and reports `otherwise`, or the conflict if some claim could not go back. */
    method GiveUp(claims: seq<Action>, otherwise: Outcome) returns (o: Outcome)
      requires Valid() && HasPrimary(plan) && Settled(otherwise)
      requires forall a :: a in claims ==> a in plan.actions
      modifies this`files, this`journal
      ensures ContentStays()
      ensures Valid() && Undone(old(journal), journal)
      ensures o == otherwise || o == Partial(RestoreConflict) || o == Stopped
      ensures Settled(o) ==> ClaimsIn(plan, files) == old(ClaimsIn(plan, files)) - TargetsOf(claims)
      ensures old(ClaimsIn(plan, files)) - TargetsOf(claims) <= ClaimsIn(plan, files) <= old(ClaimsIn(plan, files))
      ensures HostQuiet() && reliable && old(NoneTwice(plan, files)) ==> o == otherwise || o == Stopped
    {
      var conflict, stop := RestoreClaims(claims);
      o := if stop then Stopped else if conflict then Partial(RestoreConflict) else otherwise;
    }

    /** The primary object stands at its claim. */
    ghost predicate PrimaryHeld()
      requires HasPrimary(plan)
      reads this
    {
      ClaimOf(plan, PrimaryOf(plan)) in files && (namesQuiet ==> Original(PrimaryOf(plan).target) !in files)
    }

    /** The first check, of the primary claim alone. */
    method CheckPrimary() returns (outcome: Option<Outcome>)
      requires Valid() && HasPrimary(plan) && ClaimOf(plan, PrimaryOf(plan)) in files
      modifies this`files, this`journal
      ensures ContentStays()
      ensures Valid() && Undone(old(journal), journal)
      ensures outcome == None ==> ClaimOf(plan, PrimaryOf(plan)) in files && IsPreviewed(plan, files[ClaimOf(plan, PrimaryOf(plan))])
      ensures outcome == None ==> Idle(old(journal), journal) && NamesStay() && (HostQuiet() ==> files == old(files))
      ensures outcome.Some? ==> IsRefusal(outcome.value)
      ensures outcome.Some? && Settled(outcome.value) ==> ClaimsIn(plan, files) == old(CompanionClaims(plan, files))
      ensures CompanionClaims(plan, files) == old(CompanionClaims(plan, files))
      ensures HostQuiet() && reliable && old(IsPreviewed(plan, files[ClaimOf(plan, PrimaryOf(plan))])) ==>
                (outcome == None || outcome == Some(Stopped)) && files == old(files)
      ensures HostQuiet() && reliable && old(NoneTwice(plan, files)) && outcome.Some? ==>
                outcome.value == Stopped || (outcome.value == Retained(old(PrimaryReason(plan, files[ClaimOf(plan, PrimaryOf(plan))])))
                                             && !old(IsPreviewed(plan, files[ClaimOf(plan, PrimaryOf(plan))])))
    {
      var primary := PrimaryOf(plan);
      var stop := Interfere(files.Keys);
      ClaimsUnchanged(plan, old(files), files);
      if stop {
        return Some(Stopped);
      }
      var mismatch := SourceMismatch();
      if mismatch == None {
        stop := Interfere(OpenClaims([]));
        if stop {
          return Some(Stopped);
        }
        mismatch := ActionMismatch(primary);
      }
      if mismatch.Some? {
        assert TargetsOf([primary]) == {primary.target};
        var o := GiveUp([primary], Retained(mismatch));
        return Some(o);
      }
      return None;
    }

    /** The primary object is in neither place; the report tells whether anything else of the plan is. */
    ghost predicate MissingAsReported(o: Outcome)
      requires HasPrimary(plan)
      reads this
    {
      && Original(PrimaryOf(plan).target) !in files && ClaimOf(plan, PrimaryOf(plan)) !in files
      && (o == Partial(MissingBeforeClaim) <==> AllGone(plan, files))
    }

    /** Claims the primary object and checks it; an unclaimed plan fails closed. */
    method TakePrimary() returns (outcome: Option<Outcome>)
      requires Valid() && HasPrimary(plan)
      modifies this`files, this`journal
      ensures ContentStays()
      ensures Valid()
      // The object claimed has the previewed digest, modification time and manifest.
      ensures outcome == None ==> PrimaryHeld() && IsPreviewed(plan, files[ClaimOf(plan, PrimaryOf(plan))]) && TakenOnly(old(journal), journal)
      ensures outcome.Some? ==> TakenThenUndone(old(journal), journal)
      ensures outcome.Some? ==> IsRefusal(outcome.value) || outcome.value == Partial(ClaimFailed) || IsMissing(outcome.value)
      ensures outcome.Some? && IsMissing(outcome.value) ==> MissingAsReported(outcome.value)
      ensures outcome.Some? && !IsRefusal(outcome.value) ==> ClaimsIn(plan, files) == old(ClaimsIn(plan, files))
      // Companion claims left by an earlier application are not touched here.
      ensures outcome.Some? && IsMismatchRefusal(outcome.value) ==> ClaimsIn(plan, files) == old(CompanionClaims(plan, files))
      ensures CompanionClaims(plan, files) == old(CompanionClaims(plan, files))
      ensures HostQuiet() && reliable && old(Resumable(plan, files)) ==> Resumable(plan, files) && (outcome == None || outcome == Some(Stopped))
      ensures HostQuiet() && reliable && old(NoneTwice(plan, files)) ==> QuietStart(plan, old(files), files, outcome)
    {
      var stop := Interfere(files.Keys);
      ClaimsUnchanged(plan, old(files), files);
      if stop {
        assert TakenOnly(old(journal), journal) && Undone(journal, journal);
        return Some(Stopped);
      }
      outcome := ClaimAndCheckPrimary();
    }

    method ClaimAndCheckPrimary() returns (outcome: Option<Outcome>)
      requires Valid() && HasPrimary(plan)
      modifies this`files, this`journal
      ensures ContentStays()
      ensures Valid()
      ensures outcome == None ==> PrimaryHeld() && IsPreviewed(plan, files[ClaimOf(plan, PrimaryOf(plan))]) && TakenOnly(old(journal), journal)
      ensures outcome.Some? ==> TakenThenUndone(old(journal), journal)
      ensures outcome.Some? ==> IsRefusal(outcome.value) || outcome.value == Partial(ClaimFailed) || IsMissing(outcome.value)
      ensures outcome.Some? && IsMissing(outcome.value) ==> MissingAsReported(outcome.value)
      ensures outcome.Some? && !IsRefusal(outcome.value) ==> ClaimsIn(plan, files) == old(ClaimsIn(plan, files))
      ensures outcome.Some? && IsMismatchRefusal(outcome.value) ==> ClaimsIn(plan, files) == old(CompanionClaims(plan, files))
      ensures CompanionClaims(plan, files) == old(CompanionClaims(plan, files))
      ensures HostQuiet() && reliable && old(Resumable(plan, files)) ==> Resumable(plan, files) && (outcome == None || outcome == Some(Stopped))
      ensures HostQuiet() && reliable && old(NoneTwice(plan, files)) ==> QuietStart(plan, old(files), files, outcome)
    {
      assert TakenOnly(old(journal), old(journal)) && Undone(old(journal), old(journal));
      var r := ClaimPrimary();
      match r {
        case Failed =>
          return Some(Partial(ClaimFailed));
        case Absent =>
          var o := ReportMissing();
          return Some(o);
        case Taken =>
      }
      ghost var taken := journal;
      if HostQuiet() && reliable && Resumable(plan, files) {
        ResumableIsNoneTwice(plan, files);
      }
      outcome := CheckPrimary();
      if outcome.Some? {
        assert TakenOnly(old(journal), taken) && Undone(taken, journal);
      } else {
        StillTaken(old(journal), taken, journal);
      }
    }

    method ReportMissing() returns (o: Outcome)
      requires HasPrimary(plan) && Content(plan, files, PrimaryOf(plan).target) == None
      ensures IsMissing(o) && MissingAsReported(o)
    {
      o := if forall a :: a in plan.actions ==> Original(a.target) !in files && ClaimOf(plan, a) !in files
        then Partial(MissingBeforeClaim) else Retained(Some(MissingWithResidue));
    }

    method ClaimPrimary() returns (r: ClaimResult)
      requires Valid() && HasPrimary(plan)
      modifies this`files, this`journal
      ensures ContentStays()
      ensures Valid() && TakenOnly(old(journal), journal)
      ensures r != Taken ==> files == old(files) && journal == old(journal)
      ensures r == Taken ==> ClaimOf(plan, PrimaryOf(plan)) in files && Original(PrimaryOf(plan).target) !in files
      ensures r == Taken ==> Content(plan, old(files), PrimaryOf(plan).target) == Some(files[ClaimOf(plan, PrimaryOf(plan))])
      ensures r == Absent ==> Content(plan, files, PrimaryOf(plan).target) == None
      ensures CompanionClaims(plan, files) == old(CompanionClaims(plan, files))
      ensures old(NoneTwice(plan, files)) ==> NoneTwice(plan, files) && (reliable ==> r != Failed)
      ensures old(Resumable(plan, files)) ==> Resumable(plan, files) && r != Absent
    {
      r := ClaimAction(PrimaryOf(plan));
      EffectOnPrimary(plan, old(files), files, r, reliable);
      EffectOnPlan(plan, old(files), files, PrimaryOf(plan), r, reliable);
    }

    /** One step of the claiming loop, after whatever the host does before it. */
    method TakeCompanion(action: Action) returns (r: ClaimResult, stop: bool)
      requires Valid() && HasPrimary(plan) && action in plan.actions
      modifies this`files, this`journal
      ensures ContentStays()
      ensures Valid() && TakenOnly(old(journal), journal)
      ensures !stop && r != Failed ==> (r == Taken <==> ClaimOf(plan, action) in files) && Original(action.target) !in files
      ensures ClaimsIn(plan, files) == old(ClaimsIn(plan, files)) + (if !stop && r == Taken then {action.target} else {})
      ensures ClaimsOf(files) - {ClaimOf(plan, action)} == ClaimsOf(old(files)) - {ClaimOf(plan, action)}
      ensures namesQuiet ==> OriginalsOf(files) - {Original(action.target)} == OriginalsOf(old(files)) - {Original(action.target)}
      ensures HostQuiet() && old(Resumable(plan, files)) ==> Resumable(plan, files)
      ensures HostQuiet() && old(NoneTwice(plan, files)) ==> NoneTwice(plan, files) && (reliable ==> stop || r != Failed)
    {
      r := Absent;
      stop := Interfere(files.Keys);
      ClaimsUnchanged(plan, old(files), files);
      assert ClaimsOf(files) == ClaimsOf(old(files));
      assert namesQuiet ==> OriginalsOf(files) == OriginalsOf(old(files));
      if stop {
        return;
      }
      r := ClaimCompanion(action);
    }

    method ClaimCompanion(action: Action) returns (r: ClaimResult)
      requires Valid() && HasPrimary(plan) && action in plan.actions
      modifies this`files, this`journal
      ensures ContentStays()
      ensures Valid() && TakenOnly(old(journal), journal)
      ensures r != Failed ==> (r == Taken <==> ClaimOf(plan, action) in files) && Original(action.target) !in files
      ensures ClaimsIn(plan, files) == old(ClaimsIn(plan, files)) + (if r == Taken then {action.target} else {})
      ensures ClaimsOf(files) - {ClaimOf(plan, action)} == ClaimsOf(old(files)) - {ClaimOf(plan, action)}
      ensures OriginalsOf(files) - {Original(action.target)} == OriginalsOf(old(files)) - {Original(action.target)}
      ensures old(Resumable(plan, files)) ==> Resumable(plan, files)
      ensures old(NoneTwice(plan, files)) ==> NoneTwice(plan, files) && (reliable ==> r != Failed)
    {
      r := ClaimAction(action);
      EffectOnClaims(plan, old(files), files, action, r, reliable);
      EffectOnPlan(plan, old(files), files, action, r, reliable);
    }

    /** The claiming loop at action `i`. */
    method TakeNext(claims: seq<Action>, i: nat) returns (all: seq<Action>, failed: bool, stop: bool)
      requires Valid() && i < |plan.actions| && AreClaimsOf(plan, claims) && Gathered(plan, files, namesQuiet, claims, i)
      modifies this`files, this`journal
      ensures ContentStays()
      ensures Valid() && TakenOnly(old(journal), journal) && AreClaimsOf(plan, all)
      ensures !failed && !stop ==> Gathered(plan, files, namesQuiet, all, i + 1)
      ensures TargetsOf(claims) <= TargetsOf(all)
      ensures ClaimsIn(plan, files) <= old(ClaimsIn(plan, files)) + TargetsOf(all)
      ensures HostQuiet() && old(Resumable(plan, files)) ==> Resumable(plan, files)
      ensures HostQuiet() && old(NoneTwice(plan, files)) ==> NoneTwice(plan, files) && (reliable ==> !failed)
    {
      all, failed, stop := claims, false, false;
      var action := plan.actions[i];
      if action == PrimaryOf(plan) {
        GatherPrimary(plan, files, namesQuiet, claims, i);
        return;
      }
      var r: ClaimResult;
      r, stop := TakeCompanion(action);
      if stop || r == Failed {
        failed := !stop;
        return;
      }
      GatherStep(plan, old(files), files, namesQuiet, claims, i);
      if r == Taken {
        all := claims + [action];
        assert TargetsOf(all) == TargetsOf(claims) + {action.target};
      }
    }

    method TakeCompanions() returns (claims: seq<Action>, failed: bool, stop: bool)
      requires Valid() && HasPrimary(plan) && PrimaryHeld()
      modifies this`files, this`journal
      ensures ContentStays()
      ensures Valid() && TakenOnly(old(journal), journal) && AreClaimsOf(plan, claims)
      ensures ClaimsIn(plan, files) <= old(ClaimsIn(plan, files)) + TargetsOf(claims)
      ensures !failed && !stop ==> ClaimsIn(plan, files) == TargetsOf(claims)
      ensures !failed && !stop ==> forall a :: a in claims ==> ClaimOf(plan, a) in files
      ensures !failed && !stop && namesQuiet ==> OriginalsGone(plan, files)
      ensures HostQuiet() && old(Resumable(plan, files)) ==> Resumable(plan, files)
      ensures HostQuiet() && old(NoneTwice(plan, files)) ==> NoneTwice(plan, files) && (reliable ==> !failed)
    {
      claims, failed, stop := [PrimaryOf(plan)], false, false;
      for i := 0 to |plan.actions|
        invariant Valid() && TakenOnly(old(journal), journal) && !failed && !stop && ContentStays()
        invariant AreClaimsOf(plan, claims) && Gathered(plan, files, namesQuiet, claims, i)
        invariant ClaimsIn(plan, files) <= old(ClaimsIn(plan, files)) + TargetsOf(claims)
        invariant HostQuiet() && old(Resumable(plan, files)) ==> Resumable(plan, files)
        invariant HostQuiet() && old(NoneTwice(plan, files)) ==> NoneTwice(plan, files)
      {
        claims, failed, stop := TakeNext(claims, i);
        if failed || stop {
          return;
        }
      }
      AllGathered(plan, files, namesQuiet, claims);
    }

    lemma ResumableClaimsMatch(claims: seq<Action>)
      requires AreClaimsOf(plan, claims) && Resumable(plan, files)
      requires forall a :: a in claims ==> ClaimOf(plan, a) in files
      ensures AllMatch(plan, files, claims)
    {
      forall a | a in claims ensures ActionMatches(a, files[ClaimOf(plan, a)]) {
        assert Sound(plan, files, a);
      }
    }

    /** Everything is claimed: check all of it once more, then delete or restore. */
    method CheckAndDelete(claims: seq<Action>) returns (o: Outcome)
      requires Valid() && AreClaimsOf(plan, claims) && ClaimsIn(plan, files) == TargetsOf(claims)
      requires forall a :: a in claims ==> ClaimOf(plan, a) in files
      requires namesQuiet ==> OriginalsGone(plan, files)
      modifies this`files, this`journal
      ensures Valid() && old(journal) <= journal
      ensures IsRefusal(o) || o == Deleted || o == Partial(DeleteFailed)
      ensures IsMismatchRefusal(o) || o == Partial(RestoreConflict) ==> Undone(old(journal), journal) && ContentStays() && ObjectsKept()
      ensures IsMismatchRefusal(o) || o == Deleted ==> ClaimsIn(plan, files) == {}
      ensures o == Deleted ==> WasRemoved(old(journal), journal, PrimaryOf(plan)) && (namesQuiet ==> AllGone(plan, files))
      ensures HostQuiet() && reliable && old(NoneTwice(plan, files)) ==> o != Partial(RestoreConflict) && o != Partial(DeleteFailed)
      ensures HostQuiet() && reliable && old(Resumable(plan, files)) ==> o == Deleted || o == Stopped
      ensures old(CanResume()) && o == Stopped ==> CanResume() || AllGone(plan, files)
    {
      var stop := Interfere(files.Keys);
      ClaimsUnchanged(plan, old(files), files);
      if stop {
        return Stopped;
      }
      if HostQuiet() && old(Resumable(plan, files)) {
        ResumableClaimsMatch(claims);
      }
      ghost var was := files;
      var mismatch: Option<Reason>;
      mismatch, stop := FinalMismatch(claims);
      ClaimsUnchanged(plan, was, files);
      if stop {
        return Stopped;
      }
      if mismatch.Some? {
        o := GiveUp(claims, Retained(mismatch));
        KeepsObjects();
        return;
      }
      o := Delete(claims);
    }

    method Delete(claims: seq<Action>) returns (o: Outcome)
      requires Valid() && AreClaimsOf(plan, claims) && AllMatch(plan, files, claims) && ClaimsIn(plan, files) == TargetsOf(claims)
      requires namesQuiet ==> OriginalsGone(plan, files)
      modifies this`files, this`journal
      ensures Valid() && old(journal) <= journal
      ensures o == Stopped || o == Deleted || o == Partial(DeleteFailed)
      ensures o == Deleted ==> ClaimsIn(plan, files) == {} && WasRemoved(old(journal), journal, PrimaryOf(plan))
      ensures o == Deleted && namesQuiet ==> AllGone(plan, files)
      ensures reliable ==> o != Partial(DeleteFailed)
      ensures old(CanResume()) && o == Stopped ==> CanResume() || AllGone(plan, files)
    {
      var failed, stop := DeleteClaims(claims);
      if stop {
        return Stopped;
      }
      if failed {
        return Partial(DeleteFailed);
      }
      ghost var was := files;
      stop := Interfere({});
      ClaimsUnchanged(plan, was, files);
      if namesQuiet {
        NothingStands(plan, files);
      }
      return if stop then Stopped else Deleted;
    }

    /** Everything from the first claim on. */
    method Carry() returns (o: Outcome)
      requires Valid() && HasPrimary(plan)
      modifies this`files, this`journal
      ensures Valid() && old(journal) <= journal && o != Unsupported
      ensures IsRefusal(o) || IsMissing(o) || o == Partial(ClaimFailed) || o == Partial(DeleteFailed) || o == Deleted
      ensures IsMissing(o) ==> MissingAsReported(o)
      ensures GaveUp(o) && o != Stopped ==> TakenThenUndone(old(journal), journal) && ContentStays()
      ensures GaveUp(o) && Settled(o) ==> LeftStanding(plan, old(files), files, o)
      ensures o == Deleted ==> ClaimsIn(plan, files) == {} && WasRemoved(old(journal), journal, PrimaryOf(plan))
      ensures o == Deleted && namesQuiet ==> AllGone(plan, files)
      ensures HostQuiet() && reliable && old(NoneTwice(plan, files)) ==> QuietEnd(plan, old(files), files, o)
      ensures HostQuiet() && reliable && old(Resumable(plan, files)) ==> o == Deleted || o == Stopped
      ensures old(CanResume()) && o == Stopped ==> CanResume() || AllGone(plan, files)
    {
      var early := TakePrimary();
      if early.Some? {
        return early.value;
      }
      ghost var was, soFar := files, journal;
      o := CarryOn();
      if GaveUp(o) && o != Stopped {
        TakenFirst(old(journal), soFar, journal);
      } else if o == Deleted {
        Later(old(journal), soFar, journal, PrimaryOf(plan));
      }
      assert ClaimsIn(plan, was) <= CompanionClaims(plan, was) + {PrimaryOf(plan).target};
    }

    /** The primary object is claimed: claim the companions, check everything, and delete. */
    method CarryOn() returns (o: Outcome)
      requires Valid() && HasPrimary(plan) && PrimaryHeld()
      modifies this`files, this`journal
      ensures Valid() && old(journal) <= journal
      ensures IsRefusal(o) || o == Partial(ClaimFailed) || o == Partial(DeleteFailed) || o == Deleted
      ensures GaveUp(o) && o != Stopped ==> TakenThenUndone(old(journal), journal) && ContentStays()
      ensures IsMismatchRefusal(o) ==> ClaimsIn(plan, files) == {}
      ensures o == Partial(ClaimFailed) ==> ClaimsIn(plan, files) <= old(CompanionClaims(plan, files))
      ensures o == Deleted ==> ClaimsIn(plan, files) == {} && WasRemoved(old(journal), journal, PrimaryOf(plan))
      ensures o == Deleted && namesQuiet ==> AllGone(plan, files)
      ensures HostQuiet() && reliable && old(NoneTwice(plan, files)) ==> o == Deleted || o == Stopped || IsMismatchRefusal(o)
      ensures HostQuiet() && reliable && old(Resumable(plan, files)) ==> o == Deleted || o == Stopped
      ensures old(CanResume()) && o == Stopped ==> CanResume() || AllGone(plan, files)
    {
      var claims, failed, stop := TakeCompanions();
      if stop {
        return Stopped;
      }
      ghost var taken := journal;
      assert claims[0] in claims;
      if failed {
        o := GiveUp(claims, Partial(ClaimFailed));
        assert TakenOnly(old(journal), taken) && Undone(taken, journal);
        return;
      }
      o := CheckAndDelete(claims);
      if o == Deleted {
        Later(old(journal), taken, journal, PrimaryOf(plan));
      } else if GaveUp(o) && o != Stopped {
        assert TakenOnly(old(journal), taken) && Undone(taken, journal);
      }
    }

    /** Every object claimed since the journal was `before` was renamed back as it was, or stands as it
        was at its claim, which is then reported, or the host wrote into it. */
    ghost predicate BackOrReported(before: seq<Event>, o: Outcome)
      reads this
    {
      forall k :: |before| <= k < |journal| && journal[k].Claimed? ==>
        || Returned(journal, k + 1, journal[k].action.target, journal[k].o)
        || (o == Partial(RestoreConflict) && StandsAt(journal[k].action.target, journal[k].o))
        || (!claimsQuiet && Overwritten(journal, k + 1, journal[k].action.target, journal[k].o))
    }

    ghost predicate StandsAt(p: Path, o: Obj)
      reads this
    {
      p in HeldNow(plan, files) && HeldNow(plan, files)[p] == o
    }

    lemma AccountForClaims(before: seq<Event>, o: Outcome)
      requires Valid() && TakenThenUndone(before, journal)
      requires Settled(o) ==> ClaimsIn(plan, files) <= Held(initial, before).Keys
      requires o != Stopped
      ensures BackOrReported(before, o)
    {
      forall k | |before| <= k < |journal| && journal[k].Claimed?
        ensures || Returned(journal, k + 1, journal[k].action.target, journal[k].o)
                || (o == Partial(RestoreConflict) && StandsAt(journal[k].action.target, journal[k].o))
                || (!claimsQuiet && Overwritten(journal, k + 1, journal[k].action.target, journal[k].o))
      {
        ClaimedGoesBack(plan, initial, before, journal, k);
        if claimsQuiet {
          NeverOverwritten(journal, k + 1, journal[k].action.target, journal[k].o);
        }
      }
    }

    /** Where claims were only taken and restored, every object is accounted for. */
    twostate lemma NothingGone(o: Outcome)
      requires old(Valid()) && Valid() && TakenThenUndone(old(journal), journal)
      requires Settled(o) ==> ClaimsIn(plan, files) <= old(ClaimsIn(plan, files))
      requires o != Stopped
      ensures ObjectsKept() && BackOrReported(old(journal), o)
    {
      NothingRemoved(old(journal), journal);
      KeepsObjects();
      AccountForClaims(old(journal), o);
    }

    /** One application of the plan. `active` is what the host's activity probes report.

        On every exit the journal is orderly and yields what the claims hold (Valid), so that all that was
        ever removed was what the plan previewed (RemovedAsPreviewed). Short of a deletion, nothing is
        removed, every object that was claimed is renamed back as it was or stands as it was at its claim
        with the conflict reported, or the host wrote into it, and no claim is left behind that did not
        stand before unless that is reported. Left alone, a plan that matches what it previewed is carried through,
        however often it is stopped on the way. */
    method Apply(active: bool) returns (o: Outcome)
      requires Valid()
      modifies this`files, this`journal
      ensures Valid() && old(journal) <= journal
      ensures o == Unsupported <==> !plan.supported
      ensures plan.supported && plan.retained ==> o == Retained(None)
      ensures plan.supported && !plan.retained && active ==> o == Retained(Some(ActivityReported))
      ensures o == Partial(InvalidPlan) <==> Applies(active) && plan.verification == None
      ensures o == Partial(ActionMissing) <==> Applies(active) && plan.verification.Some? && NothingCovers(plan.verification.value)
      ensures IsMissing(o) ==> HasPrimary(plan) && MissingAsReported(o)
      ensures !Applies(active) ==> GaveUp(o) && Settled(o) && files == old(files) && journal == old(journal)
      ensures GaveUp(o) && o != Stopped ==> TakenThenUndone(old(journal), journal) && ContentStays()
      ensures GaveUp(o) && o != Stopped ==> ObjectsKept() && BackOrReported(old(journal), o)
      ensures GaveUp(o) && Settled(o) ==> LeftStanding(plan, old(files), files, o)
      ensures o == Deleted ==> HasPrimary(plan) && ClaimsIn(plan, files) == {} && WasRemoved(old(journal), journal, PrimaryOf(plan))
      ensures o == Deleted && namesQuiet ==> AllGone(plan, files)
      ensures Applies(active) && HostQuiet() && reliable && old(Passes(plan, files)) ==> QuietEnd(plan, old(files), files, o)
      ensures Applies(active) && HostQuiet() && reliable && old(Resumable(plan, files)) ==> o == Deleted || o == Stopped
      ensures old(CanResume()) && o == Stopped ==> CanResume() || AllGone(plan, files)
    {
      assert TakenOnly(journal, journal) && Undone(journal, journal);
      var refusal := Refuse(active);
      if refusal.Some? {
        NothingGone(refusal.value);
        return refusal.value;
      }
      var stop := Interfere(files.Keys);
      ClaimsUnchanged(plan, old(files), files);
      if stop {
        return Stopped;
      }
      ghost var soFar := journal;
      o := CheckAndCarry();
      if GaveUp(o) && o != Stopped {
        TakenFirst(old(journal), soFar, journal);
        NothingGone(o);
      }
    }

    /** No action is about this path, or about a directory around it. */
    predicate NothingCovers(v: Path) {
      forall a :: a in plan.actions ==> a.target != v && !(a.kind == DirectoryKind && a.target < v)
    }

    /** The reasons to leave the file system alone altogether. */
    method Refuse(active: bool) returns (refusal: Option<Outcome>)
      ensures refusal == None <==> Applies(active) && HasPrimary(plan)
      ensures refusal == Some(Unsupported) <==> !plan.supported
      ensures plan.supported && plan.retained ==> refusal == Some(Retained(None))
      ensures plan.supported && !plan.retained && active ==> refusal == Some(Retained(Some(ActivityReported)))
      ensures Applies(active) && plan.verification == None ==> refusal == Some(Partial(InvalidPlan))
      ensures Applies(active) && plan.verification.Some? ==> (refusal == Some(Partial(ActionMissing)) <==> NothingCovers(plan.verification.value))
      ensures refusal.Some? ==> GaveUp(refusal.value) && Settled(refusal.value)
    {
      if !plan.supported {
        return Some(Unsupported);
      }
      if plan.retained {
        return Some(Retained(None));
      }
      if active {
        return Some(Retained(Some(ActivityReported)));
      }
      if plan.verification == None {
        return Some(Partial(InvalidPlan));
      }
      var index := PrimaryActionIndex(plan.actions, plan.verification.value);
      return if index == None then Some(Partial(ActionMissing)) else None;
    }

    /** The plan is one to be applied, and its source is not in use. */
    predicate Applies(active: bool) {
      plan.supported && !plan.retained && !active
    }

    method CheckAndCarry() returns (o: Outcome)
      requires Valid() && HasPrimary(plan)
      modifies this`files, this`journal
      ensures Valid() && old(journal) <= journal && o != Unsupported && o != Partial(InvalidPlan) && o != Partial(ActionMissing)
      ensures IsMissing(o) ==> MissingAsReported(o)
      ensures GaveUp(o) && o != Stopped ==> TakenThenUndone(old(journal), journal) && ContentStays()
      ensures GaveUp(o) && Settled(o) ==> LeftStanding(plan, old(files), files, o)
      ensures o == Deleted ==> ClaimsIn(plan, files) == {} && WasRemoved(old(journal), journal, PrimaryOf(plan))
      ensures o == Deleted && namesQuiet ==> AllGone(plan, files)
      ensures HostQuiet() && reliable && old(Passes(plan, files)) ==> QuietEnd(plan, old(files), files, o)
      ensures HostQuiet() && reliable && old(Resumable(plan, files)) ==> o == Deleted || o == Stopped
      ensures old(CanResume()) && o == Stopped ==> CanResume() || AllGone(plan, files)
    {
      if Resumable(plan, files) {
        forall a | a in plan.actions ensures Clear(plan, files, a) {
          SoundIsClear(plan, files, a);
        }
      }
      var reason := Preflight();
      if reason.Some? {
        assert TakenOnly(journal, journal) && Undone(journal, journal);
        return Partial(reason.value);
      }
      ClearIsNoneTwice(plan, files);
      o := Carry();
    }
  }

  const LOG := Action(FileKind, ["log"], Some(Manifest(Record(FileKind, 3, 1, Some(Sha256("old"))), map[])))
  const INDEX := Action(FileKind, ["index"], Some(Manifest(Record(FileKind, 1, 1, Some(Sha256("i"))), map[])))
  const LOG_AND_INDEX := Plan("source", "revision", [LOG, INDEX], Some(["log"]), Some(Sha256("old")), Some(1), true, false)

  /** An interrupted application has left the claim of the index, and the host has written a new log. */
  function NewLog(): map<Loc, Obj> {
    map[Original(["log"]) := Obj(File("new", 2), map[]),
        Loc.Claim("source", "revision", ["index"]) := Obj(File("i", 1), map[])]
  }

  lemma NewLogIsNotPreviewed()
    ensures LOG_AND_INDEX.DistinctTargets() && Passes(LOG_AND_INDEX, NewLog())
    ensures PrimaryOf(LOG_AND_INDEX) == LOG && CompanionClaims(LOG_AND_INDEX, NewLog()) == {["index"]}
    ensures var o := Content(LOG_AND_INDEX, NewLog(), ["log"]); o.Some? && !IsPreviewed(LOG_AND_INDEX, o.value)
  {
    var plan := LOG_AND_INDEX;
    assert plan.actions[0] == LOG && Covers(LOG, ["log"]);
    assert FirstCovering(plan.actions, ["log"], 0) == Some(0);
    assert forall a :: a in plan.actions <==> a == LOG || a == INDEX;
    assert ClaimOf(plan, INDEX) in NewLog() && INDEX in plan.actions;
    assert ["log"] != ["index"] by { assert ["log"][0] != ["index"][0]; }
  }

  /** Companion claims that an interrupted application left stay behind, unreported, when the host has
      changed the primary object in the meantime: every application that is not stopped gives the
      reason for the primary object and leaves them. */
  method CompanionStaysBehind() returns (saga: Saga, o: Outcome)
    ensures fresh(saga) && saga.Valid() && saga.plan == LOG_AND_INDEX
    ensures o == Stopped || (IsMismatchRefusal(o) && ClaimsIn(saga.plan, saga.files) == {["index"]})
  {
    NewLogIsNotPreviewed();
    saga := new Saga(LOG_AND_INDEX, true, true, true, NewLog());
    o := saga.Apply(false);
  }
}
