/** The claims of a native cleanup plan: what stands at them, what a history of claiming, restoring and
    removing makes of them, and how an application can end (harness_mem/native_source_cleanup.py). */
module NativeCleanupClaims {
  import opened Wrappers
  import opened NativeCleanup

  datatype Reason =
    | ActivityReported
    | InvalidPlan
    | ActionMissing
    | LinkRejected
    | TypeMismatch
    | ClaimConflict
    | MissingBeforeClaim
    | MissingWithResidue
    | ClaimFailed
    | NotRegularFile
    | ChangedAfterClaim
    | VerificationFailed
    | ManifestUnavailable
    | ActionChanged
    | RestoreConflict
    | DeleteFailed

  datatype Outcome =
    | Deleted
    | Retained(why: Option<Reason>)
    | Partial(reason: Reason)
    | Unsupported
    | Stopped

  datatype ClaimResult = Taken | Absent | Failed

  predicate HasPrimary(plan: Plan) {
    plan.verification.Some? && FirstCovering(plan.actions, plan.verification.value, 0).Some?
  }

  function PrimaryOf(plan: Plan): (a: Action)
    requires HasPrimary(plan)
    ensures a in plan.actions && Covers(a, plan.verification.value)
  {
    plan.actions[FirstCovering(plan.actions, plan.verification.value, 0).value]
  }

  /** A plan has a primary action if the target of one is the verification path or a directory around it;
      the first such action is the primary one. */
  lemma PrimaryIsFirst(plan: Plan, v: Path)
    requires plan.verification == Some(v)
    ensures HasPrimary(plan) <==>
              exists a :: a in plan.actions && (a.target == v || (a.kind == DirectoryKind && a.target < v))
    ensures HasPrimary(plan) ==>
              exists i :: 0 <= i < |plan.actions| && plan.actions[i] == PrimaryOf(plan)
                && (plan.actions[i].target == v || (plan.actions[i].kind == DirectoryKind && plan.actions[i].target < v))
                && forall k :: 0 <= k < i ==>
                     plan.actions[k].target != v && !(plan.actions[k].kind == DirectoryKind && plan.actions[k].target < v)
  {
    var index := FirstCovering(plan.actions, v, 0);
    if index == None {
      forall a | a in plan.actions ensures !Covers(a, v) {
        var k :| 0 <= k < |plan.actions| && plan.actions[k] == a;
        assert !Covers(plan.actions[k], v);
      }
    } else {
      assert Covers(plan.actions[index.value], v) && plan.actions[index.value] in plan.actions;
      assert forall k :: 0 <= k < index.value ==> !Covers(plan.actions[k], v);
    }
  }

  /** The file at the verification path, if one stands there in this object of the primary action. */
  predicate IsSourceIn(plan: Plan, o: Obj, file: Entry)
    requires HasPrimary(plan)
  {
    var primary, v := PrimaryOf(plan), plan.verification.value;
    && file.File?
    && (if primary.kind == FileKind then o.root == file
        else v[|primary.target|..] in o.inside && o.inside[v[|primary.target|..]] == file)
  }

  /** The targets of the plan whose claims stand in the file system. */
  ghost function ClaimsIn(plan: Plan, files: map<Loc, Obj>): set<Path> {
    set a | a in plan.actions && ClaimOf(plan, a) in files :: a.target
  }

  ghost function CompanionClaims(plan: Plan, files: map<Loc, Obj>): set<Path>
    requires HasPrimary(plan)
  {
    ClaimsIn(plan, files) - {PrimaryOf(plan).target}
  }

  /** What stands at the claims of the plan, by target. */
  ghost function HeldNow(plan: Plan, files: map<Loc, Obj>): map<Path, Obj> {
    map p | p in ClaimsIn(plan, files) :: files[Loc.Claim(plan.sourceId, plan.revision, p)]
  }

  /** What one event does to the claims that stand and to what they hold. */
  function After(held: map<Path, Obj>, e: Event): map<Path, Obj> {
    match e
    case Claimed(a, o) => held[a.target := o]
    case Restored(a, _) => held - {a.target}
    case Removed(a, _, at, rest, _) => if at == [] then held - {a.target} else held[a.target := rest]
    case Written(now) => now
  }

  /** What the claims hold after a history: each the object last claimed, less what was removed of it,
      or what the host made of it. */
  function Held(initial: map<Path, Obj>, journal: seq<Event>): map<Path, Obj> {
    if journal == [] then initial
    else After(Held(initial, journal[..|journal| - 1]), journal[|journal| - 1])
  }

  /** Only free names are claimed, what goes back is what the claim holds, and the host neither makes nor
      moves claims. What is removed was verified: the claim holds nothing but what is left of an object
      with the previewed manifest, a directory goes when it is empty, and the primary object, which held
      the source revision, goes when no companion claim stands. */
  ghost predicate Follows(plan: Plan, held: map<Path, Obj>, e: Event) {
    match e
    case Claimed(a, _) => a.target !in held
    case Restored(a, o) => a.target in held && held[a.target] == o
    case Written(now) => now.Keys == held.Keys
    case Removed(a, whole, at, rest, companions) =>
      && HasPrimary(plan) && a in plan.actions && ActionMatches(a, whole)
      && a.target in held && Remainder(a.kind, held[a.target], whole) && EntryAt(held[a.target], at).Some?
      && (if at == [] then a.kind == DirectoryKind ==> held[a.target].inside == map[]
          else a.kind == DirectoryKind && IsWithout(rest, held[a.target], at))
      && companions == held.Keys - {PrimaryOf(plan).target}
      && (a == PrimaryOf(plan) ==> SourceMatches(plan, a, whole, plan.verification.value) && companions == {})
  }

  ghost predicate Orderly(plan: Plan, initial: map<Path, Obj>, journal: seq<Event>) {
    journal == [] ||
    (Orderly(plan, initial, journal[..|journal| - 1])
     && Follows(plan, Held(initial, journal[..|journal| - 1]), journal[|journal| - 1]))
  }

  lemma HeldStep(plan: Plan, initial: map<Path, Obj>, journal: seq<Event>, e: Event)
    ensures Held(initial, journal + [e]) == After(Held(initial, journal), e)
    ensures Orderly(plan, initial, journal) && Follows(plan, Held(initial, journal), e) ==> Orderly(plan, initial, journal + [e])
  {
    assert (journal + [e])[..|journal + [e]| - 1] == journal;
  }

  /** Since position `from`, this object was renamed back to its original name. */
  ghost predicate Returned(journal: seq<Event>, from: nat, p: Path, o: Obj) {
    exists k :: from <= k < |journal| && journal[k].Restored? && journal[k].action.target == p && journal[k].o == o
  }

  /** Since position `from`, this object, a verified one or what was left of it, was removed or something
      of it. */
  ghost predicate Diminished(journal: seq<Event>, from: nat, p: Path, o: Obj) {
    exists k :: from <= k < |journal| && Removes(journal[k], p, o)
  }

  predicate Removes(e: Event, p: Path, o: Obj) {
    e.Removed? && e.action.target == p && ActionMatches(e.action, e.whole) && Remainder(e.action.kind, o, e.whole)
  }

  /** Since position `from`, the host made something else of this object at its claim. */
  ghost predicate Overwritten(journal: seq<Event>, from: nat, p: Path, o: Obj) {
    exists k :: from <= k < |journal| && Overwrites(journal[k], p, o)
  }

  predicate Overwrites(e: Event, p: Path, o: Obj) {
    e.Written? && p in e.now && e.now[p] != o
  }

  /** What a claim holds at some point of a history it still holds at the end, unless it was renamed back
      as it was, or removed after it had been verified, or the host wrote into it. */
  lemma {:induction false} NothingIsLost(plan: Plan, initial: map<Path, Obj>, journal: seq<Event>, m: nat, p: Path)
    requires Orderly(plan, initial, journal) && m <= |journal| && p in Held(initial, journal[..m])
    ensures var o := Held(initial, journal[..m])[p];
            || (p in Held(initial, journal) && Held(initial, journal)[p] == o)
            || Returned(journal, m, p, o)
            || Diminished(journal, m, p, o)
            || Overwritten(journal, m, p, o)
    decreases |journal|
  {
    if m == |journal| {
      assert journal[..m] == journal;
    } else {
      var front, e := journal[..|journal| - 1], journal[|journal| - 1];
      assert front[..m] == journal[..m];
      var o := Held(initial, front[..m])[p];
      NothingIsLost(plan, initial, front, m, p);
      if Returned(front, m, p, o) {
        var k :| m <= k < |front| && front[k].Restored? && front[k].action.target == p && front[k].o == o;
        assert journal[k] == front[k];
      } else if Diminished(front, m, p, o) {
        var k :| m <= k < |front| && Removes(front[k], p, o);
        assert journal[k] == front[k];
      } else if Overwritten(front, m, p, o) {
        var k :| m <= k < |front| && Overwrites(front[k], p, o);
        assert journal[k] == front[k];
      } else {
        assert journal[|front|] == e;
        assert Removes(e, p, o) || Overwrites(e, p, o) || (e.Restored? && e.action.target == p) || After(Held(initial, front), e)[p] == o;
      }
    }
  }

  /** The host did not write into claims. */
  ghost predicate NotWritten(journal: seq<Event>) {
    forall e :: e in journal ==> !e.Written?
  }

  ghost function TargetsOf(claims: seq<Action>): set<Path> {
    set a | a in claims :: a.target
  }

  lemma TargetsStep(claims: seq<Action>, i: nat)
    requires i < |claims|
    ensures TargetsOf(claims[i..]) == {claims[i].target} + TargetsOf(claims[i + 1..])
  {
    assert claims[i..] == [claims[i]] + claims[i + 1..];
  }

  /** Between two histories the process has not done anything. */
  ghost predicate Idle(before: seq<Event>, after: seq<Event>) {
    before <= after && forall k :: |before| <= k < |after| ==> after[k].Written?
  }

  /** Between two histories the process has only restored claims. */
  ghost predicate Undone(before: seq<Event>, after: seq<Event>) {
    before <= after && forall k :: |before| <= k < |after| ==> after[k].Restored? || after[k].Written?
  }

  ghost predicate NoRemovals(before: seq<Event>, after: seq<Event>) {
    before <= after && forall k :: |before| <= k < |after| ==> !after[k].Removed?
  }

  /** Between two histories the process has only taken claims. */
  ghost predicate TakenOnly(before: seq<Event>, after: seq<Event>) {
    before <= after && forall k :: |before| <= k < |after| ==> after[k].Claimed? || after[k].Written?
  }

  lemma StillTaken(before: seq<Event>, mid: seq<Event>, after: seq<Event>)
    requires TakenOnly(before, mid) && Idle(mid, after)
    ensures TakenOnly(before, after)
  {
    assert forall k :: |before| <= k < |mid| ==> after[k] == mid[k];
  }

  lemma UndoneFurther(before: seq<Event>, mid: seq<Event>, after: seq<Event>)
    requires Undone(before, mid) && Undone(mid, after)
    ensures Undone(before, after)
  {
    assert forall k :: |before| <= k < |mid| ==> after[k] == mid[k];
  }

  /** Claims were taken, and then claims were restored. */
  ghost predicate TakenThenUndone(before: seq<Event>, after: seq<Event>) {
    exists mid: seq<Event> :: TakenOnly(before, mid) && Undone(mid, after)
  }

  lemma TakenFirst(before: seq<Event>, mid: seq<Event>, after: seq<Event>)
    requires TakenOnly(before, mid) && TakenThenUndone(mid, after)
    ensures TakenThenUndone(before, after)
  {
    var m: seq<Event> :| TakenOnly(mid, m) && Undone(m, after);
    forall k | |before| <= k < |m| ensures m[k].Claimed? || m[k].Written? {
      assert k < |mid| ==> m[k] == mid[k];
    }
    assert TakenOnly(before, m);
  }

  lemma NothingRemoved(before: seq<Event>, after: seq<Event>)
    requires TakenThenUndone(before, after)
    ensures NoRemovals(before, after)
  {
    var mid: seq<Event> :| TakenOnly(before, mid) && Undone(mid, after);
    forall k | |before| <= k < |after| ensures !after[k].Removed? {
      assert k < |mid| ==> after[k] == mid[k];
    }
  }

  lemma {:induction false} TakingKeepsHeld(plan: Plan, initial: map<Path, Obj>, before: seq<Event>, after: seq<Event>)
    requires Orderly(plan, initial, after) && TakenOnly(before, after)
    ensures Held(initial, before).Keys <= Held(initial, after).Keys
    decreases |after|
  {
    if before != after {
      TakingKeepsHeld(plan, initial, before, after[..|after| - 1]);
    } else {
      assert before == after;
    }
  }

  lemma {:induction false} OrderlyAt(plan: Plan, initial: map<Path, Obj>, journal: seq<Event>, k: nat)
    requires Orderly(plan, initial, journal) && k < |journal|
    ensures Orderly(plan, initial, journal[..k]) && Follows(plan, Held(initial, journal[..k]), journal[k])
    ensures Held(initial, journal[..k + 1]) == After(Held(initial, journal[..k]), journal[k])
    decreases |journal|
  {
    var front := journal[..|journal| - 1];
    if k < |front| {
      OrderlyAt(plan, initial, front, k);
      assert front[..k] == journal[..k] && front[..k + 1] == journal[..k + 1];
    } else {
      assert journal[..k + 1] == journal;
    }
  }

  predicate IsFileOf(e: Entry, r: Record) {
    e.File? && r == Record(FileKind, |e.content|, e.mtime, Some(Sha256(e.content)))
  }

  /** Every removal of a history is of what the plan previewed: a file, alone or in a directory, that the
      claim holds at that moment with the recorded size, time and digest, or an emptied directory; and
      the primary object goes when no other claim stands. */
  lemma RemovedAsPreviewed(plan: Plan, initial: map<Path, Obj>, journal: seq<Event>, k: nat)
    requires Orderly(plan, initial, journal) && k < |journal| && journal[k].Removed?
    ensures var action, at, held := journal[k].action, journal[k].at, Held(initial, journal[..k]);
            && action in plan.actions && action.expected.Some? && action.target in held
            && (at == [] && action.kind == FileKind ==> IsFileOf(held[action.target].root, action.expected.value.root))
            && (at == [] && action.kind == DirectoryKind ==> held[action.target].inside == map[])
            && (at != [] ==>
                  && at in held[action.target].inside && at in action.expected.value.inside
                  && (|| IsFileOf(held[action.target].inside[at], action.expected.value.inside[at])
                      || (held[action.target].inside[at].Directory? && action.expected.value.inside[at].kind == DirectoryKind)))
            && (HasPrimary(plan) && action == PrimaryOf(plan) ==> held.Keys == {action.target})
  {
    OrderlyAt(plan, initial, journal, k);
    var e, held := journal[k], Held(initial, journal[..k]);
    assert Follows(plan, held, e);
    assert e.action == PrimaryOf(plan) ==> held.Keys == {e.action.target} + (held.Keys - {e.action.target});
    assert ManifestOf(e.whole, e.action.kind) == e.action.expected;
    ManifestExactly(e.whole, e.action.kind);
    if e.at != [] {
      assert SameContent(held[e.action.target].inside[e.at], e.whole.inside[e.at]);
      assert e.at in e.action.expected.value.inside.Keys;
    }
  }

  /** Whenever the primary object or something of it is removed, the object that was verified held, at the
      verification path, a file with the digest and the modification time of the plan. */
  lemma PrimaryHeldTheSource(plan: Plan, initial: map<Path, Obj>, journal: seq<Event>, k: nat)
    requires HasPrimary(plan) && Orderly(plan, initial, journal) && k < |journal|
    requires journal[k].Removed? && journal[k].action == PrimaryOf(plan)
    ensures exists file :: IsSourceIn(plan, journal[k].whole, file)
                           && plan.expectedMtime == Some(file.mtime) && plan.expectedDigest == Some(Sha256(file.content))
  {
    OrderlyAt(plan, initial, journal, k);
    assert Follows(plan, Held(initial, journal[..k]), journal[k]);
    var file := SourceEntry(PrimaryOf(plan), journal[k].whole, plan.verification.value).value;
    assert IsSourceIn(plan, journal[k].whole, file);
  }

  /** An object that was claimed and not removed was renamed back as it was, or still stands at its claim,
      unless the host wrote into it; and it does not stand there if no more claims stand than before. */
  lemma ClaimedGoesBack(plan: Plan, initial: map<Path, Obj>, before: seq<Event>, after: seq<Event>, k: nat)
    requires Orderly(plan, initial, after) && TakenThenUndone(before, after)
    requires |before| <= k < |after| && after[k].Claimed?
    ensures var p, o := after[k].action.target, after[k].o;
            || Returned(after, k + 1, p, o)
            || Overwritten(after, k + 1, p, o)
            || (p in Held(initial, after) && Held(initial, after)[p] == o && !(Held(initial, after).Keys <= Held(initial, before).Keys))
  {
    var p := after[k].action.target;
    NothingRemoved(before, after);
    OrderlyAt(plan, initial, after, k);
    NothingIsLost(plan, initial, after, k + 1, p);
    var mid: seq<Event> :| TakenOnly(before, mid) && Undone(mid, after);
    assert k < |mid|;
    assert after[..k] == mid[..k];
    TakingKeepsHeld(plan, initial, before, after[..k]);
  }

  lemma NeverOverwritten(journal: seq<Event>, from: nat, p: Path, o: Obj)
    requires NotWritten(journal)
    ensures !Overwritten(journal, from, p, o)
  {
    forall k | from <= k < |journal| ensures !Overwrites(journal[k], p, o) {
      assert journal[k] in journal;
    }
  }

  /** Between two histories the claimed object of the action was removed as a whole. */
  ghost predicate WasRemoved(before: seq<Event>, after: seq<Event>, action: Action) {
    exists k :: |before| <= k < |after| && after[k].Removed? && after[k].action == action && after[k].at == []
  }

  lemma Later(before: seq<Event>, between: seq<Event>, after: seq<Event>, action: Action)
    requires before <= between <= after && WasRemoved(between, after, action)
    ensures WasRemoved(before, after, action)
  {
    var k :| |between| <= k < |after| && after[k].Removed? && after[k].action == action && after[k].at == [];
    assert |before| <= k;
  }

  ghost predicate OnlyFiles(plan: Plan) {
    forall a :: a in plan.actions ==> a.kind == FileKind
  }

  // ---------------------------------------------------------------- preflight

  /** Claimable objects are of the planned kind and hold no links. */
  function ObjProblem(o: Obj, kind: Kind): Option<Reason> {
    if o.root.Link? then Some(LinkRejected)
    else if !HasKind(o.root, kind) then Some(TypeMismatch)
    else if kind == DirectoryKind && !LinkFree(o) then Some(LinkRejected)
    else None
  }

  /** A link, at the top or anywhere in a directory, is rejected as such, everything else of another kind
      as a mismatch. */
  lemma ProblemsExactly(o: Obj, kind: Kind)
    ensures ObjProblem(o, kind) == Some(LinkRejected) <==>
              o.root.Link? || (kind == DirectoryKind && o.root.Directory? && exists p :: p in o.inside && o.inside[p].Link?)
    ensures ObjProblem(o, kind) == Some(TypeMismatch) <==>
              if kind == FileKind then o.root.Directory? else o.root.File?
    ensures ObjProblem(o, kind) in {None, Some(LinkRejected), Some(TypeMismatch)}
  {
  }

  predicate Clear(plan: Plan, files: map<Loc, Obj>, a: Action) {
    && (Original(a.target) in files ==> ObjProblem(files[Original(a.target)], a.kind) == None)
    && (ClaimOf(plan, a) in files ==> Original(a.target) !in files && ObjProblem(files[ClaimOf(plan, a)], a.kind) == None)
  }

  lemma SoundIsClear(plan: Plan, files: map<Loc, Obj>, a: Action)
    requires Sound(plan, files, a)
    ensures Clear(plan, files, a)
  {
  }

  lemma SameTarget(plan: Plan, a: Action, b: Action)
    requires plan.DistinctTargets() && a in plan.actions && b in plan.actions && a.target == b.target
    ensures a == b
  {
    var i :| 0 <= i < |plan.actions| && plan.actions[i] == a;
    var j :| 0 <= j < |plan.actions| && plan.actions[j] == b;
    assert i == j;
  }

  lemma ClaimsUnchanged(plan: Plan, before: map<Loc, Obj>, after: map<Loc, Obj>)
    requires forall l: Loc :: l.Claim? ==> (l in after <==> l in before)
    ensures ClaimsIn(plan, after) == ClaimsIn(plan, before)
  {
  }

  lemma ClaimAppears(plan: Plan, before: map<Loc, Obj>, after: map<Loc, Obj>, action: Action)
    requires action in plan.actions && ClaimOf(plan, action) in after
    requires forall l: Loc :: l.Claim? && l != ClaimOf(plan, action) ==> (l in after <==> l in before)
    ensures ClaimsIn(plan, after) == ClaimsIn(plan, before) + {action.target}
  {
  }

  lemma ClaimVanishes(plan: Plan, before: map<Loc, Obj>, after: map<Loc, Obj>, action: Action)
    requires ClaimOf(plan, action) !in after
    requires forall l: Loc :: l.Claim? && l != ClaimOf(plan, action) ==> (l in after <==> l in before)
    ensures ClaimsIn(plan, after) == ClaimsIn(plan, before) - {action.target}
  {
  }

  lemma HeldUnchanged(plan: Plan, before: map<Loc, Obj>, after: map<Loc, Obj>)
    requires forall l: Loc :: l.Claim? ==> (l in after <==> l in before) && (l in after ==> after[l] == before[l])
    ensures HeldNow(plan, after) == HeldNow(plan, before)
  {
    ClaimsUnchanged(plan, before, after);
  }

  /** All claims but this one are as they were. */
  ghost predicate OtherClaimsStay(before: map<Loc, Obj>, after: map<Loc, Obj>, claim: Loc) {
    forall l: Loc :: l.Claim? && l != claim ==> (l in after <==> l in before) && (l in after ==> after[l] == before[l])
  }

  lemma HeldAppears(plan: Plan, before: map<Loc, Obj>, after: map<Loc, Obj>, action: Action)
    requires action in plan.actions && ClaimOf(plan, action) in after
    requires OtherClaimsStay(before, after, ClaimOf(plan, action))
    ensures HeldNow(plan, after) == HeldNow(plan, before)[action.target := after[ClaimOf(plan, action)]]
  {
    ClaimAppears(plan, before, after, action);
  }

  lemma HeldVanishes(plan: Plan, before: map<Loc, Obj>, after: map<Loc, Obj>, action: Action)
    requires ClaimOf(plan, action) !in after
    requires OtherClaimsStay(before, after, ClaimOf(plan, action))
    ensures HeldNow(plan, after) == HeldNow(plan, before) - {action.target}
  {
    ClaimVanishes(plan, before, after, action);
  }

  /** The claims hold what the history makes of them, and in the history every removal is of a claim that
      was verified, the primary one last; if `quiet`, the host never wrote into claims. */
  ghost predicate Accounted(plan: Plan, quiet: bool, initial: map<Path, Obj>, files: map<Loc, Obj>, journal: seq<Event>) {
    && plan.DistinctTargets()
    && HeldNow(plan, files) == Held(initial, journal)
    && Orderly(plan, initial, journal)
    && (quiet ==> NotWritten(journal))
  }

  lemma StaysAccounted(plan: Plan, quiet: bool, initial: map<Path, Obj>, before: map<Loc, Obj>, after: map<Loc, Obj>, journal: seq<Event>, e: Event)
    requires Accounted(plan, quiet, initial, before, journal)
    requires HeldNow(plan, after) == After(HeldNow(plan, before), e) && Follows(plan, HeldNow(plan, before), e)
    requires quiet ==> !e.Written?
    ensures Accounted(plan, quiet, initial, after, journal + [e])
  {
    HeldStep(plan, initial, journal, e);
  }

  /** No target stands under both names. */
  ghost predicate NoneTwice(plan: Plan, files: map<Loc, Obj>) {
    forall a :: a in plan.actions ==> !(Original(a.target) in files && ClaimOf(plan, a) in files)
  }

  predicate IsPreviewed(plan: Plan, o: Obj)
    requires HasPrimary(plan)
  {
    SourceMatches(plan, PrimaryOf(plan), o, plan.verification.value) && ActionMatches(PrimaryOf(plan), o)
  }

  /** The reason against the source file of a claimed primary object. */
  function SourceReason(plan: Plan, o: Obj): (reason: Option<Reason>)
    requires HasPrimary(plan)
    ensures reason == None <==> SourceMatches(plan, PrimaryOf(plan), o, plan.verification.value)
  {
    var entry := SourceEntry(PrimaryOf(plan), o, plan.verification.value);
    if entry.None? || !entry.value.File? then Some(NotRegularFile)
    else if plan.expectedMtime != Some(entry.value.mtime) || plan.expectedDigest != Some(Sha256(entry.value.content))
    then Some(ChangedAfterClaim)
    else None
  }

  function ActionReason(action: Action, o: Obj): (reason: Option<Reason>)
    ensures reason == None <==> ActionMatches(action, o)
  {
    if action.expected == None then Some(ManifestUnavailable)
    else if ManifestOf(o, action.kind) == None then Some(VerificationFailed)
    else if ManifestOf(o, action.kind) != action.expected then Some(ActionChanged)
    else None
  }

  /** What is reported about a primary object that is not the previewed one, if nothing raises. */
  function PrimaryReason(plan: Plan, o: Obj): (reason: Option<Reason>)
    requires HasPrimary(plan)
    ensures reason == None <==> IsPreviewed(plan, o)
    ensures reason.Some? ==> IsMismatch(reason.value)
  {
    if SourceReason(plan, o).Some? then SourceReason(plan, o) else ActionReason(PrimaryOf(plan), o)
  }

  /** A source file that was rewritten or touched is reported as changed, and no file there as such. */
  lemma ChangedSourceIsReported(plan: Plan, o: Obj)
    requires HasPrimary(plan)
    ensures PrimaryReason(plan, o) == Some(NotRegularFile) <==> forall file :: !IsSourceIn(plan, o, file)
    ensures PrimaryReason(plan, o) == Some(ChangedAfterClaim) <==>
              exists file :: IsSourceIn(plan, o, file)
                && (plan.expectedMtime != Some(file.mtime) || plan.expectedDigest != Some(Sha256(file.content)))
  {
    var entry := SourceEntry(PrimaryOf(plan), o, plan.verification.value);
    assert forall file :: IsSourceIn(plan, o, file) <==> entry == Some(file) && file.File?;
    if entry.Some? && entry.value.File? {
      assert IsSourceIn(plan, o, entry.value);
    }
  }

  /** The primary object is there, under either name, and is the one that was previewed. */
  predicate PrimaryMatches(plan: Plan, files: map<Loc, Obj>)
    requires HasPrimary(plan)
  {
    var o := Content(plan, files, PrimaryOf(plan).target);
    o.Some? && IsPreviewed(plan, o.value)
  }

  // ---------------------------------------------------------------- a plan that can be carried through

  /** The object of one action is in one place at most, as it was previewed. */
  ghost predicate Sound(plan: Plan, files: map<Loc, Obj>, a: Action) {
    && !(Original(a.target) in files && ClaimOf(plan, a) in files)
    && (Original(a.target) in files ==> ActionMatches(a, files[Original(a.target)]))
    && (ClaimOf(plan, a) in files ==> ActionMatches(a, files[ClaimOf(plan, a)]))
  }

  ghost predicate PrimaryStands(plan: Plan, files: map<Loc, Obj>)
    requires HasPrimary(plan)
  {
    var a, v := PrimaryOf(plan), plan.verification.value;
    && (Original(a.target) in files || ClaimOf(plan, a) in files)
    && (Original(a.target) in files ==> SourceMatches(plan, a, files[Original(a.target)], v))
    && (ClaimOf(plan, a) in files ==> SourceMatches(plan, a, files[ClaimOf(plan, a)], v))
  }

  ghost predicate Resumable(plan: Plan, files: map<Loc, Obj>) {
    HasPrimary(plan) && PrimaryStands(plan, files) && forall a :: a in plan.actions ==> Sound(plan, files, a)
  }

  /** Nothing of the plan stands under either name. */
  ghost predicate AllGone(plan: Plan, files: map<Loc, Obj>) {
    forall a :: a in plan.actions ==> Original(a.target) !in files && ClaimOf(plan, a) !in files
  }

  lemma ClaimingKeepsResumable(plan: Plan, before: map<Loc, Obj>, after: map<Loc, Obj>, action: Action)
    requires plan.DistinctTargets() && Resumable(plan, before) && action in plan.actions
    requires Original(action.target) in before
    requires after == before[ClaimOf(plan, action) := before[Original(action.target)]] - {Original(action.target)}
    ensures Resumable(plan, after)
  {
    assert Sound(plan, before, action);
    forall a | a in plan.actions ensures Sound(plan, after, a) {
      assert Sound(plan, before, a);
      if a.target == action.target {
        SameTarget(plan, a, action);
      }
    }
    if PrimaryOf(plan).target == action.target {
      SameTarget(plan, PrimaryOf(plan), action);
    }
  }

  lemma DroppingKeepsResumable(plan: Plan, before: map<Loc, Obj>, after: map<Loc, Obj>, action: Action)
    requires plan.DistinctTargets() && Resumable(plan, before) && action in plan.actions && action != PrimaryOf(plan)
    requires after == before - {ClaimOf(plan, action)}
    ensures Resumable(plan, after)
  {
    forall a | a in plan.actions ensures Sound(plan, after, a) {
      assert Sound(plan, before, a);
    }
    if PrimaryOf(plan).target == action.target {
      SameTarget(plan, PrimaryOf(plan), action);
    }
  }

  /** How an application that begins no deletion can end. */
  predicate GaveUp(o: Outcome) {
    o != Deleted && o != Partial(DeleteFailed)
  }

  /** What a check of claimed objects can report. */
  predicate IsMismatch(r: Reason) {
    r in {VerificationFailed, NotRegularFile, ChangedAfterClaim, ManifestUnavailable, ActionChanged}
  }

  /** A claimed object does not match, and all claims taken went back. */
  predicate IsMismatchRefusal(o: Outcome) {
    o.Retained? && o.why.Some? && IsMismatch(o.why.value)
  }

  /** A claimed object that does not match: it went back, or could not, or the process stopped. */
  predicate IsRefusal(o: Outcome) {
    o == Stopped || o == Partial(RestoreConflict) || IsMismatchRefusal(o)
  }

  predicate IsMissing(o: Outcome) {
    o == Partial(MissingBeforeClaim) || o == Retained(Some(MissingWithResidue))
  }

  /** Neither interrupted nor in conflict with a name that is in use again. */
  predicate Settled(o: Outcome) {
    o != Stopped && o != Partial(RestoreConflict)
  }

  /** The object that belongs to an original name, wherever it stands at the moment. */
  function Content(plan: Plan, files: map<Loc, Obj>, p: Path): Option<Obj> {
    var original, claim := Original(p), Loc.Claim(plan.sourceId, plan.revision, p);
    if original in files then Some(files[original])
    else if claim in files then Some(files[claim])
    else None
  }

  function ClaimsOf(files: map<Loc, Obj>): set<Loc> {
    set l | l in files && l.Claim?
  }

  function OriginalsOf(files: map<Loc, Obj>): set<Loc> {
    set l | l in files && l.Original?
  }

  /** All these claims stand and hold what was previewed; the primary one holds the source revision. */
  ghost predicate AllMatch(plan: Plan, files: map<Loc, Obj>, claims: seq<Action>)
    requires HasPrimary(plan)
  {
    && (forall a :: a in claims ==> ClaimOf(plan, a) in files && ActionMatches(a, files[ClaimOf(plan, a)]))
    && (PrimaryOf(plan) in claims ==>
          SourceMatches(plan, PrimaryOf(plan), files[ClaimOf(plan, PrimaryOf(plan))], plan.verification.value))
  }

  /** The primary claim and those from `i` on are still to be deleted; without a failure, no others stand. */
  ghost predicate Pending(plan: Plan, files: map<Loc, Obj>, claims: seq<Action>, i: nat, failed: bool)
    requires HasPrimary(plan) && 1 <= i <= |claims|
  {
    && AllMatch(plan, files, [claims[0]])
    && AllMatch(plan, files, claims[i..])
    && (!failed ==> ClaimsIn(plan, files) == {claims[0].target} + TargetsOf(claims[i..]))
  }

  lemma AllPending(plan: Plan, files: map<Loc, Obj>, claims: seq<Action>)
    requires AreClaimsOf(plan, claims) && AllMatch(plan, files, claims) && ClaimsIn(plan, files) == TargetsOf(claims)
    ensures Pending(plan, files, claims, 1, false)
  {
    TargetsStep(claims, 0);
    assert claims[0..] == claims;
    assert forall a :: a in claims[1..] || a in [claims[0]] ==> a in claims;
  }

  lemma OnlyPrimaryPending(plan: Plan, files: map<Loc, Obj>, claims: seq<Action>)
    requires AreClaimsOf(plan, claims) && Pending(plan, files, claims, |claims|, false)
    ensures ClaimsIn(plan, files) == {PrimaryOf(plan).target}
    ensures ClaimOf(plan, PrimaryOf(plan)) in files && IsPreviewed(plan, files[ClaimOf(plan, PrimaryOf(plan))])
  {
    assert claims[|claims|..] == [] && claims[0] in [claims[0]];
  }

  lemma PendingStep(plan: Plan, before: map<Loc, Obj>, after: map<Loc, Obj>, claims: seq<Action>, i: nat, failed: bool)
    requires AreClaimsOf(plan, claims) && 1 <= i < |claims| && Pending(plan, before, claims, i, failed)
    requires OtherClaimsStay(before, after, ClaimOf(plan, claims[i]))
    ensures Pending(plan, after, claims, i + 1, failed || ClaimOf(plan, claims[i]) in after)
  {
    forall a | a in [claims[0]] + claims[i + 1..]
      ensures ClaimOf(plan, a) in after && after[ClaimOf(plan, a)] == before[ClaimOf(plan, a)]
    {
      assert a in claims && (a in claims[i..] || a in [claims[0]]);
      assert a.target != claims[i].target;
    }
    assert forall a :: a in claims[i + 1..] ==> a in claims[i..];
    if !failed && ClaimOf(plan, claims[i]) !in after {
      TargetsStep(claims, i);
      ClaimVanishes(plan, before, after, claims[i]);
    }
  }

  ghost predicate AreClaimsOf(plan: Plan, claims: seq<Action>) {
    && HasPrimary(plan) && claims != [] && claims[0] == PrimaryOf(plan)
    && (forall a :: a in claims ==> a in plan.actions)
    && (forall i, j :: 0 <= i < j < |claims| ==> claims[i].target != claims[j].target)
  }

  /** What is known of one action once the claiming loop is past it. */
  ghost predicate IsPast(plan: Plan, files: map<Loc, Obj>, quiet: bool, claims: seq<Action>, a: Action) {
    && (ClaimOf(plan, a) in files ==> a in claims)
    && (quiet ==> Original(a.target) !in files)
  }

  /** The claims taken from the primary action and the first `n` actions, each of them standing. */
  ghost predicate Gathered(plan: Plan, files: map<Loc, Obj>, quiet: bool, claims: seq<Action>, n: nat)
    requires n <= |plan.actions| && AreClaimsOf(plan, claims)
  {
    && (forall a :: a in claims ==> ClaimOf(plan, a) in files && (a == claims[0] || a in plan.actions[..n]))
    && IsPast(plan, files, quiet, claims, claims[0])
    && (forall a :: a in plan.actions[..n] ==> IsPast(plan, files, quiet, claims, a))
  }

  lemma NewTarget(plan: Plan, files: map<Loc, Obj>, quiet: bool, claims: seq<Action>, n: nat)
    requires plan.DistinctTargets() && n < |plan.actions| && AreClaimsOf(plan, claims)
    requires Gathered(plan, files, quiet, claims, n) && plan.actions[n] != PrimaryOf(plan)
    ensures AreClaimsOf(plan, claims + [plan.actions[n]])
    ensures forall a :: a in claims || a in plan.actions[..n] ==> a.target != plan.actions[n].target
  {
    var action := plan.actions[n];
    forall a | a in claims || a in plan.actions[..n] ensures a.target != action.target {
      if a.target == action.target {
        SameTarget(plan, a, action);
      }
    }
    assert (claims + [action])[0] == claims[0];
    forall i, j | 0 <= i < j < |claims + [action]|
      ensures (claims + [action])[i].target != (claims + [action])[j].target
    {
      assert claims[i] in claims;
    }
  }

  lemma GatherStep(plan: Plan, before: map<Loc, Obj>, after: map<Loc, Obj>, quiet: bool, claims: seq<Action>, n: nat)
    requires plan.DistinctTargets() && n < |plan.actions| && AreClaimsOf(plan, claims)
    requires Gathered(plan, before, quiet, claims, n) && plan.actions[n] != PrimaryOf(plan)
    requires Original(plan.actions[n].target) !in after
    requires var claim := ClaimOf(plan, plan.actions[n]); ClaimsOf(after) - {claim} == ClaimsOf(before) - {claim}
    requires var original := Original(plan.actions[n].target);
             quiet ==> OriginalsOf(after) - {original} == OriginalsOf(before) - {original}
    ensures AreClaimsOf(plan, claims + [plan.actions[n]])
    ensures var all := if ClaimOf(plan, plan.actions[n]) in after then claims + [plan.actions[n]] else claims;
            Gathered(plan, after, quiet, all, n + 1)
  {
    NewTarget(plan, before, quiet, claims, n);
    var action := plan.actions[n];
    var all := if ClaimOf(plan, action) in after then claims + [action] else claims;
    assert plan.actions[..n + 1] == plan.actions[..n] + [action];
    forall a | a in claims || a in plan.actions[..n]
      ensures ClaimOf(plan, a) in after <==> ClaimOf(plan, a) in before
      ensures IsPast(plan, before, quiet, claims, a) ==> IsPast(plan, after, quiet, all, a)
    {
      assert ClaimOf(plan, a) in ClaimsOf(after) <==> ClaimOf(plan, a) in ClaimsOf(after) - {ClaimOf(plan, action)};
      assert ClaimOf(plan, a) in ClaimsOf(before) <==> ClaimOf(plan, a) in ClaimsOf(before) - {ClaimOf(plan, action)};
      assert Original(a.target) in OriginalsOf(after) <==> Original(a.target) in OriginalsOf(after) - {Original(action.target)};
      assert Original(a.target) in OriginalsOf(before) <==> Original(a.target) in OriginalsOf(before) - {Original(action.target)};
    }
    assert claims[0] in claims;
  }

  lemma GatherPrimary(plan: Plan, files: map<Loc, Obj>, quiet: bool, claims: seq<Action>, n: nat)
    requires n < |plan.actions| && AreClaimsOf(plan, claims)
    requires Gathered(plan, files, quiet, claims, n) && plan.actions[n] == PrimaryOf(plan)
    ensures Gathered(plan, files, quiet, claims, n + 1)
  {
    assert plan.actions[..n + 1] == plan.actions[..n] + [plan.actions[n]];
  }

  lemma AllGathered(plan: Plan, files: map<Loc, Obj>, quiet: bool, claims: seq<Action>)
    requires AreClaimsOf(plan, claims) && Gathered(plan, files, quiet, claims, |plan.actions|)
    ensures ClaimsIn(plan, files) == TargetsOf(claims)
    ensures quiet ==> forall a :: a in plan.actions ==> Original(a.target) !in files
  {
    assert plan.actions[..|plan.actions|] == plan.actions;
    forall a | a in plan.actions
      ensures ClaimOf(plan, a) in files ==> a in claims
      ensures quiet ==> Original(a.target) !in files
    {
      assert IsPast(plan, files, quiet, claims, a);
    }
  }

  lemma ClaimingKeepsNoneTwice(plan: Plan, before: map<Loc, Obj>, after: map<Loc, Obj>, action: Action)
    requires NoneTwice(plan, before) && Original(action.target) in before
    requires after == before[ClaimOf(plan, action) := before[Original(action.target)]] - {Original(action.target)}
    ensures NoneTwice(plan, after)
  {
  }

  lemma ResumableIsNoneTwice(plan: Plan, files: map<Loc, Obj>)
    requires Resumable(plan, files)
    ensures NoneTwice(plan, files) && PrimaryMatches(plan, files)
  {
    forall a | a in plan.actions ensures !(Original(a.target) in files && ClaimOf(plan, a) in files) {
      assert Sound(plan, files, a);
    }
    assert Sound(plan, files, PrimaryOf(plan));
  }

  /** The preflight has no objection. */
  ghost predicate Passes(plan: Plan, files: map<Loc, Obj>) {
    HasPrimary(plan) && forall a :: a in plan.actions ==> Clear(plan, files, a)
  }

  lemma ClearIsNoneTwice(plan: Plan, files: map<Loc, Obj>)
    requires Passes(plan, files)
    ensures NoneTwice(plan, files)
  {
  }

  // ---------------------------------------------------------------- what the host does

  /** Between two moments the host neither makes nor moves claims, writes at most into those that are open
      to it, and leaves the original names alone if it is quiet about them. */
  ghost predicate HostMoves(before: map<Loc, Obj>, after: map<Loc, Obj>, namesQuiet: bool, open: set<Loc>) {
    && (forall l: Loc :: l.Claim? ==> (l in after <==> l in before) && (l in after && l !in open ==> after[l] == before[l]))
    && (namesQuiet ==> forall l: Loc :: l.Original? ==> (l in after <==> l in before) && (l in after ==> after[l] == before[l]))
  }

  /** Whatever the host may do, it does or does not do. */
  method Host(files: map<Loc, Obj>, namesQuiet: bool, open: set<Loc>) returns (after: map<Loc, Obj>)
    ensures HostMoves(files, after, namesQuiet, open)
  {
    var originals: map<Path, Obj> := *;
    var scribbles: map<Loc, Obj> := *;
    after := map l | l in files && l.Claim? :: if l in open && l in scribbles then scribbles[l] else files[l];
    if namesQuiet {
      after := after + map l | l in files && l.Original? :: files[l];
    } else {
      after := after + map p | p in originals :: Original(p) := originals[p];
    }
  }

  lemma QuietHost(before: map<Loc, Obj>, after: map<Loc, Obj>)
    requires HostMoves(before, after, true, {})
    ensures after == before
  {
    forall l: Loc ensures (l in after <==> l in before) && (l in after ==> after[l] == before[l]) {
      assert l.Claim? || l.Original?;
    }
  }

  // ---------------------------------------------------------------- claiming and restoring one action

  /** The rename of an original name to its free claim name. */
  ghost predicate Moved(plan: Plan, before: map<Loc, Obj>, after: map<Loc, Obj>, action: Action) {
    var claim, original := ClaimOf(plan, action), Original(action.target);
    original in before && claim !in before && after == before[claim := before[original]] - {original}
  }

  /** The rename of a claim back to its free original name. */
  ghost predicate MovedBack(plan: Plan, before: map<Loc, Obj>, after: map<Loc, Obj>, action: Action) {
    var claim, original := ClaimOf(plan, action), Original(action.target);
    original !in before && claim in before && after == before[original := before[claim]] - {claim}
  }

  /** Neither rename changes what belongs to a name. */
  lemma MovingKeepsContent(plan: Plan, before: map<Loc, Obj>, after: map<Loc, Obj>, action: Action, p: Path)
    requires Moved(plan, before, after, action) || MovedBack(plan, before, after, action)
    ensures Content(plan, after, p) == Content(plan, before, p)
  {
    var claim, original := ClaimOf(plan, action), Original(action.target);
    if p != action.target {
      assert forall l: Loc :: l != claim && l != original ==> (l in after <==> l in before) && (l in after ==> after[l] == before[l]);
    }
  }

  lemma EffectOfRestoring(plan: Plan, before: map<Loc, Obj>, after: map<Loc, Obj>, action: Action)
    requires MovedBack(plan, before, after, action)
    ensures ClaimsIn(plan, after) == ClaimsIn(plan, before) - {action.target}
    ensures NoneTwice(plan, before) ==> NoneTwice(plan, after)
  {
    ClaimVanishes(plan, before, after, action);
    if NoneTwice(plan, before) {
      forall a | a in plan.actions ensures !(Original(a.target) in after && ClaimOf(plan, a) in after) {
        if a.target != action.target {
          assert !(Original(a.target) in before && ClaimOf(plan, a) in before);
        }
      }
    }
  }

  lemma NothingToRestore(plan: Plan, files: map<Loc, Obj>, action: Action)
    requires ClaimOf(plan, action) !in files
    ensures ClaimsIn(plan, files) == ClaimsIn(plan, files) - {action.target}
  {
    ClaimVanishes(plan, files, files, action);
  }

  /** Taken: the claim stands and the original name is free; absent: neither exists; failed: nothing
      changed, because both exist or the rename raised. */
  ghost predicate ClaimEffect(plan: Plan, before: map<Loc, Obj>, after: map<Loc, Obj>, action: Action, r: ClaimResult, reliable: bool) {
    var claim, original := ClaimOf(plan, action), Original(action.target);
    match r
    case Taken => claim in after && original !in after && (after == before || Moved(plan, before, after, action))
    case Absent => claim !in after && original !in after && after == before
    case Failed => after == before && (reliable ==> claim in after && original in after)
  }

  lemma EffectOnClaims(plan: Plan, before: map<Loc, Obj>, after: map<Loc, Obj>, action: Action, r: ClaimResult, reliable: bool)
    requires action in plan.actions && ClaimEffect(plan, before, after, action, r, reliable)
    ensures ClaimsIn(plan, after) == ClaimsIn(plan, before) + (if r == Taken then {action.target} else {})
    ensures ClaimsOf(after) - {ClaimOf(plan, action)} == ClaimsOf(before) - {ClaimOf(plan, action)}
    ensures OriginalsOf(after) - {Original(action.target)} == OriginalsOf(before) - {Original(action.target)}
    ensures r != Failed ==> (r == Taken <==> ClaimOf(plan, action) in after) && Original(action.target) !in after
  {
    if r == Taken {
      ClaimAppears(plan, before, after, action);
    }
  }

  lemma EffectOnPlan(plan: Plan, before: map<Loc, Obj>, after: map<Loc, Obj>, action: Action, r: ClaimResult, reliable: bool)
    requires plan.DistinctTargets() && action in plan.actions && ClaimEffect(plan, before, after, action, r, reliable)
    ensures Resumable(plan, before) ==> Resumable(plan, after)
    ensures NoneTwice(plan, before) ==> NoneTwice(plan, after) && (reliable ==> r != Failed)
  {
    if Moved(plan, before, after, action) {
      if Resumable(plan, before) {
        ClaimingKeepsResumable(plan, before, after, action);
      }
      if NoneTwice(plan, before) {
        ClaimingKeepsNoneTwice(plan, before, after, action);
      }
    } else {
      assert after == before;
    }
  }

  lemma EffectOnPrimary(plan: Plan, before: map<Loc, Obj>, after: map<Loc, Obj>, r: ClaimResult, reliable: bool)
    requires HasPrimary(plan) && ClaimEffect(plan, before, after, PrimaryOf(plan), r, reliable)
    ensures CompanionClaims(plan, after) == CompanionClaims(plan, before)
    ensures r == Taken ==> Content(plan, before, PrimaryOf(plan).target) == Some(after[ClaimOf(plan, PrimaryOf(plan))])
    ensures r == Absent ==> Content(plan, before, PrimaryOf(plan).target) == None && !Resumable(plan, before)
  {
    EffectOnClaims(plan, before, after, PrimaryOf(plan), r, reliable);
  }

  // ---------------------------------------------------------------- how an application ends

  predicate InPlace(o: Outcome) {
    !IsMismatchRefusal(o) && o != Partial(ClaimFailed)
  }

  /** Which claims a settled refusal leaves standing: after a mismatch none, or all companion claims of
      earlier applications; after a failed claim some of the earlier claims; otherwise all of them. */
  ghost predicate LeftStanding(plan: Plan, before: map<Loc, Obj>, after: map<Loc, Obj>, o: Outcome) {
    && (IsMismatchRefusal(o) ==>
          HasPrimary(plan) && (ClaimsIn(plan, after) == {} || ClaimsIn(plan, after) == CompanionClaims(plan, before)))
    && (o == Partial(ClaimFailed) ==> ClaimsIn(plan, after) <= ClaimsIn(plan, before))
    && (InPlace(o) ==> ClaimsIn(plan, after) == ClaimsIn(plan, before))
  }

  /** How an application ends that nobody disturbs, once it has passed the preflight. Companion claims
      stay behind exactly if the primary object is there and is not the one that was previewed. */
  ghost predicate QuietEnd(plan: Plan, before: map<Loc, Obj>, after: map<Loc, Obj>, o: Outcome)
    requires HasPrimary(plan)
  {
    var content := Content(plan, before, PrimaryOf(plan).target);
    || o == Stopped
    || (if content == None then IsMissing(o) && ClaimsIn(plan, after) == ClaimsIn(plan, before)
        else if !IsPreviewed(plan, content.value) then
          o == Retained(PrimaryReason(plan, content.value)) && ClaimsIn(plan, after) == CompanionClaims(plan, before)
        else (o == Deleted || IsMismatchRefusal(o)) && ClaimsIn(plan, after) == {})
  }

  /** The same for its first part, up to the check of the primary claim. */
  ghost predicate QuietStart(plan: Plan, before: map<Loc, Obj>, after: map<Loc, Obj>, outcome: Option<Outcome>)
    requires HasPrimary(plan)
  {
    var content := Content(plan, before, PrimaryOf(plan).target);
    if outcome == None then NoneTwice(plan, after) && PrimaryMatches(plan, before)
    else outcome.value == Stopped || (if content == None then IsMissing(outcome.value)
                                      else outcome.value == Retained(PrimaryReason(plan, content.value)) && !IsPreviewed(plan, content.value))
  }

  ghost predicate OriginalsGone(plan: Plan, files: map<Loc, Obj>) {
    forall a :: a in plan.actions ==> Original(a.target) !in files
  }

  lemma NothingStands(plan: Plan, files: map<Loc, Obj>)
    requires ClaimsIn(plan, files) == {} && OriginalsGone(plan, files)
    ensures AllGone(plan, files)
  {
    NoClaims(plan, files);
  }

  lemma NoClaims(plan: Plan, files: map<Loc, Obj>)
    requires ClaimsIn(plan, files) == {}
    ensures forall a :: a in plan.actions ==> ClaimOf(plan, a) !in files
  {
    forall a | a in plan.actions ensures ClaimOf(plan, a) !in files {
      assert a.target !in ClaimsIn(plan, files);
    }
  }

  /** Without claims before and after, an object that was not lost is where it was. */
  lemma FullyRestored(plan: Plan, before: map<Loc, Obj>, after: map<Loc, Obj>, a: Action)
    requires a in plan.actions && ClaimsIn(plan, before) == {} && ClaimsIn(plan, after) <= ClaimsIn(plan, before)
    requires Content(plan, after, a.target) == Content(plan, before, a.target)
    ensures Original(a.target) in after <==> Original(a.target) in before
    ensures Original(a.target) in after ==> after[Original(a.target)] == before[Original(a.target)]
  {
    NoClaims(plan, before);
    NoClaims(plan, after);
  }
}
