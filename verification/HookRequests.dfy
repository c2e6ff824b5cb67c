/** Background requests and the choice of the next one to serve (harness_mem/hook_background.py). */
module HookRequests {
  import opened Wrappers

  /** Generations are fresh UUIDs; the order of the numbers stands for the order of the strings. */
  type Generation = nat

  datatype Request = Request(generation: Generation, source: string, triggerId: Option<string>, requestedAt: real)

  const ADAPTER_DEFAULTS := {"codex-stop", "antigravity-stop", "hermes-post-llm"}
  const POST_TURN_IDLE_SECONDS := 30.0

  datatype Identity = Session(name: string) | Own(generation: Generation)

  datatype SessionKey = SessionKey(source: string, identity: Identity)

  /** A request without a usable session identity forms a session of its own. */
  function SessionOf(r: Request): SessionKey {
    SessionKey(r.source,
               match r.triggerId
               case Some(name) => if name == "" || name in ADAPTER_DEFAULTS then Own(r.generation) else Session(name)
               case None => Own(r.generation))
  }

  /** (requested_at, generation), compared as a tuple. */
  predicate Earlier(a: Request, b: Request) {
    a.requestedAt < b.requestedAt || (a.requestedAt == b.requestedAt && a.generation < b.generation)
  }

  predicate NotLater(a: Request, b: Request) {
    a == b || Earlier(a, b)
  }

  /** One file per pending request, named after its generation. */
  type Queue = map<Generation, Request>

  ghost predicate WellNamed(pending: Queue) {
    forall g :: g in pending ==> pending[g].generation == g
  }

  /** The time of the last user turn of each session, as the activity markers record it. */
  type Activity = map<string, real>

  /** A later user turn in the same native session cancels the idle window of a request. */
  predicate Cancelled(activity: Activity, idleClient: bool, r: Request) {
    && idleClient
    && r.triggerId.Some? && r.triggerId.value != ""
    && r.triggerId.value in activity && activity[r.triggerId.value] > r.requestedAt
  }

  predicate Ready(activity: Activity, idleClient: bool, now: real, r: Request) {
    now >= r.requestedAt + POST_TURN_IDLE_SECONDS || Cancelled(activity, idleClient, r)
  }

  function SessionMembers(pending: Queue, session: SessionKey): set<Generation> {
    set g | g in pending && SessionOf(pending[g]) == session
  }

  /** The last request of a session. */
  ghost predicate IsLatest(pending: Queue, r: Request) {
    && r.generation in pending && pending[r.generation] == r
    && forall g :: g in pending && SessionOf(pending[g]) == SessionOf(r) ==> NotLater(pending[g], r)
  }

  /** The earliest request among the eligible sessions. */
  ghost predicate IsOldest(pending: Queue, eligible: set<SessionKey>, r: Request) {
    && r.generation in pending && pending[r.generation] == r && SessionOf(r) in eligible
    && forall g :: g in pending && SessionOf(pending[g]) in eligible ==> NotLater(r, pending[g])
  }

  /** What may be served: the latest request of the session that waits longest among the eligible ones. */
  ghost predicate IsServed(pending: Queue, eligible: set<SessionKey>, r: Request) {
    && IsLatest(pending, r)
    && exists oldest :: IsOldest(pending, eligible, oldest) && SessionOf(oldest) == SessionOf(r)
  }

  function Sessions(pending: Queue): set<SessionKey> {
    set g | g in pending :: SessionOf(pending[g])
  }

  /** The sessions whose last request has waited out its idle window, or was cancelled. */
  ghost function ReadyOnes(pending: Queue, activity: Activity, idleClient: bool, now: real): set<SessionKey> {
    set g | g in pending && IsLatest(pending, pending[g]) && Ready(activity, idleClient, now, pending[g]) :: SessionOf(pending[g])
  }

  /** The sessions that compete: all of them, or for a client with an idle window the ready ones. */
  ghost function Eligible(pending: Queue, activity: Activity, idleClient: bool, readyOnly: bool, now: real): set<SessionKey> {
    if readyOnly && idleClient then ReadyOnes(pending, activity, idleClient, now) else Sessions(pending)
  }

  lemma OrderIsTotal(a: Request, b: Request, c: Request)
    ensures Earlier(a, b) || Earlier(b, a) || (a.requestedAt == b.requestedAt && a.generation == b.generation)
    ensures !(Earlier(a, b) && Earlier(b, a))
    ensures Earlier(a, b) && Earlier(b, c) ==> Earlier(a, c)
  {
  }

  // ---------------------------------------------------------------- loading

  /** One worker process, with its module-level record of what each served request was loaded with. */
  class Worker {
    var loaded: map<Generation, set<Generation>>

    constructor ()
      ensures loaded == map[]
    {
      loaded := map[];
    }

    /** load_background_request: what is returned, and the snapshot that may later be retired with it.
        A generation that was loaded before keeps its first snapshot. */
    method Load(pending: Queue, activity: Activity, idleClient: bool, readyOnly: bool, now: real) returns (r: Option<Request>)
      requires WellNamed(pending)
      modifies this
      ensures r == None <==> Eligible(pending, activity, idleClient, readyOnly, now) == {}
      ensures r == None ==> loaded == old(loaded)
      ensures r.Some? ==> IsServed(pending, Eligible(pending, activity, idleClient, readyOnly, now), r.value)
      ensures r.Some? ==> loaded == if r.value.generation in old(loaded) then old(loaded)
                                    else old(loaded)[r.value.generation := SessionMembers(pending, SessionOf(r.value))]
    {
      r := Choose(pending, activity, idleClient, readyOnly, now);
      if r.Some? && r.value.generation !in loaded {
        loaded := loaded[r.value.generation := SessionMembers(pending, SessionOf(r.value))];
      }
    }
  }

  /** The request to serve next: the last one of the eligible session that waits longest. */
  method Choose(pending: Queue, activity: Activity, idleClient: bool, readyOnly: bool, now: real) returns (r: Option<Request>)
    requires WellNamed(pending)
    ensures r == None <==> Eligible(pending, activity, idleClient, readyOnly, now) == {}
    ensures r.Some? ==> IsServed(pending, Eligible(pending, activity, idleClient, readyOnly, now), r.value)
  {
    var sessions := Sessions(pending);
    if readyOnly && idleClient {
      sessions := ReadySessions(pending, activity, idleClient, now);
      assert sessions <= Sessions(pending);
    }
    r := ChooseAmong(pending, sessions);
  }

  method ChooseAmong(pending: Queue, sessions: set<SessionKey>) returns (r: Option<Request>)
    requires WellNamed(pending) && sessions <= Sessions(pending)
    ensures r == None <==> sessions == {}
    ensures r.Some? ==> IsServed(pending, sessions, r.value)
  {
    var candidates := set g | g in pending && SessionOf(pending[g]) in sessions;
    assert forall s :: s in sessions ==> exists g :: g in pending && SessionOf(pending[g]) == s;
    assert forall g :: g in pending && SessionOf(pending[g]) in sessions ==> g in candidates;
    if candidates == {} {
      return None;
    }
    var oldest := Extreme(pending, candidates, false);
    var members := SessionMembers(pending, SessionOf(oldest));
    assert oldest.generation in members;
    var latest := Extreme(pending, members, true);
    assert IsOldest(pending, sessions, oldest);
    return Some(latest);
  }

  /** min or max by request order, over the files in whatever order they are listed. */
  method Extreme(pending: Queue, candidates: set<Generation>, last: bool) returns (best: Request)
    requires WellNamed(pending) && candidates != {} && candidates <= pending.Keys
    ensures best.generation in candidates && pending[best.generation] == best
    ensures forall g :: g in candidates ==> if last then NotLater(pending[g], best) else NotLater(best, pending[g])
  {
    var first :| first in candidates;
    best := pending[first];
    var todo := candidates - {first};
    while todo != {}
      invariant todo <= candidates
      invariant best.generation in candidates && pending[best.generation] == best
      invariant forall g :: g in candidates - todo ==> if last then NotLater(pending[g], best) else NotLater(best, pending[g])
      decreases todo
    {
      var g :| g in todo;
      if (if last then Earlier(best, pending[g]) else Earlier(pending[g], best)) {
        best := pending[g];
      }
      todo := todo - {g};
    }
  }

  /** The latest request of each session, collected in one pass, decides which sessions are ready. */
  method ReadySessions(pending: Queue, activity: Activity, idleClient: bool, now: real) returns (eligible: set<SessionKey>)
    requires WellNamed(pending)
    ensures eligible == ReadyOnes(pending, activity, idleClient, now)
  {
    var latestBySession: map<SessionKey, Request> := map[];
    var todo := pending.Keys;
    while todo != {}
      invariant todo <= pending.Keys
      invariant IsLatestBySession(pending, pending.Keys - todo, latestBySession)
      decreases todo
    {
      var g :| g in todo;
      var item := pending[g];
      var key := SessionOf(item);
      if key !in latestBySession || Earlier(latestBySession[key], item) {
        latestBySession := latestBySession[key := item];
      }
      todo := todo - {g};
    }
    eligible := set s | s in latestBySession && Ready(activity, idleClient, now, latestBySession[s]);
    LatestDecides(pending, activity, idleClient, now, latestBySession);
  }

  /** The latest request of each session among the files seen so far. */
  ghost predicate IsLatestBySession(pending: Queue, seen: set<Generation>, latest: map<SessionKey, Request>)
    requires seen <= pending.Keys
  {
    && (forall s :: s in latest ==>
          var r := latest[s];
          && SessionOf(r) == s && r.generation in seen && pending[r.generation] == r
          && forall g :: g in seen && SessionOf(pending[g]) == s ==> NotLater(pending[g], r))
    && (forall g :: g in seen ==> SessionOf(pending[g]) in latest)
  }

  lemma LatestDecides(pending: Queue, activity: Activity, idleClient: bool, now: real, latest: map<SessionKey, Request>)
    requires IsLatestBySession(pending, pending.Keys, latest)
    ensures (set s | s in latest && Ready(activity, idleClient, now, latest[s])) == ReadyOnes(pending, activity, idleClient, now)
  {
    forall s | s in latest ensures IsLatest(pending, latest[s]) && SessionOf(latest[s]) == s {
    }
    forall r | IsLatest(pending, r) ensures SessionOf(r) in latest && latest[SessionOf(r)] == r {
      LatestIsUnique(pending, latest[SessionOf(r)], r);
    }
  }

  lemma LatestIsUnique(pending: Queue, a: Request, b: Request)
    requires IsLatest(pending, a) && IsLatest(pending, b) && SessionOf(a) == SessionOf(b)
    ensures a == b
  {
    OrderIsTotal(a, b, b);
  }

  // ---------------------------------------------------------------- what a served request means

  /** Two requests of one native conversation: the same source and the same trigger id, which is a real
      one and not what an adapter fills in for want of one. */
  predicate SameConversation(a: Request, b: Request) {
    && a.source == b.source && a.triggerId == b.triggerId
    && a.triggerId.Some? && a.triggerId.value !in {"", "codex-stop", "antigravity-stop", "hermes-post-llm"}
  }

  /** Different requests share a session exactly if they belong to one conversation. */
  lemma SessionsAreConversations(a: Request, b: Request)
    requires a.generation != b.generation
    ensures SessionOf(a) == SessionOf(b) <==> SameConversation(a, b)
  {
  }

  /** What is loaded with a request: itself, and all that is pending of the same conversation. */
  lemma SnapshotIsConversation(pending: Queue, r: Request, g: Generation)
    requires WellNamed(pending) && r.generation in pending && pending[r.generation] == r
    ensures g in SessionMembers(pending, SessionOf(r)) <==> g in pending && (g == r.generation || SameConversation(pending[g], r))
  {
    if g in pending && g != r.generation {
      SessionsAreConversations(pending[g], r);
    }
  }

  /** Nothing of the conversation of the request served is newer; its conversation holds the request that
      has waited longest of all those whose sessions compete. */
  lemma OldestConversationFirst(pending: Queue, eligible: set<SessionKey>, r: Request)
    requires WellNamed(pending) && IsServed(pending, eligible, r)
    ensures forall g :: g in pending && SameConversation(pending[g], r) ==>
              pending[g].requestedAt < r.requestedAt || (pending[g].requestedAt == r.requestedAt && g <= r.generation)
    ensures exists o :: o in pending && (o == r.generation || SameConversation(pending[o], r)) &&
              forall g :: g in pending && SessionOf(pending[g]) in eligible ==>
                pending[o].requestedAt < pending[g].requestedAt || (pending[o].requestedAt == pending[g].requestedAt && o <= g)
  {
    forall g | g in pending && SameConversation(pending[g], r)
      ensures pending[g].requestedAt < r.requestedAt || (pending[g].requestedAt == r.requestedAt && g <= r.generation)
    {
      assert NotLater(pending[g], r);
    }
    var oldest :| IsOldest(pending, eligible, oldest) && SessionOf(oldest) == SessionOf(r);
    if oldest.generation != r.generation {
      SessionsAreConversations(oldest, r);
    }
    var o := oldest.generation;
    forall g | g in pending && SessionOf(pending[g]) in eligible
      ensures pending[o].requestedAt < pending[g].requestedAt || (pending[o].requestedAt == pending[g].requestedAt && o <= g)
    {
      assert NotLater(oldest, pending[g]);
    }
  }

  /** Which requests compete. Out of an idle window: those of a conversation whose newest request is 30
      seconds old, or was followed by a user turn in that conversation. */
  lemma WhoCompetes(pending: Queue, activity: Activity, idleClient: bool, readyOnly: bool, now: real, g: Generation)
    requires WellNamed(pending) && g in pending
    ensures SessionOf(pending[g]) in Eligible(pending, activity, idleClient, readyOnly, now) <==>
            !(readyOnly && idleClient) || exists n ::
              && n in pending && (n == g || SameConversation(pending[n], pending[g]))
              && (forall h :: h in pending && SameConversation(pending[h], pending[n]) ==>
                    pending[h].requestedAt < pending[n].requestedAt || (pending[h].requestedAt == pending[n].requestedAt && h <= n))
              && (|| now - pending[n].requestedAt >= 30.0
                  || (&& pending[n].triggerId.Some? && pending[n].triggerId.value != "" && pending[n].triggerId.value in activity
                      && activity[pending[n].triggerId.value] > pending[n].requestedAt))
  {
    if readyOnly && idleClient {
      forall n | n in pending
        ensures SessionOf(pending[n]) == SessionOf(pending[g]) <==> n == g || SameConversation(pending[n], pending[g])
        ensures IsLatest(pending, pending[n]) <==>
                forall h :: h in pending && SameConversation(pending[h], pending[n]) ==>
                  pending[h].requestedAt < pending[n].requestedAt || (pending[h].requestedAt == pending[n].requestedAt && h <= n)
      {
        if n != g {
          SessionsAreConversations(pending[n], pending[g]);
        }
        NewestExactly(pending, n);
      }
    }
  }

  lemma NewestExactly(pending: Queue, n: Generation)
    requires WellNamed(pending) && n in pending
    ensures IsLatest(pending, pending[n]) <==>
            forall h :: h in pending && SameConversation(pending[h], pending[n]) ==>
              pending[h].requestedAt < pending[n].requestedAt || (pending[h].requestedAt == pending[n].requestedAt && h <= n)
  {
    forall h | h in pending ensures SessionOf(pending[h]) == SessionOf(pending[n]) <==> h == n || SameConversation(pending[h], pending[n]) {
      if h != n {
        SessionsAreConversations(pending[h], pending[n]);
      }
    }
    forall h | h in pending
      ensures NotLater(pending[h], pending[n]) <==>
              pending[h].requestedAt < pending[n].requestedAt || (pending[h].requestedAt == pending[n].requestedAt && h <= n)
    {
      assert h == n ==> pending[h] == pending[n];
    }
  }

  /** A request returned from an idle window is the newest of its session, and either has waited the
      full window or was cancelled by a later user turn. */
  lemma IdleWindowRespected(pending: Queue, activity: Activity, now: real, r: Request)
    requires IsServed(pending, Eligible(pending, activity, true, true, now), r)
    ensures IsLatest(pending, r)
    ensures now >= r.requestedAt + POST_TURN_IDLE_SECONDS || Cancelled(activity, true, r)
  {
    var g :| g in pending && IsLatest(pending, pending[g]) && Ready(activity, true, now, pending[g]) && SessionOf(pending[g]) == SessionOf(r);
    LatestIsUnique(pending, pending[g], r);
  }

  /** There is only one request that may be served. */
  lemma ServedIsUnique(pending: Queue, eligible: set<SessionKey>, a: Request, b: Request)
    requires WellNamed(pending)
    requires IsServed(pending, eligible, a) && IsServed(pending, eligible, b)
    ensures a == b
  {
    var x :| IsOldest(pending, eligible, x) && SessionOf(x) == SessionOf(a);
    var y :| IsOldest(pending, eligible, y) && SessionOf(y) == SessionOf(b);
    OrderIsTotal(x, y, y);
    OrderIsTotal(a, b, b);
  }
}
