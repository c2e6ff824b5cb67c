/** Bounded relation tracing (trace_relation_paths in harness_mem/read_api.py): a queue-driven
    enumeration of simple paths, shown to return exactly the first paths of the level order.

    Scores are left abstract: facts of one depth, and whole paths, are compared by given orders. */
module RelationPaths {
  import opened Wrappers
  import opened Sequences
  import opened StableSort

  const MAX_DEPTH := 3

  datatype Fact = Fact(id: string, source: string, target: string, kind: string, confidence: real)

  /** A row of the fact index for the project, newest first. Its stored fact may be missing or no
      longer readable, in which case listing skips the row. */
  datatype Row = Row(fact: Fact, loads: bool)

  type Path = seq<Fact>

  datatype Query = Query(
    rows: seq<Row>,
    source: string,
    kind: string,
    maxDepth: int,
    limit: int,
    minConfidence: real,
    factOrder: nat -> (Fact, Fact) -> bool,
    pathOrder: (Path, Path) -> bool)
  {
    function Limit(): nat {
      if limit < 1 then 1 else limit
    }
  }

  // ---------------------------------------------------------------- the store

  /** An empty entity name or relation type means no filter. */
  predicate Selects(fact: Fact, entity: string, kind: string) {
    (entity == "" || fact.source == entity) && (kind == "" || fact.kind == kind)
  }

  /** The readable facts of the first `limit` rows that are selected. */
  function Listing(rows: seq<Row>, entity: string, kind: string, limit: nat): seq<Fact> {
    if rows == [] || limit == 0 then []
    else if !Selects(rows[0].fact, entity, kind) then Listing(rows[1..], entity, kind, limit)
    else (if rows[0].loads then [rows[0].fact] else []) + Listing(rows[1..], entity, kind, limit - 1)
  }

  function CountSelected(rows: seq<Row>, entity: string, kind: string): nat {
    if rows == [] then 0
    else CountSelected(rows[1..], entity, kind) + if Selects(rows[0].fact, entity, kind) then 1 else 0
  }

  ghost predicate DistinctIds(rows: seq<Row>) {
    forall i, j :: 0 <= i < j < |rows| ==> rows[i].fact.id != rows[j].fact.id
  }

  lemma {:induction false} ListingIsSound(rows: seq<Row>, entity: string, kind: string, limit: nat, f: Fact)
    requires f in Listing(rows, entity, kind, limit)
    ensures Row(f, true) in rows && Selects(f, entity, kind)
  {
    if !Selects(rows[0].fact, entity, kind) {
      ListingIsSound(rows[1..], entity, kind, limit, f);
    } else if !(rows[0].loads && f == rows[0].fact) {
      ListingIsSound(rows[1..], entity, kind, limit - 1, f);
    }
  }

  lemma {:induction false} ListingIsComplete(rows: seq<Row>, entity: string, kind: string, limit: nat, f: Fact)
    requires CountSelected(rows, entity, kind) <= limit
    requires Row(f, true) in rows && Selects(f, entity, kind)
    ensures f in Listing(rows, entity, kind, limit)
  {
    if Row(f, true) in rows[1..] {
      ListingIsComplete(rows[1..], entity, kind, if Selects(rows[0].fact, entity, kind) then limit - 1 else limit, f);
      SelectedIsCounted(rows[1..], entity, kind, f);
    }
  }

  lemma {:induction false} SelectedIsCounted(rows: seq<Row>, entity: string, kind: string, f: Fact)
    requires Row(f, true) in rows && Selects(f, entity, kind)
    ensures CountSelected(rows, entity, kind) > 0
  {
    if rows[0] != Row(f, true) {
      SelectedIsCounted(rows[1..], entity, kind, f);
    }
  }

  // ---------------------------------------------------------------- the reference: walks, level by level

  function Last(q: Query, p: Path): string {
    if p == [] then q.source else p[|p| - 1].target
  }

  function Seen(q: Query, p: Path): set<string> {
    {q.source} + set f | f in p :: f.target
  }

  predicate Extends(q: Query, p: Path, f: Fact) {
    f.confidence >= q.minConfidence && f.target !in Seen(q, p)
  }

  /** A simple path from the source over listed facts that pass the filters. */
  predicate Walk(q: Query, p: Path) {
    p == [] ||
    var before, f := p[..|p| - 1], p[|p| - 1];
    Walk(q, before) && f in Listing(q.rows, Last(q, before), q.kind, q.Limit() * 5) && Extends(q, before, f)
  }

  function Kept(bar: real, seen: set<string>, facts: seq<Fact>): seq<Fact> {
    if facts == [] then []
    else (if facts[0].confidence >= bar && facts[0].target !in seen then [facts[0]] else []) + Kept(bar, seen, facts[1..])
  }

  /** The facts that continue a path, best first. */
  function Next(q: Query, p: Path): seq<Fact> {
    Sort(q.factOrder(|p| + 1), Kept(q.minConfidence, Seen(q, p), Listing(q.rows, Last(q, p), q.kind, q.Limit() * 5)))
  }

  function Extend(p: Path, facts: seq<Fact>): (r: seq<Path>)
    ensures |r| == |facts| && forall k :: 0 <= k < |r| ==> r[k] == p + [facts[k]]
  {
    seq(|facts|, k requires 0 <= k < |facts| => p + [facts[k]])
  }

  function NextOf(q: Query): Path -> seq<Fact> {
    p => Next(q, p)
  }

  function Expand(next: Path -> seq<Fact>, paths: seq<Path>): seq<Path> {
    if paths == [] then [] else Expand(next, paths[..|paths| - 1]) + Extend(paths[|paths| - 1], next(paths[|paths| - 1]))
  }

  function Level(next: Path -> seq<Fact>, depth: nat): seq<Path> {
    if depth == 0 then [[]] else Expand(next, Level(next, depth - 1))
  }

  /** All paths of depth 1 to `depth`, shallower first. */
  function UpTo(next: Path -> seq<Fact>, depth: nat): seq<Path> {
    if depth == 0 then [] else UpTo(next, depth - 1) + Level(next, depth)
  }

  // ---------------------------------------------------------------- the traversal

  datatype Entry = Entry(entity: string, path: Path, seen: set<string>)

  datatype TraceError = DepthTooSmall | DepthTooLarge

  function EntryOf(q: Query, p: Path): Entry {
    Entry(Last(q, p), p, Seen(q, p))
  }

  /** The queue holds one entry per pending path. */
  ghost predicate Queued(q: Query, queue: seq<Entry>, pending: seq<Path>) {
    |queue| == |pending| && forall k :: 0 <= k < |queue| ==> queue[k] == EntryOf(q, pending[k])
  }

  /** While a level is expanded, up to its path `i`: the paths found, and those pending. */
  ghost function FoundAt(next: Path -> seq<Fact>, above: seq<Path>, level: seq<Path>, i: nat): seq<Path>
    requires i <= |level|
  {
    above + Expand(next, level[..i])
  }

  ghost function PendingAt(next: Path -> seq<Fact>, d: nat, maxDepth: nat, level: seq<Path>, i: nat): seq<Path>
    requires i <= |level|
  {
    level[i..] + if d + 1 < maxDepth then Expand(next, level[..i]) else []
  }

  method Filter(bar: real, seen: set<string>, listed: seq<Fact>) returns (facts: seq<Fact>)
    ensures facts == Kept(bar, seen, listed)
  {
    facts := [];
    for i := 0 to |listed|
      invariant facts + Kept(bar, seen, listed[i..]) == Kept(bar, seen, listed)
    {
      assert listed[i..][1..] == listed[i + 1..] && listed[i..][0] == listed[i];
      if listed[i].confidence >= bar && listed[i].target !in seen {
        facts := facts + [listed[i]];
      }
    }
  }

  /** Records the continuations of one path, until the limit is reached. */
  method Visit(q: Query, entry: Entry, ghost p: Path, facts: seq<Fact>, paths: seq<Path>, queue: seq<Entry>, ghost pending: seq<Path>)
    returns (found: seq<Path>, rest: seq<Entry>)
    requires entry == EntryOf(q, p) && |paths| < q.Limit() && Queued(q, queue, pending)
    ensures found == Take(paths + Extend(p, facts), q.Limit())
    ensures |found| < q.Limit() ==> Queued(q, rest, pending + if |p| + 1 < q.maxDepth then Extend(p, facts) else [])
    ensures |facts| == 0 ==> rest == queue
  {
    found, rest := paths, queue;
    ghost var all := Extend(p, facts);
    for i := 0 to |facts|
      invariant found == paths + all[..i] && |found| < q.Limit()
      invariant Queued(q, rest, pending + if |p| + 1 < q.maxDepth then all[..i] else [])
      invariant i == 0 ==> rest == queue
    {
      var nextPath := entry.path + [facts[i]];
      assert all[..i + 1] == all[..i] + [nextPath];
      found := found + [nextPath];
      if |found| >= q.Limit() {
        assert (paths + all)[..|found|] == found;
        return;
      }
      if |nextPath| < q.maxDepth {
        assert Seen(q, nextPath) == Seen(q, p) + {facts[i].target};
        rest := rest + [Entry(facts[i].target, nextPath, entry.seen + {facts[i].target})];
      }
    }
    assert all[..|facts|] == all;
  }

  method TraceRelationPaths(q: Query) returns (r: Result<seq<Path>, TraceError>)
    ensures q.maxDepth < 1 ==> r == Failure(DepthTooSmall)
    ensures q.maxDepth > MAX_DEPTH ==> r == Failure(DepthTooLarge)
    ensures 1 <= q.maxDepth <= MAX_DEPTH ==> r == Success(Traced(q))
  {
    if q.maxDepth < 1 {
      return Failure(DepthTooSmall);
    }
    if q.maxDepth > MAX_DEPTH {
      return Failure(DepthTooLarge);
    }
    var paths := Traverse(q);
    paths := Sort(q.pathOrder, paths);
    SortKeeps(q.pathOrder, Take(UpTo(NextOf(q), q.maxDepth), q.Limit()));
    return Success(Take(paths, q.Limit()));
  }

  /** The search goes through level `d`, whose first `i` paths have been expanded. */
  ghost predicate Searching(q: Query, d: nat, level: seq<Path>, i: nat, paths: seq<Path>, queue: seq<Entry>) {
    && d < q.maxDepth && i <= |level| && level == Level(NextOf(q), d)
    && paths == FoundAt(NextOf(q), UpTo(NextOf(q), d), level, i)
    && Queued(q, queue, PendingAt(NextOf(q), d, q.maxDepth, level, i))
  }

  method Traverse(q: Query) returns (paths: seq<Path>)
    requires 1 <= q.maxDepth
    ensures paths == Take(UpTo(NextOf(q), q.maxDepth), q.Limit())
  {
    var queue: seq<Entry>;
    paths, queue := [], [Entry(q.source, [], {q.source})];
    ghost var d, level, i := StartSearching(q);
    while queue != [] && |paths| < q.Limit()
      invariant |paths| < q.Limit() ==> Searching(q, d, level, i, paths, queue)
      invariant |paths| >= q.Limit() ==> paths == Take(UpTo(NextOf(q), q.maxDepth), q.Limit())
      decreases q.Limit() - |paths|, |queue|
    {
      d, level, i := Reposition(q, d, level, i, paths, queue);
      paths, queue := Step(q, d, level, i, paths, queue);
      i := i + 1;
    }
    if |paths| < q.Limit() {
      SearchOver(q, d, level, i, paths);
    }
  }

  lemma StartSearching(q: Query) returns (d: nat, level: seq<Path>, i: nat)
    requires 1 <= q.maxDepth
    ensures Searching(q, d, level, i, [], [Entry(q.source, [], {q.source})])
  {
    d, level, i := 0, [[]], 0;
    assert Seen(q, []) == {q.source};
  }

  /** When a level is used up, the paths still queued are the next level. */
  lemma Reposition(q: Query, d: nat, level: seq<Path>, i: nat, paths: seq<Path>, queue: seq<Entry>)
    returns (d': nat, level': seq<Path>, i': nat)
    requires Searching(q, d, level, i, paths, queue) && queue != []
    ensures Searching(q, d', level', i', paths, queue) && i' < |level'|
  {
    d', level', i' := d, level, i;
    if i == |level| {
      SearchDeeper(q, d, level, paths, queue);
      d', level', i' := d + 1, Expand(NextOf(q), level), 0;
    }
  }

  lemma SearchOver(q: Query, d: nat, level: seq<Path>, i: nat, paths: seq<Path>)
    requires Searching(q, d, level, i, paths, [])
    ensures paths == UpTo(NextOf(q), q.maxDepth)
  {
    NothingPending(NextOf(q), d, q.maxDepth, level, i);
  }

  lemma SearchDeeper(q: Query, d: nat, level: seq<Path>, paths: seq<Path>, queue: seq<Entry>)
    requires Searching(q, d, level, |level|, paths, queue) && queue != []
    ensures Searching(q, d + 1, Expand(NextOf(q), level), 0, paths, queue) && Expand(NextOf(q), level) != []
  {
    NextLevel(NextOf(q), d, q.maxDepth, level);
  }

  method Step(q: Query, ghost d: nat, ghost level: seq<Path>, ghost i: nat, paths: seq<Path>, queue: seq<Entry>)
    returns (found: seq<Path>, rest: seq<Entry>)
    requires Searching(q, d, level, i, paths, queue) && i < |level| && |paths| < q.Limit()
    ensures |found| < q.Limit() ==> Searching(q, d, level, i + 1, found, rest)
    ensures |found| >= q.Limit() ==> found == Take(UpTo(NextOf(q), q.maxDepth), q.Limit())
    ensures |found| > |paths| || (found == paths && |rest| < |queue|)
  {
    FrontOfQueue(q, d, level, i, paths, queue);
    var entry := queue[0];
    var facts := Continuations(q, entry, level[i]);
    found, rest := Visit(q, entry, level[i], facts, paths, queue[1..], PendingAt(NextOf(q), d, q.maxDepth, level, i)[1..]);
    AfterVisit(q, d, level, i, paths, queue, rest);
  }

  method Continuations(q: Query, entry: Entry, ghost p: Path) returns (facts: seq<Fact>)
    requires entry == EntryOf(q, p)
    ensures facts == NextOf(q)(p)
  {
    var listed := Listing(q.rows, entry.entity, q.kind, q.Limit() * 5);
    facts := Filter(q.minConfidence, entry.seen, listed);
    facts := Sort(q.factOrder(|entry.path| + 1), facts);
  }

  lemma FrontOfQueue(q: Query, d: nat, level: seq<Path>, i: nat, paths: seq<Path>, queue: seq<Entry>)
    requires Searching(q, d, level, i, paths, queue) && i < |level|
    ensures queue != [] && queue[0] == EntryOf(q, level[i]) && |level[i]| == d
    ensures var pending := PendingAt(NextOf(q), d, q.maxDepth, level, i);
            pending != [] && Queued(q, queue[1..], pending[1..])
  {
    OneStep(NextOf(q), d, q.maxDepth, level, i);
    LevelIsExact(NextOf(q), d, level[i]);
    assert PendingAt(NextOf(q), d, q.maxDepth, level, i)[0] == level[i];
  }

  lemma AfterVisit(q: Query, d: nat, level: seq<Path>, i: nat, paths: seq<Path>, queue: seq<Entry>, rest: seq<Entry>)
    requires Searching(q, d, level, i, paths, queue) && i < |level| && PendingAt(NextOf(q), d, q.maxDepth, level, i) != []
    ensures var more := Extend(level[i], NextOf(q)(level[i]));
            Queued(q, rest, PendingAt(NextOf(q), d, q.maxDepth, level, i)[1..] + if d + 1 < q.maxDepth then more else []) ==>
              Searching(q, d, level, i + 1, paths + more, rest)
    ensures paths + Extend(level[i], NextOf(q)(level[i])) <= UpTo(NextOf(q), q.maxDepth)
  {
    OneStep(NextOf(q), d, q.maxDepth, level, i);
    assert FoundAt(NextOf(q), UpTo(NextOf(q), d), level, i + 1) == paths + Extend(level[i], NextOf(q)(level[i]));
    FoundIsPrefix(NextOf(q), d, level, i + 1, q.maxDepth);
  }

  function Traced(q: Query): seq<Path>
    requires 1 <= q.maxDepth
  {
    Sort(q.pathOrder, Take(UpTo(NextOf(q), q.maxDepth), q.Limit()))
  }

  lemma NextLevel(next: Path -> seq<Fact>, d: nat, maxDepth: nat, level: seq<Path>)
    requires d < maxDepth && level == Level(next, d) && PendingAt(next, d, maxDepth, level, |level|) != []
    ensures d + 1 < maxDepth && Expand(next, level) == Level(next, d + 1) && Expand(next, level) != []
    ensures FoundAt(next, UpTo(next, d + 1), Expand(next, level), 0) == FoundAt(next, UpTo(next, d), level, |level|)
    ensures PendingAt(next, d + 1, maxDepth, Expand(next, level), 0) == PendingAt(next, d, maxDepth, level, |level|)
  {
    assert level[..|level|] == level;
    assert UpTo(next, d + 1) == UpTo(next, d) + Level(next, d + 1);
  }

  lemma OneStep(next: Path -> seq<Fact>, d: nat, maxDepth: nat, level: seq<Path>, i: nat)
    requires i < |level|
    ensures PendingAt(next, d, maxDepth, level, i) != [] && PendingAt(next, d, maxDepth, level, i)[0] == level[i]
    ensures forall above :: FoundAt(next, above, level, i + 1) == FoundAt(next, above, level, i) + Extend(level[i], next(level[i]))
    ensures PendingAt(next, d, maxDepth, level, i + 1) ==
            PendingAt(next, d, maxDepth, level, i)[1..] + if d + 1 < maxDepth then Extend(level[i], next(level[i])) else []
  {
    var part := level[..i + 1];
    assert part[..|part| - 1] == level[..i] && part[|part| - 1] == level[i];
    assert Expand(next, part) == Expand(next, level[..i]) + Extend(level[i], next(level[i]));
  }

  lemma FoundIsPrefix(next: Path -> seq<Fact>, d: nat, level: seq<Path>, i: nat, depth: nat)
    requires d < depth && i <= |level| && level == Level(next, d)
    ensures FoundAt(next, UpTo(next, d), level, i) <= UpTo(next, depth)
  {
    if depth == d + 1 {
      ExpandPrefix(next, level, i);
      assert Level(next, depth) == Expand(next, level);
    } else {
      FoundIsPrefix(next, d, level, i, depth - 1);
      assert UpTo(next, depth - 1) <= UpTo(next, depth);
    }
  }

  lemma {:induction false} ExpandPrefix(next: Path -> seq<Fact>, paths: seq<Path>, i: nat)
    requires i <= |paths|
    ensures Expand(next, paths[..i]) <= Expand(next, paths)
    decreases |paths|
  {
    if i < |paths| {
      ExpandPrefix(next, paths[..|paths| - 1], i);
      assert paths[..|paths| - 1][..i] == paths[..i];
    } else {
      assert paths[..i] == paths;
    }
  }

  lemma NothingPending(next: Path -> seq<Fact>, d: nat, maxDepth: nat, level: seq<Path>, i: nat)
    requires d < maxDepth && i <= |level| && level == Level(next, d) && PendingAt(next, d, maxDepth, level, i) == []
    ensures FoundAt(next, UpTo(next, d), level, i) == UpTo(next, maxDepth)
  {
    assert level[..i] == level;
    assert Expand(next, level) == Level(next, d + 1);
    if d + 1 < maxDepth {
      NothingDeeper(next, d + 1, maxDepth);
    }
  }

  lemma NothingDeeper(next: Path -> seq<Fact>, d: nat, depth: nat)
    requires d <= depth && Level(next, d) == []
    ensures Level(next, depth) == [] && UpTo(next, depth) == UpTo(next, d)
  {
    if d < depth {
      NothingDeeper(next, d, depth - 1);
    }
  }

  // ---------------------------------------------------------------- what is enumerated

  lemma {:induction false} KeptIsExact(bar: real, seen: set<string>, facts: seq<Fact>, f: Fact)
    ensures f in Kept(bar, seen, facts) <==> f in facts && f.confidence >= bar && f.target !in seen
  {
    if facts != [] {
      KeptIsExact(bar, seen, facts[1..], f);
    }
  }

  lemma NextIsExact(q: Query, p: Path, f: Fact)
    ensures f in NextOf(q)(p) <==> f in Listing(q.rows, Last(q, p), q.kind, q.Limit() * 5) && Extends(q, p, f)
  {
    var listed := Listing(q.rows, Last(q, p), q.kind, q.Limit() * 5);
    KeptIsExact(q.minConfidence, Seen(q, p), listed, f);
    MembersKept(q.factOrder(|p| + 1), Kept(q.minConfidence, Seen(q, p), listed));
  }

  ghost predicate Trail(next: Path -> seq<Fact>, p: Path) {
    p == [] || (Trail(next, p[..|p| - 1]) && p[|p| - 1] in next(p[..|p| - 1]))
  }

  lemma {:induction false} TrailIsWalk(q: Query, p: Path)
    ensures Trail(NextOf(q), p) <==> Walk(q, p)
  {
    if p != [] {
      TrailIsWalk(q, p[..|p| - 1]);
      NextIsExact(q, p[..|p| - 1], p[|p| - 1]);
    }
  }

  lemma {:induction false} ExpandIsExact(next: Path -> seq<Fact>, paths: seq<Path>, x: Path)
    ensures x in Expand(next, paths) <==> x != [] && x[..|x| - 1] in paths && x[|x| - 1] in next(x[..|x| - 1])
  {
    if paths != [] {
      var p := paths[|paths| - 1];
      ExpandIsExact(next, paths[..|paths| - 1], x);
      ExtendIsExact(p, next(p), x);
      assert paths == paths[..|paths| - 1] + [p];
    }
  }

  lemma ExtendIsExact(p: Path, facts: seq<Fact>, x: Path)
    ensures x in Extend(p, facts) <==> x != [] && x[..|x| - 1] == p && x[|x| - 1] in facts
  {
    if x != [] && x[..|x| - 1] == p {
      assert x == p + [x[|x| - 1]];
      assert forall k :: 0 <= k < |facts| ==> (Extend(p, facts)[k] == x <==> facts[k] == x[|x| - 1]);
    }
  }

  lemma {:induction false} LevelIsExact(next: Path -> seq<Fact>, depth: nat, p: Path)
    ensures p in Level(next, depth) <==> |p| == depth && Trail(next, p)
  {
    if depth > 0 {
      ExpandIsExact(next, Level(next, depth - 1), p);
      if p != [] {
        LevelIsExact(next, depth - 1, p[..|p| - 1]);
      }
    }
  }

  /** What is enumerated: exactly the walks of depth 1 to `depth`. */
  lemma {:induction false} UpToIsExact(q: Query, depth: nat, p: Path)
    ensures p in UpTo(NextOf(q), depth) <==> 1 <= |p| <= depth && Walk(q, p)
  {
    if depth > 0 {
      UpToIsExact(q, depth - 1, p);
      LevelIsExact(NextOf(q), depth, p);
      TrailIsWalk(q, p);
    }
  }
}
