/** What a relation trace returns: simple chained paths, each once, none dropped for a deeper one. */
module RelationPathResults {
  import opened Sequences
  import opened StableSort
  import opened RelationPaths

  // ---------------------------------------------------------------- every path once

  lemma {:induction false} ListingOnce(rows: seq<Row>, entity: string, kind: string, limit: nat)
    requires DistinctIds(rows)
    ensures Once(Listing(rows, entity, kind, limit))
  {
    if rows != [] && limit > 0 {
      var rest := if Selects(rows[0].fact, entity, kind) then limit - 1 else limit;
      ListingOnce(rows[1..], entity, kind, rest);
      if Selects(rows[0].fact, entity, kind) && rows[0].loads {
        forall f | f in Listing(rows[1..], entity, kind, rest) ensures f != rows[0].fact {
          ListingIsSound(rows[1..], entity, kind, rest, f);
        }
        OnceJoined([rows[0].fact], Listing(rows[1..], entity, kind, rest));
      } else {
        assert [] + Listing(rows[1..], entity, kind, rest) == Listing(rows[1..], entity, kind, rest);
      }
    }
  }

  lemma {:induction false} KeptOnce(bar: real, seen: set<string>, facts: seq<Fact>)
    requires Once(facts)
    ensures Once(Kept(bar, seen, facts))
  {
    if facts != [] {
      var rest := facts[1..];
      assert facts == [facts[0]] + rest;
      forall x | x in rest ensures multiset(rest)[x] == 1 && x != facts[0] {
        assert x in multiset(rest) && x in facts;
        assert multiset(facts)[x] == multiset([facts[0]])[x] + multiset(rest)[x];
      }
      KeptOnce(bar, seen, rest);
      forall x | x in Kept(bar, seen, rest) ensures x != facts[0] {
        KeptIsExact(bar, seen, rest, x);
      }
      if facts[0].confidence >= bar && facts[0].target !in seen {
        OnceJoined([facts[0]], Kept(bar, seen, rest));
      } else {
        assert [] + Kept(bar, seen, rest) == Kept(bar, seen, rest);
      }
    }
  }

  lemma NextOnce(q: Query, p: Path)
    requires DistinctIds(q.rows)
    ensures Once(NextOf(q)(p))
  {
    var listed := Listing(q.rows, Last(q, p), q.kind, q.Limit() * 5);
    ListingOnce(q.rows, Last(q, p), q.kind, q.Limit() * 5);
    KeptOnce(q.minConfidence, Seen(q, p), listed);
    SortOnce(q.factOrder(|p| + 1), Kept(q.minConfidence, Seen(q, p), listed));
  }

  lemma {:induction false} ExtendOnce(p: Path, facts: seq<Fact>)
    requires Once(facts)
    ensures Once(Extend(p, facts))
  {
    if facts != [] {
      var last := |facts| - 1;
      OncePrefix(facts, last);
      ExtendOnce(p, facts[..last]);
      assert Extend(p, facts) == Extend(p, facts[..last]) + [p + [facts[last]]];
      forall x | x in Extend(p, facts[..last]) ensures x != p + [facts[last]] {
        var k :| 0 <= k < last && x == p + [facts[k]];
        OnceApart(facts, k, last);
        assert x[|p|] == facts[k];
      }
      OnceJoined(Extend(p, facts[..last]), [p + [facts[last]]]);
    }
  }

  ghost predicate AllOnce(next: Path -> seq<Fact>) {
    forall p :: Once(next(p))
  }

  lemma {:induction false} ExpandOnce(next: Path -> seq<Fact>, paths: seq<Path>)
    requires AllOnce(next) && Once(paths)
    ensures Once(Expand(next, paths))
  {
    if paths != [] {
      var last := |paths| - 1;
      var p := paths[last];
      OncePrefix(paths, last);
      ExpandOnce(next, paths[..last]);
      ExtendOnce(p, next(p));
      forall x | x in Expand(next, paths[..last]) ensures x !in Extend(p, next(p)) {
        ExpandIsExact(next, paths[..last], x);
        ExtendIsExact(p, next(p), x);
        var k :| 0 <= k < last && paths[k] == x[..|x| - 1];
        OnceApart(paths, k, last);
      }
      OnceJoined(Expand(next, paths[..last]), Extend(p, next(p)));
    }
  }

  lemma {:induction false} UpToOnce(next: Path -> seq<Fact>, depth: nat)
    requires AllOnce(next)
    ensures Once(Level(next, depth)) && Once(UpTo(next, depth))
    ensures forall x :: x in UpTo(next, depth) ==> |x| <= depth
  {
    if depth > 0 {
      UpToOnce(next, depth - 1);
      ExpandOnce(next, Level(next, depth - 1));
      forall x | x in Level(next, depth) ensures |x| == depth {
        LevelIsExact(next, depth, x);
      }
      OnceJoined(UpTo(next, depth - 1), Level(next, depth));
    }
  }

  /** No path is returned twice. */
  lemma TracedOnce(q: Query, i: nat, j: nat)
    requires 1 <= q.maxDepth && DistinctIds(q.rows) && i < j < |Traced(q)|
    ensures Traced(q)[i] != Traced(q)[j]
  {
    forall p ensures Once(NextOf(q)(p)) {
      NextOnce(q, p);
    }
    UpToOnce(NextOf(q), q.maxDepth);
    OncePrefix(UpTo(NextOf(q), q.maxDepth), q.Limit());
    SortOnce(q.pathOrder, Take(UpTo(NextOf(q), q.maxDepth), q.Limit()));
    OnceApart(Traced(q), i, j);
  }

  // ---------------------------------------------------------------- which paths

  lemma TracedMembers(q: Query, p: Path)
    requires 1 <= q.maxDepth
    ensures p in Traced(q) <==> p in Take(UpTo(NextOf(q), q.maxDepth), q.Limit())
    ensures |Traced(q)| == |Take(UpTo(NextOf(q), q.maxDepth), q.Limit())|
  {
    MembersKept(q.pathOrder, Take(UpTo(NextOf(q), q.maxDepth), q.Limit()));
    SortKeeps(q.pathOrder, Take(UpTo(NextOf(q), q.maxDepth), q.Limit()));
  }

  /** Every path returned is a walk within the depth limit, and there are at most `limit` of them. */
  lemma TracedAreWalks(q: Query, p: Path)
    requires 1 <= q.maxDepth && p in Traced(q)
    ensures 1 <= |p| <= q.maxDepth && Walk(q, p)
    ensures |Traced(q)| <= if q.limit > 1 then q.limit else 1
  {
    TracedMembers(q, p);
    UpToIsExact(q, q.maxDepth, p);
  }

  /** Shallower paths come first in the enumeration. */
  lemma {:induction false} ShallowFirst(next: Path -> seq<Fact>, depth: nat, i: nat, j: nat)
    requires i <= j < |UpTo(next, depth)|
    ensures |UpTo(next, depth)[i]| <= |UpTo(next, depth)[j]| <= depth
  {
    if depth > 0 {
      var n := |UpTo(next, depth - 1)|;
      if i < n {
        ShallowFirst(next, depth - 1, i, if j < n then j else i);
      }
      if j >= n {
        LevelIsExact(next, depth, Level(next, depth)[j - n]);
        if i >= n {
          LevelIsExact(next, depth, Level(next, depth)[i - n]);
        }
      }
    }
  }

  /** A walk is left out only when the limit is used up by paths that are no deeper. */
  lemma DroppedOnlyForShallower(q: Query, w: Path, p: Path)
    requires 1 <= q.maxDepth && Walk(q, w) && 1 <= |w| <= q.maxDepth && w !in Traced(q)
    ensures |Traced(q)| == q.Limit()
    ensures p in Traced(q) ==> |p| <= |w|
  {
    var all := UpTo(NextOf(q), q.maxDepth);
    UpToIsExact(q, q.maxDepth, w);
    TracedMembers(q, w);
    TracedMembers(q, p);
    assert forall k :: 0 <= k < |all| && k < q.Limit() ==> all[k] == Take(all, q.Limit())[k];
    var j :| 0 <= j < |all| && all[j] == w;
    if p in Traced(q) {
      var i :| 0 <= i < |Take(all, q.Limit())| && all[i] == p;
      ShallowFirst(NextOf(q), q.maxDepth, i, j);
    }
  }

  /** With at most `limit` walks within the depth limit, all of them are returned. */
  lemma AllWalksReturned(q: Query, walks: set<Path>, w: Path)
    requires 1 <= q.maxDepth && DistinctIds(q.rows)
    requires forall p :: Walk(q, p) && 1 <= |p| <= q.maxDepth ==> p in walks
    requires |walks| <= q.Limit() && Walk(q, w) && 1 <= |w| <= q.maxDepth
    ensures w in Traced(q)
  {
    var all := UpTo(NextOf(q), q.maxDepth);
    forall p ensures Once(NextOf(q)(p)) {
      NextOnce(q, p);
    }
    UpToOnce(NextOf(q), q.maxDepth);
    forall p | p in all ensures p in walks {
      UpToIsExact(q, q.maxDepth, p);
    }
    OnceWithin(all, walks);
    UpToIsExact(q, q.maxDepth, w);
    TracedMembers(q, w);
  }

  lemma TracedSorted(q: Query)
    requires 1 <= q.maxDepth && TotalPreorder(q.pathOrder)
    ensures SortedBy(q.pathOrder, Traced(q))
  {
    SortSorts(q.pathOrder, Take(UpTo(NextOf(q), q.maxDepth), q.Limit()));
  }

  // ---------------------------------------------------------------- walks

  /** A walk never returns to an entity. */
  lemma {:induction false} WalksAreSimple(q: Query, p: Path, i: nat, j: nat)
    requires Walk(q, p) && i < j <= |p|
    ensures Last(q, p[..i]) != Last(q, p[..j])
  {
    var before := p[..|p| - 1];
    if j < |p| {
      WalksAreSimple(q, before, i, j);
      assert before[..i] == p[..i] && before[..j] == p[..j];
    } else {
      assert p[..j] == p;
      if i > 0 {
        assert p[..i][i - 1] == before[i - 1] && before[i - 1] in before;
      }
    }
  }

  /** The facts of a path join up: each starts where the one before it ends. */
  predicate Chained(q: Query, p: Path) {
    forall k :: 0 <= k < |p| ==> p[k].source == Last(q, p[..k])
  }

  /** A listing without entity filter, for an empty name, is the only way a walk can fail to join up. */
  lemma {:induction false} WalksJoinUp(q: Query, p: Path, k: nat)
    requires Walk(q, p) && k < |p|
    ensures p[k].confidence >= q.minConfidence && Row(p[k], true) in q.rows && (q.kind == "" || p[k].kind == q.kind)
    ensures p[k].source == Last(q, p[..k]) || Last(q, p[..k]) == ""
  {
    var before := p[..|p| - 1];
    if k < |p| - 1 {
      WalksJoinUp(q, before, k);
      assert before[..k] == p[..k];
    } else {
      ListingIsSound(q.rows, Last(q, before), q.kind, q.Limit() * 5, p[k]);
    }
  }

  lemma {:induction false} PrefixIsWalk(q: Query, p: Path, k: nat)
    requires Walk(q, p) && k < |p|
    ensures Walk(q, p[..k]) && Extends(q, p[..k], p[k]) && p[k] in Listing(q.rows, Last(q, p[..k]), q.kind, q.Limit() * 5)
  {
    var before := p[..|p| - 1];
    if k < |p| - 1 {
      PrefixIsWalk(q, before, k);
      assert before[..k] == p[..k];
    }
  }

  /** Short of the depth limit a walk reaches the empty name, and the listing for it, which does not
      filter by entity, has a fact of somebody else that continues the walk. */
  ghost predicate LeavesEmptyName(q: Query) {
    exists p, f :: StepsOff(q, p, f)
  }

  predicate StepsOff(q: Query, p: Path, f: Fact) {
    && Walk(q, p) && |p| < q.maxDepth && Last(q, p) == ""
    && f in Listing(q.rows, "", q.kind, q.Limit() * 5) && Extends(q, p, f) && f.source != ""
  }

  lemma SteppingOffBreaks(q: Query, p: Path, f: Fact)
    requires StepsOff(q, p, f)
    ensures Walk(q, p + [f]) && |p + [f]| <= q.maxDepth && !Chained(q, p + [f])
  {
    var longer := p + [f];
    assert longer[..|p|] == p;
    assert longer[|p|].source != Last(q, longer[..|p|]);
  }

  lemma BreakStepsOff(q: Query, p: Path, k: nat)
    requires Walk(q, p) && |p| <= q.maxDepth && k < |p| && p[k].source != Last(q, p[..k])
    ensures StepsOff(q, p[..k], p[k])
  {
    WalksJoinUp(q, p, k);
    PrefixIsWalk(q, p, k);
  }

  /** All walks within the depth limit are chains, unless the query leaves the empty name that way. */
  lemma ChainedExactly(q: Query)
    ensures (forall p :: Walk(q, p) && |p| <= q.maxDepth ==> Chained(q, p)) <==> !LeavesEmptyName(q)
  {
    if p, f :| StepsOff(q, p, f) {
      SteppingOffBreaks(q, p, f);
    }
    forall p: Path | Walk(q, p) && |p| <= q.maxDepth && !Chained(q, p) ensures LeavesEmptyName(q) {
      var k :| 0 <= k < |p| && p[k].source != Last(q, p[..k]);
      BreakStepsOff(q, p, k);
    }
  }

  /** The same for the paths returned, if the limit does not cut any off. */
  lemma TracedChainedExactly(q: Query)
    requires 1 <= q.maxDepth
    ensures !LeavesEmptyName(q) ==> forall p :: p in Traced(q) ==> Chained(q, p)
    ensures LeavesEmptyName(q) && |UpTo(NextOf(q), q.maxDepth)| <= q.Limit() ==> exists p :: p in Traced(q) && !Chained(q, p)
  {
    ChainedExactly(q);
    forall p | p in Traced(q) && !LeavesEmptyName(q) ensures Chained(q, p) {
      TracedAreWalks(q, p);
    }
    if LeavesEmptyName(q) && |UpTo(NextOf(q), q.maxDepth)| <= q.Limit() {
      var p :| Walk(q, p) && |p| <= q.maxDepth && !Chained(q, p);
      UpToIsExact(q, q.maxDepth, p);
      TracedMembers(q, p);
    }
  }

  /** What a caller can check beforehand: from a named source, over facts whose targets are named,
      every walk is a chain. */
  lemma NamedWalksAreChained(q: Query, p: Path)
    requires q.source != "" && forall row :: row in q.rows && row.loads ==> row.fact.target != ""
    requires Walk(q, p)
    ensures Chained(q, p)
  {
    forall k | 0 <= k < |p| ensures p[k].source == Last(q, p[..k]) {
      WalksJoinUp(q, p, k);
      if k > 0 {
        WalksJoinUp(q, p, k - 1);
        assert p[..k][k - 1] == p[k - 1] && Row(p[k - 1], true).fact == p[k - 1];
      }
    }
  }

  function AnyOrder<T>(): (T, T) -> bool {
    (a, b) => true
  }

  /** Tracing from the empty name reports a fact about somebody else. */
  lemma EmptyNameIsNotChained() returns (q: Query)
    ensures 1 <= q.maxDepth <= MAX_DEPTH && DistinctIds(q.rows) && q.source == ""
    ensures exists p :: p in Traced(q) && !Chained(q, p)
  {
    var f := Fact("f1", "api", "db", "depends_on", 0.7);
    q := Query([Row(f, true)], "", "", 1, 10, 0.0, d => AnyOrder(), AnyOrder());
    var p := [f];
    assert p[..0] == [];
    assert Listing(q.rows[1..], "", "", 49) == [];
    assert Listing(q.rows, "", "", 50) == [f];
    assert Walk(q, []) && Walk(q, p);
    forall x | Walk(q, x) && 1 <= |x| <= 1 ensures x in {p} {
      assert x[..0] == [];
      assert x == [x[0]];
    }
    AllWalksReturned(q, {p}, p);
    assert p[0].source != Last(q, p[..0]);
  }

  // ---------------------------------------------------------------- complete listings

  /** A walk over every readable fact of the store, however many an entity has. */
  predicate StoreWalk(q: Query, p: Path) {
    p == [] ||
    var before, f := p[..|p| - 1], p[|p| - 1];
    StoreWalk(q, before) && Row(f, true) in q.rows && Selects(f, Last(q, before), q.kind) && Extends(q, before, f)
  }

  /** When no entity on the way has more rows than one listing returns, walks miss no fact. */
  lemma {:induction false} ListingsComplete(q: Query, p: Path)
    requires forall k :: 0 <= k < |p| ==> CountSelected(q.rows, Last(q, p[..k]), q.kind) <= q.Limit() * 5
    ensures Walk(q, p) <==> StoreWalk(q, p)
  {
    if p != [] {
      var before, f := p[..|p| - 1], p[|p| - 1];
      assert forall k :: 0 <= k < |before| ==> before[..k] == p[..k];
      ListingsComplete(q, before);
      if f in Listing(q.rows, Last(q, before), q.kind, q.Limit() * 5) {
        ListingIsSound(q.rows, Last(q, before), q.kind, q.Limit() * 5, f);
      }
      if Row(f, true) in q.rows && Selects(f, Last(q, before), q.kind) {
        ListingIsComplete(q.rows, Last(q, before), q.kind, q.Limit() * 5, f);
      }
    }
  }
}
