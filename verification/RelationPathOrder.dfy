/** Which relation paths are kept when the limit cuts some off, and what a walk is, position by position
    (trace_relation_paths in harness_mem/read_api.py). */
module RelationPathOrder {
  import opened Sequences
  import opened StableSort
  import opened RelationPaths
  import opened RelationPathResults

  // ---------------------------------------------------------------- listings and walks

  predicate IsSelected(fact: Fact, entity: string, kind: string) {
    (entity != "" ==> fact.source == entity) && (kind != "" ==> fact.kind == kind)
  }

  /** How many of the first `n` rows are selected. */
  function SelectedBefore(rows: seq<Row>, entity: string, kind: string, n: nat): nat
    requires n <= |rows|
  {
    if n == 0 then 0
    else SelectedBefore(rows, entity, kind, n - 1) + if IsSelected(rows[n - 1].fact, entity, kind) then 1 else 0
  }

  lemma {:induction false} SelectedShift(rows: seq<Row>, entity: string, kind: string, n: nat)
    requires n < |rows|
    ensures SelectedBefore(rows, entity, kind, n + 1) ==
            SelectedBefore(rows[1..], entity, kind, n) + if IsSelected(rows[0].fact, entity, kind) then 1 else 0
  {
    if n == 0 {
      assert SelectedBefore(rows, entity, kind, 0) == 0;
    } else {
      SelectedShift(rows, entity, kind, n - 1);
    }
  }

  /** The facts listed are those of the first `limit` selected rows, as far as they can be read. */
  lemma {:induction false} ListingExactly(rows: seq<Row>, entity: string, kind: string, limit: nat, f: Fact)
    ensures f in Listing(rows, entity, kind, limit) <==>
              exists n :: 0 <= n < |rows| && rows[n] == Row(f, true) && IsSelected(f, entity, kind)
                          && SelectedBefore(rows, entity, kind, n) < limit
  {
    if rows != [] && limit > 0 {
      var rest := rows[1..];
      var left := if IsSelected(rows[0].fact, entity, kind) then limit - 1 else limit;
      ListingExactly(rest, entity, kind, left, f);
      if n :| 0 <= n < |rest| && rest[n] == Row(f, true) && IsSelected(f, entity, kind) && SelectedBefore(rest, entity, kind, n) < left {
        SelectedShift(rows, entity, kind, n);
        assert rows[n + 1] == rest[n];
      }
      if n :| 0 <= n < |rows| && rows[n] == Row(f, true) && IsSelected(f, entity, kind) && SelectedBefore(rows, entity, kind, n) < limit {
        if n > 0 {
          SelectedShift(rows, entity, kind, n - 1);
          assert rest[n - 1] == rows[n];
        } else {
          assert SelectedBefore(rows, entity, kind, 0) == 0;
        }
      }
    }
  }

  /** Each fact of a walk is listed for the entity reached so far, is certain enough, and leads to an entity
      that the walk has not been to. */
  ghost predicate WalksAt(q: Query, p: Path, k: nat)
    requires k < |p|
  {
    var at := if k == 0 then q.source else p[k - 1].target;
    && p[k] in Listing(q.rows, at, q.kind, 5 * (if q.limit > 1 then q.limit else 1))
    && p[k].confidence >= q.minConfidence
    && p[k].target != q.source && forall j :: 0 <= j < k ==> p[j].target != p[k].target
  }

  lemma LastStepExactly(q: Query, p: Path)
    requires p != []
    ensures var before, f := p[..|p| - 1], p[|p| - 1];
            WalksAt(q, p, |p| - 1) <==> f in Listing(q.rows, Last(q, before), q.kind, q.Limit() * 5) && Extends(q, before, f)
  {
    var n := |p| - 1;
    var before := p[..n];
    assert n > 0 ==> before[n - 1] == p[n - 1];
    var targets := set f | f in before :: f.target;
    assert p[n].target in targets <==> exists j :: 0 <= j < n && p[j].target == p[n].target by {
      if j :| 0 <= j < n && p[j].target == p[n].target {
        assert before[j] in before;
      }
      if p[n].target in targets {
        var f :| f in before && f.target == p[n].target;
        var j :| 0 <= j < n && before[j] == f;
        assert p[j].target == p[n].target;
      }
    }
  }

  lemma EarlierStep(q: Query, p: Path, k: nat)
    requires k < |p| - 1
    ensures WalksAt(q, p, k) <==> WalksAt(q, p[..|p| - 1], k)
  {
  }

  lemma {:induction false} WalkExactly(q: Query, p: Path)
    ensures Walk(q, p) <==> forall k :: 0 <= k < |p| ==> WalksAt(q, p, k)
  {
    if p != [] {
      var before := p[..|p| - 1];
      WalkExactly(q, before);
      LastStepExactly(q, p);
      forall k | 0 <= k < |p| - 1 ensures WalksAt(q, p, k) <==> WalksAt(q, before, k) {
        EarlierStep(q, p, k);
      }
    }
  }

  // ---------------------------------------------------------------- the order of the enumeration

  /** At the first place where two paths of one depth part, `x` takes the strictly better fact. */
  ghost predicate PartsBetter(q: Query, x: Path, y: Path, k: nat) {
    && |x| == |y| && k < |x| && x[..k] == y[..k]
    && q.factOrder(k + 1)(x[k], y[k]) && !q.factOrder(k + 1)(y[k], x[k])
  }

  ghost predicate OrdersFacts(q: Query) {
    DistinctIds(q.rows) && forall n: nat :: TotalPreorder(q.factOrder(n))
  }

  /** The continuations of every path are in order, and none occurs twice. */
  ghost predicate InOrder(q: Query, next: Path -> seq<Fact>) {
    forall p: Path :: Once(next(p)) && SortedBy(q.factOrder(|p| + 1), next(p))
  }

  lemma NextInOrder(q: Query)
    requires OrdersFacts(q)
    ensures InOrder(q, NextOf(q))
  {
    forall p: Path ensures Once(NextOf(q)(p)) && SortedBy(q.factOrder(|p| + 1), NextOf(q)(p)) {
      NextOnce(q, p);
      SortSorts(q.factOrder(|p| + 1), Kept(q.minConfidence, Seen(q, p), Listing(q.rows, Last(q, p), q.kind, q.Limit() * 5)));
    }
  }

  /** What stands at position `i` is the continuation `k` of path `a`. */
  ghost predicate IsChild(next: Path -> seq<Fact>, paths: seq<Path>, i: nat, a: nat, k: nat) {
    && a < |paths| && k < |next(paths[a])| && i < |Expand(next, paths)|
    && i == |Expand(next, paths[..a])| + k && Expand(next, paths)[i] == paths[a] + [next(paths[a])[k]]
  }

  lemma {:induction false} ChildOf(next: Path -> seq<Fact>, paths: seq<Path>, i: nat) returns (a: nat, k: nat)
    requires i < |Expand(next, paths)|
    ensures IsChild(next, paths, i, a, k)
  {
    var last := |paths| - 1;
    var before := Expand(next, paths[..last]);
    if i < |before| {
      a, k := ChildOf(next, paths[..last], i);
      assert paths[..last][..a] == paths[..a] && Expand(next, paths)[i] == before[i];
    } else {
      a, k := last, i - |before|;
    }
  }

  lemma {:induction false} ExpandGrows(next: Path -> seq<Fact>, paths: seq<Path>, a: nat, b: nat)
    requires a < b <= |paths|
    ensures |Expand(next, paths[..a])| + |next(paths[a])| <= |Expand(next, paths[..b])|
    decreases b
  {
    var part := paths[..b];
    assert part[..|part| - 1] == paths[..b - 1] && part[|part| - 1] == paths[b - 1];
    if a < b - 1 {
      ExpandGrows(next, paths, a, b - 1);
    }
  }

  lemma OnceIndex<T(!new)>(s: seq<T>, i: nat, j: nat)
    requires Once(s) && i < |s| && j < |s| && s[i] == s[j]
    ensures i == j
  {
    if i < j {
      OnceApart(s, i, j);
    } else if j < i {
      OnceApart(s, j, i);
    }
  }

  /** Children of one path stand in the order of its continuations, children of different paths in the order
      of the paths. */
  lemma ChildrenInOrder(next: Path -> seq<Fact>, paths: seq<Path>, i: nat, a: nat, k: nat, j: nat, b: nat, l: nat)
    requires IsChild(next, paths, i, a, k) && IsChild(next, paths, j, b, l) && (a < b || (a == b && k < l))
    ensures i < j
  {
    if a < b {
      ExpandGrows(next, paths, a, b);
    }
  }

  lemma LevelsAreOnce(q: Query, next: Path -> seq<Fact>, d: nat)
    requires InOrder(q, next)
    ensures Once(Level(next, d)) && Once(UpTo(next, d))
  {
    UpToOnce(next, d);
  }

  lemma {:induction false} BetterFirst(q: Query, next: Path -> seq<Fact>, d: nat, i: nat, j: nat, at: nat)
    requires InOrder(q, next) && i < |Level(next, d)| && j < |Level(next, d)|
    requires PartsBetter(q, Level(next, d)[i], Level(next, d)[j], at)
    ensures i < j
    decreases d
  {
    LevelIsExact(next, d, Level(next, d)[i]);
    var paths := Level(next, d - 1);
    var a, k := ChildOf(next, paths, i);
    var b, l := ChildOf(next, paths, j);
    LevelIsExact(next, d - 1, paths[a]);
    LevelIsExact(next, d - 1, paths[b]);
    if at == d - 1 {
      assert Level(next, d)[i][..at] == paths[a] && Level(next, d)[j][..at] == paths[b];
      LevelsAreOnce(q, next, d - 1);
      OnceIndex(paths, a, b);
      BetterFactFirst(q, next, paths[a], k, l);
    } else {
      PartsAbove(q, paths[a], next(paths[a])[k], paths[b], next(paths[b])[l], at);
      BetterFirst(q, next, d - 1, a, b, at);
    }
    ChildrenInOrder(next, paths, i, a, k, j, b, l);
  }

  lemma BetterFactFirst(q: Query, next: Path -> seq<Fact>, p: Path, k: nat, l: nat)
    requires InOrder(q, next) && k < |next(p)| && l < |next(p)|
    requires q.factOrder(|p| + 1)(next(p)[k], next(p)[l]) && !q.factOrder(|p| + 1)(next(p)[l], next(p)[k])
    ensures k < l
  {
    assert SortedBy(q.factOrder(|p| + 1), next(p));
  }

  lemma PartsAbove(q: Query, x: Path, f: Fact, y: Path, g: Fact, k: nat)
    requires |x| == |y| && k < |x| && PartsBetter(q, x + [f], y + [g], k)
    ensures PartsBetter(q, x, y, k)
  {
    assert (x + [f])[..k] == x[..k] && (y + [g])[..k] == y[..k];
  }

  /** The level stands in the enumeration from `offset` on. */
  ghost predicate StandsAt(all: seq<Path>, level: seq<Path>, offset: nat) {
    offset + |level| <= |all| && forall i :: 0 <= i < |level| ==> all[offset + i] == level[i]
  }

  lemma StandsAtEnd(above: seq<Path>, level: seq<Path>)
    ensures StandsAt(above + level, level, |above|)
  {
  }

  lemma StandsStill(all: seq<Path>, more: seq<Path>, level: seq<Path>, offset: nat)
    requires StandsAt(all, level, offset)
    ensures StandsAt(all + more, level, offset)
  {
  }

  lemma {:induction false} LevelStands(next: Path -> seq<Fact>, depth: nat, d: nat)
    requires 1 <= d <= depth
    ensures StandsAt(UpTo(next, depth), Level(next, d), |UpTo(next, d - 1)|)
  {
    if d < depth {
      LevelStands(next, depth - 1, d);
      StandsStill(UpTo(next, depth - 1), Level(next, depth), Level(next, d), |UpTo(next, d - 1)|);
    } else {
      StandsAtEnd(UpTo(next, d - 1), Level(next, d));
    }
  }

  /** Of two paths of one level, the one that stands first in it is kept if the other one is. */
  lemma EarlierIsKept(all: seq<Path>, level: seq<Path>, offset: nat, limit: nat, i: nat, j: nat)
    requires Once(all) && StandsAt(all, level, offset) && i < j < |level| && level[j] in Take(all, limit)
    ensures level[i] in Take(all, limit)
  {
    var k :| 0 <= k < |Take(all, limit)| && Take(all, limit)[k] == level[j];
    OnceIndex(all, k, offset + j);
    assert Take(all, limit)[offset + i] == level[i];
  }

  lemma WalkInLevel(q: Query, w: Path)
    requires Walk(q, w)
    ensures w in Level(NextOf(q), |w|)
  {
    TrailIsWalk(q, w);
    LevelIsExact(NextOf(q), |w|, w);
  }

  /** When the limit cuts paths off, the better ones are kept: a walk that parts from a returned one of the
      same depth with a strictly better fact is returned as well. */
  lemma BetterWalksAreKept(q: Query, better: Path, w: Path, at: nat)
    requires 1 <= |w| <= q.maxDepth && OrdersFacts(q)
    requires w in Traced(q) && Walk(q, better) && PartsBetter(q, better, w, at)
    ensures better in Traced(q)
  {
    TracedAreWalks(q, w);
    WalkInLevel(q, w);
    WalkInLevel(q, better);
    NextInOrder(q);
    TracedMembers(q, w);
    TracedMembers(q, better);
    KeptIfBefore(q, NextOf(q), UpTo(NextOf(q), q.maxDepth), |w|, better, w, at);
  }

  lemma KeptIfBefore(q: Query, next: Path -> seq<Fact>, all: seq<Path>, d: nat, better: Path, w: Path, at: nat)
    requires InOrder(q, next) && 1 <= d <= q.maxDepth && better in Level(next, d) && w in Level(next, d)
    requires PartsBetter(q, better, w, at) && all == UpTo(next, q.maxDepth) && w in Take(all, q.Limit())
    ensures better in Take(all, q.Limit())
  {
    var i, j := BetterStandsFirst(q, next, d, better, w, at);
    LevelsAreOnce(q, next, q.maxDepth);
    LevelStands(next, q.maxDepth, d);
    EarlierIsKept(all, Level(next, d), |UpTo(next, d - 1)|, q.Limit(), i, j);
  }

  lemma BetterStandsFirst(q: Query, next: Path -> seq<Fact>, d: nat, better: Path, w: Path, at: nat) returns (i: nat, j: nat)
    requires InOrder(q, next) && better in Level(next, d) && w in Level(next, d) && PartsBetter(q, better, w, at)
    ensures i < j < |Level(next, d)| && Level(next, d)[i] == better && Level(next, d)[j] == w
  {
    i :| 0 <= i < |Level(next, d)| && Level(next, d)[i] == better;
    j :| 0 <= j < |Level(next, d)| && Level(next, d)[j] == w;
    BetterFirst(q, next, d, i, j, at);
  }
}
