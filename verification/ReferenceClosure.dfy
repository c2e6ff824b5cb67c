/** Chaotic iteration over record references: the fixpoint loop that both erasure paths share
    (harness_mem/data_lifecycle.py and harness_mem/processed_source_cleanup.py).

    A row is selected when it is linked to the scope itself or refers to an identifier that is
    already linked; selecting it links its own identifier. */
module ReferenceClosure {
  datatype Key = Key(collection: string, id: string)

  /** What the loop looks at in one record. Ineligible rows have no id or belong to another project. */
  datatype Row = Row(key: Key, eligible: bool, direct: bool, refs: set<string>)

  function Ids(keys: set<Key>): set<string> {
    set k | k in keys :: k.id
  }

  function RowsOf(tables: seq<seq<Row>>): set<Row> {
    set t, row | t in tables && row in t :: row
  }

  /** The row must join a selection whose linked identifiers are `linked`. */
  predicate Pulled(row: Row, linked: set<string>) {
    row.eligible && (row.direct || row.refs * linked != {})
  }

  ghost predicate Closed(rows: set<Row>, base: set<string>, keys: set<Key>) {
    forall row :: row in rows && Pulled(row, base + Ids(keys)) ==> row.key in keys
  }

  /** `keys` is the least selection that contains `pre` and is closed under linkage. */
  ghost predicate Least(rows: set<Row>, base: set<string>, pre: set<Key>, keys: set<Key>) {
    && pre <= keys
    && Closed(rows, base, keys)
    && forall other :: pre <= other && Closed(rows, base, other) ==> keys <= other
  }

  /** Whatever the order of tables and rows, there is one result. */
  lemma LeastIsUnique(rows: set<Row>, base: set<string>, pre: set<Key>, a: set<Key>, b: set<Key>)
    requires Least(rows, base, pre, a) && Least(rows, base, pre, b)
    ensures a == b
  {
  }

  // ---------------------------------------------------------------- the loop

  method Saturate(tables: seq<seq<Row>>, base: set<string>, pre: set<Key>) returns (selected: set<Key>)
    ensures Least(RowsOf(tables), base, pre, selected)
  {
    selected := pre;
    var linked := base + Ids(pre);
    ghost var all := set row | row in RowsOf(tables) :: row.key;
    var changed := true;
    while changed
      invariant pre <= selected && linked == base + Ids(selected)
      invariant forall other :: pre <= other && Closed(RowsOf(tables), base, other) ==> selected <= other
      invariant !changed ==> Closed(RowsOf(tables), base, selected)
      decreases all - selected, if changed then 1 else 0
    {
      changed := false;
      ghost var before := selected;
      for i := 0 to |tables|
        invariant before <= selected && linked == base + Ids(selected)
        invariant forall other :: pre <= other && Closed(RowsOf(tables), base, other) ==> selected <= other
        invariant !changed ==> selected == before && forall t, row :: t in tables[..i] && row in t && Pulled(row, linked) ==> row.key in selected
        invariant changed ==> all - selected < all - before
      {
        selected, linked, changed := SaturateTable(tables, i, base, pre, before, selected, linked, changed);
      }
      assert tables[..|tables|] == tables;
    }
  }

  /** One pass of the inner loop, over the rows of one collection. */
  method SaturateTable(tables: seq<seq<Row>>, i: int, base: set<string>, pre: set<Key>, ghost before: set<Key>,
                       selected0: set<Key>, linked0: set<string>, changed0: bool)
    returns (selected: set<Key>, linked: set<string>, changed: bool)
    requires 0 <= i < |tables|
    requires before <= selected0 && linked0 == base + Ids(selected0)
    requires forall other :: pre <= other && Closed(RowsOf(tables), base, other) ==> selected0 <= other
    requires !changed0 ==> selected0 == before
    requires var all := set row | row in RowsOf(tables) :: row.key; changed0 ==> all - selected0 < all - before
    ensures selected0 <= selected && linked == base + Ids(selected)
    ensures forall other :: pre <= other && Closed(RowsOf(tables), base, other) ==> selected <= other
    ensures changed0 ==> changed
    ensures !changed ==> selected == before && forall row :: row in tables[i] && Pulled(row, linked) ==> row.key in selected
    ensures var all := set row | row in RowsOf(tables) :: row.key; changed ==> all - selected < all - before
  {
    selected, linked, changed := selected0, linked0, changed0;
    ghost var all := set row | row in RowsOf(tables) :: row.key;
    for j := 0 to |tables[i]|
      invariant selected0 <= selected && linked == base + Ids(selected)
      invariant forall other :: pre <= other && Closed(RowsOf(tables), base, other) ==> selected <= other
      invariant changed0 ==> changed
      invariant !changed ==> selected == before && forall row :: row in tables[i][..j] && Pulled(row, linked) ==> row.key in selected
      invariant changed ==> all - selected < all - before
    {
      var row := tables[i][j];
      if row.eligible && row.key !in selected && (row.direct || row.refs * linked != {}) {
        assert tables[i] in tables && row in tables[i];
        assert row in RowsOf(tables) && row.key in all;
        PullIsForced(RowsOf(tables), base, pre, selected, row);
        selected := selected + {row.key};
        linked := linked + {row.key.id};
        changed := true;
      }
    }
    assert tables[i][..|tables[i]|] == tables[i];
  }

  /** A row that the loop selects is in every closed selection. */
  lemma PullIsForced(rows: set<Row>, base: set<string>, pre: set<Key>, selected: set<Key>, row: Row)
    requires row in rows && Pulled(row, base + Ids(selected))
    requires forall other :: pre <= other && Closed(rows, base, other) ==> selected <= other
    ensures forall other :: pre <= other && Closed(rows, base, other) ==> row.key in other
  {
    forall other | pre <= other && Closed(rows, base, other) ensures row.key in other {
      assert Ids(selected) <= Ids(other);
      if !row.direct {
        var id :| id in row.refs * (base + Ids(selected));
        assert id in row.refs * (base + Ids(other));
      }
    }
  }

  // ---------------------------------------------------------------- what a selected record means

  /** A chain of eligible rows: the first is linked to the scope or the preselection, and every
      later one refers to the one before it. */
  ghost predicate Chain(rows: set<Row>, linked: set<string>, chain: seq<Row>) {
    && |chain| > 0
    && (forall i :: 0 <= i < |chain| ==> chain[i] in rows && chain[i].eligible)
    && Pulled(chain[0], linked)
    && forall i :: 0 < i < |chain| ==> chain[i - 1].key.id in chain[i].refs
  }

  ghost predicate Reachable(rows: set<Row>, linked: set<string>, key: Key) {
    exists chain: seq<Row> :: Chain(rows, linked, chain) && chain[|chain| - 1].key == key
  }

  lemma {:induction false} ChainIsSelected(rows: set<Row>, base: set<string>, pre: set<Key>, keys: set<Key>, chain: seq<Row>)
    requires Closed(rows, base, keys) && pre <= keys
    requires Chain(rows, base + Ids(pre), chain)
    ensures chain[|chain| - 1].key in keys
    decreases |chain|
  {
    var last := chain[|chain| - 1];
    assert Ids(pre) <= Ids(keys);
    if |chain| == 1 {
      if !last.direct {
        var id :| id in last.refs * (base + Ids(pre));
        assert id in last.refs * (base + Ids(keys));
      }
    } else {
      var front := chain[..|chain| - 1];
      assert Chain(rows, base + Ids(pre), front);
      ChainIsSelected(rows, base, pre, keys, front);
      assert chain[|chain| - 2].key.id in last.refs * (base + Ids(keys));
    }
  }

  /** The least selection consists of the preselection and of everything a reference chain reaches. */
  lemma LeastIsReachable(rows: set<Row>, base: set<string>, pre: set<Key>, keys: set<Key>)
    requires Least(rows, base, pre, keys)
    ensures forall key :: key in keys <==> key in pre || Reachable(rows, base + Ids(pre), key)
  {
    var linked := base + Ids(pre);
    var reached := pre + set row | row in rows && Reachable(rows, linked, row.key) :: row.key;
    forall row | row in rows && Pulled(row, base + Ids(reached)) ensures row.key in reached {
      if Pulled(row, linked) {
        assert Chain(rows, linked, [row]);
      } else {
        var id :| id in row.refs * (base + Ids(reached));
        assert row.refs * linked == {} && id in row.refs;
        assert id in linked ==> id in row.refs * linked;
        var from :| from in reached && from.id == id;
        assert from !in pre;
        var chain: seq<Row> :| Chain(rows, linked, chain) && chain[|chain| - 1].key == from;
        assert Chain(rows, linked, chain + [row]);
      }
    }
    assert Closed(rows, base, reached);
    forall key ensures key in keys <==> key in pre || Reachable(rows, linked, key) {
      if Reachable(rows, linked, key) {
        var chain: seq<Row> :| Chain(rows, linked, chain) && chain[|chain| - 1].key == key;
        ChainIsSelected(rows, base, pre, keys, chain);
      }
    }
  }

  /** Every selected key is the key of a row that is pulled by the selection. */
  lemma SelectedIsPulled(rows: set<Row>, base: set<string>, keys: set<Key>, row: Row)
    requires Least(rows, base, {}, keys) && row.key in keys
    ensures exists puller :: puller in rows && puller.key == row.key && Pulled(puller, base + Ids(keys))
  {
    if forall puller :: puller in rows && puller.key == row.key ==> !Pulled(puller, base + Ids(keys)) {
      var rest := keys - {row.key};
      forall other | other in rows && Pulled(other, base + Ids(rest)) ensures other.key in rest {
        assert other.refs * (base + Ids(rest)) <= other.refs * (base + Ids(keys));
        assert Pulled(other, base + Ids(keys));
      }
      assert Closed(rows, base, rest);
      assert false;
    }
  }

  // ---------------------------------------------------------------- closing again after deletion

  /** After the least selection is deleted, a closure over the surviving rows that starts from
      nothing more than the scope and the deleted identifiers selects nothing. */
  lemma NothingLeftToSelect(rows: set<Row>, base: set<string>, pre: set<Key>, keys: set<Key>,
                            survivors: set<Row>, base': set<string>)
    requires Least(rows, base, pre, keys)
    requires base' <= base + Ids(keys)
    requires forall row' :: row' in survivors ==>
               exists row :: row in rows && row.key == row'.key && row.key !in keys
                             && row.eligible == row'.eligible && row.refs == row'.refs && (row'.direct ==> row.direct)
    ensures Least(survivors, base', {}, {})
  {
    forall row' | row' in survivors ensures !Pulled(row', base' + Ids({})) {
      var row :| row in rows && row.key == row'.key && row.key !in keys
                 && row.eligible == row'.eligible && row.refs == row'.refs && (row'.direct ==> row.direct);
      assert !Pulled(row, base + Ids(keys));
      assert row'.refs * (base' + Ids({})) <= row.refs * (base + Ids(keys));
    }
  }
}
