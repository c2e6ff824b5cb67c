/** What the budget guarantees, and the receipt over all layers (_apply_budget and
    _projection_receipt in harness_mem/context_assembly.py). */
module ContextReceipt {
  import opened Sequences
  import opened ContextBudget

  // ---------------------------------------------------------------- one layer

  /** The chosen entries and their text, with the newlines between summaries, stay within the budget. */
  lemma {:induction false} FitsTheBudget(isSpace: char -> bool, budget: Budget, cs: seq<PlanEntry>, fates: seq<Fate>)
    requires Judged(isSpace, budget, cs, fates)
    ensures |Chosen(cs, fates)| <= budget.maxEntries
    ensures budget.maxChars.Some? ==> |ProjectionText(Chosen(cs, fates))| <= budget.maxChars.value
  {
    if cs != [] {
      var last := |cs| - 1;
      FitsTheBudget(isSpace, budget, cs[..last], fates[..last]);
      FitsStill(isSpace, budget, cs[last], Chosen(cs[..last], fates[..last]), fates[..last]);
    }
  }

  lemma FitsStill(isSpace: char -> bool, budget: Budget, c: PlanEntry, before: seq<PlanEntry>, fates: seq<Fate>)
    requires |before| <= budget.maxEntries
    requires budget.maxChars.Some? ==> |ProjectionText(before)| <= budget.maxChars.value
    ensures var after := before + After(c, Verdict(isSpace, budget, c, before, fates));
            && |after| <= budget.maxEntries
            && (budget.maxChars.Some? ==> |ProjectionText(after)| <= budget.maxChars.value)
  {
    match Verdict(isSpace, budget, c, before, fates) {
      case Kept => TextGrows(before, c);
      case Cut(text) => TextGrows(before, c.(summary := text));
      case Dropped => assert before + [] == before;
    }
  }

  ghost predicate JudgedOne(isSpace: char -> bool, budget: Budget, cs: seq<PlanEntry>, fates: seq<Fate>, k: nat)
    requires k < |cs| == |fates|
  {
    && Judged(isSpace, budget, cs[..k], fates[..k])
    && fates[k] == Verdict(isSpace, budget, cs[k], Chosen(cs[..k], fates[..k]), fates[..k])
  }

  lemma {:induction false} JudgedAt(isSpace: char -> bool, budget: Budget, cs: seq<PlanEntry>, fates: seq<Fate>, k: nat)
    requires Judged(isSpace, budget, cs, fates) && k < |cs|
    ensures JudgedOne(isSpace, budget, cs, fates, k)
    decreases |cs|
  {
    var last := |cs| - 1;
    if k < last {
      JudgedAt(isSpace, budget, cs[..last], fates[..last], k);
      assert cs[..last][..k] == cs[..k] && fates[..last][..k] == fates[..k];
    }
  }

  /** After a cut, no entry with a summary is chosen; so at most one is cut. */
  lemma NothingAfterACut(isSpace: char -> bool, budget: Budget, cs: seq<PlanEntry>, fates: seq<Fate>, i: nat, j: nat)
    requires Judged(isSpace, budget, cs, fates) && i < j < |cs| && fates[i].Cut?
    ensures fates[j].Dropped? || (fates[j].Kept? && cs[j].summary == "")
  {
    JudgedAt(isSpace, budget, cs, fates, i);
    JudgedAt(isSpace, budget, cs, fates, j);
    assert fates[..j][i].Cut?;
  }

  /** A cut summary is a marked beginning of one that would not have fitted whole. */
  lemma CutOnlyWhatDoesNotFit(isSpace: char -> bool, budget: Budget, cs: seq<PlanEntry>, fates: seq<Fate>, k: nat)
    requires Judged(isSpace, budget, cs, fates) && k < |cs| && fates[k].Cut?
    ensures budget.maxChars.Some? && |ProjectionText(Chosen(cs[..k], fates[..k]) + [cs[k]])| > budget.maxChars.value
    ensures var text := fates[k].text; text != "" && text[|text| - 1] == '…' && text[..|text| - 1] <= cs[k].summary
  {
    JudgedAt(isSpace, budget, cs, fates, k);
    TextGrows(Chosen(cs[..k], fates[..k]), cs[k]);
  }

  /** The room for one more summary, while none has been cut: what the limit leaves after the text chosen so
      far and the newline in front of the summary. */
  function RoomLeft(limit: int, chosen: seq<PlanEntry>): int {
    limit - |ProjectionText(chosen)| - (if forall e :: e in chosen ==> e.summary == "" then 0 else 1)
  }

  lemma RoomExactly(budget: Budget, chosen: seq<PlanEntry>, fates: seq<Fate>)
    requires budget.maxChars.Some?
    ensures Room(budget, chosen, fates) == if AnyCut(fates) then 0 else RoomLeft(budget.maxChars.value, chosen)
  {
    TextIsEmpty(chosen);
  }

  lemma AnyCutBefore(fates: seq<Fate>, k: nat)
    requires k <= |fates|
    ensures AnyCut(fates[..k]) <==> exists i :: 0 <= i < k && fates[i].Cut?
  {
    if i :| 0 <= i < k && fates[i].Cut? {
      assert fates[..k][i].Cut?;
    }
  }

  /** Each candidate is judged by what was chosen before it: dropped when the entries are used up, or when it
      has a summary and there is no room for even one character of it; cut when it has a summary that is
      longer than the room there is; and kept otherwise. */
  lemma FateExactly(isSpace: char -> bool, budget: Budget, cs: seq<PlanEntry>, fates: seq<Fate>, k: nat)
    requires Judged(isSpace, budget, cs, fates) && k < |cs|
    ensures var chosen, c := Chosen(cs[..k], fates[..k]), cs[k];
            var limited := budget.maxChars.Some? && c.summary != "";
            var full := exists i :: 0 <= i < k && fates[i].Cut?;
            && (fates[k].Dropped? <==>
                  || |chosen| >= budget.maxEntries
                  || (limited && (full || RoomLeft(budget.maxChars.value, chosen) <= 0)))
            && (fates[k].Cut? <==>
                  && |chosen| < budget.maxEntries && limited && !full
                  && 0 < RoomLeft(budget.maxChars.value, chosen) < |c.summary|)
            && (fates[k].Cut? ==>
                  fates[k].text == TruncateToCharBudget(isSpace, c.summary, RoomLeft(budget.maxChars.value, chosen)))
  {
    JudgedAt(isSpace, budget, cs, fates, k);
    AnyCutBefore(fates, k);
    if budget.maxChars.Some? {
      RoomExactly(budget, Chosen(cs[..k], fates[..k]), fates[..k]);
    }
  }

  lemma {:induction false} AllKept(cs: seq<PlanEntry>, fates: seq<Fate>)
    requires |cs| == |fates| && forall k :: 0 <= k < |fates| ==> fates[k].Kept?
    ensures Chosen(cs, fates) == cs
  {
    if cs != [] {
      AllKept(cs[..|cs| - 1], fates[..|cs| - 1]);
    }
  }

  lemma {:induction false} TextOfPrefix(cs: seq<PlanEntry>, k: nat)
    requires k <= |cs|
    ensures |ProjectionText(cs[..k])| <= |ProjectionText(cs)|
    ensures k < |cs| && cs[k].summary != "" ==>
              |ProjectionText(cs[..k])| + |cs[k].summary| + (if ProjectionText(cs[..k]) == "" then 0 else 1) <= |ProjectionText(cs)|
    decreases |cs|
  {
    if k == |cs| {
      assert cs[..k] == cs;
    } else {
      var last := |cs| - 1;
      if k < last {
        TextOfPrefix(cs[..last], k);
        assert cs[..last][..k] == cs[..k];
      }
    }
  }

  /** Nothing is cut or dropped exactly when everything fits. */
  lemma NothingLostExactly(isSpace: char -> bool, budget: Budget, cs: seq<PlanEntry>, fates: seq<Fate>)
    requires Judged(isSpace, budget, cs, fates)
    ensures (forall k :: 0 <= k < |fates| ==> fates[k].Kept?) <==>
            |cs| <= budget.maxEntries && (budget.maxChars.Some? ==> |ProjectionText(cs)| <= budget.maxChars.value)
  {
    if forall k :: 0 <= k < |fates| ==> fates[k].Kept? {
      AllKept(cs, fates);
      FitsTheBudget(isSpace, budget, cs, fates);
    } else if |cs| <= budget.maxEntries && (budget.maxChars.Some? ==> |ProjectionText(cs)| <= budget.maxChars.value) {
      EverythingFits(isSpace, budget, cs, fates, |cs|);
    }
  }

  ghost predicate KeptBefore(fates: seq<Fate>, n: nat)
    requires n <= |fates|
  {
    forall k :: 0 <= k < n ==> fates[k].Kept?
  }

  lemma {:induction false} EverythingFits(isSpace: char -> bool, budget: Budget, cs: seq<PlanEntry>, fates: seq<Fate>, n: nat)
    requires Judged(isSpace, budget, cs, fates) && n <= |cs| <= budget.maxEntries
    requires budget.maxChars.Some? ==> |ProjectionText(cs)| <= budget.maxChars.value
    ensures KeptBefore(fates, n)
  {
    if n > 0 {
      EverythingFits(isSpace, budget, cs, fates, n - 1);
      NextFits(isSpace, budget, cs, fates, n - 1);
    }
  }

  lemma NextFits(isSpace: char -> bool, budget: Budget, cs: seq<PlanEntry>, fates: seq<Fate>, k: nat)
    requires Judged(isSpace, budget, cs, fates) && k < |cs| <= budget.maxEntries && KeptBefore(fates, k)
    requires budget.maxChars.Some? ==> |ProjectionText(cs)| <= budget.maxChars.value
    ensures fates[k].Kept?
  {
    JudgedAt(isSpace, budget, cs, fates, k);
    AllKept(cs[..k], fates[..k]);
    FitsToo(isSpace, budget, cs, fates[..k], k);
  }

  lemma FitsToo(isSpace: char -> bool, budget: Budget, cs: seq<PlanEntry>, fates: seq<Fate>, k: nat)
    requires k < |cs| <= budget.maxEntries && !AnyCut(fates)
    requires budget.maxChars.Some? ==> |ProjectionText(cs)| <= budget.maxChars.value
    ensures Verdict(isSpace, budget, cs[k], cs[..k], fates) == Kept
  {
    TextOfPrefix(cs, k);
  }

  // ---------------------------------------------------------------- partition

  /** `all` is `a` and `b` merged, each in its own order. */
  ghost predicate Merged<T(!new)>(all: seq<T>, a: seq<T>, b: seq<T>)
    decreases |all|
  {
    if all == [] then a == [] && b == []
    else
      var last := |all| - 1;
      || (a != [] && a[|a| - 1] == all[last] && Merged(all[..last], a[..|a| - 1], b))
      || (b != [] && b[|b| - 1] == all[last] && Merged(all[..last], a, b[..|b| - 1]))
  }

  function WithSummary(cs: seq<PlanEntry>, fates: seq<Fate>): seq<PlanEntry>
    requires |cs| == |fates|
  {
    if cs == [] then []
    else
      var last := |cs| - 1;
      WithSummary(cs[..last], fates[..last]) + [if fates[last].Cut? then cs[last].(summary := fates[last].text) else cs[last]]
  }

  /** The candidates, with the cut summary in place, are the chosen and the lost ones in order. */
  lemma {:induction false} ChosenAndLost(cs: seq<PlanEntry>, fates: seq<Fate>)
    requires |cs| == |fates|
    ensures Merged(WithSummary(cs, fates), Chosen(cs, fates), Lost(cs, fates))
  {
    if cs != [] {
      var last := |cs| - 1;
      ChosenAndLost(cs[..last], fates[..last]);
      var all, a, b := WithSummary(cs, fates), Chosen(cs, fates), Lost(cs, fates);
      assert all[..|all| - 1] == WithSummary(cs[..last], fates[..last]);
      if fates[last].Dropped? {
        assert b[..|b| - 1] == Lost(cs[..last], fates[..last]) && a == Chosen(cs[..last], fates[..last]);
      } else {
        assert a[..|a| - 1] == Chosen(cs[..last], fates[..last]) && b == Lost(cs[..last], fates[..last]);
      }
    }
  }

  // ---------------------------------------------------------------- the receipt

  function Ids(entries: seq<PlanEntry>): set<string> {
    set e, x | e in entries && x in e.sourceIds && x != "" :: x
  }

  lemma IdsJoin(a: seq<PlanEntry>, b: seq<PlanEntry>)
    ensures Ids(a + b) == Ids(a) + Ids(b)
  {
  }

  lemma IdsOfOne(c: PlanEntry, fate: Fate)
    ensures Ids(After(c, fate)) + Ids(if fate.Dropped? then [c] else []) == Ids([c])
  {
    assert forall x :: x in Ids([c]) <==> x in c.sourceIds && x != "";
    if !fate.Dropped? {
      var kept := After(c, fate)[0];
      assert After(c, fate) == [kept] && kept.sourceIds == c.sourceIds;
      assert forall x :: x in Ids([kept]) <==> x in kept.sourceIds && x != "";
    }
  }

  lemma IdsDivideOne(cs: seq<PlanEntry>, chosen: seq<PlanEntry>, lost: seq<PlanEntry>, c: PlanEntry, fate: Fate)
    requires Ids(chosen) + Ids(lost) == Ids(cs)
    ensures Ids(chosen + After(c, fate)) + Ids(lost + if fate.Dropped? then [c] else []) == Ids(cs + [c])
  {
    IdsOfOne(c, fate);
    IdsJoin(cs, [c]);
    IdsJoin(chosen, After(c, fate));
    IdsJoin(lost, if fate.Dropped? then [c] else []);
  }

  /** Every source id of a candidate is named by a chosen or by a lost entry, and no others are. */
  lemma {:induction false} IdsDivide(cs: seq<PlanEntry>, fates: seq<Fate>)
    requires |cs| == |fates|
    ensures Ids(Chosen(cs, fates)) + Ids(Lost(cs, fates)) == Ids(cs)
  {
    if cs != [] {
      var last := |cs| - 1;
      IdsDivide(cs[..last], fates[..last]);
      assert cs == cs[..last] + [cs[last]];
      IdsDivideOne(cs[..last], Chosen(cs[..last], fates[..last]), Lost(cs[..last], fates[..last]), cs[last], fates[last]);
    }
  }

  /** Each non-empty value once, where it first occurs. */
  function Distinct(values: seq<string>): seq<string> {
    if values == [] then []
    else
      var before, last := Distinct(values[..|values| - 1]), values[|values| - 1];
      if last != "" && last !in before then before + [last] else before
  }

  lemma {:induction false} DistinctIsExact(values: seq<string>)
    ensures Once(Distinct(values))
    ensures forall x :: x in Distinct(values) <==> x in values && x != ""
  {
    if values != [] {
      var before, last := Distinct(values[..|values| - 1]), values[|values| - 1];
      DistinctIsExact(values[..|values| - 1]);
      assert values == values[..|values| - 1] + [last];
      if last != "" && last !in before {
        OnceJoined(before, [last]);
      }
    }
  }

  /** In the order of first occurrence: before the later of two values has occurred, the earlier one has. */
  lemma {:induction false} DistinctKeepsOrder(values: seq<string>, i: nat, j: nat)
    requires i < j < |Distinct(values)|
    ensures exists k :: 0 <= k < |values| && values[k] == Distinct(values)[i] && Distinct(values)[j] !in values[..k + 1]
  {
    var front := values[..|values| - 1];
    var before := Distinct(front);
    DistinctIsExact(front);
    if j < |before| {
      DistinctKeepsOrder(front, i, j);
      var k :| 0 <= k < |front| && front[k] == before[i] && before[j] !in front[..k + 1];
      assert values[..k + 1] == front[..k + 1];
    } else {
      var x, last := Distinct(values)[i], values[|values| - 1];
      assert x == before[i] && x in front;
      var k :| 0 <= k < |front| && front[k] == x;
      assert forall y :: y in values[..k + 1] ==> y in front;
    }
  }

  /** The ids traced as truncated are those of the entries that were cut. */
  lemma {:induction false} CutIdsExactly(cs: seq<PlanEntry>, fates: seq<Fate>, x: string)
    requires |cs| == |fates|
    ensures x in CutIds(cs, fates) <==> exists k :: 0 <= k < |cs| && fates[k].Cut? && x in cs[k].sourceIds
  {
    if cs != [] {
      CutIdsExactly(cs[..|cs| - 1], fates[..|cs| - 1], x);
    }
  }

  method Dedupe(values: seq<string>) returns (result: seq<string>)
    ensures result == Distinct(values)
  {
    result := [];
    var seen: set<string> := {};
    for i := 0 to |values|
      invariant result == Distinct(values[..i])
      invariant forall x :: x in seen <==> x in result
    {
      assert values[..i + 1][..i] == values[..i];
      if values[i] != "" && values[i] !in seen {
        seen := seen + {values[i]};
        result := result + [values[i]];
      }
    }
    assert values[..|values|] == values;
  }

  function AllIds(entries: seq<PlanEntry>): seq<string> {
    if entries == [] then [] else entries[0].sourceIds + AllIds(entries[1..])
  }

  lemma {:induction false} AllIdsAreIds(entries: seq<PlanEntry>, x: string)
    ensures x in AllIds(entries) && x != "" <==> x in Ids(entries)
  {
    if entries != [] {
      AllIdsAreIds(entries[1..], x);
      assert entries == [entries[0]] + entries[1..];
      IdsJoin([entries[0]], entries[1..]);
    }
  }

  method SourceIds(entries: seq<PlanEntry>) returns (ids: seq<string>)
    ensures ids == Distinct(AllIds(entries))
    ensures forall x :: x in ids <==> x in Ids(entries)
  {
    ids := Dedupe(AllIds(entries));
    DistinctIsExact(AllIds(entries));
    forall x ensures x in ids <==> x in Ids(entries) {
      AllIdsAreIds(entries, x);
    }
  }

  function Flat<T>(lists: seq<seq<T>>): seq<T> {
    if lists == [] then [] else lists[0] + Flat(lists[1..])
  }

  lemma {:induction false} FlatMembers<T>(lists: seq<seq<T>>, x: T)
    ensures x in Flat(lists) <==> exists l :: l in lists && x in l
  {
    if lists != [] {
      FlatMembers(lists[1..], x);
      assert lists == [lists[0]] + lists[1..];
    }
  }

  datatype Outcome = None | Evicted | Truncated

  datatype Receipt = Receipt(kept: seq<string>, evicted: seq<string>, outcome: Outcome)

  predicate NamesAny(ids: seq<string>) {
    exists x :: x in ids && x != ""
  }

  /** `layers` are the chosen entries of each layer, `evicted` and `truncated` the ids traced for it. */
  method ProjectionReceipt(layers: seq<seq<PlanEntry>>, evicted: seq<seq<string>>, truncated: seq<seq<string>>) returns (r: Receipt)
    ensures r.kept == Distinct(AllIds(Flat(layers)))
    ensures r.evicted == Without(Distinct(Flat(evicted)), r.kept)
    ensures Once(r.kept) && Once(r.evicted)
    ensures forall x :: x in r.kept <==> x in Ids(Flat(layers))
    ensures forall x :: x in r.evicted <==> x in Flat(evicted) && x != "" && x !in r.kept
    ensures r.outcome == Truncated <==> NamesAny(Flat(truncated))
    ensures r.outcome != Truncated ==> (r.outcome == Evicted <==> r.evicted != [])
  {
    var kept := SourceIds(Flat(layers));
    var candidates := Dedupe(Flat(evicted));
    var gone := WithoutKept(candidates, kept);
    var cut := Dedupe(Flat(truncated));
    DistinctIsExact(AllIds(Flat(layers)));
    DistinctIsExact(Flat(evicted));
    WithoutIsExact(candidates, kept);
    CutIsNamed(Flat(truncated));
    r := Receipt(kept, gone, if cut != [] then Truncated else if gone != [] then Evicted else None);
  }

  lemma CutIsNamed(ids: seq<string>)
    ensures Distinct(ids) != [] <==> NamesAny(ids)
  {
    DistinctIsExact(ids);
    if Distinct(ids) != [] {
      assert Distinct(ids)[0] in Distinct(ids);
    }
    if NamesAny(ids) {
      var x :| x in ids && x != "";
      assert x in Distinct(ids);
    }
  }

  function Without(ids: seq<string>, kept: seq<string>): seq<string> {
    if ids == [] then []
    else Without(ids[..|ids| - 1], kept) + if ids[|ids| - 1] in kept then [] else [ids[|ids| - 1]]
  }

  lemma {:induction false} WithoutIsExact(ids: seq<string>, kept: seq<string>)
    requires Once(ids)
    ensures Once(Without(ids, kept)) && forall x :: x in Without(ids, kept) <==> x in ids && x !in kept
  {
    if ids != [] {
      var last := |ids| - 1;
      OncePrefix(ids, last);
      WithoutIsExact(ids[..last], kept);
      assert ids == ids[..last] + [ids[last]];
      forall k | 0 <= k < last ensures ids[k] != ids[last] {
        OnceApart(ids, k, last);
      }
      if ids[last] !in kept {
        OnceJoined(Without(ids[..last], kept), [ids[last]]);
      }
    }
  }

  method WithoutKept(ids: seq<string>, kept: seq<string>) returns (r: seq<string>)
    ensures r == Without(ids, kept)
  {
    r := [];
    for i := 0 to |ids|
      invariant r == Without(ids[..i], kept)
    {
      assert ids[..i + 1][..i] == ids[..i];
      if ids[i] !in kept {
        r := r + [ids[i]];
      }
    }
    assert ids[..|ids|] == ids;
  }

  /** A layer as the budget left it: candidates, fates, and the ids traced as evicted. */
  ghost predicate Traced(cs: seq<PlanEntry>, fates: seq<Fate>, chosen: seq<PlanEntry>, evicted: seq<string>) {
    |cs| == |fates| && chosen == Chosen(cs, fates) && forall x :: x in evicted <==> x in Ids(Lost(cs, fates))
  }

  /** Across all layers, kept and evicted ids are disjoint, and together exactly those of the candidates. */
  lemma ReceiptAccountsForAll(
    cs: seq<seq<PlanEntry>>, fates: seq<seq<Fate>>, layers: seq<seq<PlanEntry>>, evicted: seq<seq<string>>, r: Receipt, x: string)
    requires |cs| == |fates| == |layers| == |evicted|
    requires forall k :: 0 <= k < |cs| ==> Traced(cs[k], fates[k], layers[k], evicted[k])
    requires forall y :: y in r.kept <==> y in Ids(Flat(layers))
    requires forall y :: y in r.evicted <==> y in Flat(evicted) && y != "" && y !in r.kept
    ensures x in Ids(Flat(cs)) <==> x in r.kept || x in r.evicted
    ensures !(x in r.kept && x in r.evicted)
  {
    IdsAcross(cs, fates, layers, evicted, x);
  }

  lemma {:induction false} IdsAcross(
    cs: seq<seq<PlanEntry>>, fates: seq<seq<Fate>>, layers: seq<seq<PlanEntry>>, evicted: seq<seq<string>>, x: string)
    requires |cs| == |fates| == |layers| == |evicted|
    requires forall k :: 0 <= k < |cs| ==> Traced(cs[k], fates[k], layers[k], evicted[k])
    ensures x in Ids(Flat(cs)) <==> x in Ids(Flat(layers)) || (x != "" && x in Flat(evicted))
  {
    if cs != [] {
      assert Traced(cs[0], fates[0], layers[0], evicted[0]);
      forall k | 0 <= k < |cs[1..]| ensures Traced(cs[1..][k], fates[1..][k], layers[1..][k], evicted[1..][k]) {
        assert Traced(cs[k + 1], fates[k + 1], layers[k + 1], evicted[k + 1]);
      }
      IdsAcross(cs[1..], fates[1..], layers[1..], evicted[1..], x);
      IdsDivide(cs[0], fates[0]);
      IdsJoin(cs[0], Flat(cs[1..]));
      IdsJoin(layers[0], Flat(layers[1..]));
    }
  }
}
