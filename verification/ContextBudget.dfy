/** Budgeted projection of context entries (_apply_budget and _truncate_to_char_budget in
    harness_mem/context_assembly.py). */
module ContextBudget {
  import opened Wrappers

  datatype PlanEntry = PlanEntry(sourceIds: seq<string>, why: string, summary: string)

  datatype Budget = Budget(maxEntries: nat, maxChars: Option<nat>)

  // ---------------------------------------------------------------- truncation

  function StripRight(isSpace: char -> bool, s: string): (r: string)
    ensures r <= s
  {
    if s != "" && isSpace(s[|s| - 1]) then StripRight(isSpace, s[..|s| - 1]) else s
  }

  function TruncateToCharBudget(isSpace: char -> bool, value: string, maxChars: int): (r: string)
    ensures |r| <= maxChars || r == ""
    ensures maxChars >= |value| ==> r == value
    // What is cut off is marked, and what is left is the beginning of the text.
    ensures 0 < maxChars < |value| ==> r != "" && r[|r| - 1] == '…' && r[..|r| - 1] <= value
  {
    if maxChars <= 0 then ""
    else if |value| <= maxChars then value
    else if maxChars == 1 then "…"
    else StripRight(isSpace, value[..maxChars - 1]) + "…"
  }

  lemma {:induction false} StripRightExactly(isSpace: char -> bool, s: string)
    ensures var r := StripRight(isSpace, s);
            && (forall k :: |r| <= k < |s| ==> isSpace(s[k]))
            && (r != "" ==> !isSpace(r[|r| - 1]))
  {
    if s != "" && isSpace(s[|s| - 1]) {
      StripRightExactly(isSpace, s[..|s| - 1]);
      assert forall k :: 0 <= k < |s| - 1 ==> s[k] == s[..|s| - 1][k];
    }
  }

  /** Of a text that is too long, as much of the beginning is left as there is room for in front of the mark,
      less white space at its end. */
  lemma TruncationExactly(isSpace: char -> bool, value: string, maxChars: int)
    requires 0 < maxChars < |value|
    ensures var r := TruncateToCharBudget(isSpace, value, maxChars);
            && 1 <= |r| <= maxChars && r[|r| - 1] == '…' && r[..|r| - 1] == value[..|r| - 1]
            && (forall k :: |r| - 1 <= k < maxChars - 1 ==> isSpace(value[k]))
            && (|r| > 1 ==> !isSpace(value[|r| - 2]))
  {
    StripRightExactly(isSpace, value[..maxChars - 1]);
    assert forall k :: 0 <= k < maxChars - 1 ==> value[k] == value[..maxChars - 1][k];
  }

  // ---------------------------------------------------------------- what becomes of a candidate

  datatype Fate = Kept | Cut(text: string) | Dropped

  /** What a candidate leaves in the projection. */
  function After(c: PlanEntry, fate: Fate): seq<PlanEntry> {
    match fate
    case Kept => [c]
    case Cut(text) => [c.(summary := text)]
    case Dropped => []
  }

  function Chosen(cs: seq<PlanEntry>, fates: seq<Fate>): seq<PlanEntry>
    requires |cs| == |fates|
  {
    if cs == [] then []
    else
      var last := |cs| - 1;
      Chosen(cs[..last], fates[..last]) + After(cs[last], fates[last])
  }

  function Lost(cs: seq<PlanEntry>, fates: seq<Fate>): seq<PlanEntry>
    requires |cs| == |fates|
  {
    if cs == [] then []
    else
      var last := |cs| - 1;
      Lost(cs[..last], fates[..last]) + if fates[last].Dropped? then [cs[last]] else []
  }

  function CutIds(cs: seq<PlanEntry>, fates: seq<Fate>): seq<string>
    requires |cs| == |fates|
  {
    if cs == [] then []
    else
      var last := |cs| - 1;
      CutIds(cs[..last], fates[..last]) + if fates[last].Cut? then cs[last].sourceIds else []
  }

  /** The summaries, one below the other. */
  function ProjectionText(entries: seq<PlanEntry>): string {
    if entries == [] then ""
    else
      var before, summary := ProjectionText(entries[..|entries| - 1]), entries[|entries| - 1].summary;
      if summary == "" then before else if before == "" then summary else before + "\n" + summary
  }

  predicate AnyCut(fates: seq<Fate>) {
    exists k :: 0 <= k < |fates| && fates[k].Cut?
  }

  /** The characters left for one more summary; a cut summary takes all that is left. */
  function Room(budget: Budget, chosen: seq<PlanEntry>, fates: seq<Fate>): int
    requires budget.maxChars.Some?
  {
    if AnyCut(fates) then 0
    else budget.maxChars.value - |ProjectionText(chosen)| - if ProjectionText(chosen) == "" then 0 else 1
  }

  /** The fate a candidate deserves, given what was chosen before it. */
  function Verdict(isSpace: char -> bool, budget: Budget, c: PlanEntry, chosen: seq<PlanEntry>, fates: seq<Fate>): Fate {
    if |chosen| >= budget.maxEntries then Dropped
    else if budget.maxChars == None || c.summary == "" then Kept
    else
      var room := Room(budget, chosen, fates);
      if room <= 0 then Dropped
      else if |c.summary| <= room then Kept
      else Cut(TruncateToCharBudget(isSpace, c.summary, room))
  }

  /** The fates of all candidates, from left to right. */
  function FatesOf(isSpace: char -> bool, budget: Budget, cs: seq<PlanEntry>): (fates: seq<Fate>)
    ensures Judged(isSpace, budget, cs, fates)
  {
    if cs == [] then []
    else
      var last := |cs| - 1;
      var before := FatesOf(isSpace, budget, cs[..last]);
      assert (before + [Kept])[..last] == before;
      before + [Verdict(isSpace, budget, cs[last], Chosen(cs[..last], before), before)]
  }

  ghost predicate Judged(isSpace: char -> bool, budget: Budget, cs: seq<PlanEntry>, fates: seq<Fate>) {
    |cs| == |fates| &&
    (cs == [] ||
     var last := |cs| - 1;
     && Judged(isSpace, budget, cs[..last], fates[..last])
     && fates[last] == Verdict(isSpace, budget, cs[last], Chosen(cs[..last], fates[..last]), fates[..last]))
  }

  // ---------------------------------------------------------------- applying the budget

  /** What the running counter holds: the limit less the text chosen, and nothing after a cut. */
  ghost predicate CounterHolds(budget: Budget, remaining: int, chosen: seq<PlanEntry>, fates: seq<Fate>) {
    budget.maxChars.Some? ==>
      && remaining == (if AnyCut(fates) then 0 else budget.maxChars.value - |ProjectionText(chosen)|)
      && 0 <= remaining
  }

  lemma {:induction false} TextIsEmpty(entries: seq<PlanEntry>)
    ensures ProjectionText(entries) == "" <==> forall e :: e in entries ==> e.summary == ""
  {
    if entries != [] {
      TextIsEmpty(entries[..|entries| - 1]);
      assert entries == entries[..|entries| - 1] + [entries[|entries| - 1]];
    }
  }

  lemma AnyCutSnoc(fates: seq<Fate>, fate: Fate)
    ensures AnyCut(fates + [fate]) <==> AnyCut(fates) || fate.Cut?
  {
    if fate.Cut? {
      assert (fates + [fate])[|fates|].Cut?;
    }
    if AnyCut(fates) {
      var k :| 0 <= k < |fates| && fates[k].Cut?;
      assert (fates + [fate])[k].Cut?;
    }
  }

  lemma TextGrows(chosen: seq<PlanEntry>, c: PlanEntry)
    ensures ProjectionText(chosen + [c]) ==
            if c.summary == "" then ProjectionText(chosen)
            else if ProjectionText(chosen) == "" then c.summary
            else ProjectionText(chosen) + "\n" + c.summary
  {
    assert (chosen + [c])[..|chosen|] == chosen;
  }

  ghost predicate Applied(isSpace: char -> bool, budget: Budget, cs: seq<PlanEntry>, fates: seq<Fate>,
                          selected: seq<PlanEntry>, evicted: seq<PlanEntry>, truncatedIds: seq<string>)
  {
    && fates == FatesOf(isSpace, budget, cs)
    && selected == Chosen(cs, fates) && evicted == Lost(cs, fates) && truncatedIds == CutIds(cs, fates)
  }

  lemma ApplyOne(isSpace: char -> bool, budget: Budget, cs: seq<PlanEntry>, fates: seq<Fate>,
                 selected: seq<PlanEntry>, evicted: seq<PlanEntry>, truncatedIds: seq<string>, c: PlanEntry, fate: Fate)
    requires Applied(isSpace, budget, cs, fates, selected, evicted, truncatedIds)
    requires fate == Verdict(isSpace, budget, c, selected, fates)
    ensures Applied(isSpace, budget, cs + [c], fates + [fate], selected + After(c, fate),
                    evicted + (if fate.Dropped? then [c] else []), truncatedIds + (if fate.Cut? then c.sourceIds else []))
  {
    assert (cs + [c])[..|cs|] == cs && (fates + [fate])[..|fates|] == fates;
  }

  method ApplyBudget(isSpace: char -> bool, candidates: seq<PlanEntry>, budget: Budget)
    returns (selected: seq<PlanEntry>, evicted: seq<PlanEntry>, truncatedIds: seq<string>)
    ensures selected == Chosen(candidates, FatesOf(isSpace, budget, candidates))
    ensures evicted == Lost(candidates, FatesOf(isSpace, budget, candidates))
    ensures truncatedIds == CutIds(candidates, FatesOf(isSpace, budget, candidates))
  {
    selected, evicted, truncatedIds := [], [], [];
    ghost var fates: seq<Fate> := [];
    var remaining := if budget.maxChars.Some? then budget.maxChars.value else 0;
    for i := 0 to |candidates|
      invariant Applied(isSpace, budget, candidates[..i], fates, selected, evicted, truncatedIds)
      invariant CounterHolds(budget, remaining, selected, fates)
    {
      var candidate := candidates[i];
      assert candidates[..i + 1] == candidates[..i] + [candidate];
      var fate: Fate;
      fate, remaining := Judge(isSpace, budget, candidate, selected, fates, remaining);
      ApplyOne(isSpace, budget, candidates[..i], fates, selected, evicted, truncatedIds, candidate, fate);
      match fate {
        case Kept =>
          selected := selected + [candidate];
        case Cut(text) =>
          selected := selected + [candidate.(summary := text)];
          truncatedIds := truncatedIds + candidate.sourceIds;
        case Dropped =>
          evicted := evicted + [candidate];
      }
      fates := fates + [fate];
    }
    assert candidates[..|candidates|] == candidates;
  }

  /** One step of the loop: the decision, and the new counter. */
  method Judge(isSpace: char -> bool, budget: Budget, candidate: PlanEntry, selected: seq<PlanEntry>, ghost fates: seq<Fate>, remaining: int)
    returns (fate: Fate, left: int)
    requires CounterHolds(budget, remaining, selected, fates)
    ensures fate == Verdict(isSpace, budget, candidate, selected, fates)
    ensures CounterHolds(budget, left, selected + After(candidate, fate), fates + [fate])
  {
    left := remaining;
    AfterFate(budget, candidate, selected, fates, remaining);
    if |selected| >= budget.maxEntries {
      return Dropped, left;
    }
    if budget.maxChars == None || candidate.summary == "" {
      return Kept, left;
    }
    TextIsEmpty(selected);
    var separator := if exists e :: e in selected && e.summary != "" then 1 else 0;
    if remaining <= separator {
      return Dropped, left;
    }
    if separator + |candidate.summary| <= remaining {
      return Kept, remaining - separator - |candidate.summary|;
    }
    fate := Cut(TruncateToCharBudget(isSpace, candidate.summary, remaining - separator));
    left := 0;
  }

  lemma AfterFate(budget: Budget, c: PlanEntry, chosen: seq<PlanEntry>, fates: seq<Fate>, remaining: int)
    requires CounterHolds(budget, remaining, chosen, fates)
    ensures CounterHolds(budget, remaining, chosen + After(c, Dropped), fates + [Dropped])
    ensures budget.maxChars == None || c.summary == "" ==> CounterHolds(budget, remaining, chosen + After(c, Kept), fates + [Kept])
    ensures var separator := if ProjectionText(chosen) == "" then 0 else 1;
            budget.maxChars.Some? && c.summary != "" && separator + |c.summary| <= remaining && remaining > 0 ==>
              CounterHolds(budget, remaining - separator - |c.summary|, chosen + After(c, Kept), fates + [Kept])
    ensures forall text :: CounterHolds(budget, 0, chosen + After(c, Cut(text)), fates + [Cut(text)])
  {
    AnyCutSnoc(fates, Dropped);
    AnyCutSnoc(fates, Kept);
    TextGrows(chosen, c);
    assert chosen + [] == chosen;
    forall text ensures AnyCut(fates + [Cut(text)]) {
      AnyCutSnoc(fates, Cut(text));
    }
  }
}
