/** Lossless transcript chunking (harness_mem/transcript_chunking.py).

    A transcript is cut greedily, either after the last newline in reach or after the last complete
    logical unit in reach, and can be put together again from any permutation of its chunks. */
module TranscriptChunking {
  import opened Wrappers

  /** SHA-256 is modelled as an injective function of the text. */
  datatype Digest = Sha256(text: string)

  datatype Revision = Supplied(name: string) | ContentAddressed(digest: Digest)

  datatype Origin = Origin(sourceId: string, projectName: string, client: string, sessionId: string)

  datatype LogicalUnit = LogicalUnit(charStart: int, charEnd: int, unitId: string, kind: string)

  datatype Strategy = Newline | WholeUnits | HardLimit

  /** The uuid5 key of a chunk, again injective in everything that enters it. */
  datatype ChunkId = ChunkId(sourceId: string, revision: Revision, index: int, charStart: int, charEnd: int, digest: Digest)

  datatype Chunk = Chunk(
    id: ChunkId,
    origin: Origin,
    revision: Revision,
    index: int,
    charStart: int,
    charEnd: int,
    sequence: Option<(int, int)>,
    content: string,
    digest: Digest,
    startsOnBoundary: bool,
    endsOnBoundary: bool,
    strategy: Strategy,
    unitIds: seq<string>,
    unitKinds: seq<string>,
    startsWithContinuation: bool,
    endsWithContinuation: bool)

  datatype Error =
    | MaxCharsNotPositive
    | UnitsEmpty
    | UnitsNotContiguous
    | UnitOutsideTranscript
    | UnitIdInvalid
    | UnitKindEmpty
    | UnitsIncomplete
    | MixedRevisions
    | IndexGap
    | RangeGap
    | RangeContentMismatch
    | ChunkDigestMismatch
    | TranscriptDigestMismatch

  // ---------------------------------------------------------------- logical units

  /** Unit `i` is non-empty, starts where its predecessor ends, and is named like no earlier unit. */
  ghost predicate Continues(units: seq<LogicalUnit>, i: int)
    requires 0 <= i < |units|
  {
    && units[i].charStart == (if i == 0 then 0 else units[i - 1].charEnd)
    && units[i].charStart < units[i].charEnd
    && units[i].unitId != "" && units[i].kind != ""
    && forall k :: 0 <= k < i ==> units[k].unitId != units[i].unitId
  }

  /** The units cover [0, n) exactly and in order. */
  ghost predicate IsPartition(units: seq<LogicalUnit>, n: int) {
    && |units| > 0
    && units[|units| - 1].charEnd == n
    && forall i :: 0 <= i < |units| ==> Continues(units, i)
  }

  lemma {:induction false} UnitsAreOrdered(units: seq<LogicalUnit>, n: int, i: int, j: int)
    requires IsPartition(units, n)
    requires 0 <= i <= j < |units|
    ensures units[i].charStart < units[i].charEnd <= n
    ensures units[i].charStart <= units[j].charStart && units[i].charEnd <= units[j].charEnd
    ensures i < j ==> units[i].charEnd <= units[j].charStart
    decreases j - i
  {
    assert Continues(units, i) && Continues(units, j);
    if i < j {
      UnitsAreOrdered(units, n, i, j - 1);
    } else if j < |units| - 1 {
      OrderedUpToLast(units, n, j);
    }
  }

  lemma {:induction false} OrderedUpToLast(units: seq<LogicalUnit>, n: int, i: int)
    requires IsPartition(units, n) && 0 <= i < |units|
    ensures units[i].charEnd <= n
    decreases |units| - i
  {
    if i < |units| - 1 {
      OrderedUpToLast(units, n, i + 1);
      assert Continues(units, i + 1);
    }
  }

  /** What the validation of unit `i` complains about, given that the units before it passed. */
  function UnitProblem(units: seq<LogicalUnit>, n: int, i: int): Option<Error>
    requires 0 <= i < |units|
  {
    var unit := units[i];
    if unit.charStart != (if i == 0 then 0 else units[i - 1].charEnd) then Some(UnitsNotContiguous)
    else if unit.charEnd <= unit.charStart || unit.charEnd > n then Some(UnitOutsideTranscript)
    else if unit.unitId == "" || (exists k :: 0 <= k < i && units[k].unitId == unit.unitId) then Some(UnitIdInvalid)
    else if unit.kind == "" then Some(UnitKindEmpty)
    else None
  }

  /** The complaint of the first unit that has one; without any, whether the end was reached. */
  function UnitsProblem(units: seq<LogicalUnit>, n: int, i: int): Option<Error>
    requires 0 <= i <= |units|
    decreases |units| - i
  {
    if i == |units| then
      if |units| == 0 then Some(UnitsEmpty)
      else if units[i - 1].charEnd != n then Some(UnitsIncomplete)
      else None
    else if UnitProblem(units, n, i) != None then UnitProblem(units, n, i)
    else UnitsProblem(units, n, i + 1)
  }

  lemma {:induction false} NoProblemMeansNone(units: seq<LogicalUnit>, n: int, i: int)
    requires 0 <= i <= |units|
    ensures UnitsProblem(units, n, i) == None <==>
              && |units| > 0 && units[|units| - 1].charEnd == n
              && forall k :: i <= k < |units| ==> UnitProblem(units, n, k) == None
    decreases |units| - i
  {
    if i < |units| {
      NoProblemMeansNone(units, n, i + 1);
    }
  }

  /** Validation passes exactly on the contiguous partitions of the transcript. */
  lemma ValidationIsExact(units: seq<LogicalUnit>, n: nat)
    ensures UnitsProblem(units, n, 0) == None <==> IsPartition(units, n)
  {
    NoProblemMeansNone(units, n, 0);
    if IsPartition(units, n) {
      forall k | 0 <= k < |units| ensures UnitProblem(units, n, k) == None {
        assert Continues(units, k);
        OrderedUpToLast(units, n, k);
      }
    }
    if UnitsProblem(units, n, 0) == None {
      forall k | 0 <= k < |units| ensures Continues(units, k) {
        assert UnitProblem(units, n, k) == None;
      }
    }
  }

  ghost predicate FineBefore(units: seq<LogicalUnit>, n: int, i: int)
    requires 0 <= i <= |units|
  {
    forall k :: 0 <= k < i ==> Continues(units, k) && units[k].charEnd <= n
  }

  /** What is wrong with the unit at `i`, or, at the end, with the list. */
  ghost predicate Breaks(units: seq<LogicalUnit>, n: int, i: int, error: Error)
    requires 0 <= i <= |units|
  {
    var expected := if i == 0 then 0 else units[i - 1].charEnd;
    match error
    case UnitsEmpty => |units| == 0
    case UnitsIncomplete => i == |units| && i > 0 && expected != n
    case UnitsNotContiguous => i < |units| && units[i].charStart != expected
    case UnitOutsideTranscript => i < |units| && units[i].charStart == expected && !(units[i].charStart < units[i].charEnd <= n)
    case UnitIdInvalid =>
      && i < |units| && units[i].charStart == expected && units[i].charStart < units[i].charEnd <= n
      && (units[i].unitId == "" || exists k :: 0 <= k < i && units[k].unitId == units[i].unitId)
    case UnitKindEmpty =>
      && i < |units| && units[i].charStart == expected && units[i].charStart < units[i].charEnd <= n
      && units[i].unitId != "" && (forall k :: 0 <= k < i ==> units[k].unitId != units[i].unitId) && units[i].kind == ""
    case _ => false
  }

  lemma UnitComplaint(units: seq<LogicalUnit>, n: int, i: int)
    requires 0 <= i < |units|
    ensures UnitProblem(units, n, i).Some? ==> Breaks(units, n, i, UnitProblem(units, n, i).value)
    ensures UnitProblem(units, n, i) == None ==> Continues(units, i) && units[i].charEnd <= n
  {
  }

  lemma {:induction false} FirstComplaint(units: seq<LogicalUnit>, n: nat, from: int) returns (i: int)
    requires 0 <= from <= |units|
    ensures from <= i <= |units| && forall k :: from <= k < i ==> UnitProblem(units, n, k) == None
    ensures i < |units| ==> UnitProblem(units, n, i).Some? && UnitsProblem(units, n, from) == UnitProblem(units, n, i)
    ensures i == |units| ==> UnitsProblem(units, n, from) == UnitsProblem(units, n, |units|)
    decreases |units| - from
  {
    i := from;
    if from < |units| && UnitProblem(units, n, from) == None {
      i := FirstComplaint(units, n, from + 1);
    }
  }

  lemma EndComplaint(units: seq<LogicalUnit>, n: int)
    requires UnitsProblem(units, n, |units|).Some?
    ensures Breaks(units, n, |units|, UnitsProblem(units, n, |units|).value)
  {
  }

  /** A complaint is about the first unit that breaks a rule, and names the first rule that it breaks. */
  lemma ComplaintIsFirst(units: seq<LogicalUnit>, n: nat) returns (i: int)
    requires UnitsProblem(units, n, 0).Some?
    ensures 0 <= i <= |units| && FineBefore(units, n, i) && Breaks(units, n, i, UnitsProblem(units, n, 0).value)
  {
    i := FirstComplaint(units, n, 0);
    forall k | 0 <= k < i ensures Continues(units, k) && units[k].charEnd <= n {
      UnitComplaint(units, n, k);
    }
    if i < |units| {
      UnitComplaint(units, n, i);
    } else {
      EndComplaint(units, n);
    }
  }

  method ValidateLogicalUnits(n: nat, units: seq<LogicalUnit>) returns (error: Option<Error>)
    ensures error == UnitsProblem(units, n, 0)
    ensures error == None <==> IsPartition(units, n)
  {
    ValidationIsExact(units, n);
    if |units| == 0 {
      return Some(UnitsEmpty);
    }
    var expectedStart := 0;
    var seenIds: set<string> := {};
    var i := 0;
    while i < |units|
      invariant 0 <= i <= |units|
      invariant expectedStart == if i == 0 then 0 else units[i - 1].charEnd
      invariant forall id :: id in seenIds <==> exists k :: 0 <= k < i && units[k].unitId == id
      invariant UnitsProblem(units, n, 0) == UnitsProblem(units, n, i)
    {
      var unit := units[i];
      if unit.charStart != expectedStart {
        return Some(UnitsNotContiguous);
      }
      if unit.charEnd <= unit.charStart || unit.charEnd > n {
        return Some(UnitOutsideTranscript);
      }
      if unit.unitId == "" || unit.unitId in seenIds {
        return Some(UnitIdInvalid);
      }
      if unit.kind == "" {
        return Some(UnitKindEmpty);
      }
      seenIds := seenIds + {unit.unitId};
      expectedStart := unit.charEnd;
      i := i + 1;
    }
    if expectedStart != n {
      return Some(UnitsIncomplete);
    }
    return None;
  }

  // ---------------------------------------------------------------- one cut

  /** Everything that stays fixed while one transcript is cut. */
  datatype Job = Job(value: string, origin: Origin, revision: Revision, maxChars: int, units: Option<seq<LogicalUnit>>) {
    ghost predicate Valid() {
      && maxChars >= 1
      && (units.Some? && value != "" ==> IsPartition(units.value, |value|))
    }

    /** A position the loop can be in: inside (or at the start of) unit `unit`. */
    ghost predicate At(start: int, unit: int) {
      && 0 <= start <= |value|
      && (units.Some? && start < |value| ==>
            0 <= unit < |units.value| && units.value[unit].charStart <= start < units.value[unit].charEnd)
    }

    function HardEnd(start: int): int {
      if start + maxChars < |value| then start + maxChars else |value|
    }
  }

  /** str.rfind of a newline in value[lo..hi), as an absolute index; -1 when there is none. */
  function RFindNewline(value: string, lo: int, hi: int): (r: int)
    requires 0 <= lo && hi <= |value|
    ensures r == -1 || (lo <= r < hi && value[r] == '\n')
    ensures forall k :: lo <= k < hi && k > r ==> value[k] != '\n'
    decreases hi - lo
  {
    if hi <= lo then -1
    else if value[hi - 1] == '\n' then hi - 1
    else RFindNewline(value, lo, hi - 1)
  }

  /** The first unit at or after `unit` that does not end within `limit`. */
  function FirstIncomplete(units: seq<LogicalUnit>, unit: int, limit: int): (r: int)
    requires 0 <= unit <= |units|
    ensures unit <= r <= |units|
    ensures forall k :: unit <= k < r ==> units[k].charEnd <= limit
    ensures r < |units| ==> units[r].charEnd > limit
    decreases |units| - unit
  {
    if unit < |units| && units[unit].charEnd <= limit then FirstIncomplete(units, unit + 1, limit) else unit
  }

  /** Where the chunk that starts at `start` ends. The result is always past `start`, so the guard
      against an empty cut at the end of the source's loop body never fires. */
  function CutEnd(job: Job, start: int, unit: int): (end: int)
    requires job.Valid() && job.At(start, unit) && start < |job.value|
    ensures start < end <= |job.value|
  {
    var hardEnd := job.HardEnd(start);
    match job.units
    case Some(units) =>
      var stop := FirstIncomplete(units, unit, hardEnd);
      if stop > unit then
        UnitsAreOrdered(units, |job.value|, unit, stop - 1);
        units[stop - 1].charEnd
      else hardEnd
    case None =>
      if hardEnd == |job.value| then hardEnd
      else
        var boundary := RFindNewline(job.value, start + 1, hardEnd + 1);
        if boundary >= start then boundary + 1 else hardEnd
  }

  /** The unit in which the next chunk starts. */
  function NextUnit(job: Job, start: int, unit: int): (next: int)
    requires job.Valid() && job.At(start, unit) && start < |job.value|
    ensures job.At(CutEnd(job, start, unit), next)
  {
    match job.units
    case Some(units) =>
      var stop := FirstIncomplete(units, unit, job.HardEnd(start));
      if stop > unit && stop < |units| then
        assert Continues(units, stop);
        stop
      else
        OrderedUpToLast(units, |job.value|, unit);
        stop
    case None => unit
  }

  // ---------------------------------------------------------------- the chunks

  function UnitIds(units: seq<LogicalUnit>): seq<string> {
    seq(|units|, i requires 0 <= i < |units| => units[i].unitId)
  }

  function UnitKinds(units: seq<LogicalUnit>): seq<string> {
    seq(|units|, i requires 0 <= i < |units| => units[i].kind)
  }

  predicate LineStart(value: string, i: int)
    requires 0 <= i <= |value|
  {
    i == 0 || value[i - 1] == '\n'
  }

  predicate LineEnd(value: string, i: int)
    requires 0 < i <= |value|
  {
    i == |value| || value[i - 1] == '\n'
  }

  /** A chunk over value[start..end); `units` is the half-open range of logical units it touches. */
  function MakeChunk(job: Job, index: int, start: int, end: int, touched: Option<(int, int)>, starts: bool, ends: bool, strategy: Strategy): Chunk
    requires 0 <= start <= end <= |job.value|
    requires touched.Some? ==> job.units.Some? && 0 <= touched.value.0 <= touched.value.1 <= |job.units.value|
  {
    var content := job.value[start..end];
    var id := ChunkId(job.origin.sourceId, job.revision, index, start, end, Sha256(content));
    var inside := if touched.Some? then job.units.value[touched.value.0..touched.value.1] else [];
    Chunk(id, job.origin, job.revision, index, start, end, touched, content, Sha256(content), starts, ends, strategy,
          UnitIds(inside), UnitKinds(inside), touched.Some? && !starts, touched.Some? && !ends)
  }

  /** The chunk that the loop emits at one position. */
  function ChunkAt(job: Job, index: int, start: int, unit: int): (chunk: Chunk)
    requires job.Valid() && job.At(start, unit) && start < |job.value|
    ensures chunk.charEnd == CutEnd(job, start, unit)
  {
    var end := CutEnd(job, start, unit);
    var hardEnd := job.HardEnd(start);
    match job.units
    case Some(units) =>
      var stop := FirstIncomplete(units, unit, hardEnd);
      var last := if stop > unit then stop - 1 else unit;
      MakeChunk(job, index, start, end, Some((unit, last + 1)), start == units[unit].charStart,
                end == units[last].charEnd, if stop > unit then WholeUnits else HardLimit)
    case None =>
      var strategy := if hardEnd == |job.value| || RFindNewline(job.value, start + 1, hardEnd + 1) >= start
                      then Newline else HardLimit;
      MakeChunk(job, index, start, end, None, LineStart(job.value, start), LineEnd(job.value, end), strategy)
  }

  /** All chunks from one position of the loop on. */
  function ChunksFrom(job: Job, index: int, start: int, unit: int): (chunks: seq<Chunk>)
    requires job.Valid() && job.At(start, unit)
    ensures start == |job.value| <==> chunks == []
    decreases |job.value| - start
  {
    if start == |job.value| then []
    else [ChunkAt(job, index, start, unit)]
         + ChunksFrom(job, index + 1, CutEnd(job, start, unit), NextUnit(job, start, unit))
  }

  lemma ChunksStep(job: Job, done: seq<Chunk>, index: int, start: int, unit: int)
    requires job.Valid() && job.At(start, unit) && start < |job.value|
    ensures done + ChunksFrom(job, index, start, unit)
         == (done + [ChunkAt(job, index, start, unit)])
            + ChunksFrom(job, index + 1, CutEnd(job, start, unit), NextUnit(job, start, unit))
  {
  }

  function MakeJob(value: string, origin: Origin, sourceRevision: string, maxChars: int, units: Option<seq<LogicalUnit>>): Job {
    Job(value, origin, if sourceRevision != "" then Supplied(sourceRevision) else ContentAddressed(Sha256(value)), maxChars, units)
  }

  method ChunkTranscriptText(value: string, origin: Origin, sourceRevision: string, maxChars: int, logicalUnits: Option<seq<LogicalUnit>>)
    returns (r: Result<seq<Chunk>, Error>)
    ensures maxChars < 1 ==> r == Failure(MaxCharsNotPositive)
    ensures maxChars >= 1 && value == "" ==> r == Success([])
    ensures maxChars >= 1 && value != "" ==>
              var job := MakeJob(value, origin, sourceRevision, maxChars, logicalUnits);
              if logicalUnits.Some? && !IsPartition(logicalUnits.value, |value|) then
                r.Failure? && Some(r.error) == UnitsProblem(logicalUnits.value, |value|, 0)
              else job.Valid() && job.At(0, 0) && r == Success(ChunksFrom(job, 0, 0, 0))
    // Without a revision of its own a transcript is named after its content.
    ensures r.Success? ==> forall c :: c in r.value ==>
              c.origin == origin && c.revision == if sourceRevision == "" then ContentAddressed(Sha256(value)) else Supplied(sourceRevision)
  {
    if maxChars < 1 {
      return Failure(MaxCharsNotPositive);
    }
    if value == "" {
      return Success([]);
    }
    if logicalUnits.Some? {
      var error := ValidateLogicalUnits(|value|, logicalUnits.value);
      if error.Some? {
        return Failure(error.value);
      }
    }
    var chunks := CutAll(MakeJob(value, origin, sourceRevision, maxChars, logicalUnits));
    ghost var job := MakeJob(value, origin, sourceRevision, maxChars, logicalUnits);
    ChunksTile(job, 0, 0, 0);
    forall c | c in chunks ensures c.origin == origin && c.revision == job.revision {
      var k :| 0 <= k < |chunks| && chunks[k] == c;
      assert SliceOf(job, chunks, 0, 0, k);
    }
    return Success(chunks);
  }

  /** The chunking loop. */
  method CutAll(job: Job) returns (chunks: seq<Chunk>)
    requires job.Valid() && job.At(0, 0)
    ensures chunks == ChunksFrom(job, 0, 0, 0)
  {
    chunks := [];
    var start, index, logicalIndex := 0, 0, 0;
    while start < |job.value|
      invariant job.At(start, logicalIndex)
      invariant job.units.None? ==> logicalIndex == 0
      invariant ChunksFrom(job, 0, 0, 0) == chunks + ChunksFrom(job, index, start, logicalIndex)
      decreases |job.value| - start
    {
      ChunksStep(job, chunks, index, start, logicalIndex);
      var chunk;
      if job.units.Some? {
        chunk, logicalIndex := CutAtUnits(job, index, start, logicalIndex);
      } else {
        chunk := CutAtNewline(job, index, start);
      }
      chunks := chunks + [chunk];
      start := chunk.charEnd;
      index := index + 1;
    }
  }

  lemma ChunkOfUnits(job: Job, index: int, start: int, first: int, stop: int)
    requires job.Valid() && job.At(start, first) && start < |job.value| && job.units.Some?
    requires stop == FirstIncomplete(job.units.value, first, job.HardEnd(start))
    ensures var units := job.units.value;
            var last := if stop > first then stop - 1 else first;
            var end := if stop > first then units[last].charEnd else job.HardEnd(start);
            && 0 <= start <= end <= |job.value| && 0 <= first <= last < |units|
            && ChunkAt(job, index, start, first) ==
                 MakeChunk(job, index, start, end, Some((first, last + 1)), start == units[first].charStart, end == units[last].charEnd,
                           if stop > first then WholeUnits else HardLimit)
  {
    var units := job.units.value;
    if stop > first {
      UnitsAreOrdered(units, |job.value|, first, stop - 1);
    }
    assert start < CutEnd(job, start, first) <= |job.value|;
  }

  method ScanUnits(units: seq<LogicalUnit>, first: int, hardEnd: int) returns (scan: int)
    requires 0 <= first <= |units|
    ensures scan == FirstIncomplete(units, first, hardEnd)
  {
    scan := first;
    while scan < |units| && units[scan].charEnd <= hardEnd
      invariant first <= scan <= |units|
      invariant FirstIncomplete(units, first, hardEnd) == FirstIncomplete(units, scan, hardEnd)
    {
      scan := scan + 1;
    }
  }

  /** The body of the chunking loop when logical units are given. */
  method CutAtUnits(job: Job, index: int, start: int, first: int) returns (chunk: Chunk, next: int)
    requires job.Valid() && job.At(start, first) && start < |job.value|
    requires job.units.Some?
    ensures chunk == ChunkAt(job, index, start, first)
    ensures next == NextUnit(job, start, first)
  {
    var units := job.units.value;
    var hardEnd := job.HardEnd(start);
    var end := hardEnd;
    var strategy := HardLimit;
    var starts := start == units[first].charStart;
    var scan := ScanUnits(units, first, hardEnd);
    var last := first;
    if scan > first {
      last := scan - 1;
      UnitsAreOrdered(units, |job.value|, first, last);
      end := units[last].charEnd;
      strategy := WholeUnits;
    }
    var ends := end == units[last].charEnd;
    next := if ends then last + 1 else last;
    ChunkOfUnits(job, index, start, first, scan);
    chunk := MakeChunk(job, index, start, end, Some((first, last + 1)), starts, ends, strategy);
  }

  /** The body of the chunking loop without logical units. */
  method CutAtNewline(job: Job, index: int, start: int) returns (chunk: Chunk)
    requires job.Valid() && 0 <= start < |job.value|
    requires job.units.None?
    ensures chunk == ChunkAt(job, index, start, 0)
  {
    var value := job.value;
    var hardEnd := job.HardEnd(start);
    var end := hardEnd;
    var strategy := HardLimit;
    if hardEnd < |value| {
      var boundary := RFindNewline(value, start + 1, hardEnd + 1);
      if boundary >= start {
        end := boundary + 1;
        strategy := Newline;
      }
    } else {
      strategy := Newline;
    }
    chunk := MakeChunk(job, index, start, end, None, LineStart(value, start), LineEnd(value, end), strategy);
  }

  // ---------------------------------------------------------------- the chunks tile the transcript

  /** Chunk `i` of `chunks` is the exact slice of the transcript that follows its predecessor. */
  ghost predicate SliceOf(job: Job, chunks: seq<Chunk>, index: int, start: int, i: int)
    requires 0 <= i < |chunks|
  {
    var chunk := chunks[i];
    && chunk.index == index + i
    && chunk.origin == job.origin && chunk.revision == job.revision
    && chunk.charStart == (if i == 0 then start else chunks[i - 1].charEnd)
    && 0 <= chunk.charStart < chunk.charEnd <= |job.value|
    && chunk.content == job.value[chunk.charStart..chunk.charEnd]
    && chunk.digest == Sha256(chunk.content)
    && chunk.id == ChunkId(job.origin.sourceId, job.revision, chunk.index, chunk.charStart, chunk.charEnd, chunk.digest)
  }

  lemma {:induction false} ChunksTile(job: Job, index: int, start: int, unit: int)
    requires job.Valid() && job.At(start, unit)
    ensures var chunks := ChunksFrom(job, index, start, unit);
            && (forall i :: 0 <= i < |chunks| ==> SliceOf(job, chunks, index, start, i))
            && (chunks != [] ==> chunks[|chunks| - 1].charEnd == |job.value|)
    decreases |job.value| - start
  {
    if start < |job.value| {
      var chunks := ChunksFrom(job, index, start, unit);
      var end, next := CutEnd(job, start, unit), NextUnit(job, start, unit);
      var rest := ChunksFrom(job, index + 1, end, next);
      ChunksTile(job, index + 1, end, next);
      assert chunks[0] == ChunkAt(job, index, start, unit);
      assert chunks[1..] == rest;
      forall i | 0 <= i < |chunks| ensures SliceOf(job, chunks, index, start, i) {
        if i > 0 {
          assert SliceOf(job, rest, index + 1, end, i - 1);
          assert chunks[i] == rest[i - 1];
        }
      }
    }
  }

  // ---------------------------------------------------------------- sizes

  /** In newline mode a chunk may exceed the limit, by exactly one character and only when the
      character just past the limit is a newline; with logical units the limit is kept. */
  lemma {:induction false} ChunkSizes(job: Job, index: int, start: int, unit: int)
    requires job.Valid() && job.At(start, unit)
    ensures forall c :: c in ChunksFrom(job, index, start, unit) ==>
              && 0 <= c.charStart < c.charEnd <= |job.value|
              && c.charEnd - c.charStart <= job.maxChars + 1
              && (c.charEnd - c.charStart > job.maxChars <==>
                    && job.units.None?
                    && c.charStart + job.maxChars < |job.value|
                    && job.value[c.charStart + job.maxChars] == '\n')
    decreases |job.value| - start
  {
    if start < |job.value| {
      ChunkSizes(job, index + 1, CutEnd(job, start, unit), NextUnit(job, start, unit));
    }
  }

  // ---------------------------------------------------------------- where the cuts are

  predicate HasNewline(value: string, lo: int, hi: int)
    requires 0 <= lo && hi <= |value|
  {
    exists k :: lo <= k < hi && value[k] == '\n'
  }

  /** Without logical units: all that is left if it fits; else through the last newline behind the first
      character and no further than just past the limit; else as much as the limit allows. */
  ghost predicate IsNewlineCut(value: string, maxChars: int, c: Chunk) {
    var limit := c.charStart + maxChars;
    && 0 <= c.charStart < c.charEnd <= |value|
    && (if limit >= |value| then c.charEnd == |value| && c.strategy == Newline
        else if HasNewline(value, c.charStart + 1, limit + 1) then
          && c.charStart + 1 < c.charEnd <= limit + 1 && value[c.charEnd - 1] == '\n'
          && !HasNewline(value, c.charEnd, limit + 1) && c.strategy == Newline
        else c.charEnd == limit && c.strategy == HardLimit)
    && (c.startsOnBoundary <==> c.charStart == 0 || value[c.charStart - 1] == '\n')
    && (c.endsOnBoundary <==> c.charEnd == |value| || value[c.charEnd - 1] == '\n')
  }

  lemma {:induction false} NewlineCuts(job: Job, index: int, start: int, unit: int)
    requires job.Valid() && job.At(start, unit) && job.units.None?
    ensures forall c :: c in ChunksFrom(job, index, start, unit) ==> IsNewlineCut(job.value, job.maxChars, c)
    decreases |job.value| - start
  {
    if start < |job.value| {
      NewlineCuts(job, index + 1, CutEnd(job, start, unit), NextUnit(job, start, unit));
    }
  }

  ghost predicate EndsIn(units: seq<LogicalUnit>, lo: int, hi: int) {
    exists k :: 0 <= k < |units| && lo < units[k].charEnd <= hi
  }

  /** With logical units: up to the last end of a unit within the limit; else as much as it allows. */
  ghost predicate IsUnitCut(value: string, units: seq<LogicalUnit>, maxChars: int, c: Chunk) {
    var limit := if c.charStart + maxChars < |value| then c.charStart + maxChars else |value|;
    && c.charStart < c.charEnd
    && (if EndsIn(units, c.charStart, limit) then
          && c.charEnd <= limit && (exists k :: 0 <= k < |units| && units[k].charEnd == c.charEnd)
          && !EndsIn(units, c.charEnd, limit) && c.strategy == WholeUnits
        else c.charEnd == limit && c.strategy == HardLimit)
    && (c.startsOnBoundary <==> exists k :: 0 <= k < |units| && units[k].charStart == c.charStart)
    && (c.endsOnBoundary <==> exists k :: 0 <= k < |units| && units[k].charEnd == c.charEnd)
  }

  lemma UnitCutHere(job: Job, index: int, start: int, unit: int)
    requires job.Valid() && job.At(start, unit) && start < |job.value| && job.units.Some?
    ensures IsUnitCut(job.value, job.units.value, job.maxChars, ChunkAt(job, index, start, unit))
  {
    var units, n := job.units.value, |job.value|;
    var c := ChunkAt(job, index, start, unit);
    var stop := FirstIncomplete(units, unit, job.HardEnd(start));
    forall k | 0 <= k < |units|
      ensures k < unit ==> units[k].charEnd <= units[unit].charStart && units[k].charStart < units[unit].charStart
      ensures k >= unit ==> units[k].charStart >= units[unit].charStart && units[k].charEnd >= units[unit].charEnd
      ensures k > unit ==> units[k].charStart >= units[unit].charEnd
      ensures k >= stop && stop < |units| ==> units[k].charEnd >= units[stop].charEnd
      ensures unit <= k < stop ==> units[k].charEnd <= units[stop - 1].charEnd
    {
      UnitsAreOrdered(units, n, k, k);
      UnitsAreOrdered(units, n, if k < unit then k else unit, if k < unit then unit else k);
      if stop <= k {
        UnitsAreOrdered(units, n, stop, k);
      } else if unit <= k {
        UnitsAreOrdered(units, n, k, stop - 1);
      }
    }
  }

  lemma {:induction false} UnitCuts(job: Job, index: int, start: int, unit: int)
    requires job.Valid() && job.At(start, unit) && job.units.Some?
    ensures forall c :: c in ChunksFrom(job, index, start, unit) ==> IsUnitCut(job.value, job.units.value, job.maxChars, c)
    decreases |job.value| - start
  {
    if start < |job.value| {
      UnitCutHere(job, index, start, unit);
      UnitCuts(job, index + 1, CutEnd(job, start, unit), NextUnit(job, start, unit));
    }
  }

  // ---------------------------------------------------------------- logical units

  /** The units a chunk names are exactly the units it overlaps, and its continuation flags tell
      exactly whether it starts or ends strictly inside one of them. */
  ghost predicate NamesItsUnits(units: seq<LogicalUnit>, c: Chunk) {
    && c.sequence.Some?
    && 0 <= c.sequence.value.0 < c.sequence.value.1 <= |units|
    && (forall k :: 0 <= k < |units| ==>
          (c.sequence.value.0 <= k < c.sequence.value.1 <==>
             units[k].charStart < c.charEnd && c.charStart < units[k].charEnd))
    && c.unitIds == UnitIds(units[c.sequence.value.0..c.sequence.value.1])
    && c.unitKinds == UnitKinds(units[c.sequence.value.0..c.sequence.value.1])
    && (c.startsWithContinuation <==> exists k :: 0 <= k < |units| && units[k].charStart < c.charStart < units[k].charEnd)
    && (c.endsWithContinuation <==> exists k :: 0 <= k < |units| && units[k].charStart < c.charEnd < units[k].charEnd)
  }

  lemma NamesItsUnitsHere(job: Job, index: int, start: int, unit: int)
    requires job.Valid() && job.At(start, unit) && start < |job.value| && job.units.Some?
    ensures NamesItsUnits(job.units.value, ChunkAt(job, index, start, unit))
  {
    var units, n := job.units.value, |job.value|;
    var c := ChunkAt(job, index, start, unit);
    var last := c.sequence.value.1 - 1;
    UnitsAreOrdered(units, n, unit, last);
    forall k | 0 <= k < |units|
      ensures k < unit ==> units[k].charEnd <= units[unit].charStart
      ensures unit <= k <= last ==> units[unit].charEnd <= units[k].charEnd <= units[last].charEnd
      ensures unit <= k <= last ==> units[k].charStart < c.charEnd
      ensures k > last ==> units[last].charEnd <= units[k].charStart
      ensures k > unit ==> units[unit].charEnd <= units[k].charStart
    {
      UnitsAreOrdered(units, n, k, k);
      if k < unit {
        UnitsAreOrdered(units, n, k, unit);
      } else if k <= last {
        UnitsAreOrdered(units, n, unit, k);
        UnitsAreOrdered(units, n, k, last);
      } else {
        UnitsAreOrdered(units, n, last, k);
        UnitsAreOrdered(units, n, unit, k);
      }
    }
    assert c.startsWithContinuation <==> units[unit].charStart < start < units[unit].charEnd;
    assert c.endsWithContinuation <==> units[last].charStart < c.charEnd < units[last].charEnd;
  }

  lemma {:induction false} ChunksNameTheirUnits(job: Job, index: int, start: int, unit: int)
    requires job.Valid() && job.At(start, unit) && job.units.Some?
    ensures forall c :: c in ChunksFrom(job, index, start, unit) ==> NamesItsUnits(job.units.value, c)
    decreases |job.value| - start
  {
    if start < |job.value| {
      NamesItsUnitsHere(job, index, start, unit);
      ChunksNameTheirUnits(job, index + 1, CutEnd(job, start, unit), NextUnit(job, start, unit));
    }
  }

  /** A cut strictly inside a unit happens only when that unit alone exceeds the limit. */
  lemma {:induction false} CutsOnlyOversizedUnits(job: Job, index: int, start: int, unit: int, k: int)
    requires job.Valid() && job.At(start, unit) && job.units.Some?
    requires 0 <= k < |job.units.value|
    ensures forall c :: c in ChunksFrom(job, index, start, unit)
                        && job.units.value[k].charStart < c.charEnd < job.units.value[k].charEnd ==>
              job.units.value[k].charEnd - job.units.value[k].charStart > job.maxChars
    decreases |job.value| - start
  {
    if start < |job.value| {
      CutsOnlyOversizedUnits(job, index + 1, CutEnd(job, start, unit), NextUnit(job, start, unit), k);
      var units, n, end := job.units.value, |job.value|, CutEnd(job, start, unit);
      UnitsAreOrdered(units, n, k, k);
      if units[k].charStart < end < units[k].charEnd {
        var stop := FirstIncomplete(units, unit, job.HardEnd(start));
        if stop > unit {
          assert end == units[stop - 1].charEnd;
          UnitsAreOrdered(units, n, if k < stop then k else stop - 1, if k < stop then stop - 1 else k);
          assert false;
        } else if k < unit {
          UnitsAreOrdered(units, n, k, unit);
          assert false;
        } else if k > unit {
          UnitsAreOrdered(units, n, unit, k);
          assert false;
        }
      }
    }
  }

  /** Every unit that fits the limit lies wholly in one chunk. */
  lemma FittingUnitsStayWhole(job: Job, k: int)
    requires job.Valid() && job.At(0, 0) && job.units.Some? && job.value != ""
    requires 0 <= k < |job.units.value|
    requires job.units.value[k].charEnd - job.units.value[k].charStart <= job.maxChars
    ensures exists c :: c in ChunksFrom(job, 0, 0, 0)
                        && c.charStart <= job.units.value[k].charStart && job.units.value[k].charEnd <= c.charEnd
  {
    var units := job.units.value;
    var chunks := ChunksFrom(job, 0, 0, 0);
    ChunksTile(job, 0, 0, 0);
    CutsOnlyOversizedUnits(job, 0, 0, 0, k);
    UnitsAreOrdered(units, |job.value|, k, k);
    UnitsAreOrdered(units, |job.value|, 0, k);
    assert Continues(units, 0);
    var i := 0;
    while chunks[i].charEnd <= units[k].charStart
      invariant 0 <= i < |chunks|
      invariant chunks[i].charStart <= units[k].charStart
      decreases |chunks| - i
    {
      assert i + 1 < |chunks| ==> SliceOf(job, chunks, 0, 0, i + 1);
      i := i + 1;
    }
    assert chunks[i] in chunks;
  }

  // ---------------------------------------------------------------- the greedy choice is optimal

  /** `cuts` divides units[from..] into consecutive groups, each within the limit: group i ends
      before unit cuts[i]. */
  ghost predicate Grouping(units: seq<LogicalUnit>, maxChars: int, from: int, cuts: seq<int>)
    requires 0 <= from <= |units|
    decreases |cuts|
  {
    if cuts == [] then from == |units|
    else
      && from < cuts[0] <= |units|
      && units[cuts[0] - 1].charEnd - units[from].charStart <= maxChars
      && Grouping(units, maxChars, cuts[0], cuts[1..])
  }

  ghost predicate AllUnitsFit(job: Job) {
    job.units.Some? && forall k :: 0 <= k < |job.units.value| ==>
      job.units.value[k].charEnd - job.units.value[k].charStart <= job.maxChars
  }

  /** The start of unit `k`, or the end of the transcript. */
  function UnitStart(job: Job, k: int): int
    requires job.units.Some? && 0 <= k <= |job.units.value|
  {
    if k == |job.units.value| then |job.value| else job.units.value[k].charStart
  }

  lemma AtUnitStart(job: Job, k: int)
    requires job.Valid() && job.value != "" && job.units.Some? && 0 <= k <= |job.units.value|
    ensures job.At(UnitStart(job, k), k)
    ensures k < |job.units.value| <==> UnitStart(job, k) < |job.value|
  {
    if k < |job.units.value| {
      assert Continues(job.units.value, 0);
      UnitsAreOrdered(job.units.value, |job.value|, 0, k);
      UnitsAreOrdered(job.units.value, |job.value|, k, k);
    }
  }

  /** From a unit boundary, with only fitting units, the cut is at a unit boundary again. */
  lemma CutAtBoundary(job: Job, k: int)
    requires job.Valid() && job.value != "" && AllUnitsFit(job) && 0 <= k < |job.units.value|
    ensures job.At(UnitStart(job, k), k) && UnitStart(job, k) < |job.value|
    ensures var next := NextUnit(job, UnitStart(job, k), k);
            && k < next <= |job.units.value|
            && CutEnd(job, UnitStart(job, k), k) == UnitStart(job, next)
            && job.units.value[next - 1].charEnd == UnitStart(job, next)
            && UnitStart(job, next) - UnitStart(job, k) <= job.maxChars
            && (next < |job.units.value| ==> job.units.value[next].charEnd - UnitStart(job, k) > job.maxChars)
  {
    var units := job.units.value;
    AtUnitStart(job, k);
    UnitsAreOrdered(units, |job.value|, k, k);
    var next := NextUnit(job, UnitStart(job, k), k);
    UnitsAreOrdered(units, |job.value|, next - 1, next - 1);
    if next < |units| {
      assert Continues(units, next);
      UnitsAreOrdered(units, |job.value|, next, next);
    }
  }

  /** The chunks themselves are a grouping: they cut at unit boundaries, within the limit. */
  lemma {:induction false} GreedyGrouping(job: Job, index: int, k: int) returns (cuts: seq<int>)
    requires job.Valid() && job.value != "" && AllUnitsFit(job) && 0 <= k <= |job.units.value|
    ensures job.At(UnitStart(job, k), k)
    ensures Grouping(job.units.value, job.maxChars, k, cuts)
    ensures var chunks := ChunksFrom(job, index, UnitStart(job, k), k);
            && |cuts| == |chunks|
            && forall i :: 0 <= i < |cuts| ==> 0 <= cuts[i] <= |job.units.value| && chunks[i].charEnd == UnitStart(job, cuts[i])
    decreases |job.units.value| - k
  {
    AtUnitStart(job, k);
    if k == |job.units.value| {
      cuts := [];
    } else {
      CutAtBoundary(job, k);
      var next := NextUnit(job, UnitStart(job, k), k);
      var rest := GreedyGrouping(job, index + 1, next);
      cuts := [next] + rest;
      assert cuts[1..] == rest;
    }
  }

  /** Greedy stays ahead: starting no earlier than a grouping does, it needs no more groups. */
  lemma {:induction false} GreedyStaysAhead(job: Job, index: int, k: int, from: int, cuts: seq<int>)
    requires job.Valid() && job.value != "" && AllUnitsFit(job)
    requires 0 <= from <= k <= |job.units.value|
    requires Grouping(job.units.value, job.maxChars, from, cuts)
    ensures job.At(UnitStart(job, k), k)
    ensures |ChunksFrom(job, index, UnitStart(job, k), k)| <= |cuts|
    decreases |cuts|
  {
    var units := job.units.value;
    AtUnitStart(job, k);
    if k < |units| {
      if cuts[0] <= k {
        GreedyStaysAhead(job, index, k, cuts[0], cuts[1..]);
      } else {
        CutAtBoundary(job, k);
        var next := NextUnit(job, UnitStart(job, k), k);
        if next < cuts[0] {
          UnitsAreOrdered(units, |job.value|, next, cuts[0] - 1);
          UnitsAreOrdered(units, |job.value|, from, k);
          assert false;
        }
        GreedyStaysAhead(job, index + 1, next, cuts[0], cuts[1..]);
      }
    }
  }

  /** When every unit fits, the number of chunks is the minimum over all groupings of whole units. */
  lemma GreedyIsOptimal(job: Job)
    requires job.Valid() && job.value != "" && job.At(0, 0) && AllUnitsFit(job)
    ensures exists cuts :: Grouping(job.units.value, job.maxChars, 0, cuts) && |cuts| == |ChunksFrom(job, 0, 0, 0)|
    ensures forall cuts :: Grouping(job.units.value, job.maxChars, 0, cuts) ==> |ChunksFrom(job, 0, 0, 0)| <= |cuts|
  {
    assert Continues(job.units.value, 0);
    var best := GreedyGrouping(job, 0, 0);
    forall cuts | Grouping(job.units.value, job.maxChars, 0, cuts)
      ensures |ChunksFrom(job, 0, 0, 0)| <= |cuts|
    {
      GreedyStaysAhead(job, 0, 0, 0, cuts);
    }
  }

  // ---------------------------------------------------------------- append stability

  /** `longer` continues the transcript (and the unit list) of `job`. */
  ghost predicate Extends(job: Job, longer: Job) {
    && job.value <= longer.value
    && job.maxChars == longer.maxChars
    && job.units.Some? == longer.units.Some?
    && (job.units.Some? ==> job.units.value <= longer.units.value)
  }

  lemma {:induction false} SameNewline(value: string, longer: string, lo: int, hi: int)
    requires 0 <= lo && hi <= |value| && value <= longer
    ensures RFindNewline(value, lo, hi) == RFindNewline(longer, lo, hi)
    decreases hi - lo
  {
    if lo < hi && value[hi - 1] != '\n' {
      SameNewline(value, longer, lo, hi - 1);
    }
  }

  lemma {:induction false} SameIncomplete(units: seq<LogicalUnit>, longer: seq<LogicalUnit>, unit: int, limit: int)
    requires 0 <= unit <= |units| && units <= longer
    requires FirstIncomplete(units, unit, limit) < |units|
    ensures FirstIncomplete(units, unit, limit) == FirstIncomplete(longer, unit, limit)
    decreases |units| - unit
  {
    if unit < |units| && units[unit].charEnd <= limit {
      SameIncomplete(units, longer, unit + 1, limit);
    }
  }

  /** A cut before the end of the transcript does not depend on what follows the transcript. */
  lemma SameCut(job: Job, longer: Job, start: int, unit: int)
    requires job.Valid() && longer.Valid() && Extends(job, longer)
    requires job.At(start, unit) && start < |job.value|
    requires CutEnd(job, start, unit) < |job.value|
    ensures longer.At(start, unit)
    ensures CutEnd(longer, start, unit) == CutEnd(job, start, unit)
    ensures NextUnit(longer, start, unit) == NextUnit(job, start, unit)
  {
    var hardEnd := job.HardEnd(start);
    if job.units.Some? {
      var units, n := job.units.value, |job.value|;
      if hardEnd == n {
        forall k | 0 <= k < |units| ensures units[k].charEnd <= n {
          OrderedUpToLast(units, n, k);
        }
        assert false;
      }
      if FirstIncomplete(units, unit, hardEnd) == |units| {
        assert false;
      }
      SameIncomplete(units, longer.units.value, unit, hardEnd);
    } else {
      SameNewline(job.value, longer.value, start + 1, hardEnd + 1);
    }
  }

  lemma SameChunk(job: Job, longer: Job, index: int, start: int, unit: int)
    requires job.Valid() && longer.Valid() && Extends(job, longer)
    requires job.At(start, unit) && longer.At(start, unit) && start < |job.value|
    requires CutEnd(longer, start, unit) == CutEnd(job, start, unit)
    ensures SameRange(ChunkAt(job, index, start, unit), ChunkAt(longer, index, start, unit))
  {
    var end := CutEnd(job, start, unit);
    assert job.value[start..end] == longer.value[start..end];
  }

  ghost predicate SameRange(a: Chunk, b: Chunk) {
    a.index == b.index && a.charStart == b.charStart && a.charEnd == b.charEnd && a.content == b.content
  }

  ghost predicate SameButLast(before: seq<Chunk>, after: seq<Chunk>) {
    |before| <= |after| && forall i :: 0 <= i < |before| - 1 ==> SameRange(before[i], after[i])
  }

  lemma SameOneMore(c: Chunk, d: Chunk, before: seq<Chunk>, after: seq<Chunk>)
    requires SameRange(c, d) && SameButLast(before, after)
    ensures SameButLast([c] + before, [d] + after)
  {
  }

  /** Extending a transcript leaves the range and content of every chunk but the last unchanged. */
  lemma {:induction false} AppendStable(job: Job, longer: Job, index: int, start: int, unit: int)
    requires job.Valid() && longer.Valid() && Extends(job, longer)
    requires job.At(start, unit) && longer.At(start, unit)
    ensures SameButLast(ChunksFrom(job, index, start, unit), ChunksFrom(longer, index, start, unit))
    decreases |job.value| - start
  {
    if start < |job.value| {
      var end, next := CutEnd(job, start, unit), NextUnit(job, start, unit);
      if end < |job.value| {
        SameCut(job, longer, start, unit);
        AppendStable(job, longer, index + 1, end, next);
        SameChunk(job, longer, index, start, unit);
        SameOneMore(ChunkAt(job, index, start, unit), ChunkAt(longer, index, start, unit),
                    ChunksFrom(job, index + 1, end, next), ChunksFrom(longer, index + 1, end, next));
      } else {
        assert ChunksFrom(job, index + 1, end, next) == [];
      }
    }
  }
}
