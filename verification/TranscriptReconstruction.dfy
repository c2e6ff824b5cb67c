/** Reassembling a transcript from its chunks (harness_mem/transcript_chunking.py). */
module TranscriptReconstruction {
  import opened Wrappers
  import opened StableSort
  import opened TranscriptChunking

  // ---------------------------------------------------------------- ordering by index

  const ByIndex: (Chunk, Chunk) -> bool := (a: Chunk, b: Chunk) => a.index <= b.index

  function Sorted(chunks: seq<Chunk>): (r: seq<Chunk>)
    ensures |r| == |chunks|
  {
    SortKeeps(ByIndex, chunks);
    Sort(ByIndex, chunks)
  }

  // ---------------------------------------------------------------- the loop

  /** What the loop complains about at chunk `i` of the ordered chunks. */
  function ChunkProblem(ordered: seq<Chunk>, i: int): Option<Error>
    requires 0 <= i < |ordered|
  {
    var chunk := ordered[i];
    if chunk.origin.sourceId != ordered[0].origin.sourceId || chunk.revision != ordered[0].revision then Some(MixedRevisions)
    else if chunk.index != i then Some(IndexGap)
    else if chunk.charStart != (if i == 0 then 0 else ordered[i - 1].charEnd) then Some(RangeGap)
    else if chunk.charEnd - chunk.charStart != |chunk.content| then Some(RangeContentMismatch)
    else if Sha256(chunk.content) != chunk.digest then Some(ChunkDigestMismatch)
    else None
  }

  /** The text of the ordered chunks from `i` on, or the first complaint. */
  function Joined(ordered: seq<Chunk>, i: int): Result<string, Error>
    requires 0 <= i <= |ordered|
    decreases |ordered| - i
  {
    if i == |ordered| then Success("")
    else match ChunkProblem(ordered, i)
      case Some(error) => Failure(error)
      case None =>
        match Joined(ordered, i + 1)
        case Success(rest) => Success(ordered[i].content + rest)
        case Failure(error) => Failure(error)
  }

  function Reconstruction(chunks: seq<Chunk>, expected: Option<Digest>): Result<string, Error> {
    if chunks == [] then Success("")
    else
      var r := Joined(Sorted(chunks), 0);
      if r.Success? && expected.Some? && Sha256(r.value) != expected.value then Failure(TranscriptDigestMismatch) else r
  }

  method ReconstructTranscript(chunks: seq<Chunk>, expected: Option<Digest>) returns (r: Result<string, Error>)
    ensures r == Reconstruction(chunks, expected)
  {
    if |chunks| == 0 {
      return Success("");
    }
    var ordered := Sorted(chunks);
    var expectedIndex, expectedStart := 0, 0;
    var sourceId, revision := ordered[0].origin.sourceId, ordered[0].revision;
    var value := "";
    assert forall rest: string :: "" + rest == rest;
    while expectedIndex < |ordered|
      invariant 0 <= expectedIndex <= |ordered|
      invariant expectedStart == if expectedIndex == 0 then 0 else ordered[expectedIndex - 1].charEnd
      invariant Joined(ordered, 0) ==
                  match Joined(ordered, expectedIndex)
                  case Success(rest) => Success(value + rest)
                  case Failure(error) => Failure(error)
    {
      var chunk := ordered[expectedIndex];
      if chunk.origin.sourceId != sourceId || chunk.revision != revision {
        return Failure(MixedRevisions);
      }
      if chunk.index != expectedIndex {
        return Failure(IndexGap);
      }
      if chunk.charStart != expectedStart {
        return Failure(RangeGap);
      }
      if chunk.charEnd - chunk.charStart != |chunk.content| {
        return Failure(RangeContentMismatch);
      }
      if Sha256(chunk.content) != chunk.digest {
        return Failure(ChunkDigestMismatch);
      }
      assert forall rest: string :: (value + chunk.content) + rest == value + (chunk.content + rest);
      value := value + chunk.content;
      expectedIndex := expectedIndex + 1;
      expectedStart := chunk.charEnd;
    }
    assert value + "" == value;
    if expected.Some? && Sha256(value) != expected.value {
      return Failure(TranscriptDigestMismatch);
    }
    return Success(value);
  }

  // ---------------------------------------------------------------- what is accepted

  /** The ordered chunks tile [0, |value|) without gap or overlap, each holding exactly its slice. */
  ghost predicate Tiles(ordered: seq<Chunk>, value: string) {
    && |ordered| > 0
    && ordered[|ordered| - 1].charEnd == |value|
    && forall i :: 0 <= i < |ordered| ==> TilesAt(ordered, value, i)
  }

  ghost predicate TilesAt(ordered: seq<Chunk>, value: string, i: int)
    requires 0 <= i < |ordered|
  {
    var chunk := ordered[i];
    && chunk.index == i
    && chunk.charStart == (if i == 0 then 0 else ordered[i - 1].charEnd)
    && 0 <= chunk.charStart <= chunk.charEnd <= |value|
    && chunk.content == value[chunk.charStart..chunk.charEnd]
    && chunk.digest == Sha256(chunk.content)
    && chunk.origin.sourceId == ordered[0].origin.sourceId && chunk.revision == ordered[0].revision
  }

  function Offset(ordered: seq<Chunk>, i: int): int
    requires 0 <= i <= |ordered|
  {
    if i == 0 then 0 else ordered[i - 1].charEnd
  }

  lemma {:induction false} JoinedTiles(ordered: seq<Chunk>, i: int, before: string)
    requires 0 <= i <= |ordered|
    requires |before| == Offset(ordered, i)
    requires Joined(ordered, i).Success?
    ensures var value := before + Joined(ordered, i).value;
            && (forall k :: i <= k < |ordered| ==> TilesAt(ordered, value, k))
            && |value| == Offset(ordered, |ordered|)
    decreases |ordered| - i
  {
    if i < |ordered| {
      var chunk := ordered[i];
      var through := before + chunk.content;
      JoinedTiles(ordered, i + 1, through);
      var value := before + Joined(ordered, i).value;
      assert value == through + Joined(ordered, i + 1).value;
      assert value[chunk.charStart..chunk.charEnd] == chunk.content;
    }
  }

  lemma {:induction false} TilesJoin(ordered: seq<Chunk>, value: string, i: int)
    requires Tiles(ordered, value) && 0 <= i <= |ordered|
    ensures 0 <= Offset(ordered, i) <= |value|
    ensures Joined(ordered, i) == Success(value[Offset(ordered, i)..])
    decreases |ordered| - i
  {
    if i > 0 {
      assert TilesAt(ordered, value, i - 1);
    }
    if i < |ordered| {
      assert TilesAt(ordered, value, i) && TilesAt(ordered, value, 0);
      TilesJoin(ordered, value, i + 1);
      assert ChunkProblem(ordered, i) == None;
      assert value[Offset(ordered, i)..] == ordered[i].content + value[Offset(ordered, i + 1)..];
    }
  }

  /** A non-empty list is accepted with `value` exactly when its sorted chunks tile `value`. */
  lemma AcceptanceIsTiling(chunks: seq<Chunk>, expected: Option<Digest>, value: string)
    requires chunks != []
    ensures Reconstruction(chunks, expected) == Success(value) <==>
              && Tiles(Sorted(chunks), value)
              && (expected.Some? ==> expected.value == Sha256(value))
  {
    var ordered := Sorted(chunks);
    if Joined(ordered, 0).Success? {
      JoinedTiles(ordered, 0, "");
      assert "" + Joined(ordered, 0).value == Joined(ordered, 0).value;
    }
    if Tiles(ordered, value) {
      TilesJoin(ordered, value, 0);
      assert value[0..] == value;
    }
  }

  // ---------------------------------------------------------------- what is refused

  /** The chunk at `i` continues those before it. */
  ghost predicate Continues(ordered: seq<Chunk>, i: int)
    requires 0 <= i < |ordered|
  {
    && SameRevision(ordered, i) && ordered[i].index == i && ordered[i].charStart == Offset(ordered, i)
    && ordered[i].charEnd == ordered[i].charStart + |ordered[i].content|
    && ordered[i].digest == Sha256(ordered[i].content)
  }

  predicate SameRevision(ordered: seq<Chunk>, i: int)
    requires 0 <= i < |ordered|
  {
    ordered[i].origin.sourceId == ordered[0].origin.sourceId && ordered[i].revision == ordered[0].revision
  }

  ghost predicate FineBefore(ordered: seq<Chunk>, i: int)
    requires 0 <= i <= |ordered|
  {
    forall k :: 0 <= k < i ==> Continues(ordered, k)
  }

  /** What is wrong with the chunk at `i`. */
  ghost predicate Breaks(ordered: seq<Chunk>, i: int, error: Error)
    requires 0 <= i < |ordered|
  {
    var c := ordered[i];
    match error
    case MixedRevisions => !SameRevision(ordered, i)
    case IndexGap => SameRevision(ordered, i) && c.index != i
    case RangeGap => SameRevision(ordered, i) && c.index == i && c.charStart != Offset(ordered, i)
    case RangeContentMismatch =>
      SameRevision(ordered, i) && c.index == i && c.charStart == Offset(ordered, i) && c.charEnd != c.charStart + |c.content|
    case ChunkDigestMismatch =>
      && SameRevision(ordered, i) && c.index == i && c.charStart == Offset(ordered, i)
      && c.charEnd == c.charStart + |c.content| && c.digest != Sha256(c.content)
    case _ => false
  }

  /** A complaint is about the first chunk, in index order, that does not continue those before it, and names
      the first thing that is wrong with it; or all of them do and the digest asked for is another. */
  lemma RefusalIsFirst(chunks: seq<Chunk>, expected: Option<Digest>) returns (i: int)
    requires Reconstruction(chunks, expected).Failure?
    ensures var ordered, error := Sorted(chunks), Reconstruction(chunks, expected).error;
            && 0 <= i <= |ordered| && FineBefore(ordered, i)
            && (if i < |ordered| then Breaks(ordered, i, error)
                else error == TranscriptDigestMismatch && Joined(ordered, 0).Success? && expected.Some?
                     && expected.value != Sha256(Joined(ordered, 0).value))
  {
    i := ComplaintIsFirst(Sorted(chunks), 0);
  }

  lemma {:induction false} ComplaintIsFirst(ordered: seq<Chunk>, from: int) returns (i: int)
    requires 0 <= from <= |ordered| && FineBefore(ordered, from)
    ensures from <= i <= |ordered| && FineBefore(ordered, i)
    ensures i == |ordered| <==> Joined(ordered, from).Success?
    ensures i < |ordered| ==> Breaks(ordered, i, Joined(ordered, from).error)
    decreases |ordered| - from
  {
    i := from;
    if from < |ordered| && ChunkProblem(ordered, from) == None {
      i := ComplaintIsFirst(ordered, from + 1);
    }
  }

  lemma SortingRestores(job: Job, shuffled: seq<Chunk>)
    requires job.Valid() && job.At(0, 0)
    requires multiset(shuffled) == multiset(ChunksFrom(job, 0, 0, 0))
    ensures Sorted(shuffled) == ChunksFrom(job, 0, 0, 0)
  {
    var chunks := ChunksFrom(job, 0, 0, 0);
    ChunksTile(job, 0, 0, 0);
    forall i, j | 0 <= i < j < |chunks| ensures !ByIndex(chunks[j], chunks[i]) {
      assert SliceOf(job, chunks, 0, 0, i) && SliceOf(job, chunks, 0, 0, j);
    }
    SortKeeps(ByIndex, shuffled);
    SortSorts(ByIndex, shuffled);
    SortedIsUnique(ByIndex, chunks, Sorted(shuffled));
  }

  lemma ChunksTileTheText(job: Job)
    requires job.Valid() && job.At(0, 0) && ChunksFrom(job, 0, 0, 0) != []
    ensures Tiles(ChunksFrom(job, 0, 0, 0), job.value)
  {
    var chunks := ChunksFrom(job, 0, 0, 0);
    ChunksTile(job, 0, 0, 0);
    forall i | 0 <= i < |chunks| ensures TilesAt(chunks, job.value, i) {
      assert SliceOf(job, chunks, 0, 0, i) && SliceOf(job, chunks, 0, 0, 0);
    }
  }

  /** Any permutation of the chunks of a transcript reconstructs exactly that transcript. */
  lemma RoundTrip(job: Job, shuffled: seq<Chunk>)
    requires job.Valid() && job.At(0, 0)
    requires multiset(shuffled) == multiset(ChunksFrom(job, 0, 0, 0))
    ensures Reconstruction(shuffled, None) == Success(job.value)
    ensures Reconstruction(shuffled, Some(Sha256(job.value))) == Success(job.value)
  {
    var chunks := ChunksFrom(job, 0, 0, 0);
    assert |multiset(shuffled)| == |multiset(chunks)|;
    if shuffled != [] {
      SortingRestores(job, shuffled);
      ChunksTileTheText(job);
      AcceptanceIsTiling(shuffled, None, job.value);
      AcceptanceIsTiling(shuffled, Some(Sha256(job.value)), job.value);
    }
  }
}
