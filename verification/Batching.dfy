/** Splitting a workspace into batches for the front end (`parse_workspace_batched`): a greedy
    contiguous partition, and why no other partition needs fewer batches. */
module Batching {
  import opened Bytes
  import opened Wrappers

  const USIZE_MAX: nat := 0xffff_ffff_ffff_ffff

  datatype WorkspaceSource = WorkspaceSource(fileName: Bytes, source: Bytes)

  datatype BatchError<+E> = InvalidLimits | ParseFailed(error: E)

  function SaturatingAdd(a: nat, b: nat): nat {
    if a + b > USIZE_MAX then USIZE_MAX else a + b
  }

  /** The bytes of a batch, added up from the left in saturating arithmetic. */
  function BatchBytes(batch: seq<WorkspaceSource>): nat {
    if batch == [] then 0
    else SaturatingAdd(BatchBytes(batch[..|batch| - 1]), |batch[|batch| - 1].source|)
  }

  function TotalBytes(batch: seq<WorkspaceSource>): nat {
    if batch == [] then 0 else TotalBytes(batch[..|batch| - 1]) + |batch[|batch| - 1].source|
  }

  /** Saturation only caps the true size. */
  lemma {:induction false} BatchBytesCaps(batch: seq<WorkspaceSource>)
    ensures BatchBytes(batch) == if TotalBytes(batch) > USIZE_MAX then USIZE_MAX else TotalBytes(batch)
  {
    if batch != [] {
      BatchBytesCaps(batch[..|batch| - 1]);
    }
  }

  /** A batch within the limits; a single file may exceed the byte limit. */
  predicate Admissible(batch: seq<WorkspaceSource>, maxFiles: nat, maxBytes: nat) {
    0 < |batch| <= maxFiles && (|batch| == 1 || BatchBytes(batch) <= maxBytes)
  }

  function Flatten<T>(parts: seq<seq<T>>): seq<T> {
    if parts == [] then [] else parts[0] + Flatten(parts[1..])
  }

  /** A division of the sources into contiguous batches within the limits. */
  predicate Partition(batches: seq<seq<WorkspaceSource>>, sources: seq<WorkspaceSource>, maxFiles: nat, maxBytes: nat) {
    Flatten(batches) == sources && forall batch <- batches :: Admissible(batch, maxFiles, maxBytes)
  }

  /** A batch at the front of the sources that could not have taken the next source too. */
  predicate Maximal(batch: seq<WorkspaceSource>, sources: seq<WorkspaceSource>, maxFiles: nat, maxBytes: nat) {
    batch <= sources && (|batch| == |sources| || !Admissible(batch + [sources[|batch|]], maxFiles, maxBytes))
  }

  predicate Greedy(batches: seq<seq<WorkspaceSource>>, sources: seq<WorkspaceSource>, maxFiles: nat, maxBytes: nat)
    decreases |batches|
  {
    batches != [] ==>
      && Maximal(batches[0], sources, maxFiles, maxBytes)
      && Greedy(batches[1..], sources[|batches[0]|..], maxFiles, maxBytes)
  }

  // ------------------------------------------------------------------ optimality

  lemma {:induction false} PartBytes(batch: seq<WorkspaceSource>, i: nat, j: nat)
    requires i <= j <= |batch|
    ensures TotalBytes(batch[i..j]) <= TotalBytes(batch)
    decreases |batch|
  {
    if j < |batch| {
      assert batch[..|batch| - 1][i..j] == batch[i..j];
      PartBytes(batch[..|batch| - 1], i, j);
    } else if i < j {
      assert batch[i..j][..j - i - 1] == batch[..|batch| - 1][i..j - 1];
      PartBytes(batch[..|batch| - 1], i, j - 1);
    }
  }

  /** Any nonempty contiguous part of an admissible batch is admissible. */
  lemma PartAdmissible(batch: seq<WorkspaceSource>, i: nat, j: nat, maxFiles: nat, maxBytes: nat)
    requires Admissible(batch, maxFiles, maxBytes) && i < j <= |batch|
    ensures Admissible(batch[i..j], maxFiles, maxBytes)
  {
    PartBytes(batch, i, j);
    BatchBytesCaps(batch);
    BatchBytesCaps(batch[i..j]);
  }

  /** Starting later with the greedy batches never needs more of them than any partition. */
  lemma {:induction false} GreedyStaysAhead(greedy: seq<seq<WorkspaceSource>>, others: seq<seq<WorkspaceSource>>,
                                            sources: seq<WorkspaceSource>, from: nat, maxFiles: nat, maxBytes: nat)
    requires from <= |sources|
    requires Partition(greedy, sources[from..], maxFiles, maxBytes)
              && Greedy(greedy, sources[from..], maxFiles, maxBytes)
    requires Partition(others, sources, maxFiles, maxBytes)
    ensures |greedy| <= |others|
    decreases |greedy| + |others|
  {
    if greedy != [] {
      assert greedy[0] in greedy && |Flatten(greedy)| >= |greedy[0]| > 0;
      var first, other := greedy[0], others[0];
      assert other in others;
      var rest := sources[|other|..];
      assert Flatten(others[1..]) == rest by {
        assert sources == other + Flatten(others[1..]);
      }
      assert Partition(others[1..], rest, maxFiles, maxBytes);
      if from >= |other| {
        assert rest[from - |other|..] == sources[from..];
        GreedyStaysAhead(greedy, others[1..], rest, from - |other|, maxFiles, maxBytes);
      } else {
        FirstReaches(first, other, sources, from, maxFiles, maxBytes);
        assert Flatten(greedy[1..]) == sources[from..][|first|..] == rest[from + |first| - |other|..];
        GreedyStaysAhead(greedy[1..], others[1..], rest, from + |first| - |other|, maxFiles, maxBytes);
      }
    }
  }

  /** The greedy batch that starts inside another admissible batch reaches at least its end. */
  lemma FirstReaches(first: seq<WorkspaceSource>, other: seq<WorkspaceSource>, sources: seq<WorkspaceSource>, from: nat,
                     maxFiles: nat, maxBytes: nat)
    requires from < |other| && other <= sources && Admissible(other, maxFiles, maxBytes)
    requires Maximal(first, sources[from..], maxFiles, maxBytes)
    ensures from + |first| >= |other|
  {
    if from + |first| < |other| {
      assert other[from..from + |first| + 1] == first + [sources[from..][|first|]];
      PartAdmissible(other, from, from + |first| + 1, maxFiles, maxBytes);
    }
  }

  // ------------------------------------------------------------------ the batcher

  /** What the batches parse to, one after another, or the first failure. */
  function ParseBatches<F, E>(parse: seq<WorkspaceSource> -> Result<seq<F>, E>,
                              batches: seq<seq<WorkspaceSource>>): Result<seq<F>, E> {
    if batches == [] then Success([])
    else
      var files :- ParseBatches(parse, batches[..|batches| - 1]);
      var more :- parse(batches[|batches| - 1]);
      Success(files + more)
  }

  /** Takes sources from `start` on while the limits allow. */
  method NextBatch(sources: seq<WorkspaceSource>, start: nat, maxFiles: nat, maxBytes: nat) returns (end: nat)
    requires start < |sources| && maxFiles > 0
    ensures start < end <= |sources|
    ensures Admissible(sources[start..end], maxFiles, maxBytes)
    ensures end == |sources| || !Admissible(sources[start..end] + [sources[end]], maxFiles, maxBytes)
  {
    end := start;
    var bytes := 0;
    while end < |sources| && end - start < maxFiles
      invariant start <= end <= |sources| && end - start <= maxFiles
      invariant bytes == BatchBytes(sources[start..end])
      invariant end > start ==> Admissible(sources[start..end], maxFiles, maxBytes)
    {
      var next := |sources[end].source|;
      assert sources[start..end + 1] == sources[start..end] + [sources[end]];
      assert sources[start..end + 1][..end - start] == sources[start..end];
      if end > start && SaturatingAdd(bytes, next) > maxBytes {
        break;
      }
      bytes := SaturatingAdd(bytes, next);
      end := end + 1;
    }
  }

  method ParseWorkspaceBatched<F, E>(parse: seq<WorkspaceSource> -> Result<seq<F>, E>, sources: seq<WorkspaceSource>,
                                     maxFiles: nat, maxBytes: nat)
    returns (r: Result<seq<F>, BatchError<E>>, ghost batches: seq<seq<WorkspaceSource>>)
    ensures r == Failure(InvalidLimits) <==> maxFiles == 0 || maxBytes == 0
    ensures r.Success? ==>
              Partition(batches, sources, maxFiles, maxBytes) && ParseBatches(parse, batches) == Success(r.value)
    ensures r.Success? ==> forall others :: Partition(others, sources, maxFiles, maxBytes) ==> |batches| <= |others|
    ensures r.Failure? && r.error.ParseFailed? ==>
              Flatten(batches) <= sources && ParseBatches(parse, batches) == Failure(r.error.error)
  {
    batches := [];
    if maxFiles == 0 || maxBytes == 0 {
      return Failure(InvalidLimits), batches;
    }
    var files: seq<F> := [];
    var start := 0;
    while start < |sources|
      invariant start <= |sources|
      invariant Flatten(batches) == sources[..start]
      invariant Partition(batches, sources[..start], maxFiles, maxBytes) && Greedy(batches, sources, maxFiles, maxBytes)
      invariant ParseBatches(parse, batches) == Success(files)
    {
      var end := NextBatch(sources, start, maxFiles, maxBytes);
      var parsed := parse(sources[start..end]);
      AppendBatch(batches, sources, start, end, maxFiles, maxBytes);
      batches := batches + [sources[start..end]];
      if parsed.Failure? {
        return Failure(ParseFailed(parsed.error)), batches;
      }
      files := files + parsed.value;
      start := end;
    }
    assert sources[..start] == sources && sources[0..] == sources;
    forall others | Partition(others, sources, maxFiles, maxBytes)
      ensures |batches| <= |others|
    {
      GreedyStaysAhead(batches, others, sources, 0, maxFiles, maxBytes);
    }
    r := Success(files);
  }

  lemma AppendBatch(batches: seq<seq<WorkspaceSource>>, sources: seq<WorkspaceSource>, start: nat, end: nat,
                    maxFiles: nat, maxBytes: nat)
    requires start < end <= |sources| && Flatten(batches) == sources[..start]
    requires Greedy(batches, sources, maxFiles, maxBytes)
    requires end == |sources| || !Admissible(sources[start..end] + [sources[end]], maxFiles, maxBytes)
    ensures Flatten(batches + [sources[start..end]]) == sources[..end]
    ensures Greedy(batches + [sources[start..end]], sources, maxFiles, maxBytes)
  {
    FlattenSnoc(batches, sources[start..end]);
    assert sources[..start] + sources[start..end] == sources[..end];
    AppendGreedily(batches, sources, start, end, maxFiles, maxBytes);
  }

  lemma {:induction false} AppendGreedily(batches: seq<seq<WorkspaceSource>>, sources: seq<WorkspaceSource>,
                                          start: nat, end: nat,
                                          maxFiles: nat, maxBytes: nat)
    requires start < end <= |sources| && Flatten(batches) == sources[..start]
    requires Greedy(batches, sources, maxFiles, maxBytes)
    requires end == |sources| || !Admissible(sources[start..end] + [sources[end]], maxFiles, maxBytes)
    ensures Greedy(batches + [sources[start..end]], sources, maxFiles, maxBytes)
    decreases |batches|
  {
    if batches == [] {
      assert sources[start..end] == sources[..end];
    } else {
      var first := batches[0];
      assert (batches + [sources[start..end]])[1..] == batches[1..] + [sources[start..end]];
      var rest := sources[|first|..];
      FlattenTail(batches, sources, start);
      assert rest[start - |first|..end - |first|] == sources[start..end];
      assert end < |sources| ==> rest[end - |first|] == sources[end];
      AppendGreedily(batches[1..], rest, start - |first|, end - |first|, maxFiles, maxBytes);
    }
  }

  lemma FlattenTail(batches: seq<seq<WorkspaceSource>>, sources: seq<WorkspaceSource>, start: nat)
    requires batches != [] && start <= |sources| && Flatten(batches) == sources[..start]
    ensures |batches[0]| <= start && Flatten(batches[1..]) == sources[|batches[0]|..][..start - |batches[0]|]
  {
    assert sources[..start] == batches[0] + Flatten(batches[1..]);
    assert sources[..start][|batches[0]|..] == sources[|batches[0]|..][..start - |batches[0]|];
  }

  /** Batching is invisible to a parser that treats files one by one. */
  lemma {:induction false} BatchingTransparent<F(!new), E(!new)>(parse: seq<WorkspaceSource> -> Result<seq<F>, E>,
                                                                 batches: seq<seq<WorkspaceSource>>)
    requires parse([]) == Success([])
    requires forall a, b :: parse(a + b) == (if parse(a).Failure? then parse(a) else if parse(b).Failure? then parse(b)
                                              else Success(parse(a).value + parse(b).value))
    ensures ParseBatches(parse, batches) == parse(Flatten(batches))
    decreases |batches|
  {
    if batches != [] {
      var earlier, last := batches[..|batches| - 1], batches[|batches| - 1];
      BatchingTransparent(parse, earlier);
      FlattenSnoc(earlier, last);
      assert batches == earlier + [last];
      assert parse(Flatten(earlier) + last) == parse(Flatten(batches));
    }
  }

  lemma {:induction false} FlattenSnoc<T>(parts: seq<seq<T>>, last: seq<T>)
    ensures Flatten(parts + [last]) == Flatten(parts) + last
  {
    if parts != [] {
      assert (parts + [last])[1..] == parts[1..] + [last];
      FlattenSnoc(parts[1..], last);
    } else {
      assert (parts + [last])[1..] == [];
    }
  }
}
