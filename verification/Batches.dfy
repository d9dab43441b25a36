/** `_parquet_file_batches`: packing files, in their order, into batches within two limits. */
module Batches {

  datatype File = File(path: string, size: nat)

  function Bytes(files: seq<File>): (bytes: nat) {
    if files == [] then 0 else files[0].size + Bytes(files[1..])
  }

  lemma {:induction false} BytesOfConcat(a: seq<File>, b: seq<File>)
    ensures Bytes(a + b) == Bytes(a) + Bytes(b)
    decreases |a|
  {
    if a == [] {
      assert a + b == b;
    } else {
      assert (a + b)[1..] == a[1..] + b;
      BytesOfConcat(a[1..], b);
    }
  }

  function Flatten(batches: seq<seq<File>>): seq<File> {
    if batches == [] then [] else Flatten(batches[..|batches| - 1]) + batches[|batches| - 1]
  }

  lemma FlattenNext(batches: seq<seq<File>>, k: nat)
    requires k < |batches|
    ensures Flatten(batches[..k + 1]) == Flatten(batches[..k]) + batches[k]
  {
    assert batches[..k + 1][..k] == batches[..k];
  }

  lemma FlattenAppend(batches: seq<seq<File>>, batch: seq<File>)
    ensures Flatten(batches + [batch]) == Flatten(batches) + batch
  {
    assert (batches + [batch])[..|batches|] == batches;
  }

  /** Within the file limit, and within the byte limit (if there is one) unless a singleton. */
  predicate Fits(batch: seq<File>, maxFiles: int, maxBytes: int) {
    |batch| <= maxFiles && (maxBytes > 0 && |batch| > 1 ==> Bytes(batch) <= maxBytes)
  }

  /** Non-empty batches within the limits that concatenate to the files. */
  predicate IsPacking(batches: seq<seq<File>>, files: seq<File>, maxFiles: int, maxBytes: int) {
    && Flatten(batches) == files
    && forall k :: 0 <= k < |batches| ==> batches[k] != [] && Fits(batches[k], maxFiles, maxBytes)
  }

  /** No batch could also have taken the first file of the next one. */
  predicate Tight(batches: seq<seq<File>>, maxFiles: int, maxBytes: int) {
    forall k :: 0 <= k < |batches| - 1 ==> TightAt(batches[k], batches[k + 1], maxFiles, maxBytes)
  }

  predicate TightAt(batch: seq<File>, next: seq<File>, maxFiles: int, maxBytes: int) {
    next != [] ==> !Fits(batch + [next[0]], maxFiles, maxBytes)
  }

  // ----- tight packings are minimal

  function End(batches: seq<seq<File>>, k: nat): nat
    requires k <= |batches|
  {
    |Flatten(batches[..k])|
  }

  /** Every batch is the slice of the files between two ends. */
  lemma {:induction false} BatchIsSlice(batches: seq<seq<File>>, files: seq<File>, k: nat)
    requires Flatten(batches) == files && k <= |batches|
    ensures End(batches, k) <= |files| && files[..End(batches, k)] == Flatten(batches[..k])
    ensures k < |batches| ==>
              && End(batches, k + 1) == End(batches, k) + |batches[k]| <= |files|
              && batches[k] == files[End(batches, k)..End(batches, k + 1)]
    decreases |batches| - k
  {
    if k == |batches| {
      assert batches[..k] == batches;
    } else {
      BatchIsSlice(batches, files, k + 1);
      FlattenNext(batches, k);
      var prefix := files[..End(batches, k + 1)];
      assert prefix[..End(batches, k)] == files[..End(batches, k)];
      assert prefix[End(batches, k)..] == files[End(batches, k)..End(batches, k + 1)];
    }
  }

  lemma SliceFits(files: seq<File>, a: nat, b: nat, c: nat, d: nat, maxFiles: int, maxBytes: int)
    requires a <= b <= c <= d <= |files| && Fits(files[a..d], maxFiles, maxBytes)
    ensures Fits(files[b..c], maxFiles, maxBytes)
  {
    assert files[a..d] == files[a..b] + files[b..c] + files[c..d];
    BytesOfConcat(files[a..b] + files[b..c], files[c..d]);
    BytesOfConcat(files[a..b], files[b..c]);
  }

  /** No batch that starts no later than a tight one can end beyond it. */
  lemma CannotOvertake(
    tight: seq<seq<File>>, files: seq<File>, maxFiles: int, maxBytes: int, k: nat, start: nat, end: nat)
    requires IsPacking(tight, files, maxFiles, maxBytes) && Tight(tight, maxFiles, maxBytes) && k + 1 < |tight|
    requires start <= End(tight, k) && start <= end <= |files| && Fits(files[start..end], maxFiles, maxBytes)
    ensures end <= End(tight, k + 1)
  {
    BatchIsSlice(tight, files, k);
    BatchIsSlice(tight, files, k + 1);
    var from, to := End(tight, k), End(tight, k + 1);
    assert TightAt(tight[k], tight[k + 1], maxFiles, maxBytes);
    if end > to {
      assert files[from..to] + [files[to]] == files[from..to + 1];
      assert tight[k + 1][0] == files[to];
      SliceFits(files, start, from, to + 1, end, maxFiles, maxBytes);
    }
  }

  /** The tight packing stays ahead of every other. */
  lemma {:induction false} StaysAhead(
    tight: seq<seq<File>>, other: seq<seq<File>>, files: seq<File>, maxFiles: int, maxBytes: int, k: nat)
    requires IsPacking(tight, files, maxFiles, maxBytes) && Tight(tight, maxFiles, maxBytes)
    requires IsPacking(other, files, maxFiles, maxBytes) && k <= |tight| && k <= |other|
    ensures End(other, k) <= End(tight, k)
  {
    BatchIsSlice(other, files, k);
    if k == |tight| {
      assert tight[..k] == tight;
    } else if k > 0 {
      StaysAhead(tight, other, files, maxFiles, maxBytes, k - 1);
      BatchIsSlice(other, files, k - 1);
      CannotOvertake(tight, files, maxFiles, maxBytes, k - 1, End(other, k - 1), End(other, k));
    }
  }

  /** No packing of the same files within the same limits uses fewer batches. */
  lemma TightIsMinimal(tight: seq<seq<File>>, other: seq<seq<File>>, files: seq<File>, maxFiles: int, maxBytes: int)
    requires IsPacking(tight, files, maxFiles, maxBytes) && Tight(tight, maxFiles, maxBytes)
    requires IsPacking(other, files, maxFiles, maxBytes)
    ensures |tight| <= |other|
  {
    if |other| < |tight| {
      StaysAhead(tight, other, files, maxFiles, maxBytes, |other|);
      assert other[..|other|] == other;
      BatchIsSlice(tight, files, |other|);
    }
  }

  // ----- the two loops

  /** All chunks but the last hold `size` files. */
  predicate Chunked(chunks: seq<seq<File>>, size: nat, complete: bool) {
    forall k :: 0 <= k < |chunks| ==>
                  chunks[k] != [] && |chunks[k]| <= size && (k < |chunks| - 1 || complete ==> |chunks[k]| == size)
  }

  method Chunks(files: seq<File>, size: nat) returns (chunks: seq<seq<File>>)
    requires size >= 1
    ensures Flatten(chunks) == files && Chunked(chunks, size, false)
  {
    chunks := [];
    var index := 0;
    while index < |files|
      invariant Flatten(chunks) == files[..if index < |files| then index else |files|]
      invariant Chunked(chunks, size, index < |files|)
    {
      var end := if index + size <= |files| then index + size else |files|;
      var chunk := files[index..end];
      assert files[..index] + chunk == files[..end];
      FlattenAppend(chunks, chunk);
      chunks := chunks + [chunk];
      index := index + size;
    }
  }

  lemma ChunkedIsTight(chunks: seq<seq<File>>, files: seq<File>, size: nat, maxBytes: int)
    requires Flatten(chunks) == files && Chunked(chunks, size, false) && maxBytes <= 0
    ensures IsPacking(chunks, files, size, maxBytes) && Tight(chunks, size, maxBytes)
  {
  }

  /** `_parquet_file_batches`. */
  method ParquetFileBatches(
    files: seq<File>, maxSourceFiles: int, maxSourceBytes: int) returns (batches: seq<seq<File>>)
    ensures var maxFiles := if maxSourceFiles >= 1 then maxSourceFiles else 1;
            && IsPacking(batches, files, maxFiles, maxSourceBytes)
            && forall other :: IsPacking(other, files, maxFiles, maxSourceBytes) ==> |batches| <= |other|
  {
    var maxFiles := if maxSourceFiles >= 1 then maxSourceFiles else 1;
    var maxBytes := if maxSourceBytes >= 0 then maxSourceBytes else 0;
    if maxBytes <= 0 {
      batches := Chunks(files, maxFiles);
      ChunkedIsTight(batches, files, maxFiles, maxSourceBytes);
    } else {
      batches := FillBatches(files, maxFiles, maxBytes);
    }
    assert IsPacking(batches, files, maxFiles, maxSourceBytes) && Tight(batches, maxFiles, maxSourceBytes);
    forall other | IsPacking(other, files, maxFiles, maxSourceBytes) ensures |batches| <= |other| {
      TightIsMinimal(batches, other, files, maxFiles, maxSourceBytes);
    }
  }

  /** The batches closed so far and the one being filled. */
  predicate Filling(batches: seq<seq<File>>, current: seq<File>, maxFiles: int, maxBytes: int) {
    && Fits(current, maxFiles, maxBytes) && Tight(batches, maxFiles, maxBytes)
    && (forall k :: 0 <= k < |batches| ==> batches[k] != [] && Fits(batches[k], maxFiles, maxBytes))
    && (batches != [] ==> TightAt(batches[|batches| - 1], current, maxFiles, maxBytes))
  }

  lemma CloseBatch(batches: seq<seq<File>>, current: seq<File>, file: File, maxFiles: int, maxBytes: int)
    requires Filling(batches, current, maxFiles, maxBytes) && current != [] && maxFiles >= 1
    requires |current| >= maxFiles || (maxBytes > 0 && Bytes(current) + file.size > maxBytes)
    ensures Filling(batches + [current], [file], maxFiles, maxBytes)
  {
    BytesOfConcat(current, [file]);
  }

  lemma GrowBatch(batches: seq<seq<File>>, current: seq<File>, file: File, maxFiles: int, maxBytes: int)
    requires Filling(batches, current, maxFiles, maxBytes) && maxFiles >= 1
    requires (current == [] && batches == [])
             || (current != [] && |current| < maxFiles && Bytes(current) + file.size <= maxBytes)
    ensures Filling(batches, current + [file], maxFiles, maxBytes)
  {
    BytesOfConcat(current, [file]);
  }

  /** The files seen so far are packed but for the batch being filled. */
  predicate PackedSoFar(batches: seq<seq<File>>, current: seq<File>, seen: seq<File>, maxFiles: int, maxBytes: int) {
    && Filling(batches, current, maxFiles, maxBytes) && Flatten(batches) + current == seen
    && (if seen == [] then batches == [] else current != [])
  }

  lemma OpenNext(batches: seq<seq<File>>, current: seq<File>, seen: seq<File>, file: File, maxFiles: int, maxBytes: int)
    requires PackedSoFar(batches, current, seen, maxFiles, maxBytes) && current != [] && maxFiles >= 1
    requires |current| >= maxFiles || (maxBytes > 0 && Bytes(current) + file.size > maxBytes)
    ensures PackedSoFar(batches + [current], [file], seen + [file], maxFiles, maxBytes)
  {
    CloseBatch(batches, current, file, maxFiles, maxBytes);
    FlattenAppend(batches, current);
  }

  lemma FillFurther(
    batches: seq<seq<File>>, current: seq<File>, seen: seq<File>, file: File, maxFiles: int, maxBytes: int)
    requires PackedSoFar(batches, current, seen, maxFiles, maxBytes) && maxFiles >= 1
    requires current == [] || (|current| < maxFiles && Bytes(current) + file.size <= maxBytes)
    ensures PackedSoFar(batches, current + [file], seen + [file], maxFiles, maxBytes)
  {
    GrowBatch(batches, current, file, maxFiles, maxBytes);
    assert Flatten(batches) + (current + [file]) == Flatten(batches) + current + [file];
  }

  lemma FinishPacking(batches: seq<seq<File>>, current: seq<File>, files: seq<File>, maxFiles: int, maxBytes: int)
    requires PackedSoFar(batches, current, files, maxFiles, maxBytes)
    ensures var all := if current == [] then batches else batches + [current];
            IsPacking(all, files, maxFiles, maxBytes) && Tight(all, maxFiles, maxBytes)
  {
    FlattenAppend(batches, current);
  }

  method FillBatches(files: seq<File>, maxFiles: int, maxBytes: int) returns (batches: seq<seq<File>>)
    requires maxFiles >= 1 && maxBytes > 0
    ensures IsPacking(batches, files, maxFiles, maxBytes) && Tight(batches, maxFiles, maxBytes)
  {
    batches := [];
    var current, currentBytes := [], 0;
    for i := 0 to |files|
      invariant currentBytes == Bytes(current) && PackedSoFar(batches, current, files[..i], maxFiles, maxBytes)
    {
      var file := files[i];
      assert files[..i + 1] == files[..i] + [file];
      BytesOfConcat(current, [file]);
      if current != [] && (|current| >= maxFiles || currentBytes + file.size > maxBytes) {
        OpenNext(batches, current, files[..i], file, maxFiles, maxBytes);
        batches := batches + [current];
        current, currentBytes := [], 0;
        assert current + [file] == [file];
      } else {
        FillFurther(batches, current, files[..i], file, maxFiles, maxBytes);
      }
      current := current + [file];
      currentBytes := currentBytes + file.size;
    }
    assert files[..|files|] == files;
    FinishPacking(batches, current, files, maxFiles, maxBytes);
    if current != [] {
      batches := batches + [current];
    }
  }
}
