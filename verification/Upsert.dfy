/** `upsert_parquet_dataset`: the streaming form, an anti-join and a union, against the in-memory
    form, concatenation that keeps the last row of each key. Rows have the same columns, and no
    row cap is set; the stored order carries no meaning, so contents are compared as multisets. */
module Upsert {
  import opened Contracts

  /** A key column may be null. */
  type Key = seq<Option<int>>

  datatype Row = Row(key: Key, payload: int)

  predicate NoNulls(key: Key) {
    forall i :: 0 <= i < |key| ==> key[i].Some?
  }

  /** SQL's USING: a null equals nothing, not even a null. */
  predicate Joins(a: Row, b: Row) {
    a.key == b.key && NoNulls(a.key)
  }

  predicate JoinsAny(row: Row, rows: seq<Row>) {
    exists i :: 0 <= i < |rows| && Joins(row, rows[i])
  }

  predicate HasKey(rows: seq<Row>, key: Key) {
    exists i :: 0 <= i < |rows| && rows[i].key == key
  }

  ghost predicate UniqueKeys(rows: seq<Row>) {
    forall i, j :: 0 <= i < j < |rows| ==> rows[i].key != rows[j].key
  }

  /** `unique(subset=keys, keep="last")`, for which nulls are equal. */
  function KeepLast(rows: seq<Row>): seq<Row> {
    if rows == [] then []
    else if HasKey(rows[1..], rows[0].key) then KeepLast(rows[1..])
    else [rows[0]] + KeepLast(rows[1..])
  }

  /** The anti-join: the rows that join with no incoming row. */
  function Retained(rows: seq<Row>, incoming: seq<Row>): seq<Row> {
    if rows == [] then []
    else if JoinsAny(rows[0], incoming) then Retained(rows[1..], incoming)
    else [rows[0]] + Retained(rows[1..], incoming)
  }

  /** The in-memory form. */
  function Simple(existing: seq<Row>, batch: seq<Row>): seq<Row> {
    KeepLast(existing + batch)
  }

  /** The streaming form on a dataset that has files. */
  function Fast(existing: seq<Row>, batch: seq<Row>): seq<Row> {
    Retained(existing, KeepLast(batch)) + KeepLast(batch)
  }

  // ----- KeepLast

  lemma HasKeyOfConcat(a: seq<Row>, b: seq<Row>, key: Key)
    ensures HasKey(a + b, key) <==> HasKey(a, key) || HasKey(b, key)
  {
    if HasKey(a, key) {
      var i :| 0 <= i < |a| && a[i].key == key;
      assert (a + b)[i].key == key;
    }
    if HasKey(b, key) {
      var i :| 0 <= i < |b| && b[i].key == key;
      assert (a + b)[|a| + i].key == key;
    }
  }

  lemma HasKeyTail(rows: seq<Row>, key: Key)
    requires rows != []
    ensures HasKey(rows, key) <==> rows[0].key == key || HasKey(rows[1..], key)
  {
    assert rows == [rows[0]] + rows[1..];
    HasKeyOfConcat([rows[0]], rows[1..], key);
    assert HasKey([rows[0]], key) <==> [rows[0]][0].key == key;
  }

  /** Same keys, each once. */
  lemma {:induction false} KeepLastKeys(rows: seq<Row>)
    ensures forall key :: HasKey(KeepLast(rows), key) <==> HasKey(rows, key)
    ensures UniqueKeys(KeepLast(rows))
    decreases |rows|
  {
    if rows != [] {
      KeepLastKeys(rows[1..]);
      var rest := KeepLast(rows[1..]);
      forall key ensures HasKey(KeepLast(rows), key) <==> HasKey(rows, key) {
        HasKeyTail(rows, key);
        HasKeyTail([rows[0]] + rest, key);
        assert ([rows[0]] + rest)[1..] == rest;
      }
      if !HasKey(rows[1..], rows[0].key) {
        forall j | 0 <= j < |rest| ensures rest[j].key != rows[0].key {
          assert !HasKey(rest, rows[0].key);
        }
      }
    }
  }

  /** Rows of `a` that nothing later supersedes, then what is kept of `b`. */
  function Surviving(a: seq<Row>, b: seq<Row>): seq<Row> {
    if a == [] then []
    else if HasKey(a[1..], a[0].key) || HasKey(b, a[0].key) then Surviving(a[1..], b)
    else [a[0]] + Surviving(a[1..], b)
  }

  lemma {:induction false} SimpleSplits(a: seq<Row>, b: seq<Row>)
    ensures Simple(a, b) == Surviving(a, b) + KeepLast(b)
    decreases |a|
  {
    if a == [] {
      assert a + b == b;
    } else {
      assert (a + b)[1..] == a[1..] + b && (a + b)[0] == a[0];
      SimpleSplits(a[1..], b);
      HasKeyOfConcat(a[1..], b, a[0].key);
    }
  }

  /** A row the streaming form treats as the in-memory form does: replaced by a row it joins
      with, or else neither its key nor a later row of it anywhere. */
  ghost predicate TreatedAlike(existing: seq<Row>, batch: seq<Row>, i: int)
    requires 0 <= i < |existing|
  {
    if HasKey(batch, existing[i].key) then NoNulls(existing[i].key)
    else !HasKey(existing[i + 1..], existing[i].key)
  }

  lemma JoinsIff(row: Row, batch: seq<Row>)
    ensures JoinsAny(row, KeepLast(batch)) <==> NoNulls(row.key) && HasKey(batch, row.key)
  {
    KeepLastKeys(batch);
    var kept := KeepLast(batch);
    if NoNulls(row.key) && HasKey(batch, row.key) {
      assert HasKey(kept, row.key);
      var i :| 0 <= i < |kept| && kept[i].key == row.key;
      assert Joins(row, kept[i]);
    }
    if JoinsAny(row, kept) {
      var i :| 0 <= i < |kept| && Joins(row, kept[i]);
      assert kept[i].key == row.key;
      assert HasKey(kept, row.key);
    }
  }

  /** What survives is retained; nothing else is exactly when all rows are treated alike. */
  lemma {:induction false} RetainedIff(existing: seq<Row>, batch: seq<Row>)
    ensures var retained := Retained(existing, KeepLast(batch));
            && |Surviving(existing, batch)| <= |retained|
            && ((forall i :: 0 <= i < |existing| ==> TreatedAlike(existing, batch, i)) ==>
                  retained == Surviving(existing, batch))
            && (|retained| == |Surviving(existing, batch)| ==>
                  forall i :: 0 <= i < |existing| ==> TreatedAlike(existing, batch, i))
    decreases |existing|
  {
    if existing != [] {
      var rest := existing[1..];
      RetainedIff(rest, batch);
      JoinsIff(existing[0], batch);
      forall i | 1 <= i < |existing| ensures TreatedAlike(existing, batch, i) <==> TreatedAlike(rest, batch, i - 1) {
        assert rest[i - 1 + 1..] == existing[i + 1..] && rest[i - 1] == existing[i];
      }
      if forall i :: 0 <= i < |existing| ==> TreatedAlike(existing, batch, i) {
        assert TreatedAlike(existing, batch, 0);
        forall i | 0 <= i < |rest| ensures TreatedAlike(rest, batch, i) {
          assert TreatedAlike(existing, batch, i + 1);
        }
      }
    }
  }

  /** The fast form refines the simple one: the same rows, and already the same number of rows,
      exactly when every stored row is treated alike. */
  lemma FastIsSimpleIff(existing: seq<Row>, batch: seq<Row>)
    ensures var alike := forall i :: 0 <= i < |existing| ==> TreatedAlike(existing, batch, i);
            && (multiset(Fast(existing, batch)) == multiset(Simple(existing, batch)) <==> alike)
            && (|Fast(existing, batch)| == |Simple(existing, batch)| <==> alike)
  {
    SimpleSplits(existing, batch);
    RetainedIff(existing, batch);
    assert |multiset(Fast(existing, batch))| == |Fast(existing, batch)|;
    assert |multiset(Simple(existing, batch))| == |Simple(existing, batch)|;
  }

  ghost predicate NullFree(rows: seq<Row>) {
    forall i :: 0 <= i < |rows| ==> NoNulls(rows[i].key)
  }

  /** In particular for unique keys without nulls. */
  lemma FastIsSimpleOnUniqueKeys(existing: seq<Row>, batch: seq<Row>)
    requires UniqueKeys(existing) && NullFree(existing)
    ensures multiset(Fast(existing, batch)) == multiset(Simple(existing, batch)) && UniqueKeys(Simple(existing, batch))
  {
    KeepLastKeys(existing + batch);
    forall i | 0 <= i < |existing| ensures TreatedAlike(existing, batch, i) {
      var later := existing[i + 1..];
      forall j | 0 <= j < |later| ensures later[j].key != existing[i].key {
        assert later[j] == existing[i + 1 + j];
      }
    }
    FastIsSimpleIff(existing, batch);
  }

  /** A null key part is enough to part the two forms: the old row stays beside the new one. */
  lemma NullKeyDuplicates()
    ensures var stored, sent := Row([None], 1), Row([None], 2);
            Simple([stored], [sent]) == [sent] && Fast([stored], [sent]) == [stored, sent]
  {
    var stored, sent := Row([None], 1), Row([None], 2);
    assert KeepLast([sent]) == [sent] && [sent][0].key == [None];
    assert !NoNulls(stored.key) by {
      assert stored.key[0].None?;
    }
    assert ([stored] + [sent])[1..] == [sent];
    assert !JoinsAny(stored, [sent]) && HasKey([sent], stored.key);
    assert Retained([stored], [sent]) == [stored];
    assert [stored] + [sent] == [stored, sent];
  }

  // ----- how many rows a key has

  function Copies(rows: seq<Row>, key: Key): nat {
    if rows == [] then 0 else (if rows[0].key == key then 1 else 0) + Copies(rows[1..], key)
  }

  lemma {:induction false} CopiesOfConcat(a: seq<Row>, b: seq<Row>, key: Key)
    ensures Copies(a + b, key) == Copies(a, key) + Copies(b, key)
    decreases |a|
  {
    if a == [] {
      assert a + b == b;
    } else {
      assert (a + b)[1..] == a[1..] + b;
      CopiesOfConcat(a[1..], b, key);
    }
  }

  lemma {:induction false} NoCopies(rows: seq<Row>, key: Key)
    ensures Copies(rows, key) == 0 <==> !HasKey(rows, key)
    decreases |rows|
  {
    if rows != [] {
      NoCopies(rows[1..], key);
      HasKeyTail(rows, key);
    }
  }

  ghost predicate OneCopyEach(rows: seq<Row>) {
    forall key :: Copies(rows, key) <= 1
  }

  lemma {:induction false} UniqueIffOneCopy(rows: seq<Row>)
    ensures UniqueKeys(rows) <==> OneCopyEach(rows)
    decreases |rows|
  {
    if rows != [] {
      var head, rest := rows[0].key, rows[1..];
      UniqueIffOneCopy(rest);
      NoCopies(rest, head);
      assert UniqueKeys(rows) <==> UniqueKeys(rest) && !HasKey(rest, head) by {
        UniqueTail(rows);
      }
      if OneCopyEach(rows) {
        assert Copies(rows, head) <= 1;
        forall key ensures Copies(rest, key) <= 1 {
          assert Copies(rows, key) <= 1;
        }
        assert OneCopyEach(rest);
      }
      if OneCopyEach(rest) && !HasKey(rest, head) {
        forall key ensures Copies(rows, key) <= 1 {
          assert Copies(rest, key) <= 1;
        }
      }
    }
  }

  lemma UniqueTail(rows: seq<Row>)
    requires rows != []
    ensures UniqueKeys(rows) <==> UniqueKeys(rows[1..]) && !HasKey(rows[1..], rows[0].key)
  {
    var rest := rows[1..];
    if UniqueKeys(rows) {
      forall i, j | 0 <= i < j < |rest| ensures rest[i].key != rest[j].key {
        assert rows[i + 1].key != rows[j + 1].key;
      }
      forall j | 0 <= j < |rest| ensures rest[j].key != rows[0].key {
        assert rows[0].key != rows[j + 1].key;
      }
    }
    if UniqueKeys(rest) && !HasKey(rest, rows[0].key) {
      forall i, j | 0 <= i < j < |rows| ensures rows[i].key != rows[j].key {
        assert rest[j - 1] == rows[j];
        if i > 0 {
          assert rest[i - 1] == rows[i];
        }
      }
    }
  }

  lemma {:induction false} CopiesRetained(existing: seq<Row>, batch: seq<Row>, key: Key)
    ensures Copies(Retained(existing, KeepLast(batch)), key)
         == if NoNulls(key) && HasKey(batch, key) then 0 else Copies(existing, key)
    decreases |existing|
  {
    if existing != [] {
      CopiesRetained(existing[1..], batch, key);
      JoinsIff(existing[0], batch);
      var retained := Retained(existing[1..], KeepLast(batch));
      assert ([existing[0]] + retained)[1..] == retained;
    }
  }

  /** An upsert leaves one row of each incoming key and does not touch the others; a key with a
      null part joins nothing, so its rows pile up. */
  lemma CopiesAfter(existing: seq<Row>, batch: seq<Row>, key: Key)
    ensures Copies(Fast(existing, batch), key)
         == if !HasKey(batch, key) then Copies(existing, key) else if NoNulls(key) then 1 else Copies(existing, key) + 1
  {
    CopiesRetained(existing, batch, key);
    CopiesOfConcat(Retained(existing, KeepLast(batch)), KeepLast(batch), key);
    KeepLastKeys(batch);
    UniqueIffOneCopy(KeepLast(batch));
    NoCopies(KeepLast(batch), key);
  }

  // ----- which rows are stored

  /** The last row of its key in the batch. */
  ghost predicate LastOfKey(batch: seq<Row>, row: Row) {
    exists i :: 0 <= i < |batch| && batch[i] == row && !HasKey(batch[i + 1..], row.key)
  }

  lemma LastOfKeyHead(batch: seq<Row>, row: Row)
    requires batch != []
    ensures LastOfKey(batch, row) <==> LastOfKey(batch[1..], row) || (row == batch[0] && !HasKey(batch[1..], row.key))
  {
    var rest := batch[1..];
    if LastOfKey(rest, row) {
      var i :| 0 <= i < |rest| && rest[i] == row && !HasKey(rest[i + 1..], row.key);
      assert batch[i + 1] == row && batch[i + 2..] == rest[i + 1..];
    }
    if LastOfKey(batch, row) {
      var i :| 0 <= i < |batch| && batch[i] == row && !HasKey(batch[i + 1..], row.key);
      if i > 0 {
        assert rest[i - 1] == row && rest[i..] == batch[i + 1..];
      }
    }
  }

  lemma LastHasKey(batch: seq<Row>, row: Row)
    requires LastOfKey(batch, row)
    ensures HasKey(batch, row.key)
  {
  }

  lemma {:induction false} KeptRows(batch: seq<Row>, row: Row)
    ensures multiset(KeepLast(batch))[row] == if LastOfKey(batch, row) then 1 else 0
    decreases |batch|
  {
    if batch != [] {
      var rest := batch[1..];
      KeptRows(rest, row);
      LastOfKeyHead(batch, row);
      if LastOfKey(rest, row) {
        LastHasKey(rest, row);
      }
    }
  }

  lemma {:induction false} RetainedRows(existing: seq<Row>, batch: seq<Row>, row: Row)
    ensures multiset(Retained(existing, KeepLast(batch)))[row]
         == if NoNulls(row.key) && HasKey(batch, row.key) then 0 else multiset(existing)[row]
    decreases |existing|
  {
    if existing != [] {
      RetainedRows(existing[1..], batch, row);
      JoinsIff(existing[0], batch);
      assert existing == [existing[0]] + existing[1..];
    }
  }

  /** How often the dataset holds a row after an upsert: an old row unless it joins with the
      batch, and the last row of each key of the batch once more. */
  ghost function CountAfter(existing: seq<Row>, batch: seq<Row>, row: Row): nat {
    (if NoNulls(row.key) && HasKey(batch, row.key) then 0 else multiset(existing)[row])
    + (if LastOfKey(batch, row) then 1 else 0)
  }

  lemma FastRows(existing: seq<Row>, batch: seq<Row>, row: Row)
    ensures multiset(Fast(existing, batch))[row] == CountAfter(existing, batch, row)
  {
    RetainedRows(existing, batch, row);
    KeptRows(batch, row);
  }

  /** The stored order means nothing: stored rows in another order give the same rows. */
  lemma FastIgnoresStoredOrder(existing: seq<Row>, shuffled: seq<Row>, batch: seq<Row>)
    requires multiset(existing) == multiset(shuffled)
    ensures multiset(Fast(existing, batch)) == multiset(Fast(shuffled, batch))
  {
    forall row ensures multiset(Fast(existing, batch))[row] == multiset(Fast(shuffled, batch))[row] {
      FastRows(existing, batch, row);
      FastRows(shuffled, batch, row);
    }
  }

  // ----- the rows as a map, and runs

  function AsMap(rows: seq<Row>): map<Key, Row> {
    if rows == [] then map[] else AsMap(rows[..|rows| - 1])[rows[|rows| - 1].key := rows[|rows| - 1]]
  }

  lemma {:induction false} AsMapOfConcat(a: seq<Row>, b: seq<Row>)
    ensures AsMap(a + b) == AsMap(a) + AsMap(b)
    decreases |b|
  {
    if b == [] {
      assert a + b == a;
    } else {
      assert (a + b)[..|a + b| - 1] == a + b[..|b| - 1];
      AsMapOfConcat(a, b[..|b| - 1]);
    }
  }

  lemma {:induction false} AsMapKeys(rows: seq<Row>)
    ensures forall key :: key in AsMap(rows) <==> HasKey(rows, key)
    decreases |rows|
  {
    if rows != [] {
      var front, last := rows[..|rows| - 1], rows[|rows| - 1];
      assert rows == front + [last];
      AsMapKeys(front);
      forall key ensures HasKey(rows, key) <==> HasKey(front, key) || last.key == key {
        HasKeyOfConcat(front, [last], key);
        assert HasKey([last], key) <==> [last][0].key == key;
      }
    }
  }

  lemma AsMapHead(rows: seq<Row>)
    requires rows != []
    ensures AsMap(rows) == map[rows[0].key := rows[0]] + AsMap(rows[1..])
  {
    assert rows == [rows[0]] + rows[1..];
    AsMapOfConcat([rows[0]], rows[1..]);
    assert AsMap([rows[0]]) == map[rows[0].key := rows[0]];
  }

  lemma {:induction false} AsMapKeepLast(rows: seq<Row>)
    ensures AsMap(KeepLast(rows)) == AsMap(rows)
    decreases |rows|
  {
    if rows != [] {
      AsMapKeepLast(rows[1..]);
      AsMapHead(rows);
      AsMapKeys(rows[1..]);
      if !HasKey(rows[1..], rows[0].key) {
        AsMapHead([rows[0]] + KeepLast(rows[1..]));
      }
    }
  }

  lemma WithoutHead(head: Row, m: map<Key, Row>, n: map<Key, Row>)
    ensures head.key in n ==> (map[head.key := head] + m) + n == m + n
    ensures (map[head.key := head] + m) + n == map[head.key := head] + (m + n)
  {
  }

  lemma {:induction false} AsMapRetained(existing: seq<Row>, batch: seq<Row>)
    ensures AsMap(Retained(existing, KeepLast(batch))) + AsMap(batch) == AsMap(existing) + AsMap(batch)
    decreases |existing|
  {
    if existing != [] {
      var head, rest, retained := existing[0], existing[1..], Retained(existing[1..], KeepLast(batch));
      AsMapRetained(rest, batch);
      AsMapHead(existing);
      JoinsIff(head, batch);
      AsMapKeys(batch);
      WithoutHead(head, AsMap(rest), AsMap(batch));
      if !(NoNulls(head.key) && HasKey(batch, head.key)) {
        assert ([head] + retained)[1..] == retained;
        AsMapHead([head] + retained);
        WithoutHead(head, AsMap(retained), AsMap(batch));
      }
    }
  }

  /** An upsert is a map update. */
  lemma UpsertIsUpdate(existing: seq<Row>, batch: seq<Row>)
    ensures AsMap(Fast(existing, batch)) == AsMap(existing) + AsMap(batch)
  {
    AsMapRetained(existing, batch);
    AsMapOfConcat(Retained(existing, KeepLast(batch)), KeepLast(batch));
    AsMapKeepLast(batch);
  }

  /** The stored dataset; None has no files, and then the first batch is written as it is. */
  function StreamingUpsert(dataset: Option<seq<Row>>, batch: seq<Row>): seq<Row> {
    if dataset.None? then batch else Fast(dataset.value, batch)
  }

  function Run(rows: seq<Row>, batches: seq<seq<Row>>): seq<Row>
    decreases |batches|
  {
    if batches == [] then rows else Run(Fast(rows, batches[0]), batches[1..])
  }

  function Updated(m: map<Key, Row>, batches: seq<seq<Row>>): map<Key, Row>
    decreases |batches|
  {
    if batches == [] then m else Updated(m + AsMap(batches[0]), batches[1..])
  }

  /** The number of batches that bring the key. */
  function TimesSent(batches: seq<seq<Row>>, key: Key): nat {
    if batches == [] then 0 else (if HasKey(batches[0], key) then 1 else 0) + TimesSent(batches[1..], key)
  }

  /** A run of upserts is a fold of map updates. */
  lemma {:induction false} RunIsMapFold(rows: seq<Row>, batches: seq<seq<Row>>)
    ensures AsMap(Run(rows, batches)) == Updated(AsMap(rows), batches)
    decreases |batches|
  {
    if batches != [] {
      UpsertIsUpdate(rows, batches[0]);
      RunIsMapFold(Fast(rows, batches[0]), batches[1..]);
    }
  }

  lemma {:induction false} CopiesAfterRun(rows: seq<Row>, batches: seq<seq<Row>>, key: Key)
    ensures Copies(Run(rows, batches), key)
         == if !NoNulls(key) then Copies(rows, key) + TimesSent(batches, key)
            else if TimesSent(batches, key) > 0 then 1
            else Copies(rows, key)
    decreases |batches|
  {
    if batches != [] {
      CopiesAfter(rows, batches[0], key);
      CopiesAfterRun(Fast(rows, batches[0]), batches[1..], key);
    }
  }

  /** Keys are unique after a run that starts without files exactly when every key the first
      batch repeats is sent again later (only the first batch is not deduplicated) and every key
      with a null part occurs once in all: as one row of the first batch or in one later batch. */
  lemma UniqueAfterRunIff(first: seq<Row>, batches: seq<seq<Row>>)
    ensures UniqueKeys(Run(StreamingUpsert(None, first), batches))
            <==> forall key :: if NoNulls(key) then Copies(first, key) > 1 ==> TimesSent(batches, key) > 0
                               else Copies(first, key) + TimesSent(batches, key) <= 1
  {
    var end := Run(first, batches);
    UniqueIffOneCopy(end);
    forall key ensures Copies(end, key) == if !NoNulls(key) then Copies(first, key) + TimesSent(batches, key)
                                           else if TimesSent(batches, key) > 0 then 1
                                           else Copies(first, key) {
      CopiesAfterRun(first, batches, key);
    }
    if !OneCopyEach(end) {
      var key :| Copies(end, key) > 1;
      assert if NoNulls(key) then Copies(first, key) > 1 && TimesSent(batches, key) == 0
             else Copies(first, key) + TimesSent(batches, key) > 1;
    }
  }

  // ----- the dataset

  lemma StreamingMeaning(existing: seq<Row>, batch: seq<Row>)
    ensures forall row :: multiset(Fast(existing, batch))[row] == CountAfter(existing, batch, row)
    ensures AsMap(Fast(existing, batch)) == AsMap(existing) + AsMap(batch)
    ensures forall key :: HasKey(batch, key) && NoNulls(key) ==> Copies(Fast(existing, batch), key) == 1
    ensures forall key :: !HasKey(batch, key) ==> Copies(Fast(existing, batch), key) == Copies(existing, key)
  {
    forall row ensures multiset(Fast(existing, batch))[row] == CountAfter(existing, batch, row) {
      FastRows(existing, batch, row);
    }
    forall key ensures HasKey(batch, key) && NoNulls(key) ==> Copies(Fast(existing, batch), key) == 1
               ensures !HasKey(batch, key) ==> Copies(Fast(existing, batch), key) == Copies(existing, key) {
      CopiesAfter(existing, batch, key);
    }
    UpsertIsUpdate(existing, batch);
  }

  class Dataset {
    var rows: Option<seq<Row>>

    constructor ()
      ensures rows == None
    {
      rows := None;
    }

    /** `_streaming_upsert_parquet_dataset_unlocked`. */
    method UpsertStreaming(batch: seq<Row>) returns (height: nat)
      modifies this
      ensures rows == Some(StreamingUpsert(old(rows), batch)) && height == |rows.value|
      ensures old(rows).Some? ==> forall row :: multiset(rows.value)[row] == CountAfter(old(rows).value, batch, row)
      ensures AsMap(rows.value) == if old(rows).None? then AsMap(batch) else AsMap(old(rows).value) + AsMap(batch)
      ensures old(rows).Some? ==> forall key :: HasKey(batch, key) && NoNulls(key) ==> Copies(rows.value, key) == 1
      ensures old(rows).Some? ==> forall key :: !HasKey(batch, key) ==>
                Copies(rows.value, key) == Copies(old(rows).value, key)
    {
      if rows.None? {
        rows := Some(batch);
      } else {
        var incoming := KeepLast(batch);
        StreamingMeaning(rows.value, batch);
        rows := Some(Retained(rows.value, incoming) + incoming);
      }
      height := |rows.value|;
    }

    /** The in-memory branch of `upsert_parquet_dataset`. */
    method UpsertInMemory(batch: seq<Row>) returns (height: nat)
      modifies this
      ensures rows == Some(Simple(if old(rows).None? then [] else old(rows).value, batch))
      ensures UniqueKeys(rows.value) && height == |rows.value|
    {
      var existing := if rows.None? then [] else rows.value;
      KeepLastKeys(existing + batch);
      rows := Some(KeepLast(existing + batch));
      height := |rows.value|;
    }
  }
}
