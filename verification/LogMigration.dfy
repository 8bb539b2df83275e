/**
 * The startup migration that moves each item's legacy log column into chunk rows, and the
 * reader that merges the two.
 */
module LogMigration {
  import opened Utf8
  import opened LogWriter

  const BATCH_SIZE: nat := 100

  /** The chunks of one item in id order. */
  function ChunksOf(rows: seq<LogRow>, item: nat): seq<Bytes> {
    if rows == [] then []
    else (if rows[0].item == item then [rows[0].chunk] else []) + ChunksOf(rows[1..], item)
  }

  lemma {:induction false} ChunksOfAppend(a: seq<LogRow>, b: seq<LogRow>, item: nat)
    ensures ChunksOf(a + b, item) == ChunksOf(a, item) + ChunksOf(b, item)
  {
    if a == [] {
      assert a + b == b;
    } else {
      assert (a + b)[1..] == a[1..] + b;
      ChunksOfAppend(a[1..], b, item);
    }
  }

  lemma {:induction false} ChunksOfRows(owner: nat, attempt: int, chunks: seq<Bytes>, item: nat)
    ensures ChunksOf(Rows(owner, attempt, chunks), item) == if item == owner then chunks else []
  {
    if chunks != [] {
      ChunksOfRows(owner, attempt, chunks[1..], item);
    }
  }

  function MergeLegacyAndChunkLogs(legacyLogs: Bytes, chunkLogs: Bytes): Bytes {
    if chunkLogs == [] then legacyLogs
    else if legacyLogs == [] then chunkLogs
    else if chunkLogs == legacyLogs || legacyLogs <= chunkLogs then chunkLogs
    else if chunkLogs <= legacyLogs then legacyLogs
    else legacyLogs + chunkLogs
  }

  /** ArchiveItemLogString: what a reader is shown. */
  function LogString(rows: seq<LogRow>, item: nat, legacyLogs: Bytes): Bytes {
    if ChunksOf(rows, item) == [] then legacyLogs
    else MergeLegacyAndChunkLogs(legacyLogs, Concat(ChunksOf(rows, item)))
  }

  /** Both columns and the rows survive in the merged text, whatever they hold. */
  lemma MergeLosesNothing(legacyLogs: Bytes, chunkLogs: Bytes)
    ensures var m := MergeLegacyAndChunkLogs(legacyLogs, chunkLogs);
            legacyLogs <= m && exists i :: 0 <= i <= |m| && chunkLogs <= m[i..]
  {
    var m := MergeLegacyAndChunkLogs(legacyLogs, chunkLogs);
    if m == legacyLogs + chunkLogs {
      assert chunkLogs <= m[|legacyLogs|..];
    } else {
      assert m[0..] == m;
      assert chunkLogs <= m[0..];
    }
  }

  datatype MigrationError = DatabaseError | NonMatchingChunks(item: nat) | VerificationFailed(item: nat)
  datatype Outcome = Done | Failed(error: MigrationError)

  /** The item's legacy text is what its rows will spell once the column is cleared. */
  predicate Migratable(rows: seq<LogRow>, item: nat, legacyLogs: Bytes) {
    if ChunksOf(rows, item) == [] then Valid(legacyLogs)
    else Concat(ChunksOf(rows, item)) == legacyLogs
  }

  /** Inserting the chunks of a legacy text spells the text back exactly when it was valid. */
  lemma FreshChunksSpellText(rows: seq<LogRow>, item: nat, legacyLogs: Bytes)
    requires ChunksOf(rows, item) == [] && legacyLogs != []
    ensures var after := rows + Rows(item, 0, SplitChunks(legacyLogs));
            ChunksOf(after, item) == SplitChunks(legacyLogs) != []
            && (Concat(ChunksOf(after, item)) == legacyLogs <==> Valid(legacyLogs))
  {
    ChunksOfAppend(rows, Rows(item, 0, SplitChunks(legacyLogs)), item);
    ChunksOfRows(item, 0, SplitChunks(legacyLogs), item);
    SplitLaw(legacyLogs);
    ToValidFixpoint(legacyLogs);
  }

  /** The same items, each read the same, with legacy text either kept or cleared. */
  ghost predicate SameReading(legacy0: map<nat, Bytes>, rows0: seq<LogRow>, legacy1: map<nat, Bytes>, rows1: seq<LogRow>) {
    legacy1.Keys == legacy0.Keys
    && forall item :: item in legacy0 ==>
         LogString(rows1, item, legacy1[item]) == LogString(rows0, item, legacy0[item])
         && (legacy1[item] == [] || legacy1[item] == legacy0[item])
  }

  lemma MigratedReadsTheSame(legacy: map<nat, Bytes>, rows0: seq<LogRow>, item: nat, rows1: seq<LogRow>)
    requires item in legacy && legacy[item] != [] && LogString(rows1, item, []) == legacy[item]
    requires if ChunksOf(rows0, item) == [] then rows1 == rows0 + Rows(item, 0, SplitChunks(legacy[item]))
             else rows1 == rows0 && Concat(ChunksOf(rows0, item)) == legacy[item]
    ensures SameReading(legacy, rows0, legacy[item := []], rows1)
  {
    forall other | other in legacy && other != item
      ensures LogString(rows1, other, legacy[other]) == LogString(rows0, other, legacy[other])
    {
      if rows1 != rows0 {
        ChunksOfAppend(rows0, Rows(item, 0, SplitChunks(legacy[item])), other);
        ChunksOfRows(item, 0, SplitChunks(legacy[item]), other);
        assert ChunksOf(rows0, other) + [] == ChunksOf(rows0, other);
      }
    }
  }

  lemma SameReadingTrans(l0: map<nat, Bytes>, r0: seq<LogRow>, l1: map<nat, Bytes>, r1: seq<LogRow>,
                         l2: map<nat, Bytes>, r2: seq<LogRow>)
    requires SameReading(l0, r0, l1, r1) && SameReading(l1, r1, l2, r2)
    ensures SameReading(l0, r0, l2, r2)
  {
  }

  ghost function Pending(legacy: map<nat, Bytes>): set<nat> {
    set item | item in legacy && legacy[item] != []
  }

  lemma PendingCleared(legacy: map<nat, Bytes>, item: nat)
    ensures Pending(legacy[item := []]) == Pending(legacy) - {item}
  {
  }

  /** archive_items.logs beside archive_item_logs. */
  class ItemLogs {
    var legacy: map<nat, Bytes>
    const table: LogTable
    /** How often a statement on archive_items has failed. */
    ghost var faults: nat

    ghost function Faults(): nat
      reads this, table
    {
      faults + table.faults
    }

    constructor (legacy: map<nat, Bytes>, table: LogTable)
      ensures this.legacy == legacy && this.table == table
    {
      this.legacy := legacy;
      this.table := table;
    }

    method ClearLegacy(item: nat) returns (ok: bool, affected: nat)
      modifies this
      ensures ok ==> affected == if item in old(legacy) then 1 else 0
      ensures legacy == if ok && item in old(legacy) then old(legacy)[item := []] else old(legacy)
      ensures faults == old(faults) + (if ok then 0 else 1)
    {
      ok := *;
      affected := 0;
      if !ok {
        faults := faults + 1;
      }
      if ok && item in legacy {
        legacy := legacy[item := []];
        affected := 1;
      }
    }

    /**
     * One item's transaction. It commits only for a migratable item and then keeps the reader's
     * text; every error leaves both tables as they were and says which check failed.
     */
    method BackfillItem(item: nat, legacyLogs: Bytes) returns (r: Outcome)
      requires item in legacy && legacy[item] == legacyLogs != []
      modifies this, table
      ensures r.Done? ==> Migratable(old(table.rows), item, legacyLogs)
      ensures r.Done? ==> legacy == old(legacy)[item := []]
      ensures r.Done? ==> SameReading(old(legacy), old(table.rows), legacy, table.rows)
      ensures r.Failed? ==> legacy == old(legacy) && table.rows == old(table.rows)
      ensures r.Failed? && !r.error.DatabaseError? ==> r.error.item == item && !Migratable(table.rows, item, legacyLogs)
      ensures r.Failed? && r.error.NonMatchingChunks? ==> ChunksOf(table.rows, item) != []
      ensures r.Failed? && r.error.VerificationFailed? ==> ChunksOf(table.rows, item) == []
      ensures Faults() >= old(Faults()) && (r.Failed? && r.error.DatabaseError? <==> Faults() > old(Faults()))
    {
      ghost var before := table.rows;
      var snapshot := table.rows;
      if ChunksOf(table.rows, item) == [] {
        FreshChunksSpellText(before, item, legacyLogs);
        var chunks := SplitArchiveLogChunks(legacyLogs);
        var ok := table.AppendChunks(item, 0, chunks);
        if !ok {
          return Failed(DatabaseError);
        }
      } else {
        if Concat(ChunksOf(table.rows, item)) != legacyLogs {
          return Failed(NonMatchingChunks(item));
        }
      }
      var reconstructed := LogString(table.rows, item, []);
      if |reconstructed| != |legacyLogs| || reconstructed != legacyLogs {
        table.rows := snapshot;
        return Failed(VerificationFailed(item));
      }
      var ok, affected := ClearLegacy(item);
      if !ok || affected != 1 {
        table.rows := snapshot;
        return Failed(DatabaseError);
      }
      MigratedReadsTheSame(old(legacy), before, item, table.rows);
      return Done;
    }

    /** Any 100 of the rows that still have legacy text, or all when there are fewer. */
    method SelectBatch() returns (ok: bool, items: seq<nat>)
      modifies this`faults
      ensures faults == old(faults) + (if ok then 0 else 1)
      ensures forall i :: 0 <= i < |items| ==> items[i] in Pending(legacy)
      ensures forall i, j :: 0 <= i < j < |items| ==> items[i] != items[j]
      ensures ok && items == [] ==> Pending(legacy) == {}
    {
      ok := *;
      items := [];
      if !ok {
        faults := faults + 1;
        return;
      }
      var left := set item | item in legacy && legacy[item] != [];
      while left != {} && |items| < BATCH_SIZE
        invariant left <= Pending(legacy)
        invariant forall i :: 0 <= i < |items| ==> items[i] in Pending(legacy) && items[i] !in left
        invariant forall i, j :: 0 <= i < j < |items| ==> items[i] != items[j]
        invariant items == [] ==> left == Pending(legacy)
        decreases left
      {
        var item :| item in left;
        items := items + [item];
        left := left - {item};
      }
    }

    /** The inner loop: done, every item of the batch is cleared. */
    method BackfillBatch(items: seq<nat>) returns (r: Outcome)
      requires items != [] && forall i :: 0 <= i < |items| ==> items[i] in Pending(legacy)
      requires forall i, j :: 0 <= i < j < |items| ==> items[i] != items[j]
      modifies this, table
      ensures SameReading(old(legacy), old(table.rows), legacy, table.rows)
      ensures r.Done? ==> Pending(legacy) < old(Pending(legacy))
      ensures r.Failed? && !r.error.DatabaseError? ==>
                r.error.item in Pending(legacy)
                && !Migratable(table.rows, r.error.item, legacy[r.error.item])
      ensures Faults() >= old(Faults()) && (r.Failed? && r.error.DatabaseError? <==> Faults() > old(Faults()))
    {
      r := Done;
      var k := 0;
      while k < |items|
        invariant 0 <= k <= |items|
        invariant r.Done? && Faults() == old(Faults())
        invariant SameReading(old(legacy), old(table.rows), legacy, table.rows)
        invariant forall i :: k <= i < |items| ==> items[i] in Pending(legacy)
        invariant Pending(legacy) <= old(Pending(legacy))
        invariant k > 0 ==> items[0] !in Pending(legacy)
      {
        ghost var legacy1, rows1 := legacy, table.rows;
        r := BackfillItem(items[k], legacy[items[k]]);
        if r.Failed? {
          return;
        }
        SameReadingTrans(old(legacy), old(table.rows), legacy1, rows1, legacy, table.rows);
        PendingCleared(legacy1, items[k]);
        k := k + 1;
      }
      assert items[0] in old(Pending(legacy));
    }

    /**
     * BackfillLegacyArchiveItemLogs. Success leaves no legacy text anywhere; either way no reader
     * sees a different log, and an item whose column is not cleared keeps its legacy text.
     */
    method BackfillAll() returns (r: Outcome)
      modifies this, table
      ensures SameReading(old(legacy), old(table.rows), legacy, table.rows)
      ensures r.Done? ==> Pending(legacy) == {}
      ensures r.Failed? && !r.error.DatabaseError? ==>
                r.error.item in Pending(legacy)
                && !Migratable(table.rows, r.error.item, legacy[r.error.item])
      ensures r.Failed? && r.error.DatabaseError? <==> Faults() > old(Faults())
    {
      while true
        invariant SameReading(old(legacy), old(table.rows), legacy, table.rows)
        invariant Faults() == old(Faults())
        decreases Pending(legacy)
      {
        var ok, items := SelectBatch();
        if !ok {
          return Failed(DatabaseError);
        }
        if |items| == 0 {
          return Done;
        }
        ghost var legacy1, rows1 := legacy, table.rows;
        r := BackfillBatch(items);
        SameReadingTrans(old(legacy), old(table.rows), legacy1, rows1, legacy, table.rows);
        if r.Failed? {
          return;
        }
      }
    }
  }
}
