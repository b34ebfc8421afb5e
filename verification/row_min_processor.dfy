/**
  statsRowMinProcessor: the mutable accumulator of one row_min call. It keeps
  the least source value seen so far and a snapshot of the row holding it,
  and every update reports by how many bytes the state grew.
 */
module RowMinProcessor {
  import opened BlockResults
  import opened RowMinFunc
  import opened RowMinSpec

  /** The loop of updateState that subtracts the size of the old snapshot. */
  method SizeOfFields(fs: seq<Field>) returns (size: nat)
    ensures size == FieldsSize(fs)
  {
    size := 0;
    var i := 0;
    while i < |fs|
      invariant 0 <= i <= |fs|
      invariant size == FieldsSize(fs[..i])
    {
      assert fs[..i + 1][..i] == fs[..i];
      size := size + ByteLen(fs[i].name) + ByteLen(fs[i].value);
      i := i + 1;
    }
    assert fs[..i] == fs;
  }

  /** The dictionary loop of updateStatsForAllRows: does some dictionary value beat `min`? */
  method AnyDictValueWins(min: string, dict: seq<string>, less: (string, string) -> bool) returns (needUpdateState: bool)
    ensures needUpdateState == AnyWins(min, dict, less)
  {
    needUpdateState := false;
    var k := 0;
    while k < |dict|
      invariant 0 <= k <= |dict|
      invariant needUpdateState == AnyWins(min, dict[..k], less)
    {
      assert dict[..k + 1][..k] == dict[..k];
      if !needUpdateState && NeedUpdate(min, dict[k], less) {
        needUpdateState := true;
      }
      k := k + 1;
    }
    assert dict[..k] == dict;
  }

  /**
    The loops of updateState that rebuild the snapshot from row `rowIdx`,
    appending one field per column (or per fetch field) and adding its size.
   */
  method RowSnapshot(fetchFields: seq<string>, br: BlockResult, rowIdx: nat) returns (fields: seq<Field>, size: nat)
    requires WellFormed(br) && rowIdx < br.rows
    ensures fields == Snapshot(fetchFields, br, rowIdx)
    ensures size == FieldsSize(fields)
  {
    if |fetchFields| == 0 {
      fields, size := SnapshotAllColumns(br, rowIdx);
    } else {
      fields, size := SnapshotFetchFields(fetchFields, br, rowIdx);
    }
  }

  /** The loop over every column of the block. */
  method SnapshotAllColumns(br: BlockResult, rowIdx: nat) returns (fields: seq<Field>, size: nat)
    requires WellFormed(br) && rowIdx < br.rows
    ensures fields == Snapshot([], br, rowIdx)
    ensures size == FieldsSize(fields)
  {
    ghost var snapshot := Snapshot([], br, rowIdx);
    fields, size := [], 0;
    var cs := br.columns;
    var j := 0;
    while j < |cs|
      invariant 0 <= j <= |cs|
      invariant fields == snapshot[..j]
      invariant size == FieldsSize(fields)
    {
      var c := cs[j];
      var v := c.values[rowIdx];
      assert snapshot[..j + 1] == snapshot[..j] + [Field(c.name, v)];
      FieldsSizeAppend(fields, Field(c.name, v));
      fields := fields + [Field(c.name, v)];
      size := size + ByteLen(c.name) + ByteLen(v);
      j := j + 1;
    }
  }

  /** The loop over the fetch fields, each read through getColumnByName. */
  method SnapshotFetchFields(fetchFields: seq<string>, br: BlockResult, rowIdx: nat) returns (fields: seq<Field>, size: nat)
    requires WellFormed(br) && rowIdx < br.rows && fetchFields != []
    ensures fields == Snapshot(fetchFields, br, rowIdx)
    ensures size == FieldsSize(fields)
  {
    ghost var snapshot := Snapshot(fetchFields, br, rowIdx);
    fields, size := [], 0;
    var j := 0;
    while j < |fetchFields|
      invariant 0 <= j <= |fetchFields|
      invariant fields == snapshot[..j]
      invariant size == FieldsSize(fields)
    {
      var c := ColumnByName(br, fetchFields[j]);
      var v := c.values[rowIdx];
      assert snapshot[..j + 1] == snapshot[..j] + [Field(c.name, v)];
      FieldsSizeAppend(fields, Field(c.name, v));
      fields := fields + [Field(c.name, v)];
      size := size + ByteLen(c.name) + ByteLen(v);
      j := j + 1;
    }
  }

  class Processor {
    var min: string
    var fields: seq<Field>

    /** A snapshot exists only beside a minimum. */
    ghost predicate Valid()
      reads this
    {
      min == "" ==> fields == []
    }

    function Current(): State
      reads this
    {
      State(min, fields)
    }

    constructor ()
      ensures Valid() && Current() == Initial
    {
      min := "";
      fields := [];
    }

    /**
      updateState: offer value `v` of row `rowIdx`. When `v` wins, the
      minimum becomes `v` and the snapshot is rebuilt from that row; the
      result is the change in state size.
     */
    method UpdateState(sm: StatsRowMin, v: string, br: BlockResult, rowIdx: nat, less: (string, string) -> bool)
      returns (stateSizeIncrease: int)
      requires Valid() && WellFormed(br) && rowIdx < br.rows
      modifies this
      ensures Valid()
      ensures Current() == Step(old(Current()), Candidate(v, Snapshot(sm.fetchFields, br, rowIdx)), less)
      ensures stateSizeIncrease == StateSize(Current()) - StateSize(old(Current()))
    {
      stateSizeIncrease := 0;

      if !NeedUpdate(min, v, less) {
        return;
      }

      stateSizeIncrease := stateSizeIncrease - ByteLen(min);
      stateSizeIncrease := stateSizeIncrease + ByteLen(v);
      min := v;

      var removed := SizeOfFields(fields);
      stateSizeIncrease := stateSizeIncrease - removed;

      var newFields, added := RowSnapshot(sm.fetchFields, br, rowIdx);
      stateSizeIncrease := stateSizeIncrease + added;
      fields := newFields;
    }

    /**
      updateStatsForRow: offer row `rowIdx`. Whatever the source column's
      encoding, the value offered is that row's value of the column.
     */
    method UpdateStatsForRow(sm: StatsRowMin, br: BlockResult, rowIdx: nat, less: (string, string) -> bool)
      returns (stateSizeIncrease: int)
      requires Valid() && WellFormed(br) && rowIdx < br.rows
      modifies this
      ensures Valid()
      ensures Current() == Step(old(Current()), Candidates(sm.fetchFields, br, SourceColumn(sm, br))[rowIdx], less)
      ensures stateSizeIncrease == StateSize(Current()) - StateSize(old(Current()))
    {
      stateSizeIncrease := 0;
      var c := ColumnByName(br, sm.srcField);
      if c.kind.Const? {
        var v := c.values[0];
        var d := UpdateState(sm, v, br, rowIdx, less);
        stateSizeIncrease := stateSizeIncrease + d;
        return;
      }
      // For the `_time` column the values are the rendered row timestamps.
      var v := c.values[rowIdx];
      var d := UpdateState(sm, v, br, rowIdx, less);
      stateSizeIncrease := stateSizeIncrease + d;
    }

    /**
      updateStatsForAllRows: offer every row of the block. A constant column
      is offered once; the `_time` column offers its earliest timestamp once
      when the numeric pre-check passes; other columns are read row by row
      unless their summary shows that no row can win.
     */
    method UpdateStatsForAllRows(sm: StatsRowMin, br: BlockResult, less: (string, string) -> bool,
                                 timestampLess: (string, string) -> bool)
      returns (stateSizeIncrease: int)
      requires Valid() && WellFormed(br)
      modifies this
      ensures Valid()
      ensures Current() == AllRows(old(Current()), sm, br, less, timestampLess)
      ensures stateSizeIncrease == StateSize(Current()) - StateSize(old(Current()))
    {
      stateSizeIncrease := 0;
      var c := ColumnByName(br, sm.srcField);
      if c.kind.Const? {
        if br.rows == 0 {
          // A block without rows offers nothing.
          return;
        }
        var v := c.values[0];
        var d := UpdateState(sm, v, br, 0, less);
        stateSizeIncrease := stateSizeIncrease + d;
        return;
      }
      if c.kind.Time? {
        // A block without rows has no earlier timestamp to offer.
        if br.rows == 0 || !timestampLess(c.kind.minTimestamp, min) {
          return;
        }
        var d := UpdateState(sm, c.kind.minTimestamp, br, 0, less);
        stateSizeIncrease := stateSizeIncrease + d;
        return;
      }

      var needUpdateState := false;
      if c.kind.Strings? {
        needUpdateState := true;
      } else if c.kind.Dict? {
        needUpdateState := AnyDictValueWins(min, c.kind.dictValues, less);
      } else {
        needUpdateState := NeedUpdate(min, c.kind.minValue, less);
      }

      if needUpdateState {
        stateSizeIncrease := UpdateStatsForEachRow(sm, br, c, less);
      }
    }

    /** The row loop of updateStatsForAllRows: offer every row of the block in order. */
    method UpdateStatsForEachRow(sm: StatsRowMin, br: BlockResult, c: Column, less: (string, string) -> bool)
      returns (stateSizeIncrease: int)
      requires Valid() && WellFormed(br) && ColumnOk(c, br.rows)
      modifies this
      ensures Valid()
      ensures Current() == Run(old(Current()), Candidates(sm.fetchFields, br, c), less)
      ensures stateSizeIncrease == StateSize(Current()) - StateSize(old(Current()))
    {
      stateSizeIncrease := 0;
      ghost var start := Current();
      ghost var cands := Candidates(sm.fetchFields, br, c);
      var values := c.values;
      var i := 0;
      while i < |values|
        invariant 0 <= i <= |values|
        invariant Valid()
        invariant Current() == Run(start, cands[..i], less)
        invariant stateSizeIncrease == StateSize(Current()) - StateSize(start)
      {
        assert cands[..i + 1][..i] == cands[..i];
        assert cands[i] == Candidate(values[i], Snapshot(sm.fetchFields, br, i));
        var d := UpdateState(sm, values[i], br, i, less);
        assert Current() == Step(Run(start, cands[..i], less), cands[i], less);
        stateSizeIncrease := stateSizeIncrease + d;
        i := i + 1;
      }
      assert cands[..i] == cands;
    }

    /** mergeState: adopt `src`'s minimum and snapshot together when its minimum wins. */
    method MergeState(src: Processor, less: (string, string) -> bool)
      requires Valid()
      modifies this
      ensures Valid()
      ensures Current() == Merge(old(Current()), old(src.Current()), less)
    {
      if NeedUpdate(min, src.min, less) {
        min := src.min;
        fields := src.fields;
      }
    }
  }
}
