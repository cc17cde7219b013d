/** `ExtendedDataFrame` and `unpack_json_and_merge`
    (hagerstrand/dataprocess.py:5-34, 81-88): the frame object whose columns,
    index and rows the merge changes in place, and its convenience methods. */
module DataProcess {
  import opened Tables
  import opened JsonUnpack
  import Dedup
  import opened Merge

  /** A pandas frame: an ordered column list, one index label per row, and
      the rows. */
  class ExtendedDataFrame {
    var columns: seq<string>
    var index: seq<Value>
    var rows: seq<Row>

    /** The frame's current contents as a value. */
    function Snapshot(): Table
      reads this
    {
      Table(columns, index, rows)
    }

    ghost predicate Valid()
      reads this
    {
      WellFormed(Snapshot())
    }

    constructor (t: Table)
      requires WellFormed(t)
      ensures Valid() && Snapshot() == t
    {
      columns := t.columns;
      index := t.index;
      rows := t.rows;
    }

    /** `deduplicate(columns=None)` (lines 14-24): `None` compares whole
        rows, a list compares only those columns; the frame is unchanged. */
    method Deduplicate(subset: Option<seq<string>>) returns (r: Result<Table>)
      requires Valid()
      ensures r == Dedup.Deduplicate(Snapshot(), subset)
    {
      r := Dedup.Deduplicate(Snapshot(), subset);
    }

    /** `jsoncol_newdf` (lines 26-29): `unpack_json` with every default. */
    method JsonColNewDf(decode: Decoder) returns (r: Result<Table>)
      requires Valid()
      ensures r == UnpackJsonSpec(Snapshot(), DefaultJsonColumn, None, None, None, decode)
    {
      r := UnpackJson(Snapshot(), DefaultJsonColumn, None, None, None, decode);
    }

    /** `jsoncol_merge` (lines 31-34): `unpack_json_and_merge` with every
        default, so the frame's own index is reset. */
    method JsonColMerge(decode: Decoder) returns (r: Result<Table>)
      requires Valid()
      modifies this
      ensures Valid()
      ensures Snapshot() == ResetForMerge(old(Snapshot()), false)
      ensures r == MergeSpec(Snapshot(), DefaultJsonColumn, None, None, decode)
    {
      r := UnpackJsonAndMerge(this, DefaultJsonColumn, None, None, false, decode);
    }
  }

  /** `unpack_json_and_merge` (lines 81-88). The caller's frame is changed
      before unpacking starts, so it stays changed when unpacking fails. */
  method UnpackJsonAndMerge(df: ExtendedDataFrame, jsonCol: string, keyCol: Option<string>,
                            valueCol: Option<string>, keepIndex: bool, decode: Decoder)
    returns (r: Result<Table>)
    requires df.Valid()
    modifies df
    ensures df.Valid()
    ensures df.Snapshot() == ResetForMerge(old(df.Snapshot()), keepIndex)
    ensures r == MergeSpec(df.Snapshot(), jsonCol, keyCol, valueCol, decode)
  {
    ghost var before := df.Snapshot();
    if keepIndex {
      var rows, labels := df.rows, df.index;
      df.rows := seq(|rows|, i requires 0 <= i < |rows| => rows[i][IndexOriginal := labels[i]]);
      if IndexOriginal !in df.columns {
        df.columns := df.columns + [IndexOriginal];
      }
    }
    df.index := Dense(|df.rows|);
    var reset := df.Snapshot();
    assert reset == ResetForMerge(before, keepIndex);
    var unpacked := UnpackJson(reset, jsonCol, None, keyCol, valueCol, decode);
    match unpacked
    case Failure(e) =>
      r := Failure(e);
    case Success(u) =>
      var joined := JoinRows(Records(reset), Records(u));
      r := Success(Table(reset.columns + u.columns, Dense(|joined|), joined));
  }
}
