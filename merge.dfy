/** The join half of `unpack_json_and_merge` (hagerstrand/dataprocess.py:81-88):
    the origin frame with its index reset, inner-joined on the index with the
    long frame `unpack_json` builds from it. */
module Merge {
  import opened Tables
  import opened Seqs
  import opened JsonUnpack
  import opened UnpackLemmas

  /** The column `keep_index` saves the old index into (line 84). */
  const IndexOriginal := "index_original"

  /** Lines 83-85 applied to a frame: with `keep_index` each row gets its
      index label in `index_original` (a new last column unless the frame
      already had one), then the index becomes 0..n-1. */
  function ResetForMerge(t: Table, keepIndex: bool): (p: Table)
    requires WellFormed(t)
    ensures WellFormed(p)
    ensures p.index == Dense(|t.rows|) && NoDuplicates(p.index) && |p.rows| == |t.rows|
    ensures t.columns <= p.columns && |p.columns| <= |t.columns| + 1
    ensures !keepIndex ==> p.columns == t.columns && p.rows == t.rows
    ensures keepIndex ==> ColumnSet(p.columns) == ColumnSet(t.columns) + {IndexOriginal}
    ensures keepIndex && IndexOriginal in t.columns ==> p.columns == t.columns
    ensures keepIndex && IndexOriginal !in t.columns ==> p.columns == t.columns + [IndexOriginal]
    ensures keepIndex ==> forall i :: 0 <= i < |t.rows| ==>
              p.rows[i][IndexOriginal] == t.index[i] &&
              forall c :: c in t.rows[i] && c != IndexOriginal ==> p.rows[i][c] == t.rows[i][c]
  {
    var cols := if keepIndex && IndexOriginal !in t.columns then t.columns + [IndexOriginal] else t.columns;
    var rows := if keepIndex then seq(|t.rows|, i requires 0 <= i < |t.rows| => t.rows[i][IndexOriginal := t.index[i]])
                else t.rows;
    assert keepIndex ==> ColumnSet(cols) == ColumnSet(t.columns) + {IndexOriginal};
    DenseNoDuplicates(|t.rows|);
    Table(cols, Dense(|t.rows|), rows)
  }

  /** The rows a left row contributes to the inner join: itself widened by
      every right row with the same label, in right order. On a shared
      column name the right value is kept. */
  function Matches(l: (Value, Row), right: seq<(Value, Row)>): (ms: seq<Row>)
    ensures |ms| <= |right|
  {
    if |right| == 0 then []
    else
      var r := right[|right| - 1];
      Matches(l, right[..|right| - 1]) + (if r.0 == l.0 then [l.1 + r.1] else [])
  }

  /** The inner join on the index: left row order first, then right row
      order among the matches of one left row. */
  function JoinRows(left: seq<(Value, Row)>, right: seq<(Value, Row)>): (js: seq<Row>)
    ensures |js| <= |left| * |right|
  {
    if |left| == 0 then []
    else
      var n := |left| - 1;
      assert |left| * |right| == n * |right| + |right|;
      JoinRows(left[..n], right) + Matches(left[n], right)
  }

  /** A group of right rows, each widened by the same left row. */
  function Attach(lrow: Row, g: seq<(Value, Row)>): (ws: seq<Row>)
    ensures |ws| == |g|
  {
    seq(|g|, j requires 0 <= j < |g| => lrow + g[j].1)
  }

  /** A long row widened by the origin row its label names. */
  function Widen(lrows: seq<Row>, r: (Value, Row)): Row
  {
    if r.0.Num? && 0 <= r.0.n < |lrows| then lrows[r.0.n] + r.1 else r.1
  }

  /** The reference join against a dense left side: every right row in its
      own order, widened by its origin row. */
  function Combine(lrows: seq<Row>, right: seq<(Value, Row)>): (ws: seq<Row>)
    ensures |ws| == |right|
  {
    seq(|right|, k requires 0 <= k < |right| => Widen(lrows, right[k]))
  }

  /** Line 87: unpack the reset frame (line 86, no `index_name`), join on
      the index, and reset the joined frame's index. The joined frame has
      the origin columns followed by the long columns. */
  function MergeSpec(t: Table, jsonCol: string, keyCol: Option<string>, valueCol: Option<string>,
                     decode: Decoder): (r: Result<Table>)
    requires WellFormed(t)
    ensures r.Success? ==> r.value.index == Dense(|r.value.rows|)
    ensures r.Failure? <==> UnpackJsonSpec(t, jsonCol, None, keyCol, valueCol, decode).Failure?
    ensures r.Failure? ==> r.error == UnpackJsonSpec(t, jsonCol, None, keyCol, valueCol, decode).error
  {
    match UnpackJsonSpec(t, jsonCol, None, keyCol, valueCol, decode)
    case Failure(e) => Failure(e)
    case Success(u) =>
      var j := JoinRows(Records(t), Records(u));
      Success(Table(t.columns + u.columns, Dense(|j|), j))
  }

  /** Labels of group h are all h, as the long rows of a dense frame are. */
  ghost predicate LabelledByGroup(gs: seq<seq<(Value, Row)>>)
  {
    forall h, j :: 0 <= h < |gs| && 0 <= j < |gs[h]| ==> gs[h][j].0 == Num(h)
  }

  lemma {:induction false} MatchesConcat(l: (Value, Row), a: seq<(Value, Row)>, b: seq<(Value, Row)>)
    ensures Matches(l, a + b) == Matches(l, a) + Matches(l, b)
    decreases |b|
  {
    if |b| > 0 {
      var n := |b| - 1;
      assert (a + b)[..|a + b| - 1] == a + b[..n];
      MatchesConcat(l, a, b[..n]);
    } else {
      assert a + b == a;
    }
  }

  /** A group whose labels all equal the left row's label matches whole. */
  lemma {:induction false} MatchesAll(l: (Value, Row), g: seq<(Value, Row)>)
    requires forall j :: 0 <= j < |g| ==> g[j].0 == l.0
    ensures Matches(l, g) == Attach(l.1, g)
  {
    if |g| > 0 {
      var n := |g| - 1;
      MatchesAll(l, g[..n]);
      assert Attach(l.1, g) == Attach(l.1, g[..n]) + [l.1 + g[n].1];
    }
  }

  /** A group with no label equal to the left row's label matches nothing. */
  lemma {:induction false} MatchesNone(l: (Value, Row), g: seq<(Value, Row)>)
    requires forall j :: 0 <= j < |g| ==> g[j].0 != l.0
    ensures Matches(l, g) == []
  {
    if |g| > 0 {
      MatchesNone(l, g[..|g| - 1]);
    }
  }

  /** Against groups labelled by position, left label i matches exactly
      group i. */
  lemma {:induction false} MatchesGroups(l: (Value, Row), gs: seq<seq<(Value, Row)>>, i: nat)
    requires LabelledByGroup(gs) && l.0 == Num(i)
    ensures Matches(l, Flatten(gs)) == if i < |gs| then Attach(l.1, gs[i]) else []
  {
    if |gs| > 0 {
      var n := |gs| - 1;
      assert LabelledByGroup(gs[..n]) by {
        forall h, j | 0 <= h < n && 0 <= j < |gs[..n][h]| ensures gs[..n][h][j].0 == Num(h) {
          assert gs[..n][h] == gs[h];
        }
      }
      MatchesGroups(l, gs[..n], i);
      assert Flatten(gs) == Flatten(gs[..n]) + gs[n];
      MatchesConcat(l, Flatten(gs[..n]), gs[n]);
      if i == n {
        MatchesAll(l, gs[n]);
      } else {
        MatchesNone(l, gs[n]);
        if i < n {
          assert gs[..n][i] == gs[i];
        }
      }
    }
  }

  /** Joining a dense left side row by row yields each origin row's group
      of long rows in turn. */
  lemma {:induction false} JoinGroups(left: seq<(Value, Row)>, gs: seq<seq<(Value, Row)>>, m: nat)
    requires |left| == |gs| && m <= |left|
    requires forall i :: 0 <= i < |left| ==> left[i].0 == Num(i)
    requires LabelledByGroup(gs)
    ensures JoinRows(left[..m], Flatten(gs))
            == Flatten(seq(m, i requires 0 <= i < m => Attach(left[i].1, gs[i])))
  {
    var att := seq(m, i requires 0 <= i < m => Attach(left[i].1, gs[i]));
    if m > 0 {
      JoinGroups(left, gs, m - 1);
      assert left[..m][..m - 1] == left[..m - 1];
      assert att[..m - 1] == seq(m - 1, i requires 0 <= i < m - 1 => Attach(left[i].1, gs[i]));
      MatchesGroups(left[m - 1], gs, m - 1);
    }
  }

  lemma CombineConcat(lrows: seq<Row>, a: seq<(Value, Row)>, b: seq<(Value, Row)>)
    ensures Combine(lrows, a + b) == Combine(lrows, a) + Combine(lrows, b)
  {
  }

  /** The row-by-row join equals the reference join in long-row order. */
  lemma {:induction false} AttachedIsCombine(lrows: seq<Row>, gs: seq<seq<(Value, Row)>>, n: nat)
    requires n <= |gs| && |gs| == |lrows|
    requires LabelledByGroup(gs)
    ensures Flatten(seq(n, i requires 0 <= i < n => Attach(lrows[i], gs[i]))) == Combine(lrows, Flatten(gs[..n]))
  {
    var att := seq(n, i requires 0 <= i < n => Attach(lrows[i], gs[i]));
    if n > 0 {
      AttachedIsCombine(lrows, gs, n - 1);
      assert att[..n - 1] == seq(n - 1, i requires 0 <= i < n - 1 => Attach(lrows[i], gs[i]));
      assert gs[..n][..n - 1] == gs[..n - 1];
      CombineConcat(lrows, Flatten(gs[..n - 1]), gs[n - 1]);
      assert Combine(lrows, gs[n - 1]) == Attach(lrows[n - 1], gs[n - 1]);
    }
  }

  /** The inner join of a frame with a dense index and long rows grouped by
      origin row is the reference join. */
  lemma JoinDense(t: Table, gs: seq<seq<(Value, Row)>>)
    requires |t.index| == |t.rows| && t.index == Dense(|t.rows|)
    requires |gs| == |t.rows| && LabelledByGroup(gs)
    ensures JoinRows(Records(t), Flatten(gs)) == Combine(t.rows, Flatten(gs))
  {
    var left := Records(t);
    JoinGroups(left, gs, |left|);
    assert left[..|left|] == left;
    assert gs[..|gs|] == gs;
    var att1 := seq(|left|, i requires 0 <= i < |left| => Attach(left[i].1, gs[i]));
    var att2 := seq(|gs|, i requires 0 <= i < |gs| => Attach(t.rows[i], gs[i]));
    assert att1 == att2;
    AttachedIsCombine(t.rows, gs, |gs|);
  }

  /** The join of a dense frame with long rows grouped by origin row: one
      row per long row, each widened by the origin row it names. */
  lemma JoinWidens(t: Table, u: Table, gs: seq<seq<(Value, Row)>>)
    requires |t.index| == |t.rows| && t.index == Dense(|t.rows|) && |u.index| == |u.rows|
    requires |gs| == |t.rows| && LabelledByGroup(gs) && Records(u) == Flatten(gs)
    ensures |JoinRows(Records(t), Records(u))| == |u.rows|
    ensures forall k :: 0 <= k < |u.rows| ==>
              && u.index[k].Num? && 0 <= u.index[k].n < |t.rows|
              && JoinRows(Records(t), Records(u))[k] == t.rows[u.index[k].n] + u.rows[k]
  {
    JoinDense(t, gs);
    forall k | 0 <= k < |u.rows|
      ensures u.index[k].Num? && 0 <= u.index[k].n < |t.rows|
    {
      assert Records(u)[k] in Flatten(gs);
      FlattenMember(gs, Records(u)[k]);
    }
  }

  /** After the reset, the merge has one row per long row: that long row
      widened by the origin row its `orig_index` names. */
  lemma MergeRows(t: Table, jsonCol: string, keyCol: Option<string>, valueCol: Option<string>,
                  decode: Decoder, u: Table, m: Table)
    requires WellFormed(t) && t.index == Dense(|t.rows|)
    requires UnpackJsonSpec(t, jsonCol, None, keyCol, valueCol, decode) == Success(u)
    requires MergeSpec(t, jsonCol, keyCol, valueCol, decode) == Success(m)
    ensures |m.rows| == |u.rows| == |m.index|
    ensures m.columns == t.columns + u.columns
    ensures forall k :: 0 <= k < |u.rows| ==>
              && u.index[k].Num? && 0 <= u.index[k].n < |t.rows|
              && m.rows[k] == t.rows[u.index[k].n] + u.rows[k]
  {
    UnpackGrouped(t, jsonCol, None, keyCol, valueCol, decode);
    var gs: seq<seq<(Value, Row)>> :|
      && |gs| == |t.rows|
      && Records(u) == Flatten(gs)
      && forall i, k :: 0 <= i < |gs| && 0 <= k < |gs[i]| ==> gs[i][k].0 == t.index[i];
    JoinWidens(t, u, gs);
  }

  /** Combined with the unpacking layout: record j of origin row i's
      dictionary becomes the merged row at the same position, the origin
      row plus the key and value columns. */
  lemma MergeLayoutAt(t: Table, jsonCol: string, keyCol: Option<string>, valueCol: Option<string>,
                      decode: Decoder, m: Table, i: nat, j: nat)
    requires WellFormed(t) && t.index == Dense(|t.rows|)
    requires MergeSpec(t, jsonCol, keyCol, valueCol, decode) == Success(m)
    requires jsonCol in t.columns && i < |t.rows|
    requires j < |Entries(Column(t, jsonCol)[i], decode)|
    ensures var raws := Column(t, jsonCol);
            var k := Offset(raws, decode, i) + j;
            && k < |m.rows|
            && m.rows[k] == t.rows[i] + Record(None, KeyColName(jsonCol, keyCol), Entries(raws[i], decode)[j].0,
                                               ValueColName(jsonCol, valueCol), Entries(raws[i], decode)[j].1)
  {
    var u := UnpackJsonSpec(t, jsonCol, None, keyCol, valueCol, decode).value;
    UnpackLayoutAt(t, jsonCol, None, keyCol, valueCol, decode, u, i, j);
    MergeRows(t, jsonCol, keyCol, valueCol, decode, u, m);
  }

  /** The merge has as many rows as the long frame, which is the total
      number of keys over the origin rows. */
  lemma MergeCount(t: Table, jsonCol: string, keyCol: Option<string>, valueCol: Option<string>,
                   decode: Decoder, m: Table)
    requires WellFormed(t) && t.index == Dense(|t.rows|)
    requires MergeSpec(t, jsonCol, keyCol, valueCol, decode) == Success(m)
    ensures jsonCol in t.columns
    ensures |m.rows| == |UnpackJsonSpec(t, jsonCol, None, keyCol, valueCol, decode).value.rows|
    ensures |m.rows| == TotalKeys(Column(t, jsonCol), decode)
  {
    var u := UnpackJsonSpec(t, jsonCol, None, keyCol, valueCol, decode).value;
    MergeRows(t, jsonCol, keyCol, valueCol, decode, u, m);
    UnpackCount(t, jsonCol, None, keyCol, valueCol, decode);
  }

  /** The joined frame is rectangular: every row has the origin columns and
      the long columns. */
  lemma MergeWellFormed(t: Table, jsonCol: string, keyCol: Option<string>, valueCol: Option<string>,
                        decode: Decoder, m: Table)
    requires WellFormed(t) && t.index == Dense(|t.rows|)
    requires MergeSpec(t, jsonCol, keyCol, valueCol, decode) == Success(m)
    ensures WellFormed(m)
  {
    var u := UnpackJsonSpec(t, jsonCol, None, keyCol, valueCol, decode).value;
    MergeRows(t, jsonCol, keyCol, valueCol, decode, u, m);
    assert ColumnSet(t.columns + u.columns) == ColumnSet(t.columns) + ColumnSet(u.columns);
  }

  /** The reset makes the index unique, so the merge never fails on the
      non-unique index check; it fails exactly as unpacking fails. */
  lemma MergeNeverNonUnique(t: Table, keepIndex: bool, jsonCol: string, keyCol: Option<string>,
                            valueCol: Option<string>, decode: Decoder)
    requires WellFormed(t)
    ensures MergeSpec(ResetForMerge(t, keepIndex), jsonCol, keyCol, valueCol, decode) != Failure(NonUniqueIndex)
  {
    var p := ResetForMerge(t, keepIndex);
    UnpackNonUniqueIndex(p, jsonCol, None, keyCol, valueCol, decode);
  }
}
