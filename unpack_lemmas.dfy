/** What `unpack_json` (hagerstrand/dataprocess.py:43-78) promises, stated
    against definitions read directly off the input frame. */
module UnpackLemmas {
  import opened Tables
  import opened Seqs
  import opened JsonUnpack

  /** The key/value pairs a raw JSON cell contributes: none for a null or
      empty cell, the entries of the (decoded) dictionary otherwise. */
  function Entries(raw: Value, decode: Decoder): seq<(string, Value)>
  {
    match raw
    case Null => []
    case Text(s) => if s == "" then [] else (match decode(s) case Some(Dict(es)) => es case _ => [])
    case Dict(es) => es
    case _ => []
  }

  function KeyCounts(raws: seq<Value>, decode: Decoder): (ns: seq<nat>)
    ensures |ns| == |raws|
  {
    seq(|raws|, i requires 0 <= i < |raws| => |Entries(raws[i], decode)|)
  }

  /** The number of long rows an origin column yields. */
  function TotalKeys(raws: seq<Value>, decode: Decoder): nat
  {
    Sum(KeyCounts(raws, decode))
  }

  /** Where the long rows of origin row i start. */
  function Offset(raws: seq<Value>, decode: Decoder, i: nat): nat
    requires i <= |raws|
  {
    TotalKeys(raws[..i], decode)
  }

  /** The passthrough column and value row i of the working copy carries. */
  function PassFor(row: Row, jsonCol: string, indexName: Option<string>, decode: Decoder): Option<(string, Value)>
    requires jsonCol in row
  {
    match indexName
    case None => None
    case Some(n) =>
      var fields := row[DictColumn(jsonCol) := Decoded(row[jsonCol], decode)];
      if n in fields then Some((n, fields[n])) else None
  }

  function GroupOf(v: RowView, indexName: Option<string>, kc: string, vc: string): seq<(Value, Row)>
  {
    match RowRecords(v, indexName, kc, vc)
    case Success(g) => g
    case Failure(_) => []
  }

  function Groups(vs: seq<RowView>, indexName: Option<string>, kc: string, vc: string): (gs: seq<seq<(Value, Row)>>)
    ensures |gs| == |vs|
  {
    seq(|vs|, i requires 0 <= i < |vs| => GroupOf(vs[i], indexName, kc, vc))
  }

  /** The loop succeeds iff every row does, and then the accumulator is the
      rows' groups concatenated in order. */
  lemma {:induction false} CollectFlatten(vs: seq<RowView>, indexName: Option<string>, kc: string, vc: string)
    ensures Collect(vs, indexName, kc, vc).Success? <==>
            forall i :: 0 <= i < |vs| ==> RowRecords(vs[i], indexName, kc, vc).Success?
    ensures Collect(vs, indexName, kc, vc).Success? ==>
            Collect(vs, indexName, kc, vc).value == Flatten(Groups(vs, indexName, kc, vc))
  {
    if |vs| > 0 {
      var n := |vs| - 1;
      CollectFlatten(vs[..n], indexName, kc, vc);
      assert Groups(vs, indexName, kc, vc)[..n] == Groups(vs[..n], indexName, kc, vc);
      assert forall i :: 0 <= i < n ==> vs[..n][i] == vs[i];
    }
  }

  /** One origin row's records are its entries, in dictionary order, each
      carrying the row's index label. */
  lemma RowRecordsEntries(v: RowView, indexName: Option<string>, kc: string, vc: string, decode: Decoder)
    requires DecodedAs(v.raw, v.decoded, decode)
    requires RowRecords(v, indexName, kc, vc).Success?
    ensures var g := RowRecords(v, indexName, kc, vc).value;
            var es := Entries(v.raw, decode);
            && |g| == |es|
            && (|es| > 0 ==> Passthrough(v, indexName).Success?)
            && forall j :: 0 <= j < |es| ==>
                 g[j] == (v.origIndex, Record(Passthrough(v, indexName).value, kc, es[j].0, vc, es[j].1))
  {
    if !Skipped(v.raw) {
      assert v.decoded.Dict?;
      if v.raw.Text? {
        assert decode(v.raw.s) == Some(v.decoded);
      }
    }
  }

  /** A successful call found the column and decoded all of it. */
  lemma UnpackLoads(t: Table, jsonCol: string, indexName: Option<string>, keyCol: Option<string>,
                    valueCol: Option<string>, decode: Decoder)
    requires WellFormed(t)
    requires UnpackJsonSpec(t, jsonCol, indexName, keyCol, valueCol, decode).Success?
    ensures LoadJsonNan(t, jsonCol, decode).Success? && jsonCol in t.columns
  {
  }

  /** The facts about one successful call that the rest builds on: the
      decoded column, the row views, and the long rows as the concatenation
      of the views' groups. */
  lemma UnpackGroups(t: Table, jsonCol: string, indexName: Option<string>, keyCol: Option<string>,
                     valueCol: Option<string>, decode: Decoder)
    requires WellFormed(t)
    requires UnpackJsonSpec(t, jsonCol, indexName, keyCol, valueCol, decode).Success?
    ensures LoadJsonNan(t, jsonCol, decode).Success?
    ensures jsonCol in t.columns
    ensures var u := UnpackJsonSpec(t, jsonCol, indexName, keyCol, valueCol, decode).value;
            var vs := Views(t, jsonCol, LoadJsonNan(t, jsonCol, decode).value);
            var kc := KeyColName(jsonCol, keyCol);
            var vc := ValueColName(jsonCol, valueCol);
            var gs := Groups(vs, indexName, kc, vc);
            && Records(u) == Flatten(gs)
            && (forall i :: 0 <= i < |vs| ==> RowRecords(vs[i], indexName, kc, vc).Success?)
            && Lens(gs) == KeyCounts(Column(t, jsonCol), decode)
  {
    var u := UnpackJsonSpec(t, jsonCol, indexName, keyCol, valueCol, decode).value;
    var decoded := LoadJsonNan(t, jsonCol, decode).value;
    var vs := Views(t, jsonCol, decoded);
    var kc := KeyColName(jsonCol, keyCol);
    var vc := ValueColName(jsonCol, valueCol);
    var gs := Groups(vs, indexName, kc, vc);
    CollectFlatten(vs, indexName, kc, vc);
    var recs := Collect(vs, indexName, kc, vc).value;
    assert Records(u) == recs;
    var raws := Column(t, jsonCol);
    forall i | 0 <= i < |vs| ensures Lens(gs)[i] == KeyCounts(raws, decode)[i] {
      RowRecordsEntries(vs[i], indexName, kc, vc, decode);
    }
  }

  /** Line 53: a repeated index label, and only that, raises the
      non-unique-index error, before anything is decoded. */
  lemma UnpackNonUniqueIndex(t: Table, jsonCol: string, indexName: Option<string>, keyCol: Option<string>,
                             valueCol: Option<string>, decode: Decoder)
    requires WellFormed(t)
    ensures UnpackJsonSpec(t, jsonCol, indexName, keyCol, valueCol, decode) == Failure(NonUniqueIndex)
            <==> !NoDuplicates(t.index)
  {
    DistinctCount(t.index);
  }

  /** Line 56 decodes every text cell before the loop looks at any row: with
      a unique index and the column present, one undecodable text anywhere
      aborts the call with a decoding error. */
  lemma UnpackAbortsOnUndecodable(t: Table, jsonCol: string, indexName: Option<string>, keyCol: Option<string>,
                                  valueCol: Option<string>, decode: Decoder, i: nat)
    requires WellFormed(t) && NoDuplicates(t.index)
    requires jsonCol in t.columns && i < |t.rows|
    requires !Decodable(t.rows[i][jsonCol], decode)
    ensures var r := UnpackJsonSpec(t, jsonCol, indexName, keyCol, valueCol, decode);
            r.Failure? && r.error.DecodeFailed?
  {
    DistinctCount(t.index);
  }

  /** Since `json.loads('')` raises, an empty text cell aborts the call
      instead of being skipped: the `== ''` test of line 60 never fires. */
  lemma EmptyTextAborts(t: Table, jsonCol: string, indexName: Option<string>, keyCol: Option<string>,
                        valueCol: Option<string>, decode: Decoder, i: nat)
    requires WellFormed(t) && NoDuplicates(t.index) && RejectsEmptyText(decode)
    requires jsonCol in t.columns && i < |t.rows|
    requires t.rows[i][jsonCol] == Text("")
    ensures var r := UnpackJsonSpec(t, jsonCol, indexName, keyCol, valueCol, decode);
            r.Failure? && r.error.DecodeFailed?
  {
    UnpackAbortsOnUndecodable(t, jsonCol, indexName, keyCol, valueCol, decode, i);
  }

  /** A cell that is neither null nor empty must be (or decode to) a
      dictionary: `.items()` on anything else raises. */
  lemma UnpackRejectsNonMapping(t: Table, jsonCol: string, indexName: Option<string>, keyCol: Option<string>,
                                valueCol: Option<string>, decode: Decoder, i: nat)
    requires WellFormed(t) && jsonCol in t.columns && i < |t.rows|
    requires !Skipped(t.rows[i][jsonCol])
    requires !Decoded(t.rows[i][jsonCol], decode).Dict?
    ensures UnpackJsonSpec(t, jsonCol, indexName, keyCol, valueCol, decode).Failure?
  {
    DistinctCount(t.index);
    var loaded := LoadJsonNan(t, jsonCol, decode);
    if |Distinct(t.index)| == |t.rows| && loaded.Success? {
      var kc := KeyColName(jsonCol, keyCol);
      var vc := ValueColName(jsonCol, valueCol);
      var vs := Views(t, jsonCol, loaded.value);
      assert vs[i].raw == t.rows[i][jsonCol];
      RowRejectsNonMapping(vs[i], indexName, kc, vc, decode);
      CollectFlatten(vs, indexName, kc, vc);
      assert Collect(vs, indexName, kc, vc).Failure?;
    }
  }

  /** Line 71: with `index_name` naming no column (not even the working
      copy's `_dict` column), the first row that is not skipped raises. */
  lemma UnpackMissingIndexName(t: Table, jsonCol: string, n: string, keyCol: Option<string>,
                               valueCol: Option<string>, decode: Decoder, i: nat)
    requires WellFormed(t) && jsonCol in t.columns && i < |t.rows|
    requires n !in t.columns && n != DictColumn(jsonCol)
    requires !Skipped(t.rows[i][jsonCol])
    ensures UnpackJsonSpec(t, jsonCol, Some(n), keyCol, valueCol, decode).Failure?
  {
    DistinctCount(t.index);
    var loaded := LoadJsonNan(t, jsonCol, decode);
    if |Distinct(t.index)| == |t.rows| && loaded.Success? {
      var kc := KeyColName(jsonCol, keyCol);
      var vc := ValueColName(jsonCol, valueCol);
      var vs := Views(t, jsonCol, loaded.value);
      assert vs[i].raw == t.rows[i][jsonCol];
      assert n !in vs[i].fields;
      CollectFlatten(vs, Some(n), kc, vc);
      assert Collect(vs, Some(n), kc, vc).Failure?;
    }
  }

  lemma RowRejectsNonMapping(v: RowView, indexName: Option<string>, kc: string, vc: string, decode: Decoder)
    requires DecodedAs(v.raw, v.decoded, decode)
    requires !Skipped(v.raw) && !Decoded(v.raw, decode).Dict?
    ensures RowRecords(v, indexName, kc, vc).Failure?
  {
    assert v.decoded == Decoded(v.raw, decode);
  }

  /** Each origin row whose cell is not null contributes one long row per
      key; null rows contribute none. */
  lemma UnpackCount(t: Table, jsonCol: string, indexName: Option<string>, keyCol: Option<string>,
                    valueCol: Option<string>, decode: Decoder)
    requires WellFormed(t)
    requires UnpackJsonSpec(t, jsonCol, indexName, keyCol, valueCol, decode).Success?
    ensures jsonCol in t.columns
    ensures |UnpackJsonSpec(t, jsonCol, indexName, keyCol, valueCol, decode).value.rows|
            == TotalKeys(Column(t, jsonCol), decode)
  {
    UnpackGroups(t, jsonCol, indexName, keyCol, valueCol, decode);
    var vs := Views(t, jsonCol, LoadJsonNan(t, jsonCol, decode).value);
    FlattenLength(Groups(vs, indexName, KeyColName(jsonCol, keyCol), ValueColName(jsonCol, valueCol)));
  }

  /** Lines 76-77: when no row contributes a key, the frame built from no
      records has no `orig_index` column and the call fails. */
  lemma UnpackEmptyFails(t: Table, jsonCol: string, indexName: Option<string>, keyCol: Option<string>,
                         valueCol: Option<string>, decode: Decoder)
    requires WellFormed(t) && jsonCol in t.columns
    requires TotalKeys(Column(t, jsonCol), decode) == 0
    ensures UnpackJsonSpec(t, jsonCol, indexName, keyCol, valueCol, decode).Failure?
  {
    if UnpackJsonSpec(t, jsonCol, indexName, keyCol, valueCol, decode).Success? {
      UnpackCount(t, jsonCol, indexName, keyCol, valueCol, decode);
    }
  }

  /** When `unpack_json` succeeds: a unique index, the column present and
      decodable, every row that is not skipped holding a dictionary and the
      `index_name` column (which may be the decoded `_dict` column the copy
      adds), and at least one key in all. */
  lemma UnpackSucceeds(t: Table, jsonCol: string, indexName: Option<string>, keyCol: Option<string>,
                       valueCol: Option<string>, decode: Decoder)
    requires WellFormed(t) && NoDuplicates(t.index) && jsonCol in t.columns
    requires forall i :: 0 <= i < |t.rows| ==> Decodable(t.rows[i][jsonCol], decode)
    requires forall i :: 0 <= i < |t.rows| && !Skipped(t.rows[i][jsonCol]) ==>
               && Decoded(t.rows[i][jsonCol], decode).Dict?
               && (indexName.Some? ==> indexName.value in t.rows[i] || indexName.value == DictColumn(jsonCol))
    requires TotalKeys(Column(t, jsonCol), decode) > 0
    ensures UnpackJsonSpec(t, jsonCol, indexName, keyCol, valueCol, decode).Success?
  {
    DistinctCount(t.index);
    var kc := KeyColName(jsonCol, keyCol);
    var vc := ValueColName(jsonCol, valueCol);
    var raws := Column(t, jsonCol);
    var vs := Views(t, jsonCol, LoadJsonNan(t, jsonCol, decode).value);
    forall i | 0 <= i < |vs|
      ensures vs[i].raw == raws[i] && DecodedAs(vs[i].raw, vs[i].decoded, decode)
      ensures RowRecords(vs[i], indexName, kc, vc).Success?
    {
      assert vs[i].raw == t.rows[i][jsonCol];
    }
    CollectTotal(vs, indexName, kc, vc, raws, decode);
    UnpackAfterLoad(t, jsonCol, indexName, keyCol, valueCol, decode);
  }

  /** When every row succeeds, the loop yields one record per key. */
  lemma CollectTotal(vs: seq<RowView>, indexName: Option<string>, kc: string, vc: string,
                     raws: seq<Value>, decode: Decoder)
    requires |vs| == |raws|
    requires forall i :: 0 <= i < |vs| ==> && vs[i].raw == raws[i]
                                           && DecodedAs(vs[i].raw, vs[i].decoded, decode)
                                           && RowRecords(vs[i], indexName, kc, vc).Success?
    ensures Collect(vs, indexName, kc, vc).Success?
    ensures |Collect(vs, indexName, kc, vc).value| == TotalKeys(raws, decode)
  {
    var gs := Groups(vs, indexName, kc, vc);
    forall i | 0 <= i < |vs| ensures Lens(gs)[i] == KeyCounts(raws, decode)[i] {
      RowRecordsEntries(vs[i], indexName, kc, vc, decode);
    }
    assert Lens(gs) == KeyCounts(raws, decode);
    CollectFlatten(vs, indexName, kc, vc);
    FlattenLength(gs);
  }

  /** Record j of origin row i's group, as the row's view produces it. */
  lemma GroupAt(t: Table, jsonCol: string, decoded: seq<Value>, indexName: Option<string>, kc: string, vc: string,
                decode: Decoder, i: nat, j: nat)
    requires WellFormed(t) && jsonCol in t.columns && |decoded| == |t.rows| && i < |t.rows|
    requires DecodedAs(t.rows[i][jsonCol], decoded[i], decode)
    requires RowRecords(Views(t, jsonCol, decoded)[i], indexName, kc, vc).Success?
    requires j < |Entries(t.rows[i][jsonCol], decode)|
    ensures var gs := Groups(Views(t, jsonCol, decoded), indexName, kc, vc);
            var e := Entries(t.rows[i][jsonCol], decode)[j];
            && |gs[i]| == |Entries(t.rows[i][jsonCol], decode)|
            && gs[i][j] == (t.index[i], Record(PassFor(t.rows[i], jsonCol, indexName, decode), kc, e.0, vc, e.1))
  {
    var v := Views(t, jsonCol, decoded)[i];
    RowRecordsEntries(v, indexName, kc, vc, decode);
    assert v.decoded == Decoded(v.raw, decode);
    assert Passthrough(v, indexName).value == PassFor(t.rows[i], jsonCol, indexName, decode);
  }

  /** Where record j of origin row i lands in the long frame. */
  lemma UnpackLayoutAt(t: Table, jsonCol: string, indexName: Option<string>, keyCol: Option<string>,
                       valueCol: Option<string>, decode: Decoder, u: Table, i: nat, j: nat)
    requires WellFormed(t)
    requires UnpackJsonSpec(t, jsonCol, indexName, keyCol, valueCol, decode) == Success(u)
    requires jsonCol in t.columns && i < |t.rows|
    requires j < |Entries(Column(t, jsonCol)[i], decode)|
    ensures var raws := Column(t, jsonCol);
            var k := Offset(raws, decode, i) + j;
            && k < |u.rows|
            && u.index[k] == t.index[i]
            && u.rows[k] == Record(PassFor(t.rows[i], jsonCol, indexName, decode), KeyColName(jsonCol, keyCol),
                                   Entries(raws[i], decode)[j].0, ValueColName(jsonCol, valueCol),
                                   Entries(raws[i], decode)[j].1)
  {
    UnpackGroups(t, jsonCol, indexName, keyCol, valueCol, decode);
    var decoded := LoadJsonNan(t, jsonCol, decode).value;
    assert DecodedAs(t.rows[i][jsonCol], decoded[i], decode);
    LayoutFromGroups(t, jsonCol, decoded, indexName, KeyColName(jsonCol, keyCol), ValueColName(jsonCol, valueCol),
                     decode, u, i, j);
  }

  /** The layout step of `UnpackLayoutAt`, from the facts of `UnpackGroups`
      alone. */
  lemma LayoutFromGroups(t: Table, jsonCol: string, decoded: seq<Value>, indexName: Option<string>, kc: string,
                         vc: string, decode: Decoder, u: Table, i: nat, j: nat)
    requires WellFormed(t) && jsonCol in t.columns && |decoded| == |t.rows| && i < |t.rows|
    requires DecodedAs(t.rows[i][jsonCol], decoded[i], decode)
    requires RowRecords(Views(t, jsonCol, decoded)[i], indexName, kc, vc).Success?
    requires j < |Entries(Column(t, jsonCol)[i], decode)|
    requires |u.index| == |u.rows|
    requires Records(u) == Flatten(Groups(Views(t, jsonCol, decoded), indexName, kc, vc))
    requires Lens(Groups(Views(t, jsonCol, decoded), indexName, kc, vc)) == KeyCounts(Column(t, jsonCol), decode)
    ensures var raws := Column(t, jsonCol);
            var k := Offset(raws, decode, i) + j;
            && k < |u.rows|
            && u.index[k] == t.index[i]
            && u.rows[k] == Record(PassFor(t.rows[i], jsonCol, indexName, decode), kc,
                                   Entries(raws[i], decode)[j].0, vc, Entries(raws[i], decode)[j].1)
  {
    var raws := Column(t, jsonCol);
    assert raws[i] == t.rows[i][jsonCol];
    var gs := Groups(Views(t, jsonCol, decoded), indexName, kc, vc);
    GroupAt(t, jsonCol, decoded, indexName, kc, vc, decode, i, j);
    GroupedAt(Records(u), gs, KeyCounts(raws, decode), i, j);
    KeyCountsPrefix(raws, decode, i);
    var k := Offset(raws, decode, i) + j;
    RecordAt(u, k);
    assert (u.index[k], u.rows[k]) == gs[i][j];
  }

  /** Element j of group i sits after the lengths of the groups before it. */
  lemma GroupedAt<T>(recs: seq<T>, gs: seq<seq<T>>, counts: seq<nat>, i: nat, j: nat)
    requires recs == Flatten(gs) && Lens(gs) == counts
    requires i < |gs| && j < |gs[i]|
    ensures Sum(counts[..i]) + j < |recs| && recs[Sum(counts[..i]) + j] == gs[i][j]
  {
    FlattenAt(gs, i, j);
    assert Lens(gs[..i]) == Lens(gs)[..i];
  }

  lemma KeyCountsPrefix(raws: seq<Value>, decode: Decoder, i: nat)
    requires i <= |raws|
    ensures Offset(raws, decode, i) == Sum(KeyCounts(raws, decode)[..i])
  {
    assert KeyCounts(raws, decode)[..i] == KeyCounts(raws[..i], decode);
  }

  lemma RecordAt(u: Table, k: nat)
    requires |u.index| == |u.rows| && k < |Records(u)|
    ensures k < |u.rows| && Records(u)[k] == (u.index[k], u.rows[k])
  {
  }

  /** Record j of origin row i's dictionary is the long row that follows
      the records of all rows before i: it carries the origin row's index
      label, its key and value, and (with `index_name`) the origin row's
      value of that column. */
  ghost predicate LandsAt(t: Table, jsonCol: string, indexName: Option<string>, keyCol: Option<string>,
                          valueCol: Option<string>, decode: Decoder, u: Table, i: nat, j: nat)
    requires WellFormed(t) && jsonCol in t.columns && i < |t.rows|
    requires j < |Entries(t.rows[i][jsonCol], decode)|
  {
    var e := Entries(t.rows[i][jsonCol], decode)[j];
    var k := Offset(Column(t, jsonCol), decode, i) + j;
    && k < |u.rows| && k < |u.index|
    && u.index[k] == t.index[i]
    && u.rows[k] == Record(PassFor(t.rows[i], jsonCol, indexName, decode), KeyColName(jsonCol, keyCol),
                           e.0, ValueColName(jsonCol, valueCol), e.1)
  }

  /** The long rows are grouped by origin row in the frame's order, with the
      keys of each row in dictionary order: record j of row i lands at the
      number of keys of the rows before it, plus j. */
  lemma UnpackLayout(t: Table, jsonCol: string, indexName: Option<string>, keyCol: Option<string>,
                     valueCol: Option<string>, decode: Decoder, u: Table)
    requires WellFormed(t)
    requires UnpackJsonSpec(t, jsonCol, indexName, keyCol, valueCol, decode) == Success(u)
    ensures jsonCol in t.columns
    ensures forall i: nat, j: nat :: i < |t.rows| && j < |Entries(t.rows[i][jsonCol], decode)| ==>
              LandsAt(t, jsonCol, indexName, keyCol, valueCol, decode, u, i, j)
  {
    UnpackLoads(t, jsonCol, indexName, keyCol, valueCol, decode);
    forall i: nat, j: nat | i < |t.rows| && j < |Entries(t.rows[i][jsonCol], decode)|
      ensures LandsAt(t, jsonCol, indexName, keyCol, valueCol, decode, u, i, j)
    {
      UnpackLayoutAt(t, jsonCol, indexName, keyCol, valueCol, decode, u, i, j);
    }
  }

  /** The long rows form consecutive groups, one per origin row in the
      frame's order, every record of a group carrying that row's index
      label. */
  lemma UnpackGrouped(t: Table, jsonCol: string, indexName: Option<string>, keyCol: Option<string>,
                      valueCol: Option<string>, decode: Decoder)
    requires WellFormed(t)
    requires UnpackJsonSpec(t, jsonCol, indexName, keyCol, valueCol, decode).Success?
    ensures var u := UnpackJsonSpec(t, jsonCol, indexName, keyCol, valueCol, decode).value;
            exists gs: seq<seq<(Value, Row)>> ::
              && |gs| == |t.rows|
              && Records(u) == Flatten(gs)
              && forall i, k :: 0 <= i < |gs| && 0 <= k < |gs[i]| ==> gs[i][k].0 == t.index[i]
  {
    UnpackGroups(t, jsonCol, indexName, keyCol, valueCol, decode);
    var vs := Views(t, jsonCol, LoadJsonNan(t, jsonCol, decode).value);
    var gs := Groups(vs, indexName, KeyColName(jsonCol, keyCol), ValueColName(jsonCol, valueCol));
    assert forall i :: 0 <= i < |gs| ==> vs[i].origIndex == t.index[i];
  }

  /** With no column names given, the key and value land in
      `<json_column>_key` and `<json_column>_value`, and nothing else is in
      the long row. */
  lemma UnpackDefaultNames(t: Table, jsonCol: string, decode: Decoder, u: Table, i: nat, j: nat)
    requires WellFormed(t)
    requires UnpackJsonSpec(t, jsonCol, None, None, None, decode) == Success(u)
    requires jsonCol in t.columns && i < |t.rows|
    requires j < |Entries(Column(t, jsonCol)[i], decode)|
    ensures var raws := Column(t, jsonCol);
            var k := Offset(raws, decode, i) + j;
            && k < |u.rows|
            && u.rows[k] == map[jsonCol + "_key" := Text(Entries(raws[i], decode)[j].0),
                                jsonCol + "_value" := Entries(raws[i], decode)[j].1]
  {
    UnpackLayoutAt(t, jsonCol, None, None, None, decode, u, i, j);
    assert (jsonCol + "_key")[|jsonCol| + 1] != (jsonCol + "_value")[|jsonCol| + 1];
  }

  /** Lines 71-72: with `index_name` set to a column other than the key and
      value columns, every long row carries its origin row's value of it. */
  lemma UnpackCarriesIndexName(t: Table, jsonCol: string, n: string, keyCol: Option<string>,
                               valueCol: Option<string>, decode: Decoder, u: Table, i: nat, j: nat)
    requires WellFormed(t)
    requires UnpackJsonSpec(t, jsonCol, Some(n), keyCol, valueCol, decode) == Success(u)
    requires jsonCol in t.columns && i < |t.rows|
    requires j < |Entries(Column(t, jsonCol)[i], decode)|
    requires n in t.columns && n != DictColumn(jsonCol)
    requires n != KeyColName(jsonCol, keyCol) && n != ValueColName(jsonCol, valueCol)
    ensures var k := Offset(Column(t, jsonCol), decode, i) + j;
            k < |u.rows| && n in u.rows[k] && u.rows[k][n] == t.rows[i][n]
  {
    UnpackLayoutAt(t, jsonCol, Some(n), keyCol, valueCol, decode, u, i, j);
  }
}
