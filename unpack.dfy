/** `load_json_nan` and `unpack_json` (hagerstrand/dataprocess.py:39-78):
    turning one dictionary-valued (or JSON-text) column into long form, one
    row per key. */
module JsonUnpack {
  import opened Tables
  import opened Seqs

  const DefaultJsonColumn := "visitor_home_cbgs"
  const DictSuffix := "_dict"
  const KeySuffix := "_key"
  const ValueSuffix := "_value"

  /** `json.loads` on one string: `None` when it raises. */
  type Decoder = string -> Option<Value>

  /** `json.loads('')` raises. */
  predicate RejectsEmptyText(decode: Decoder)
  {
    decode("") == None
  }

  /** A cell `load_json_nan` can process: text must decode. */
  predicate Decodable(cell: Value, decode: Decoder)
  {
    cell.Text? ==> decode(cell.s).Some?
  }

  /** The cell `load_json_nan` produces for a decodable cell: text is
      decoded, every other cell passes through unchanged. */
  function Decoded(cell: Value, decode: Decoder): Value
  {
    if cell.Text? && decode(cell.s).Some? then decode(cell.s).value else cell
  }

  /** `out` is what `load_json_nan` makes of `cell`. */
  predicate DecodedAs(cell: Value, out: Value, decode: Decoder)
  {
    Decodable(cell, decode) && out == Decoded(cell, decode)
  }

  /** The `apply` of line 40, cell by cell from the top; the first text that
      does not decode raises. */
  function DecodeCells(cells: seq<Value>, decode: Decoder): (r: Result<seq<Value>>)
    ensures r.Success? <==> forall i :: 0 <= i < |cells| ==> Decodable(cells[i], decode)
    ensures r.Success? ==> && |r.value| == |cells|
                           && forall i :: 0 <= i < |cells| ==> DecodedAs(cells[i], r.value[i], decode)
    ensures r.Failure? ==> exists i :: && 0 <= i < |cells|
                                       && !Decodable(cells[i], decode)
                                       && (forall h :: 0 <= h < i ==> Decodable(cells[h], decode))
                                       && r.error == DecodeFailed(cells[i].s)
  {
    if |cells| == 0 then Success([])
    else if cells[0].Text? && decode(cells[0].s).None? then Failure(DecodeFailed(cells[0].s))
    else
      var head := if cells[0].Text? then decode(cells[0].s).value else cells[0];
      match DecodeCells(cells[1..], decode)
      case Failure(e) =>
        assert forall h :: 1 <= h < |cells| ==> cells[1..][h - 1] == cells[h];
        Failure(e)
      case Success(rest) => Success([head] + rest)
  }

  /** `load_json_nan(df, json_col)`: the decoded column, or the error of
      `df[json_col]` or of `json.loads`. */
  function LoadJsonNan(t: Table, jsonCol: string, decode: Decoder): (r: Result<seq<Value>>)
    requires WellFormed(t)
    ensures r.Success? <==> && jsonCol in t.columns
                            && forall i :: 0 <= i < |t.rows| ==> Decodable(t.rows[i][jsonCol], decode)
    ensures r.Success? ==> && |r.value| == |t.rows|
                           && forall i :: 0 <= i < |t.rows| ==> DecodedAs(t.rows[i][jsonCol], r.value[i], decode)
    ensures jsonCol !in t.columns ==> r == Failure(KeyNotFound({jsonCol}))
    ensures jsonCol in t.columns && r.Failure? ==> r.error.DecodeFailed?
  {
    if jsonCol !in t.columns then Failure(KeyNotFound({jsonCol}))
    else
      var col := Column(t, jsonCol);
      assert forall i :: 0 <= i < |t.rows| ==> col[i] == t.rows[i][jsonCol];
      DecodeCells(col, decode)
  }

  function KeyColName(jsonCol: string, keyCol: Option<string>): string
  {
    match keyCol
    case None => jsonCol + KeySuffix
    case Some(k) => k
  }

  function ValueColName(jsonCol: string, valueCol: Option<string>): string
  {
    match valueCol
    case None => jsonCol + ValueSuffix
    case Some(v) => v
  }

  function DictColumn(jsonCol: string): string
  {
    jsonCol + DictSuffix
  }

  /** One row as the loop of lines 59-74 sees it: its index label (`orig_index`), the raw
      JSON cell, the decoded cell, and the row of the working copy, which has
      the decoded column added. */
  datatype RowView = RowView(origIndex: Value, raw: Value, decoded: Value, fields: Row)

  function Views(t: Table, jsonCol: string, decoded: seq<Value>): (vs: seq<RowView>)
    requires WellFormed(t) && jsonCol in t.columns && |decoded| == |t.rows|
    ensures |vs| == |t.rows|
  {
    seq(|t.rows|, i requires 0 <= i < |t.rows| =>
      RowView(t.index[i], t.rows[i][jsonCol], decoded[i], t.rows[i][DictColumn(jsonCol) := decoded[i]]))
  }

  /** The test of lines 60 and 68. The `next` under it is a bare expression,
      not `continue`: a row is skipped only because emission is in the else
      branch. */
  function Skipped(raw: Value): (s: bool)
    ensures s ==> raw.Null? || raw.Text?
    ensures raw.Null? ==> s
    ensures raw.Dict? || raw.List? || raw.Num? ==> !s
    ensures raw.Text? ==> (s <==> raw.s == "")
  {
    raw == Text("") || raw == Null
  }

  function PassKeys(pass: Option<(string, Value)>): set<string>
  {
    match pass
    case None => {}
    case Some(p) => {p.0}
  }

  function RecordKeys(indexName: Option<string>, kc: string, vc: string): set<string>
  {
    (match indexName case None => {} case Some(n) => {n}) + {kc, vc}
  }

  /** The dictionary literal of lines 63 and 72, without `orig_index`: the
      passthrough column (if any), then key, then value; a later entry with
      the same name overwrites an earlier one, as in a Python literal. */
  function Record(pass: Option<(string, Value)>, kc: string, key: string, vc: string, value: Value): (r: Row)
    ensures r.Keys == PassKeys(pass) + {kc, vc}
    ensures r[vc] == value
    ensures kc != vc ==> r[kc] == Text(key)
    ensures pass.Some? && pass.value.0 != kc && pass.value.0 != vc ==> r[pass.value.0] == pass.value.1
  {
    var base: Row := match pass case None => map[] case Some(p) => map[p.0 := p.1];
    base[kc := Text(key)][vc := value]
  }

  /** `temp = row[index_name]` (line 71). */
  function Passthrough(v: RowView, indexName: Option<string>): (r: Result<Option<(string, Value)>>)
    ensures r.Success? <==> indexName.None? || indexName.value in v.fields
    ensures r.Success? ==> r.value == if indexName.None? then None else Some((indexName.value, v.fields[indexName.value]))
    ensures r.Failure? ==> r.error == KeyNotFound({indexName.value})
  {
    match indexName
    case None => Success(None)
    case Some(n) => if n in v.fields then Success(Some((n, v.fields[n]))) else Failure(KeyNotFound({n}))
  }

  /** The long rows one origin row contributes, each paired with its
      `orig_index`. */
  function RowRecords(v: RowView, indexName: Option<string>, kc: string, vc: string): (r: Result<seq<(Value, Row)>>)
    ensures r.Success? ==> forall k :: 0 <= k < |r.value| ==>
              r.value[k].0 == v.origIndex && r.value[k].1.Keys == RecordKeys(indexName, kc, vc)
    ensures r.Success? <==> Skipped(v.raw) || (Passthrough(v, indexName).Success? && v.decoded.Dict?)
    ensures r.Failure? ==> r.error.KeyNotFound? || r.error == NotAMapping
  {
    if Skipped(v.raw) then Success([])
    else
      match Passthrough(v, indexName)
      case Failure(e) => Failure(e)
      case Success(pass) =>
        if v.decoded.Dict? then
          var es := v.decoded.entries;
          Success(seq(|es|, j requires 0 <= j < |es| => (v.origIndex, Record(pass, kc, es[j].0, vc, es[j].1))))
        else
          Failure(NotAMapping)
  }

  /** The accumulator `all_sgpid_cbg_data` after the rows of `vs`; the
      first failing row aborts. */
  function Collect(vs: seq<RowView>, indexName: Option<string>, kc: string, vc: string): (r: Result<seq<(Value, Row)>>)
    ensures r.Failure? ==> r.error.KeyNotFound? || r.error == NotAMapping
    ensures r.Success? ==> forall k :: 0 <= k < |r.value| ==> r.value[k].1.Keys == RecordKeys(indexName, kc, vc)
  {
    if |vs| == 0 then Success([])
    else
      match Collect(vs[..|vs| - 1], indexName, kc, vc)
      case Failure(e) => Failure(e)
      case Success(acc) =>
        match RowRecords(vs[|vs| - 1], indexName, kc, vc)
        case Failure(e) => Failure(e)
        case Success(g) => Success(acc + g)
  }

  /** The columns of `pd.DataFrame(records)` after `set_index('orig_index')`:
      names in the order the literal first mentions them. */
  function LongColumns(indexName: Option<string>, kc: string, vc: string): (cs: seq<string>)
    ensures ColumnSet(cs) == RecordKeys(indexName, kc, vc)
  {
    var p := match indexName case None => [] case Some(n) => [n];
    var withKey := if kc in p then p else p + [kc];
    if vc in withKey then withKey else withKey + [vc]
  }

  /** Lines 76-77: the records as a frame indexed by `orig_index`. */
  function LongTable(cols: seq<string>, recs: seq<(Value, Row)>): Table
  {
    Table(cols, seq(|recs|, k requires 0 <= k < |recs| => recs[k].0), seq(|recs|, k requires 0 <= k < |recs| => recs[k].1))
  }

  /** `unpack_json(df, json_column, index_name, key_col_name, value_col_name)`
      as a whole. */
  function UnpackJsonSpec(t: Table, jsonCol: string, indexName: Option<string>, keyCol: Option<string>,
                          valueCol: Option<string>, decode: Decoder): (r: Result<Table>)
    requires WellFormed(t)
    ensures r.Success? ==> WellFormed(r.value) && |r.value.rows| > 0
  {
    var kc := KeyColName(jsonCol, keyCol);
    var vc := ValueColName(jsonCol, valueCol);
    if |Distinct(t.index)| < |t.rows| then Failure(NonUniqueIndex)
    else
      match LoadJsonNan(t, jsonCol, decode)
      case Failure(e) => Failure(e)
      case Success(decoded) =>
        match Collect(Views(t, jsonCol, decoded), indexName, kc, vc)
        case Failure(e) => Failure(e)
        case Success(recs) =>
          if |recs| == 0 then Failure(EmptyResult)
          else Success(LongTable(LongColumns(indexName, kc, vc), recs))
  }

  /** `unpack_json`, step by step: the index check, the decoding of the whole
      column on a copy, then the loop that appends each row's records. The
      input frame is a value and so is never changed. */
  method UnpackJson(t: Table, jsonCol: string, indexName: Option<string>, keyCol: Option<string>,
                    valueCol: Option<string>, decode: Decoder) returns (r: Result<Table>)
    requires WellFormed(t)
    ensures r == UnpackJsonSpec(t, jsonCol, indexName, keyCol, valueCol, decode)
  {
    var kc := KeyColName(jsonCol, keyCol);
    var vc := ValueColName(jsonCol, valueCol);
    if |Distinct(t.index)| < |t.rows| {
      return Failure(NonUniqueIndex);
    }
    var loaded := LoadJsonNan(t, jsonCol, decode);
    if loaded.Failure? {
      return Failure(loaded.error);
    }
    var views := Views(t, jsonCol, loaded.value);
    UnpackAfterLoad(t, jsonCol, indexName, keyCol, valueCol, decode);
    var acc: seq<(Value, Row)> := [];
    var i := 0;
    while i < |views|
      invariant 0 <= i <= |views|
      invariant Collect(views[..i], indexName, kc, vc) == Success(acc)
    {
      var g := RowRecords(views[i], indexName, kc, vc);
      CollectStep(views, i, indexName, kc, vc);
      if g.Failure? {
        CollectPrefixFailure(views, i + 1, indexName, kc, vc);
        return Failure(g.error);
      }
      acc := acc + g.value;
      i := i + 1;
    }
    assert views[..i] == views;
    if |acc| == 0 {
      return Failure(EmptyResult);
    }
    r := Success(LongTable(LongColumns(indexName, kc, vc), acc));
  }

  /** Past the index check and the decoding, the call is the loop's outcome. */
  lemma UnpackAfterLoad(t: Table, jsonCol: string, indexName: Option<string>, keyCol: Option<string>,
                        valueCol: Option<string>, decode: Decoder)
    requires WellFormed(t) && |Distinct(t.index)| >= |t.rows| && LoadJsonNan(t, jsonCol, decode).Success?
    ensures var kc := KeyColName(jsonCol, keyCol);
            var vc := ValueColName(jsonCol, valueCol);
            var c := Collect(Views(t, jsonCol, LoadJsonNan(t, jsonCol, decode).value), indexName, kc, vc);
            UnpackJsonSpec(t, jsonCol, indexName, keyCol, valueCol, decode)
            == if c.Failure? then Failure(c.error)
               else if |c.value| == 0 then Failure(EmptyResult)
               else Success(LongTable(LongColumns(indexName, kc, vc), c.value))
  {
  }

  /** One more turn of the loop. */
  lemma CollectStep(vs: seq<RowView>, i: nat, indexName: Option<string>, kc: string, vc: string)
    requires i < |vs|
    ensures Collect(vs[..i + 1], indexName, kc, vc) ==
            match Collect(vs[..i], indexName, kc, vc)
            case Failure(e) => Failure(e)
            case Success(acc) =>
              match RowRecords(vs[i], indexName, kc, vc)
              case Failure(e) => Failure(e)
              case Success(g) => Success(acc + g)
  {
    assert vs[..i + 1][..i] == vs[..i];
  }

  /** Once a prefix of the rows has failed, the whole loop fails the same way. */
  lemma {:induction false} CollectPrefixFailure(vs: seq<RowView>, m: nat, indexName: Option<string>, kc: string, vc: string)
    requires m <= |vs|
    requires Collect(vs[..m], indexName, kc, vc).Failure?
    ensures Collect(vs, indexName, kc, vc) == Collect(vs[..m], indexName, kc, vc)
  {
    if m < |vs| {
      var n := |vs| - 1;
      assert vs[..n][..m] == vs[..m];
      CollectPrefixFailure(vs[..n], m, indexName, kc, vc);
    } else {
      assert vs[..m] == vs;
    }
  }
}
