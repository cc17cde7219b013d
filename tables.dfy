/** The tabular data model shared by every operation: cell values, rows,
    frames with their row index, and the errors the operations raise. */
module Tables {

  datatype Option<+T> = None | Some(value: T)

  /** A cell value. `Null` stands for both `None` and `NaN` (what `pd.isnull`
      accepts); `Dict` is a decoded JSON object whose entries are listed in
      the dictionary's iteration order. */
  datatype Value =
    | Null
    | Num(n: int)
    | Text(s: string)
    | List(items: seq<Value>)
    | Dict(entries: seq<(string, Value)>)

  /** A row maps each column name to its cell. */
  type Row = map<string, Value>

  /** A data frame: its column names, its row index (one label per row) and
      its rows, in order. */
  datatype Table = Table(columns: seq<string>, index: seq<Value>, rows: seq<Row>)

  /** The exceptions the operations raise. */
  datatype Error =
    | NonUniqueIndex                    // the string raised when the index repeats a label
    | KeyNotFound(names: set<string>)   // a column that is not in the frame
    | DecodeFailed(text: string)        // json.loads rejected a text cell
    | NotAMapping                       // `.items()` on a cell that is not a dictionary
    | EmptyResult                       // `set_index('orig_index')` on a frame built from no rows
    | EmptySubset                       // drop_duplicates with an empty column subset
    | Unhashable                        // drop_duplicates comparing a dict or list cell

  datatype Result<+T> = Success(value: T) | Failure(error: Error)

  function ColumnSet(columns: seq<string>): set<string>
  {
    set c | c in columns
  }

  /** A frame is rectangular: one index label per row, and every row has
      exactly the frame's columns. */
  ghost predicate WellFormed(t: Table)
  {
    && |t.index| == |t.rows|
    && forall i :: 0 <= i < |t.rows| ==> t.rows[i].Keys == ColumnSet(t.columns)
  }

  /** The index `reset_index(drop=True)` installs: 0, 1, ..., n-1. */
  function Dense(n: nat): seq<Value>
  {
    seq(n, i => Num(i))
  }

  /** The distinct labels of an index (what `index.unique()` holds). */
  function Distinct<T>(s: seq<T>): set<T>
  {
    set x | x in s
  }

  ghost predicate NoDuplicates<T>(s: seq<T>)
  {
    forall i, j :: 0 <= i < j < |s| ==> s[i] != s[j]
  }

  /** Counting distinct labels detects a repeated label exactly. */
  lemma {:induction false} DistinctCount<T>(s: seq<T>)
    ensures |Distinct(s)| <= |s|
    ensures |Distinct(s)| == |s| <==> NoDuplicates(s)
  {
    if |s| > 0 {
      var n := |s| - 1;
      var init := s[..n];
      DistinctCount(init);
      assert s == init + [s[n]];
      assert Distinct(s) == Distinct(init) + {s[n]};
      if s[n] in init {
        assert s[n] in Distinct(init);
        assert Distinct(s) == Distinct(init);
        var k :| 0 <= k < n && init[k] == s[n];
        assert s[k] == s[n];
      } else {
        assert s[n] !in Distinct(init);
        if NoDuplicates(init) {
          forall i, j | 0 <= i < j < |s| ensures s[i] != s[j] {
            if j < n {
              assert s[i] == init[i] && s[j] == init[j];
            } else {
              assert s[i] in init;
            }
          }
        } else {
          var i, j :| 0 <= i < j < n && init[i] == init[j];
          assert s[i] == s[j];
        }
      }
    }
  }

  lemma DenseNoDuplicates(n: nat)
    ensures NoDuplicates(Dense(n))
  {
  }

  /** The cells of one column, top to bottom. */
  function Column(t: Table, c: string): seq<Value>
    requires WellFormed(t) && c in t.columns
  {
    seq(|t.rows|, i requires 0 <= i < |t.rows| => t.rows[i][c])
  }

  /** The frame's rows paired with their index labels. */
  function Records(t: Table): (rs: seq<(Value, Row)>)
    requires |t.index| == |t.rows|
    ensures |rs| == |t.rows|
  {
    seq(|t.rows|, k requires 0 <= k < |t.rows| => (t.index[k], t.rows[k]))
  }
}
