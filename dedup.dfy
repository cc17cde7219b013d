/** `ExtendedDataFrame.deduplicate` (hagerstrand/dataprocess.py:14-24):
    `drop_duplicates` (on every column, or on a column subset) followed by
    `reset_index(drop=True)`. */
module Dedup {
  import opened Tables

  /** What `drop_duplicates` compares of a row: the whole row, or only the
      subset columns. */
  function Key(r: Row, subset: Option<seq<string>>): Row
  {
    match subset
    case None => r
    case Some(cs) => map c | c in cs && c in r :: r[c]
  }

  function Keys(rows: seq<Row>, subset: Option<seq<string>>): (ks: seq<Row>)
    ensures |ks| == |rows|
  {
    seq(|rows|, i requires 0 <= i < |rows| => Key(rows[i], subset))
  }

  /** Row i is the first occurrence of its key. */
  predicate IsFirst<K(==)>(keys: seq<K>, i: nat)
    requires i < |keys|
  {
    keys[i] !in keys[..i]
  }

  predicate Increasing(ps: seq<nat>)
  {
    forall j, k :: 0 <= j < k < |ps| ==> ps[j] < ps[k]
  }

  /** The positions `keep='first'` retains, in ascending order. */
  function FirstPositions<K(==)>(keys: seq<K>): (ps: seq<nat>)
    ensures |ps| <= |keys|
    ensures Increasing(ps)
    ensures forall j :: 0 <= j < |ps| ==> ps[j] < |keys| && IsFirst(keys, ps[j])
    ensures forall i :: 0 <= i < |keys| && IsFirst(keys, i) ==> i in ps
  {
    if |keys| == 0 then []
    else
      var n := |keys| - 1;
      var init := keys[..n];
      var ps := FirstPositions(init);
      assert forall p :: 0 <= p < n ==> init[..p] == keys[..p];
      if keys[n] in init then ps else ps + [n]
  }

  /** The columns `drop_duplicates` hashes. */
  function Compared(t: Table, subset: Option<seq<string>>): seq<string>
  {
    match subset
    case None => t.columns
    case Some(cs) => cs
  }

  /** Some compared cell is a dict or a list, which pandas cannot hash. */
  predicate HasUnhashable(t: Table, cols: seq<string>)
  {
    exists i, c :: 0 <= i < |t.rows| && c in cols && c in t.rows[i] && (t.rows[i][c].List? || t.rows[i][c].Dict?)
  }

  function Missing(cs: seq<string>, columns: seq<string>): set<string>
  {
    set c | c in cs && c !in columns
  }

  /** `deduplicate(columns)`: a frame with no rows or no columns is returned
      as it is; otherwise an absent subset column, an empty subset, or an
      unhashable compared cell raises; otherwise the first row of every key
      is kept, in order, and the index is renumbered. */
  function Deduplicate(t: Table, subset: Option<seq<string>>): (r: Result<Table>)
    requires WellFormed(t)
    ensures r.Success? ==> && WellFormed(r.value)
                           && r.value.columns == t.columns
                           && r.value.index == Dense(|r.value.rows|)
                           && |r.value.rows| <= |t.rows|
                           && (forall j :: 0 <= j < |r.value.rows| ==> r.value.rows[j] in t.rows)
    ensures r.Success? <==> || |t.rows| == 0 || |t.columns| == 0
                            || (&& (subset.Some? ==> Missing(subset.value, t.columns) == {} && subset.value != [])
                                && !HasUnhashable(t, Compared(t, subset)))
    ensures r.Failure? ==> |t.rows| > 0 && |t.columns| > 0
    ensures (subset.Some? && Missing(subset.value, t.columns) != {} && |t.rows| > 0 && |t.columns| > 0)
            ==> r == Failure(KeyNotFound(Missing(subset.value, t.columns)))
  {
    if |t.rows| == 0 || |t.columns| == 0 then
      Success(Table(t.columns, Dense(|t.rows|), t.rows))
    else if subset.Some? && Missing(subset.value, t.columns) != {} then
      Failure(KeyNotFound(Missing(subset.value, t.columns)))
    else if subset == Some([]) then
      Failure(EmptySubset)
    else if HasUnhashable(t, Compared(t, subset)) then
      Failure(Unhashable)
    else
      var ps := FirstPositions(Keys(t.rows, subset));
      Success(Table(t.columns, Dense(|ps|), seq(|ps|, j requires 0 <= j < |ps| => t.rows[ps[j]])))
  }

  /** On success the kept rows are the rows at the first positions. */
  lemma DeduplicateKept(t: Table, subset: Option<seq<string>>)
    requires WellFormed(t) && |t.columns| > 0
    requires Deduplicate(t, subset).Success?
    ensures var ps := FirstPositions(Keys(t.rows, subset));
            var u := Deduplicate(t, subset).value;
            && |u.rows| == |ps|
            && forall j :: 0 <= j < |ps| ==> u.rows[j] == t.rows[ps[j]]
  {
    if |t.rows| == 0 {
      assert FirstPositions(Keys(t.rows, subset)) == [];
    }
  }

  /** For a frame with columns, no two kept rows agree on the compared
      columns. */
  lemma DeduplicateDistinct(t: Table, subset: Option<seq<string>>)
    requires WellFormed(t) && |t.columns| > 0
    requires Deduplicate(t, subset).Success?
    ensures var u := Deduplicate(t, subset).value;
            forall j, k :: 0 <= j < k < |u.rows| ==> Key(u.rows[j], subset) != Key(u.rows[k], subset)
  {
    var u := Deduplicate(t, subset).value;
    DeduplicateKept(t, subset);
    if |t.rows| > 0 {
      var keys := Keys(t.rows, subset);
      var ps := FirstPositions(keys);
      forall j, k | 0 <= j < k < |u.rows| ensures Key(u.rows[j], subset) != Key(u.rows[k], subset) {
        assert u.rows[j] == t.rows[ps[j]] && u.rows[k] == t.rows[ps[k]];
        assert ps[j] < ps[k];
        assert keys[ps[j]] in keys[..ps[k]];
      }
    }
  }

  /** The kept rows are exactly the first occurrences, in their original
      order: an ascending choice of positions that contains a position iff
      its row's key has not been seen before. */
  lemma DeduplicateKeepsFirst(t: Table, subset: Option<seq<string>>)
    requires WellFormed(t) && |t.columns| > 0
    requires Deduplicate(t, subset).Success?
    ensures var u := Deduplicate(t, subset).value;
            exists ps: seq<nat> ::
              && |ps| == |u.rows|
              && Increasing(ps)
              && (forall j :: 0 <= j < |ps| ==> ps[j] < |t.rows| && u.rows[j] == t.rows[ps[j]])
              && (forall i :: 0 <= i < |t.rows| ==> (i in ps <==> IsFirst(Keys(t.rows, subset), i)))
  {
    var u := Deduplicate(t, subset).value;
    var keys := Keys(t.rows, subset);
    var ps := FirstPositions(keys);
    DeduplicateKept(t, subset);
    forall i | 0 <= i < |t.rows| ensures i in ps <==> IsFirst(keys, i) {
      if i in ps {
        var j :| 0 <= j < |ps| && ps[j] == i;
      }
    }
  }

  /** Every input row's key survives: some kept row carries it. */
  lemma {:induction false} FirstOccurrenceKept<K>(keys: seq<K>, i: nat)
    requires i < |keys|
    ensures exists j :: 0 <= j < |FirstPositions(keys)| && keys[FirstPositions(keys)[j]] == keys[i]
    decreases i
  {
    var ps := FirstPositions(keys);
    if IsFirst(keys, i) {
      var j :| 0 <= j < |ps| && ps[j] == i;
    } else {
      var i' :| 0 <= i' < i && keys[..i][i'] == keys[i];
      FirstOccurrenceKept(keys, i');
    }
  }

  lemma DeduplicateCovers(t: Table, subset: Option<seq<string>>)
    requires WellFormed(t) && |t.columns| > 0
    requires Deduplicate(t, subset).Success?
    ensures var u := Deduplicate(t, subset).value;
            forall i :: 0 <= i < |t.rows| ==>
              exists j :: 0 <= j < |u.rows| && Key(u.rows[j], subset) == Key(t.rows[i], subset)
  {
    var u := Deduplicate(t, subset).value;
    var keys := Keys(t.rows, subset);
    var ps := FirstPositions(keys);
    DeduplicateKept(t, subset);
    forall i | 0 <= i < |t.rows|
      ensures exists j :: 0 <= j < |u.rows| && Key(u.rows[j], subset) == Key(t.rows[i], subset)
    {
      FirstOccurrenceKept(keys, i);
      var j :| 0 <= j < |ps| && keys[ps[j]] == keys[i];
      assert u.rows[j] == t.rows[ps[j]];
    }
  }

  /** Keys that are already pairwise distinct are all kept. */
  lemma {:induction false} FirstPositionsOfDistinct<K>(keys: seq<K>)
    requires NoDuplicates(keys)
    ensures FirstPositions(keys) == seq(|keys|, i => i)
  {
    if |keys| > 0 {
      var n := |keys| - 1;
      var init := keys[..n];
      assert NoDuplicates(init);
      FirstPositionsOfDistinct(init);
      assert seq(|init|, i => i) + [n] == seq(|keys|, i => i);
    }
  }

  /** A frame whose compared keys are already distinct and whose index is
      already dense comes back unchanged. */
  lemma DeduplicateOfDistinct(u: Table, subset: Option<seq<string>>)
    requires WellFormed(u) && |u.rows| > 0 && |u.columns| > 0
    requires u.index == Dense(|u.rows|)
    requires subset.Some? ==> Missing(subset.value, u.columns) == {} && subset.value != []
    requires !HasUnhashable(u, Compared(u, subset))
    requires NoDuplicates(Keys(u.rows, subset))
    ensures Deduplicate(u, subset) == Success(u)
  {
    var ukeys := Keys(u.rows, subset);
    FirstPositionsOfDistinct(ukeys);
    var ps := FirstPositions(ukeys);
    assert seq(|ps|, j requires 0 <= j < |ps| => u.rows[ps[j]]) == u.rows;
  }

  /** The kept rows hold no cell the input did not hold. */
  lemma DeduplicateKeepsHashable(t: Table, subset: Option<seq<string>>)
    requires WellFormed(t) && |t.rows| > 0 && |t.columns| > 0
    requires Deduplicate(t, subset).Success?
    ensures !HasUnhashable(Deduplicate(t, subset).value, Compared(t, subset))
  {
  }

  /** Deduplicating a deduplicated frame changes nothing. */
  lemma DeduplicateIdempotent(t: Table, subset: Option<seq<string>>)
    requires WellFormed(t)
    requires Deduplicate(t, subset).Success?
    ensures Deduplicate(Deduplicate(t, subset).value, subset) == Deduplicate(t, subset)
  {
    var u := Deduplicate(t, subset).value;
    if |t.rows| > 0 && |t.columns| > 0 {
      var keys := Keys(t.rows, subset);
      assert IsFirst(keys, 0);
      assert |u.rows| > 0;
      DeduplicateKeepsHashable(t, subset);
      DeduplicateDistinct(t, subset);
      assert NoDuplicates(Keys(u.rows, subset));
      DeduplicateOfDistinct(u, subset);
    }
  }
}
