/** Two small worked cases of the frame operations. */
module Scenarios {
  import opened Tables
  import opened JsonUnpack
  import Dedup

  /** Deduplicating the rows x=1, x=1, x=2 on every column keeps the first
      and the last, re-indexed 0 and 1. */
  lemma DeduplicateExample()
    ensures var t := Table(["x"], Dense(3), [map["x" := Num(1)], map["x" := Num(1)], map["x" := Num(2)]]);
            Dedup.Deduplicate(t, None) == Success(Table(["x"], [Num(0), Num(1)], [map["x" := Num(1)], map["x" := Num(2)]]))
  {
    var rows := [map["x" := Num(1)], map["x" := Num(1)], map["x" := Num(2)]];
    var t := Table(["x"], Dense(3), rows);
    assert !Dedup.HasUnhashable(t, ["x"]);
    var keys := Dedup.Keys(rows, None);
    assert keys == rows;
    assert keys[..1] == [map["x" := Num(1)]] && keys[..2] == [map["x" := Num(1)], map["x" := Num(1)]];
    assert Dedup.FirstPositions(keys[..1][..0]) == [];
    assert Dedup.FirstPositions(keys[..1]) == [0];
    assert keys[..2][..1] == keys[..1];
    assert Dedup.FirstPositions(keys[..2]) == [0];
    assert keys[..3][..2] == keys[..2] && keys[..3] == keys;
    assert keys[2]["x"] != keys[0]["x"];
    assert keys[2] !in keys[..2];
    assert Dedup.FirstPositions(keys) == [0, 2];
    assert Dense(2) == [Num(0), Num(1)];
    var kept := seq(2, j requires 0 <= j < 2 => rows[[0, 2][j]]);
    assert kept == [map["x" := Num(1)], map["x" := Num(2)]];
  }

  const Tags := Dict([("a", Num(10)), ("b", Num(20))])

  /** The frame of rows (1, {"a": 10, "b": 20}) and (2, null), indexed 1
      and 2. */
  function TagsFrame(): Table
  {
    Table(["id", "tags"], [Num(1), Num(2)], [map["id" := Num(1), "tags" := Tags], map["id" := Num(2), "tags" := Null]])
  }

  /** The two long records of the frame's first row. */
  function TagsRecords(): seq<(Value, Row)>
  {
    [(Num(1), map["k" := Text("a"), "v" := Num(10)]), (Num(1), map["k" := Text("b"), "v" := Num(20)])]
  }

  /** Neither cell is text, so `load_json_nan` leaves the column as it is. */
  lemma TagsLoaded(decode: Decoder)
    ensures WellFormed(TagsFrame()) && NoDuplicates(TagsFrame().index)
    ensures LoadJsonNan(TagsFrame(), "tags", decode) == Success([Tags, Null])
  {
    var t := TagsFrame();
    assert WellFormed(t);
    var loaded := LoadJsonNan(t, "tags", decode);
    assert loaded.Success? && |loaded.value| == 2;
    assert loaded.value[0] == Tags && loaded.value[1] == Null;
    assert loaded.value == [Tags, Null];
  }

  /** The loop emits both keys of the first row and skips the null row. */
  lemma TagsCollected()
    ensures WellFormed(TagsFrame())
    ensures Collect(Views(TagsFrame(), "tags", [Tags, Null]), None, "k", "v") == Success(TagsRecords())
  {
    var t := TagsFrame();
    assert WellFormed(t);
    var vs := Views(t, "tags", [Tags, Null]);
    var g := TagsRecords();
    assert vs[0].raw == Tags && vs[0].decoded == Tags && vs[0].origIndex == Num(1);
    var es := Tags.entries;
    assert Record(None, "k", "a", "v", Num(10)) == map["k" := Text("a"), "v" := Num(10)];
    assert Record(None, "k", "b", "v", Num(20)) == map["k" := Text("b"), "v" := Num(20)];
    assert seq(|es|, j requires 0 <= j < |es| => (Num(1), Record(None, "k", es[j].0, "v", es[j].1))) == g;
    assert RowRecords(vs[0], None, "k", "v") == Success(g);
    assert RowRecords(vs[1], None, "k", "v") == Success([]);
    assert vs[..1][..0] == [] && vs[..2][..1] == vs[..1] && vs[..2] == vs;
    assert Collect(vs[..1], None, "k", "v") == Success([] + g);
    assert [] + g == g && g + [] == g;
    assert Collect(vs, None, "k", "v") == Success(g + []);
  }

  /** Unpacking `tags` of that frame into `k` and `v` yields two long rows,
      both labelled 1; the null row yields none. */
  lemma UnpackExample(decode: Decoder)
    ensures WellFormed(TagsFrame())
    ensures UnpackJsonSpec(TagsFrame(), "tags", None, Some("k"), Some("v"), decode)
            == Success(Table(["k", "v"], [Num(1), Num(1)],
                             [map["k" := Text("a"), "v" := Num(10)], map["k" := Text("b"), "v" := Num(20)]]))
  {
    var t := TagsFrame();
    TagsLoaded(decode);
    TagsCollected();
    DistinctCount(t.index);
    assert LongColumns(None, "k", "v") == ["k", "v"];
    var long := LongTable(["k", "v"], TagsRecords());
    assert long.index == [Num(1), Num(1)];
    assert long.rows == [map["k" := Text("a"), "v" := Num(10)], map["k" := Text("b"), "v" := Num(20)]];
  }
}
