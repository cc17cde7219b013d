/** Generic facts about concatenating a sequence of sequences, used by the
    unpacking and merging proofs. */
module Seqs {

  /** The concatenation of all groups, in order. */
  function Flatten<T>(ss: seq<seq<T>>): seq<T>
  {
    if |ss| == 0 then [] else Flatten(ss[..|ss| - 1]) + ss[|ss| - 1]
  }

  function Sum(xs: seq<nat>): nat
  {
    if |xs| == 0 then 0 else Sum(xs[..|xs| - 1]) + xs[|xs| - 1]
  }

  /** The length of every group. */
  function Lens<T>(ss: seq<seq<T>>): seq<nat>
  {
    seq(|ss|, i requires 0 <= i < |ss| => |ss[i]|)
  }

  lemma {:induction false} FlattenLength<T>(ss: seq<seq<T>>)
    ensures |Flatten(ss)| == Sum(Lens(ss))
  {
    if |ss| > 0 {
      var n := |ss| - 1;
      FlattenLength(ss[..n]);
      assert Lens(ss)[..n] == Lens(ss[..n]);
    }
  }

  /** Element j of group i sits right after all the groups before it. */
  lemma {:induction false} FlattenAt<T>(ss: seq<seq<T>>, i: nat, j: nat)
    requires i < |ss| && j < |ss[i]|
    ensures Sum(Lens(ss[..i])) + j < |Flatten(ss)|
    ensures Flatten(ss)[Sum(Lens(ss[..i])) + j] == ss[i][j]
  {
    var n := |ss| - 1;
    FlattenLength(ss[..n]);
    if i == n {
      assert ss[..i] == ss[..n];
    } else {
      FlattenAt(ss[..n], i, j);
      assert ss[..n][..i] == ss[..i];
    }
  }

  /** Every element of the concatenation comes from some group. */
  lemma {:induction false} FlattenMember<T>(ss: seq<seq<T>>, x: T)
    requires x in Flatten(ss)
    ensures exists i :: 0 <= i < |ss| && x in ss[i]
  {
    assert |ss| > 0;
    var n := |ss| - 1;
    if x !in ss[n] {
      FlattenMember(ss[..n], x);
      var i :| 0 <= i < n && x in ss[..n][i];
      assert x in ss[i];
    }
  }
}
