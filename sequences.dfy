/** Order facts shared by the filters over UTXO lists, pools and peers. */
module Sequences {

  /** `r` lists the elements of `s` found at the strictly increasing
      positions `idx`: `r` is a subsequence of `s`, in the same order. */
  ghost predicate Picks<T>(idx: seq<int>, r: seq<T>, s: seq<T>)
  {
    && |idx| == |r|
    && (forall i :: 0 <= i < |idx| ==> 0 <= idx[i] < |s| && r[i] == s[idx[i]])
    && (forall i, j :: 0 <= i < j < |idx| ==> idx[i] < idx[j])
  }

  /** `r` is `s` with exactly the elements failing `keep` taken out and the
      others left in their original order. */
  ghost predicate IsFilterOf<T>(r: seq<T>, s: seq<T>, keep: T -> bool)
  {
    exists idx :: Picks(idx, r, s) && forall k :: 0 <= k < |s| ==> (k in idx <==> keep(s[k]))
  }

  lemma EmptyIsFilterOfEmpty<T>(keep: T -> bool)
    ensures IsFilterOf([], [], keep)
  {
    var none: seq<int>, empty: seq<T> := [], [];
    assert Picks(none, empty, empty);
  }

  /** A filter extends by one element at the end of its input. */
  lemma FilterSnoc<T>(r: seq<T>, s: seq<T>, keep: T -> bool, x: T)
    requires IsFilterOf(r, s, keep)
    ensures IsFilterOf(r + (if keep(x) then [x] else []), s + [x], keep)
  {
    var idx :| Picks(idx, r, s) && forall k :: 0 <= k < |s| ==> (k in idx <==> keep(s[k]));
    var s' := s + [x];
    if keep(x) {
      var idx' := idx + [|s|];
      assert Picks(idx', r + [x], s');
      forall k | 0 <= k < |s'|
        ensures k in idx' <==> keep(s'[k])
      {
        if k < |s| {
          assert s'[k] == s[k];
          assert k in idx' <==> k in idx;
        }
      }
    } else {
      assert Picks(idx, r, s');
      forall k | 0 <= k < |s'|
        ensures k in idx <==> keep(s'[k])
      {
        if k < |s| {
          assert s'[k] == s[k];
        } else {
          assert k !in idx;
        }
      }
      assert r + [] == r;
    }
  }
}
