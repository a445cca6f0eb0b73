/** Cutting a sequence into consecutive fixed-width slices, and putting slices back together. */
module Slicing {

  function Min(a: nat, b: nat): nat
  {
    if a <= b then a else b
  }

  /** The in-order concatenation of a sequence of sequences. */
  function Flatten<T>(ss: seq<seq<T>>): seq<T>
  {
    if ss == [] then [] else ss[0] + Flatten(ss[1..])
  }

  /** Summed lengths of a sequence of sequences (a `reduce` over `.length`). */
  function TotalLength<T>(ss: seq<seq<T>>): nat
  {
    if ss == [] then 0 else |ss[0]| + TotalLength(ss[1..])
  }

  lemma {:induction false} FlattenAppend<T>(a: seq<seq<T>>, b: seq<seq<T>>)
    ensures Flatten(a + b) == Flatten(a) + Flatten(b)
  {
    if a == [] {
      assert a + b == b;
    } else {
      assert (a + b)[1..] == a[1..] + b;
      FlattenAppend(a[1..], b);
    }
  }

  lemma {:induction false} FlattenLength<T>(ss: seq<seq<T>>)
    ensures |Flatten(ss)| == TotalLength(ss)
  {
    if ss != [] {
      FlattenLength(ss[1..]);
    }
  }

  /** s[i..i+w], s[i+w..i+2w], … up to the end of s, the last slice clamped to |s|
      (as JavaScript's `slice(i, i + w)` clamps its end). */
  function Slices<T>(s: seq<T>, i: nat, w: nat): seq<seq<T>>
    requires w > 0
    decreases |s| - i
  {
    if i >= |s| then [] else [s[i..Min(i + w, |s|)]] + Slices(s, i + w, w)
  }

  lemma SlicesCons<T>(s: seq<T>, i: nat, w: nat)
    requires w > 0 && i < |s|
    ensures Slices(s, i, w) == [s[i..Min(i + w, |s|)]] + Slices(s, i + w, w)
  {
  }

  /** The slices put back in order give exactly the rest of s from i. */
  lemma {:induction false} SlicesFlatten<T>(s: seq<T>, i: nat, w: nat)
    requires w > 0 && i <= |s|
    ensures Flatten(Slices(s, i, w)) == s[i..]
    decreases |s| - i
  {
    if i < |s| {
      var r := Slices(s, i, w);
      assert r[1..] == Slices(s, i + w, w);
      if i + w < |s| {
        SlicesFlatten(s, i + w, w);
        assert s[i..] == s[i..i + w] + s[i + w..];
      } else {
        assert Slices(s, i + w, w) == [];
      }
    }
  }

  /** Every slice is non-empty and at most w long; all but the last are exactly w long. */
  lemma {:induction false} SlicesShape<T>(s: seq<T>, i: nat, w: nat)
    requires w > 0
    ensures forall j :: 0 <= j < |Slices(s, i, w)| ==> 1 <= |Slices(s, i, w)[j]| <= w
    ensures forall j :: 0 <= j < |Slices(s, i, w)| - 1 ==> |Slices(s, i, w)[j]| == w
    decreases |s| - i
  {
    if i < |s| {
      var r := Slices(s, i, w);
      assert r[1..] == Slices(s, i + w, w);
      SlicesShape(s, i + w, w);
      if i + w >= |s| {
        assert |r| == 1;
      } else {
        assert |r[0]| == w;
      }
    }
  }

  /** The number of slices c is the least with c * w >= |s| - i. */
  lemma {:induction false} SlicesCount<T>(s: seq<T>, i: nat, w: nat)
    requires w > 0 && i <= |s|
    ensures i == |s| ==> |Slices(s, i, w)| == 0
    ensures i < |s| ==> (|Slices(s, i, w)| - 1) * w < |s| - i <= |Slices(s, i, w)| * w
    decreases |s| - i
  {
    if i < |s| {
      var r := Slices(s, i, w);
      if i + w < |s| {
        SlicesCount(s, i + w, w);
        var c := |Slices(s, i + w, w)|;
        assert |r| == c + 1;
        assert (c - 1) * w < |s| - i - w <= c * w;
        assert (|r| - 1) * w == c * w;
        assert |r| * w == c * w + w;
      } else {
        assert |r| == 1;
      }
    }
  }
}
