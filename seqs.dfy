/** `Iterator::filter_map` over a sequence, and what it keeps. */
module Seqs {
  import opened Wrappers

  /** `Iterator::filter_map` collected into a `Vec`: the values `f` gives, in order, with
      the elements it maps to `None` dropped. */
  function FilterMap<A, B>(xs: seq<A>, f: A -> Option<B>): (ys: seq<B>)
    ensures |ys| <= |xs|
    decreases |xs|
  {
    if xs == [] then []
    else match f(xs[0])
      case Some(y) => [y] + FilterMap(xs[1..], f)
      case None => FilterMap(xs[1..], f)
  }

  /** `idx` picks, in increasing order, the elements `f` keeps, and `ys` holds their images:
      `ys` is the list of kept values in their original order, duplicates included. */
  ghost predicate IsSelection<A, B>(idx: seq<nat>, xs: seq<A>, f: A -> Option<B>, ys: seq<B>) {
    && |idx| == |ys|
    && (forall k :: 0 <= k < |idx| ==> idx[k] < |xs| && f(xs[idx[k]]) == Some(ys[k]))
    && Increasing(idx)
    && (forall i :: 0 <= i < |xs| && i !in idx ==> f(xs[i]).None?)
  }

  predicate Increasing(idx: seq<nat>) {
    forall k, l :: 0 <= k < l < |idx| ==> idx[k] < idx[l]
  }

  /** Moving positions right keeps them increasing, and makes room for position 0 in front. */
  lemma ShiftIncreasing(sub: seq<nat>)
    requires Increasing(sub)
    ensures Increasing(Shift(sub)) && Increasing([0] + Shift(sub))
  {
    var shifted := Shift(sub);
    var idx := [0] + shifted;
    forall k, l | 0 <= k < l < |idx| ensures idx[k] < idx[l] {
      assert idx[l] == shifted[l - 1];
      if k > 0 {
        assert idx[k] == shifted[k - 1];
      }
    }
  }

  /** Positions moved one place to the right. */
  function Shift(idx: seq<nat>): (r: seq<nat>)
    ensures |r| == |idx| && forall k :: 0 <= k < |idx| ==> r[k] == idx[k] + 1
  {
    seq(|idx|, k requires 0 <= k < |idx| => idx[k] + 1)
  }

  lemma ShiftMembership(idx: seq<nat>, i: nat)
    requires i >= 1
    ensures i in Shift(idx) <==> i - 1 in idx
  {
    if i - 1 in idx {
      var k :| 0 <= k < |idx| && idx[k] == i - 1;
      assert Shift(idx)[k] == i;
    }
  }

  /** A selection of `rest` stays one of `[x] + rest` when positions move right by one. */
  lemma ShiftedSelection<A, B>(x: A, rest: seq<A>, f: A -> Option<B>, sub: seq<nat>, ys: seq<B>)
    requires IsSelection(sub, rest, f, ys)
    ensures forall k :: 0 <= k < |sub| ==>
      Shift(sub)[k] < |[x] + rest| && f(([x] + rest)[Shift(sub)[k]]) == Some(ys[k])
    ensures forall i :: 1 <= i < |[x] + rest| && i !in Shift(sub) ==> f(([x] + rest)[i]).None?
  {
    var xs := [x] + rest;
    var shifted := Shift(sub);
    forall k | 0 <= k < |sub| ensures shifted[k] < |xs| && f(xs[shifted[k]]) == Some(ys[k]) {
      assert xs[shifted[k]] == rest[sub[k]];
    }
    forall i | 1 <= i < |xs| && i !in shifted ensures f(xs[i]).None? {
      ShiftMembership(sub, i);
      assert xs[i] == rest[i - 1];
    }
  }

  /** An element `f` drops adds nothing to the selection. */
  lemma SkipSelection<A, B>(x: A, rest: seq<A>, f: A -> Option<B>, sub: seq<nat>, ys: seq<B>)
    requires f(x).None?
    requires IsSelection(sub, rest, f, ys)
    ensures IsSelection(Shift(sub), [x] + rest, f, ys)
  {
    ShiftedSelection(x, rest, f, sub, ys);
    ShiftIncreasing(sub);
  }

  /** An element `f` keeps is selected first. */
  lemma KeepSelection<A, B>(x: A, rest: seq<A>, f: A -> Option<B>, sub: seq<nat>, ys: seq<B>)
    requires f(x).Some?
    requires IsSelection(sub, rest, f, ys)
    ensures IsSelection([0] + Shift(sub), [x] + rest, f, [f(x).value] + ys)
  {
    ShiftedSelection(x, rest, f, sub, ys);
    var idx := [0] + Shift(sub);
    var out := [f(x).value] + ys;
    var xs := [x] + rest;
    forall k | 0 <= k < |idx| ensures idx[k] < |xs| && f(xs[idx[k]]) == Some(out[k]) {
      if k > 0 {
        assert idx[k] == Shift(sub)[k - 1];
      }
    }
    ShiftIncreasing(sub);
    forall i | 0 <= i < |xs| && i !in idx ensures f(xs[i]).None? {
      assert i != 0;
      assert i !in Shift(sub);
    }
  }

  /** Every kept value comes from an element that `f` maps to it, in the elements' order,
      and every element left out is one that `f` maps to `None`. */
  lemma {:induction false} FilterMapSelects<A, B>(xs: seq<A>, f: A -> Option<B>) returns (idx: seq<nat>)
    ensures IsSelection(idx, xs, f, FilterMap(xs, f))
    decreases |xs|
  {
    if xs == [] {
      idx := [];
    } else {
      var sub := FilterMapSelects(xs[1..], f);
      assert xs == [xs[0]] + xs[1..];
      if f(xs[0]).Some? {
        KeepSelection(xs[0], xs[1..], f, sub, FilterMap(xs[1..], f));
        idx := [0] + Shift(sub);
      } else {
        SkipSelection(xs[0], xs[1..], f, sub, FilterMap(xs[1..], f));
        idx := Shift(sub);
      }
    }
  }

  /** A value is in the result exactly when `f` maps some element to it. */
  lemma {:induction false} FilterMapMembership<A, B>(xs: seq<A>, f: A -> Option<B>, y: B)
    ensures y in FilterMap(xs, f) <==> exists i :: 0 <= i < |xs| && f(xs[i]) == Some(y)
    decreases |xs|
  {
    if xs != [] {
      var rest := xs[1..];
      FilterMapMembership(rest, f, y);
      if exists i :: 0 <= i < |rest| && f(rest[i]) == Some(y) {
        var i :| 0 <= i < |rest| && f(rest[i]) == Some(y);
        assert xs[i + 1] == rest[i];
      }
      if exists i :: 0 <= i < |xs| && f(xs[i]) == Some(y) {
        var i :| 0 <= i < |xs| && f(xs[i]) == Some(y);
        if i > 0 {
          assert rest[i - 1] == xs[i];
        }
      }
    }
  }
}
