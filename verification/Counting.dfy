/** Sizes of finite sets. */
module Counting {

  lemma {:induction false} InjectiveImageSize<A, T>(keys: set<A>, m: map<A, T>, image: set<T>)
    requires keys <= m.Keys && image == set i | i in keys :: m[i]
    requires forall i, i' :: i in keys && i' in keys && m[i] == m[i'] ==> i == i'
    ensures |keys| == |image|
  {
    if keys != {} {
      var i :| i in keys;
      InjectiveImageSize(keys - {i}, m, image - {m[i]});
    }
  }

  lemma DisjointSizes(a: set<nat>, b: set<nat>, c: set<nat>, d: set<nat>, e: set<nat>)
    requires a !! b && a !! c && a !! d && a !! e && b !! c && b !! d && b !! e && c !! d && c !! e && d !! e
    ensures |a + b + c + d + e| == |a| + |b| + |c| + |d| + |e|
  {
  }

  /** A set of numbers no two of which differ by more than `width`. */
  lemma {:induction false} NarrowSetSize(s: set<nat>, width: nat)
    requires forall i: nat, j: nat :: i in s && j in s && i < j ==> j - i <= width
    ensures |s| <= width + 1
  {
    if s != {} {
      var least := Least(s);
      RangeBound(s, least, width + 1);
    }
  }

  lemma {:induction false} Least(s: set<nat>) returns (least: nat)
    requires s != {}
    ensures least in s && forall i: nat :: i in s ==> least <= i
    decreases |s|
  {
    least :| least in s;
    var rest := s - {least};
    if rest != {} {
      var other := Least(rest);
      assert forall i: nat :: i in s ==> i == least || i in rest;
      if other < least { least := other; }
    } else {
      assert s == {least};
    }
  }

  lemma {:induction false} RangeBound(s: set<nat>, from: nat, n: nat)
    requires forall i: nat :: i in s ==> from <= i < from + n
    ensures |s| <= n
  {
    if s != {} {
      var i: nat :| i in s;
      var top := from + n - 1;
      RangeBound(s - {top}, from, n - 1);
      if top in s { assert |s| == |s - {top}| + 1; } else { assert s - {top} == s; }
    }
  }
}
