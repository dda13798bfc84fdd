/**
  Ordering of parsed version numbers (cluster/utils/version.go).

  A version is a sequence of integers of any length. Missing parts count as zero;
  when all parts agree that way, the longer version is the greater.
*/
module Versions {

  type Version = seq<int>

  const VERSION_EQUAL := 0
  const VERSION_LESS := -1
  const VERSION_GREATER := 1

  /** Part `i` of a version, zero past its end. */
  function Part(v: Version, i: nat): int {
    if i < |v| then v[i] else 0
  }

  function CompareFrom(v: Version, target: Version, i: nat): int
    decreases |v| + |target| - i
  {
    if i >= |v| && i >= |target| then
      if |v| > |target| then VERSION_GREATER
      else if |v| < |target| then VERSION_LESS
      else VERSION_EQUAL
    else if Part(v, i) > Part(target, i) then VERSION_GREATER
    else if Part(v, i) < Part(target, i) then VERSION_LESS
    else CompareFrom(v, target, i + 1)
  }

  /** The meaning of `compareVersions`. */
  function Compare(v: Version, target: Version): int {
    CompareFrom(v, target, 0)
  }

  /** `compareVersions` itself: one pass over the longer of the two. */
  method CompareVersions(v: Version, target: Version) returns (r: int)
    ensures r == Compare(v, target)
  {
    var i := 0;
    while i < |v| || i < |target|
      invariant Compare(v, target) == CompareFrom(v, target, i)
      decreases |v| + |target| - i
    {
      var v1, v2 := 0, 0;
      if i < |v| { v1 := v[i]; }
      if i < |target| { v2 := target[i]; }
      if v1 > v2 {
        return VERSION_GREATER;
      } else if v1 < v2 {
        return VERSION_LESS;
      }
      i := i + 1;
    }
    if |v| > |target| {
      r := VERSION_GREATER;
    } else if |v| < |target| {
      r := VERSION_LESS;
    } else {
      r := VERSION_EQUAL;
    }
  }

  predicate Equal(v: Version, target: Version) { Compare(v, target) == VERSION_EQUAL }
  predicate Less(v: Version, target: Version) { Compare(v, target) == VERSION_LESS }
  predicate Greater(v: Version, target: Version) { Compare(v, target) == VERSION_GREATER }

  // ---------------------------------------------------- reference ordering

  ghost predicate SameUpTo(v: Version, w: Version, n: nat) {
    forall i: nat :: i < n ==> Part(v, i) == Part(w, i)
  }

  /** `v` has the smaller part at the first place where the two differ. */
  ghost predicate DiffersBelowAt(v: Version, w: Version, i: nat) {
    SameUpTo(v, w, i) && Part(v, i) < Part(w, i)
  }

  /** The order the comparison is meant to be. */
  ghost predicate Below(v: Version, w: Version) {
    || (exists i: nat :: DiffersBelowAt(v, w, i))
    || (|v| < |w| && SameUpTo(v, w, |w|))
  }

  lemma {:induction false} CompareFromMeaning(v: Version, w: Version, i: nat)
    requires SameUpTo(v, w, i)
    ensures CompareFrom(v, w, i) == VERSION_LESS ==> Below(v, w)
    ensures CompareFrom(v, w, i) == VERSION_GREATER ==> Below(w, v)
    ensures CompareFrom(v, w, i) == VERSION_EQUAL ==> v == w
    ensures CompareFrom(v, w, i) in {VERSION_LESS, VERSION_EQUAL, VERSION_GREATER}
    decreases |v| + |w| - i
  {
    if i >= |v| && i >= |w| {
      if |v| == |w| {
        assert forall k | 0 <= k < |v| :: v[k] == Part(v, k) && w[k] == Part(w, k);
      }
    } else if Part(v, i) > Part(w, i) {
      assert DiffersBelowAt(w, v, i);
    } else if Part(v, i) < Part(w, i) {
      assert DiffersBelowAt(v, w, i);
    } else {
      CompareFromMeaning(v, w, i + 1);
    }
  }

  lemma BelowIrreflexive(v: Version)
    ensures !Below(v, v)
  {
  }

  lemma BelowTransitive(u: Version, v: Version, w: Version)
    requires Below(u, v) && Below(v, w)
    ensures Below(u, w)
  {
    if i: nat :| DiffersBelowAt(u, v, i) {
      if j: nat :| DiffersBelowAt(v, w, j) {
        assert DiffersBelowAt(u, w, if i < j then i else j);
      } else {
        assert Part(v, i) == Part(w, i);
        assert DiffersBelowAt(u, w, i);
      }
    } else {
      if j: nat :| DiffersBelowAt(v, w, j) {
        assert Part(u, j) == Part(v, j);
        assert DiffersBelowAt(u, w, j);
      } else {
        assert SameUpTo(u, w, |w|);
      }
    }
  }

  /** The comparison's three answers are exactly the order, identity and its converse. */
  lemma CompareMeaning(v: Version, w: Version)
    ensures Less(v, w) <==> Below(v, w)
    ensures Greater(v, w) <==> Below(w, v)
    ensures Equal(v, w) <==> v == w
  {
    CompareFromMeaning(v, w, 0);
    if Below(v, w) && Below(w, v) {
      BelowTransitive(v, w, v);
      BelowIrreflexive(v);
    }
    if v == w {
      BelowIrreflexive(v);
    }
  }

  /** `Less`, `Equal` and `Greater` split all pairs; each mirrors under swapping. */
  lemma Trichotomy(v: Version, w: Version)
    ensures Less(v, w) || Equal(v, w) || Greater(v, w)
    ensures Less(v, w) <==> Greater(w, v)
    ensures Compare(v, w) == -Compare(w, v)
  {
    CompareFromMeaning(v, w, 0);
    CompareFromMeaning(w, v, 0);
    CompareMeaning(v, w);
    CompareMeaning(w, v);
  }

  /** Not being greater is transitive, so the comparison is a total order. */
  lemma CompareTransitive(u: Version, v: Version, w: Version)
    requires !Greater(u, v) && !Greater(v, w)
    ensures !Greater(u, w)
    ensures Less(u, v) || Less(v, w) ==> Less(u, w)
  {
    Trichotomy(u, v);
    Trichotomy(v, w);
    CompareMeaning(u, v);
    CompareMeaning(v, w);
    CompareMeaning(u, w);
    if Below(u, v) && Below(v, w) {
      BelowTransitive(u, v, w);
    }
  }
}
