/**
  The order of Go strings: bytewise, which for UTF-8 is by code point, the first
  difference deciding and a proper prefix coming first.
*/
module Strings {

  predicate Less(a: string, b: string) {
    b != "" && (a == "" || a[0] < b[0] || (a[0] == b[0] && Less(a[1..], b[1..])))
  }

  /** `a` is below `b` at `i`: they agree before, and there `a` ends or has the smaller rune. */
  predicate BelowAt(a: string, b: string, i: nat) {
    i <= |a| && i < |b| && a[..i] == b[..i] && (i == |a| || a[i] < b[i])
  }

  lemma {:induction false} LessIff(a: string, b: string)
    ensures Less(a, b) <==> exists i: nat :: BelowAt(a, b, i)
    decreases |a|
  {
    if b != "" && (a == "" || a[0] < b[0]) {
      assert BelowAt(a, b, 0);
    } else if a != "" && b != "" && a[0] == b[0] {
      LessIff(a[1..], b[1..]);
      if Less(a[1..], b[1..]) {
        var i: nat :| BelowAt(a[1..], b[1..], i);
        assert a[..i + 1] == [a[0]] + a[1..][..i] && b[..i + 1] == [b[0]] + b[1..][..i];
        assert BelowAt(a, b, i + 1);
      }
      if i: nat :| BelowAt(a, b, i) {
        assert i > 0;
        assert a[1..][..i - 1] == a[..i][1..] && b[1..][..i - 1] == b[..i][1..];
        assert BelowAt(a[1..], b[1..], i - 1);
      }
    } else {
      forall i: nat
        ensures !BelowAt(a, b, i)
      {
        HeadsAgree(a, b, i);
      }
    }
  }

  lemma HeadsAgree(a: string, b: string, i: nat)
    ensures BelowAt(a, b, i) && i > 0 ==> a != "" && b != "" && a[0] == b[0]
  {
    if BelowAt(a, b, i) && i > 0 {
      assert a[0] == a[..i][0] == b[..i][0];
    }
  }

  predicate AtMost(a: string, b: string) {
    a == b || Less(a, b)
  }

  lemma {:induction false} LessIrreflexive(a: string)
    ensures !Less(a, a)
    decreases |a|
  {
    if a != "" {
      LessIrreflexive(a[1..]);
    }
  }

  lemma {:induction false} LessTransitive(a: string, b: string, c: string)
    requires Less(a, b) && Less(b, c)
    ensures Less(a, c)
    decreases |a|
  {
    if a != "" && a[0] == b[0] == c[0] {
      LessTransitive(a[1..], b[1..], c[1..]);
    }
  }

  lemma {:induction false} LessTotal(a: string, b: string)
    ensures Less(a, b) || a == b || Less(b, a)
    decreases |a|
  {
    if a != "" && b != "" && a[0] == b[0] {
      LessTotal(a[1..], b[1..]);
      assert a == [a[0]] + a[1..] && b == [b[0]] + b[1..];
    }
  }

  /** Each element comes before the next ones. */
  ghost predicate Increasing(list: seq<string>) {
    forall i, j | 0 <= i < j < |list| :: Less(list[i], list[j])
  }

  /** An increasing list is determined by its elements. */
  lemma {:induction false} IncreasingIsUnique(a: seq<string>, b: seq<string>)
    requires Increasing(a) && Increasing(b)
    requires forall x: string :: x in a <==> x in b
    ensures a == b
    decreases |a|
  {
    if a == [] || b == [] {
      SameEmptiness(a, b);
    } else {
      assert a[0] in a && a[0] in b;
      assert b[0] in b && b[0] in a;
      FirstIsLeast(a, b[0]);
      FirstIsLeast(b, a[0]);
      AtMostAntisymmetric(a[0], b[0]);
      forall x: string
        ensures x in a[1..] <==> x in b[1..]
      {
        TailOf(a, x);
        TailOf(b, x);
      }
      IncreasingIsUnique(a[1..], b[1..]);
    }
  }

  lemma SameEmptiness(a: seq<string>, b: seq<string>)
    requires forall x: string :: x in a <==> x in b
    ensures a == [] <==> b == []
  {
    if a != [] {
      assert a[0] in a && a[0] in b;
    }
    if b != [] {
      assert b[0] in b && b[0] in a;
    }
  }

  lemma AtMostAntisymmetric(a: string, b: string)
    requires AtMost(a, b) && AtMost(b, a)
    ensures a == b
  {
    if a != b {
      LessTransitive(a, b, a);
      LessIrreflexive(a);
    }
  }

  lemma FirstIsLeast(a: seq<string>, x: string)
    requires Increasing(a) && x in a
    ensures AtMost(a[0], x)
  {
    var i :| 0 <= i < |a| && a[i] == x;
  }

  lemma TailOf(a: seq<string>, x: string)
    requires Increasing(a) && a != []
    ensures x in a[1..] <==> x in a && x != a[0]
  {
    assert a == [a[0]] + a[1..];
    LessIrreflexive(a[0]);
  }

  /** sort.Strings on the keys of a map: increasing, with the same elements. */
  method SortKeys(keys: set<string>) returns (sorted: seq<string>)
    ensures Increasing(sorted)
    ensures forall x: string :: x in sorted <==> x in keys
  {
    sorted := [];
    var todo := keys;
    while todo != {}
      invariant todo <= keys
      invariant Increasing(sorted)
      invariant forall x: string :: x in sorted <==> x in keys - todo
    {
      var key :| key in todo;
      sorted := Insert(sorted, key);
      todo := todo - {key};
    }
  }

  /** Puts a new key in its place. */
  method Insert(list: seq<string>, key: string) returns (r: seq<string>)
    requires Increasing(list) && key !in list
    ensures Increasing(r)
    ensures forall x: string :: x in r <==> x in list || x == key
  {
    var i := 0;
    while i < |list| && Less(list[i], key)
      invariant 0 <= i <= |list|
      invariant forall j | 0 <= j < i :: Less(list[j], key)
    {
      i := i + 1;
    }
    r := list[..i] + [key] + list[i..];
    if i < |list| {
      LessTotal(list[i], key);
      forall j | i <= j < |list|
        ensures Less(key, list[j])
      {
        if i < j {
          LessTransitive(key, list[i], list[j]);
        }
      }
    }
  }
}
