/**
  What deep merging of extension configuration means (options.go), and its laws.

  A configuration value is a scalar, a list, or a string-keyed map. A Go map may
  also be nil, which merging tells apart from an empty map, so `NilMap` is a
  constructor of its own. A pointer, or a map or slice of any other type, is known
  by its address. All but maps are replaced whole; two maps are merged key by key,
  the overlay winning.
*/
module ExtensionMerge {

  import opened Options

  datatype Tree =
    | Scalar(text: string)
    | Foreign(address: nat)
    | List(items: seq<Tree>)
    | NilMap
    | Node(entries: map<string, Tree>)
  {
    predicate IsMap() {
      NilMap? || Node?
    }

    /** The keys of a map value; a nil map has none. */
    function Keys(): set<string> {
      if Node? then entries.Keys else {}
    }
  }

  // ---------------------------------------------------------------- meaning

  /** What merging `overlay` onto `base` denotes. */
  function Merge(base: Tree, overlay: Tree): (r: Tree)
    requires base.IsMap() && overlay.IsMap()
    ensures r.IsMap() && r.Keys() == base.Keys() + overlay.Keys()
    ensures r.NilMap? <==> base.NilMap? && overlay.NilMap?
    decreases overlay
  {
    if base.NilMap? && overlay.NilMap? then NilMap
    else Node(map k | k in base.Keys() + overlay.Keys() ::
                if k in overlay.Keys() then MergeEntry(base, overlay, k) else base.entries[k])
  }

  /** The merged value at a key the overlay has. */
  function MergeEntry(base: Tree, overlay: Tree, k: string): Tree
    requires base.IsMap() && overlay.IsMap() && k in overlay.Keys()
    decreases overlay, 0
  {
    if BothMaps(base, overlay, k) then Merge(base.entries[k], overlay.entries[k])
    else overlay.entries[k]
  }

  /** One unfolding of `Merge` at one key. */
  lemma MergeAt(base: Tree, overlay: Tree, k: string)
    requires base.IsMap() && overlay.IsMap() && k in base.Keys() + overlay.Keys()
    ensures Merge(base, overlay).entries[k] ==
            if BothMaps(base, overlay, k) then Merge(base.entries[k], overlay.entries[k])
            else if k in overlay.Keys() then overlay.entries[k] else base.entries[k]
  {
  }

  /** Both trees hold a map at `k`. */
  predicate BothMaps(a: Tree, b: Tree, k: string) {
    k in a.Keys() && k in b.Keys() && a.entries[k].IsMap() && b.entries[k].IsMap()
  }

  /** The value a key path leads to, if every key along it is there. */
  function At(t: Tree, path: seq<string>): Option<Tree> {
    if path == [] then Some(t)
    else if path[0] in t.Keys() then At(t.entries[path[0]], path[1..])
    else None
  }

  /** `t` holds a non-map at `path` or at a proper prefix of it. */
  predicate HitsNonMap(t: Tree, path: seq<string>)
    decreases |path|
  {
    !t.IsMap() || (path != [] && path[0] in t.Keys() && HitsNonMap(t.entries[path[0]], path[1..]))
  }

  // --------------------------------------------------------------- path law

  /**
    What the merge holds at any key path. The overlay decides when it holds a
    non-map at the path or above it; the base decides when the overlay runs out
    of keys along the path; otherwise the overlay's map is merged onto the
    base's map there, or stands alone when the base has none.
  */
  lemma {:induction false} PathLaw(base: Tree, overlay: Tree, path: seq<string>)
    requires base.IsMap() && overlay.IsMap()
    ensures HitsNonMap(overlay, path) ==> At(Merge(base, overlay), path) == At(overlay, path)
    ensures !HitsNonMap(overlay, path) && At(overlay, path).None? ==>
              At(Merge(base, overlay), path) == At(base, path)
    ensures !HitsNonMap(overlay, path) && At(overlay, path).Some? ==>
              At(overlay, path).value.IsMap() &&
              At(Merge(base, overlay), path) ==
              match At(base, path)
              case Some(b) => if b.IsMap() then Some(Merge(b, At(overlay, path).value)) else At(overlay, path)
              case None => At(overlay, path)
    decreases |path|
  {
    if path != [] && BothMaps(base, overlay, path[0]) {
      PathLaw(base.entries[path[0]], overlay.entries[path[0]], path[1..]);
    } else if path != [] && path[0] in overlay.Keys() && !HitsNonMap(overlay, path) {
      MapAtPath(overlay.entries[path[0]], path[1..]);
    }
  }

  /** A path that meets no non-map ends at a map whenever it ends anywhere. */
  lemma {:induction false} MapAtPath(t: Tree, path: seq<string>)
    requires !HitsNonMap(t, path)
    ensures At(t, path).Some? ==> At(t, path).value.IsMap()
    decreases |path|
  {
    if path != [] && path[0] in t.Keys() {
      MapAtPath(t.entries[path[0]], path[1..]);
    }
  }

  // ------------------------------------------------------------ idempotence

  /** Merging a tree onto itself gives it back. */
  lemma {:induction false} MergeSelf(t: Tree)
    requires t.IsMap()
    ensures Merge(t, t) == t
    decreases t
  {
    forall k | k in t.Keys()
      ensures Merge(t, t).entries[k] == t.entries[k]
    {
      if t.entries[k].IsMap() {
        MergeSelf(t.entries[k]);
      }
    }
    assert t.Node? ==> Merge(t, t).entries == t.entries;
  }

  /** Applying the same overlay twice is applying it once. */
  lemma {:induction false} MergeIdempotent(base: Tree, overlay: Tree)
    requires base.IsMap() && overlay.IsMap()
    ensures Merge(Merge(base, overlay), overlay) == Merge(base, overlay)
    decreases overlay
  {
    var once := Merge(base, overlay);
    forall k | k in once.Keys()
      ensures Merge(once, overlay).entries[k] == once.entries[k]
    {
      MergeAt(base, overlay, k);
      MergeAt(once, overlay, k);
      if BothMaps(base, overlay, k) {
        MergeIdempotent(base.entries[k], overlay.entries[k]);
      } else if k in overlay.Keys() && overlay.entries[k].IsMap() {
        MergeSelf(overlay.entries[k]);
      }
    }
    assert once.Node? ==> Merge(once, overlay).entries == once.entries;
  }

  // ----------------------------------------------------------- associativity

  /** Every key of `a` is also in `c`, at every level both keep as maps. */
  predicate Covers(c: Tree, a: Tree)
    requires a.IsMap() && c.IsMap()
    decreases c
  {
    && (c.NilMap? ==> a.NilMap?)
    && forall k <- a.Keys() ::
         k in c.Keys() && (BothMaps(a, c, k) ==> Covers(c.entries[k], a.entries[k]))
  }

  /** The overlay hides the base completely exactly when it covers it. */
  lemma {:induction false} AbsorbsIffCovers(a: Tree, c: Tree)
    requires a.IsMap() && c.IsMap()
    ensures Merge(a, c) == c <==> Covers(c, a)
    decreases c
  {
    var m := Merge(a, c);
    forall k | BothMaps(a, c, k)
      ensures m.entries[k] == c.entries[k] <==> Covers(c.entries[k], a.entries[k])
    {
      MergeAt(a, c, k);
      AbsorbsIffCovers(a.entries[k], c.entries[k]);
    }
    if Covers(c, a) && m.Node? {
      forall k | k in m.Keys() ensures k in c.Keys() && m.entries[k] == c.entries[k] {
        MergeAt(a, c, k);
      }
      assert m.entries == c.entries;
    }
    if m == c {
      forall k | k in a.Keys()
        ensures k in c.Keys() && (BothMaps(a, c, k) ==> Covers(c.entries[k], a.entries[k]))
      {
        assert k in m.Keys();
      }
    }
  }

  /**
    When three layers may be merged in either grouping: wherever the first and
    the last both hold a map, the middle one either holds a map that is in turn
    fine, or lacks the key, or holds a non-map and then the last layer covers the
    first there.
  */
  predicate Regroupable(a: Tree, b: Tree, c: Tree)
    requires a.IsMap() && b.IsMap() && c.IsMap()
    decreases c
  {
    forall k | BothMaps(a, c, k) && k in b.Keys() ::
      if b.entries[k].IsMap() then Regroupable(a.entries[k], b.entries[k], c.entries[k])
      else Covers(c.entries[k], a.entries[k])
  }

  /** Merging is associative on exactly the regroupable triples. */
  lemma {:induction false} AssociativeIffRegroupable(a: Tree, b: Tree, c: Tree)
    requires a.IsMap() && b.IsMap() && c.IsMap()
    ensures Merge(Merge(a, b), c) == Merge(a, Merge(b, c)) <==> Regroupable(a, b, c)
    decreases c
  {
    var left, right := Merge(Merge(a, b), c), Merge(a, Merge(b, c));
    forall k | k in left.Keys()
      ensures left.entries[k] == right.entries[k] <==>
              (BothMaps(a, c, k) && k in b.Keys() ==>
                 if b.entries[k].IsMap() then Regroupable(a.entries[k], b.entries[k], c.entries[k])
                 else Covers(c.entries[k], a.entries[k]))
    {
      MergeAt(Merge(a, b), c, k);
      MergeAt(a, Merge(b, c), k);
      if k in a.Keys() + b.Keys() { MergeAt(a, b, k); }
      if k in b.Keys() + c.Keys() { MergeAt(b, c, k); }
      if BothMaps(a, c, k) && k in b.Keys() {
        if b.entries[k].IsMap() {
          AssociativeIffRegroupable(a.entries[k], b.entries[k], c.entries[k]);
        } else {
          AbsorbsIffCovers(a.entries[k], c.entries[k]);
        }
      }
    }
    if Regroupable(a, b, c) && left.Node? {
      assert left.entries == right.entries;
    }
  }

  /** No path holds map, non-map, map in the three layers. */
  ghost predicate NoSandwich(a: Tree, b: Tree, c: Tree) {
    forall path: seq<string> ::
      !(At(a, path).Some? && At(a, path).value.IsMap() &&
        At(b, path).Some? && !At(b, path).value.IsMap() &&
        At(c, path).Some? && At(c, path).value.IsMap())
  }

  /** The shape condition on paths is enough for associativity. */
  lemma AssociativeWithoutSandwich(a: Tree, b: Tree, c: Tree)
    requires a.IsMap() && b.IsMap() && c.IsMap()
    requires NoSandwich(a, b, c)
    ensures Merge(Merge(a, b), c) == Merge(a, Merge(b, c))
  {
    RegroupableWithoutSandwich(a, b, c);
    AssociativeIffRegroupable(a, b, c);
  }

  lemma {:induction false} RegroupableWithoutSandwich(a: Tree, b: Tree, c: Tree)
    requires a.IsMap() && b.IsMap() && c.IsMap()
    requires NoSandwich(a, b, c)
    ensures Regroupable(a, b, c)
    decreases c
  {
    forall k | BothMaps(a, c, k) && k in b.Keys()
      ensures b.entries[k].IsMap() && Regroupable(a.entries[k], b.entries[k], c.entries[k])
    {
      assert [k][1..] == [];
      assert At(b, [k]) == Some(b.entries[k]);
      assert At(a, [k]) == Some(a.entries[k]) && At(c, [k]) == Some(c.entries[k]);
      forall path: seq<string>
        ensures At(a, [k] + path) == At(a.entries[k], path)
        ensures At(b, [k] + path) == At(b.entries[k], path)
        ensures At(c, [k] + path) == At(c.entries[k], path)
      {
        assert ([k] + path)[1..] == path;
      }
      RegroupableWithoutSandwich(a.entries[k], b.entries[k], c.entries[k]);
    }
  }

  /** Without the condition grouping matters: a map, a scalar and a map at one key. */
  lemma GroupingMatters(key: string, x: string, leaf: Tree, scalar: string)
    ensures var a, b := Node(map[key := Node(map[x := leaf])]), Node(map[key := Scalar(scalar)]);
            var c := Node(map[key := Node(map[])]);
            Merge(Merge(a, b), c) != Merge(a, Merge(b, c))
  {
    var a, b := Node(map[key := Node(map[x := leaf])]), Node(map[key := Scalar(scalar)]);
    var c := Node(map[key := Node(map[])]);
    assert BothMaps(a, c, key) && x in a.entries[key].Keys();
    assert !Covers(c.entries[key], a.entries[key]);
    AssociativeIffRegroupable(a, b, c);
  }
}
