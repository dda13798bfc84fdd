/**
  Extension configuration in memory (options.go): maps and lists are objects, so a copy
  can be told from the original. A footprint names everything a map or a list owns, and
  `tree` is what it holds by value.
*/
module ExtensionConfigs {
  import opened ExtensionMerge
  import opened Options

  /**
    A value of Go's `any`: some scalar, a `[]any`, a `map[string]any`, which may be nil,
    or a reference of any other type, which only has an address.
  */
  datatype Value = Text(text: string) | Slice(list: Items) | Map(dict: Dict?) | Other(address: nat)

  class Dict {
    var entries: map<string, Value>
    ghost var footprint: set<object>
    ghost var tree: Tree

    ghost predicate Valid()
      reads this, footprint
      decreases footprint, 0
    {
      && this in footprint
      && tree.Node? && tree.entries.Keys == entries.Keys && Hold(entries, footprint - {this}, tree.entries)
    }

    constructor (entries: map<string, Value>, ghost owned: set<object>, ghost tree: Tree)
      requires tree.Node? && tree.entries.Keys == entries.Keys && Hold(entries, owned, tree.entries)
      ensures Valid() && footprint == owned + {this} && this.tree == tree
    {
      this.entries, this.tree, footprint := entries, tree, owned + {this};
      new;
      assert owned + {this} - {this} == owned;
    }
  }

  class Items {
    var items: seq<Value>
    ghost var footprint: set<object>
    ghost var tree: Tree

    ghost predicate Valid()
      reads this, footprint
      decreases footprint, 0
    {
      && this in footprint
      && (forall i | 0 <= i < |items| :: Within(items[i], footprint - {this}))
      && tree.List? && |tree.items| == |items| && forall i | 0 <= i < |items| :: tree.items[i] == TreeOf(items[i])
    }

    constructor (items: seq<Value>, ghost owned: set<object>, ghost tree: Tree)
      requires forall i | 0 <= i < |items| :: Within(items[i], owned)
      requires tree.List? && |tree.items| == |items| && forall i | 0 <= i < |items| :: tree.items[i] == TreeOf(items[i])
      ensures Valid() && footprint == owned + {this} && this.tree == tree
    {
      this.items, this.tree, footprint := items, tree, owned + {this};
      new;
      assert owned + {this} - {this} == owned;
    }
  }

  /** `v` and all it owns are in `owner`, and well-formed. */
  ghost predicate Within(v: Value, owner: set<object>)
    reads owner
    decreases owner, 1
  {
    match v
    case Text(_) => true
    case Slice(list) => list in owner && list.footprint <= owner && list.Valid()
    case Map(dict) => dict != null ==> dict in owner && dict.footprint <= owner && dict.Valid()
    case Other(_) => true
  }

  ghost function TreeOf(v: Value): Tree
    reads match v case Text(_) => {} case Slice(list) => {list} case Map(dict) => {dict} case Other(_) => {}
  {
    match v
    case Text(text) => Scalar(text)
    case Slice(list) => list.tree
    case Map(dict) => if dict == null then NilMap else dict.tree
    case Other(address) => Foreign(address)
  }

  /** The entries are in `owner`, and hold the trees of those keys. */
  ghost predicate Hold(entries: map<string, Value>, owner: set<object>, trees: map<string, Tree>)
    reads owner
    decreases owner, 2
  {
    forall k <- entries :: Within(entries[k], owner) && k in trees && TreeOf(entries[k]) == trees[k]
  }

  lemma WithinMore(v: Value, owner: set<object>, more: set<object>)
    requires Within(v, owner) && owner <= more
    ensures Within(v, more)
  {
  }

  /** Setting one entry to a value that owns other objects. */
  lemma HoldWith(
      entries: map<string, Value>, owner: set<object>, trees: map<string, Tree>,
      key: string, v: Value, own: set<object>)
    requires Hold(entries, owner, trees) && Within(v, own)
    ensures Hold(entries[key := v], owner + own, trees[key := TreeOf(v)])
  {
    var next := entries[key := v];
    forall k | k in next
      ensures Within(next[k], owner + own)
    {
      if k == key {
        WithinMore(v, own, owner + own);
      } else {
        WithinMore(entries[k], owner, owner + own);
      }
    }
  }

  /**
    `cloneExtensionConfigs`: an equal map that shares no `map[string]any` and no `[]any`
    with the original, nil staying nil. As equal trees have equal addresses in them, other
    references are handed on as they are.
  */
  method CloneConfigs(configs: Dict?) returns (cloned: Dict?)
    requires configs != null ==> configs.Valid()
    ensures cloned == null <==> configs == null
    ensures cloned != null ==> cloned.Valid() && fresh(cloned.footprint) && cloned.tree == configs.tree
    decreases if configs == null then {} else configs.footprint, 0
  {
    if configs == null {
      return null;
    }
    var copy: map<string, Value> := map[];
    ghost var owned: set<object> := {};
    var todo := configs.entries.Keys;
    while todo != {}
      invariant todo <= configs.entries.Keys && copy.Keys == configs.entries.Keys - todo
      invariant fresh(owned) && Hold(copy, owned, configs.tree.entries)
    {
      var key :| key in todo;
      var value, own := CloneValue(configs.entries[key], configs.footprint - {configs});
      HoldWith(copy, owned, configs.tree.entries, key, value, own);
      assert configs.tree.entries[key := TreeOf(value)] == configs.tree.entries;
      copy, owned := copy[key := value], owned + own;
      todo := todo - {key};
    }
    cloned := new Dict(copy, owned, configs.tree);
  }

  /** `cloneExtensionValue`: scalars and other references are the same value afterwards. */
  method CloneValue(value: Value, ghost owner: set<object>) returns (cloned: Value, ghost own: set<object>)
    requires Within(value, owner)
    ensures Within(cloned, own) && fresh(own) && TreeOf(cloned) == TreeOf(value)
    ensures value.Text? || value.Other? ==> cloned == value
    decreases owner, 2
  {
    cloned, own := value, {};
    if value.Map? {
      var dict := CloneConfigs(value.dict);
      cloned, own := Map(dict), if dict == null then {} else dict.footprint;
    } else if value.Slice? {
      var items: seq<Value> := [];
      var list := value.list;
      for i := 0 to |list.items|
        invariant |items| == i && fresh(own)
        invariant forall j | 0 <= j < i :: Within(items[j], own) && TreeOf(items[j]) == list.tree.items[j]
      {
        var item, more := CloneValue(list.items[i], list.footprint - {list});
        forall j | 0 <= j < i
          ensures Within(items[j], own + more)
        {
          WithinMore(items[j], own, own + more);
        }
        WithinMore(item, more, own + more);
        items, own := items + [item], own + more;
      }
      var copy := new Items(items, own, list.tree);
      cloned, own := Slice(copy), copy.footprint;
    }
  }

  // ----------------------------------------------------------------- merging

  /** Only maps hold trees that are maps. */
  lemma ShapeOf(v: Value, owner: set<object>)
    requires Within(v, owner)
    ensures v.Map? <==> TreeOf(v).IsMap()
  {
  }

  /** The merge with the keys in `todo` still to come. */
  ghost predicate MergedExcept(trees: map<string, Tree>, base: Tree, overlay: Tree, todo: set<string>)
    requires base.IsMap() && overlay.IsMap()
  {
    && todo <= overlay.Keys() && trees.Keys == base.Keys() + (overlay.Keys() - todo)
    && forall k <- trees ::
         trees[k] == if k in overlay.Keys() - todo then MergeEntry(base, overlay, k) else base.entries[k]
  }

  /** Putting the merge of two maps, or else the overlay's value, at a key that is still to come. */
  lemma MergedStep(trees: map<string, Tree>, base: Tree, overlay: Tree, todo: set<string>, key: string, next: Tree)
    requires base.IsMap() && overlay.IsMap() && key in todo && MergedExcept(trees, base, overlay, todo)
    requires next == if key in trees && trees[key].IsMap() && overlay.entries[key].IsMap()
                     then Merge(trees[key], overlay.entries[key]) else overlay.entries[key]
    ensures MergedExcept(trees[key := next], base, overlay, todo - {key})
  {
    assert next == MergeEntry(base, overlay, key);
  }

  lemma MergedAll(trees: map<string, Tree>, base: Tree, overlay: Tree)
    requires base.IsMap() && overlay.IsMap() && !(base.NilMap? && overlay.NilMap?)
    requires MergedExcept(trees, base, overlay, {})
    ensures Node(trees) == Merge(base, overlay)
  {
    forall k | k in trees
      ensures trees[k] == Merge(base, overlay).entries[k]
    {
      MergeAt(base, overlay, k);
    }
  }

  /** What a merge puts at one key of the overlay: the merge of two maps, or a copy. */
  method MergeAtKey(present: Option<Value>, value: Value, ghost mine: set<object>, ghost owner: set<object>)
    returns (merged: Value, ghost own: set<object>)
    requires Within(value, owner) && (present.Some? ==> Within(present.value, mine))
    ensures Within(merged, own) && fresh(own)
    ensures TreeOf(merged) ==
            if present.Some? && TreeOf(present.value).IsMap() && TreeOf(value).IsMap()
            then Merge(TreeOf(present.value), TreeOf(value)) else TreeOf(value)
    decreases owner, 2
  {
    ShapeOf(value, owner);
    if present.Some? {
      ShapeOf(present.value, mine);
    }
    if value.Map? && present.Some? && present.value.Map? {
      var inner := MergeConfigs(present.value.dict, value.dict);
      merged, own := Map(inner), if inner == null then {} else inner.footprint;
    } else {
      merged, own := CloneValue(value, owner);
    }
  }

  /** The loop over the overlay's keys, starting from entries that hold the base. */
  method FoldIn(
      entries: map<string, Value>, overlay: Dict,
      ghost base: Tree, ghost owned: set<object>, ghost trees: map<string, Tree>)
    returns (out: map<string, Value>, ghost own: set<object>, ghost merged: map<string, Tree>)
    requires overlay.Valid() && base.IsMap() && entries.Keys == trees.Keys == base.Keys()
    requires Hold(entries, owned, trees) && MergedExcept(trees, base, overlay.tree, overlay.tree.Keys())
    ensures fresh(own - owned) && out.Keys == merged.Keys && Hold(out, own, merged)
    ensures MergedExcept(merged, base, overlay.tree, {})
    decreases overlay.footprint, 0
  {
    out, own, merged := entries, owned, trees;
    var todo := overlay.entries.Keys;
    while todo != {}
      invariant fresh(own - owned) && out.Keys == merged.Keys && Hold(out, own, merged)
      invariant MergedExcept(merged, base, overlay.tree, todo)
    {
      var key :| key in todo;
      var next, more := MergeAtKey(Lookup(out, key), overlay.entries[key], own, overlay.footprint - {overlay});
      HoldWith(out, own, merged, key, next, more);
      MergedStep(merged, base, overlay.tree, todo, key, TreeOf(next));
      out, own, merged := out[key := next], own + more, merged[key := TreeOf(next)];
      todo := todo - {key};
    }
  }

  /**
    `mergeExtensionConfigs`: starts from a clone of the base and folds the overlay's
    keys in, in whatever order the map yields them. The result shares nothing with
    either, and neither changes.
  */
  method MergeConfigs(base: Dict?, overlay: Dict?) returns (merged: Dict?)
    requires (base != null ==> base.Valid()) && (overlay != null ==> overlay.Valid())
    ensures merged == null <==> base == null && overlay == null
    ensures merged != null ==> merged.Valid() && fresh(merged.footprint)
    ensures TreeOf(Map(base)).IsMap() && TreeOf(Map(overlay)).IsMap()
    ensures TreeOf(Map(merged)) == Merge(TreeOf(Map(base)), TreeOf(Map(overlay)))
    decreases if overlay == null then {} else overlay.footprint, 1
  {
    if base == null && overlay == null {
      return null;
    }
    ghost var b, o := TreeOf(Map(base)), TreeOf(Map(overlay));
    var cloned := CloneConfigs(base);
    var entries: map<string, Value> := map[];
    ghost var owned: set<object>, trees: map<string, Tree> := {}, map[];
    if cloned != null {
      entries, owned, trees := cloned.entries, cloned.footprint - {cloned}, cloned.tree.entries;
    }
    if overlay != null {
      entries, owned, trees := FoldIn(entries, overlay, b, owned, trees);
    }
    MergedAll(trees, b, o);
    merged := new Dict(entries, owned, Node(trees));
  }
}
