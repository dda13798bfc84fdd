/**
  URL objects (common/url.go): cloning and merging. A URL owns its parameter
  lists, its method list and, through SubURL, further URLs; the footprint names
  everything it owns, so that a copy can be shown to share nothing.
*/
module Urls {
  import opened Options
  import opened UrlValues
  import opened UrlMerge

  type Lists = map<string, array<string>>

  /** The parameter lists by value. */
  ghost function Contents(lists: Lists): Values
    reads lists.Values
  {
    map k | k in lists :: lists[k][..]
  }

  /** A copied slice: equal content, new storage. */
  method CopyList(a: array<string>) returns (b: array<string>)
    ensures fresh(b) && b[..] == a[..]
  {
    b := new string[a.Length](i requires 0 <= i < a.Length reads a => a[i]);
  }

  /** A one-element slice. */
  method Single(value: string) returns (b: array<string>)
    ensures fresh(b) && b[..] == [value]
  {
    b := new string[1](i => value);
  }

  /** `shouldCopyParam`. */
  predicate ShouldCopy(key: string, exclude: Option<set<string>>, reserve: seq<string>) {
    !(exclude.Some? && key in exclude.value) && (reserve == [] || key in reserve)
  }

  /** The parameters a filtered clone keeps. */
  ghost function Kept(params: Values, exclude: Option<set<string>>, reserve: seq<string>): Values {
    map k | k in params && ShouldCopy(k, exclude, reserve) :: params[k]
  }

  /** What the filter keeps: what is not excluded and, if anything is reserved, is reserved. */
  lemma KeptIs(params: Values, exclude: Option<set<string>>, reserve: seq<string>)
    ensures var kept := Kept(params, exclude, reserve);
            && (forall k: string ::
                  k in kept <==>
                  k in params && (exclude.None? || k !in exclude.value) && (reserve == [] || k in reserve))
            && (forall k <- kept :: kept[k] == params[k])
  {
  }

  /** `copyURLValues`. */
  method CopyValues(lists: Lists) returns (copy: Lists)
    ensures Contents(copy) == Contents(lists)
    ensures forall k <- copy :: fresh(copy[k])
  {
    copy := CopyWhere(lists, None, []);
    assert Contents(copy) == Contents(lists);
  }

  /** The loop that copies the lists the filter lets through. */
  method CopyWhere(lists: Lists, exclude: Option<set<string>>, reserve: seq<string>) returns (copy: Lists)
    ensures Contents(copy) == Kept(Contents(lists), exclude, reserve)
    ensures forall k <- copy :: fresh(copy[k])
  {
    copy := map[];
    var todo := lists.Keys;
    while todo != {}
      invariant todo <= lists.Keys
      invariant forall k <- copy :: fresh(copy[k])
      invariant copy.Keys == set k | k in lists.Keys - todo && ShouldCopy(k, exclude, reserve)
      invariant forall k <- copy :: copy[k][..] == lists[k][..]
    {
      var key :| key in todo;
      if ShouldCopy(key, exclude, reserve) {
        var list := CopyList(lists[key]);
        copy := copy[key := list];
      }
      todo := todo - {key};
    }
  }

  /** `copyFilteredParams`: an unfiltered copy of a large map takes a shortcut. */
  method CopyFilteredParams(lists: Lists, exclude: Option<set<string>>, reserve: seq<string>) returns (copy: Lists)
    ensures Contents(copy) == Kept(Contents(lists), exclude, reserve)
    ensures forall k <- copy :: fresh(copy[k])
  {
    if exclude.None? && reserve == [] && |lists| > 8 {
      copy := CopyValues(lists);
      assert Contents(copy) == Kept(Contents(lists), exclude, reserve);
    } else {
      copy := CopyWhere(lists, exclude, reserve);
    }
  }

  // ------------------------------------------------------------ merging lists

  /** url.Values.Get on the stored lists. */
  function Read(lists: Lists, key: string): (value: string)
    reads lists.Values
    ensures value == Get(Contents(lists), key)
  {
    if key in lists && lists[key].Length > 0 then lists[key][0] else ""
  }

  /** One step of the fill loop. */
  method FillOne(params: Lists, other: Lists, key: string) returns (out: Lists)
    requires key in other
    ensures Contents(out) == FillAt(Contents(params), Contents(other), key)
    ensures forall k <- out :: out[k] in params.Values || fresh(out[k])
  {
    out := params;
    if Read(params, key) == "" {
      if other[key].Length > 0 {
        var list := CopyList(other[key]);
        out := out[key := list];
      }
    }
  }

  /** The fill loop: the other URL's lists go where the base reads as empty, in any order. */
  method FillParams(base: Lists, other: Lists) returns (params: Lists)
    ensures Contents(params) == FilledParams(Contents(base), Contents(other))
    ensures forall k <- params :: params[k] in base.Values || fresh(params[k])
  {
    params := base;
    var todo := other.Keys;
    while todo != {}
      invariant todo <= other.Keys
      invariant forall k <- params :: params[k] in base.Values || fresh(params[k])
      invariant FilledExcept(Contents(params), Contents(base), Contents(other), todo)
    {
      var key :| key in todo;
      FillStep(Contents(params), Contents(base), Contents(other), todo, key);
      params := FillOne(params, other, key);
      todo := todo - {key};
    }
    FillDone(Contents(params), Contents(base), Contents(other));
  }

  /** One override: a non-empty value of the other URL replaces the list. */
  method Override(params: Lists, other: Lists, key: string) returns (out: Lists)
    ensures Contents(out) == OverrideAt(Contents(params), Contents(other), key)
    ensures forall k <- out :: out[k] in params.Values || fresh(out[k])
  {
    out := params;
    var value := Read(other, key);
    if value != "" {
      var list := Single(value);
      out := out[key := list];
    }
  }

  /** The override loop for one of the other URL's methods. */
  method OverrideParams(params: Lists, other: Lists, name: string, keys: seq<string>) returns (out: Lists)
    ensures Contents(out) == OverrideFor(Contents(params), Contents(other), name, keys)
    ensures forall k <- out :: out[k] in params.Values || fresh(out[k])
  {
    out := params;
    for i := 0 to |keys|
      invariant forall k <- out :: out[k] in params.Values || fresh(out[k])
      invariant Contents(out) == OverrideFor(Contents(params), Contents(other), name, keys[..i])
    {
      assert keys[..i + 1][..i] == keys[..i];
      out := Override(out, other, keys[i]);
      out := Override(out, other, MethodKey(name, keys[i]));
    }
    assert keys[..|keys|] == keys;
  }

  /** The override loop over the other URL's methods. */
  method OverrideAllParams(params: Lists, other: Lists, methods: seq<string>) returns (out: Lists)
    ensures Contents(out) == OverrideAll(Contents(params), Contents(other), methods)
    ensures forall k <- out :: out[k] in params.Values || fresh(out[k])
  {
    out := params;
    for i := 0 to |methods|
      invariant forall k <- out :: out[k] in params.Values || fresh(out[k])
      invariant Contents(out) == OverrideAll(Contents(params), Contents(other), methods[..i])
    {
      assert methods[..i + 1][..i] == methods[..i];
      out := OverrideParams(out, other, methods[i], OVERRIDE_KEYS);
    }
    assert methods[..|methods|] == methods;
  }

  /** The timestamp step. */
  method StampParams(params: Lists, baseTimestamp: string, otherTimestamp: string) returns (out: Lists)
    ensures Contents(out) == Stamped(Contents(params), baseTimestamp, otherTimestamp)
    ensures forall k <- out :: out[k] in params.Values || fresh(out[k])
  {
    out := params;
    if baseTimestamp == "" {
      var remote := Single(baseTimestamp);
      out := out[REMOTE_TIMESTAMP_KEY := remote];
      var timestamp := Single(otherTimestamp);
      out := out[TIMESTAMP_KEY := timestamp];
    }
  }

  /** The first two steps of a merge. */
  method FillAndStamp(base: Lists, other: Lists) returns (params: Lists)
    ensures Contents(params) == Stamped(FilledParams(Contents(base), Contents(other)),
                                        Get(Contents(base), TIMESTAMP_KEY), Get(Contents(other), TIMESTAMP_KEY))
    ensures forall k <- params :: params[k] in base.Values || fresh(params[k])
  {
    var baseTimestamp, otherTimestamp := Read(base, TIMESTAMP_KEY), Read(other, TIMESTAMP_KEY);
    var filled := FillParams(base, other);
    params := StampParams(filled, baseTimestamp, otherTimestamp);
  }

  /** The parameters of a merge. */
  method MergeParams(base: Lists, other: Lists, methods: seq<string>) returns (params: Lists)
    ensures Contents(params) == MergedParams(Contents(base), Contents(other), methods)
    ensures forall k <- params :: params[k] in base.Values || fresh(params[k])
  {
    StepsGiveFormula(Contents(base), Contents(other), methods);
    var stamped := FillAndStamp(base, other);
    params := OverrideAllParams(stamped, other, methods);
  }

  // -------------------------------------------------------------------- URLs

  class Url {
    var protocol: string
    var location: string
    var ip: string
    var port: string
    var primitiveURL: string
    var primitiveTS: string
    var path: string
    var username: string
    var password: string
    var methods: array<string>
    var params: Lists
    var attributes: map<string, Attribute>
    var subURL: Url?
    ghost var footprint: set<object>  // everything the URL owns
    ghost var value: UrlValue         // what the URL holds, by value

    /** The footprint covers the lists and the SubURLs, which do not lead back; `value` is current. */
    ghost predicate Valid()
      reads this, footprint
      decreases footprint
    {
      && this in footprint && methods in footprint && params.Values <= footprint
      && (subURL != null ==>
            subURL in footprint && subURL.footprint <= footprint && this !in subURL.footprint && subURL.Valid())
      && value == UrlValue(protocol, location, ip, port, primitiveURL, primitiveTS, path, username, password,
                           methods[..], Contents(params), attributes,
                           if subURL == null then None else Some(subURL.value))
    }

    /** `newURLForClone`, given the lists the new URL will own. */
    constructor CopyOf(u: Url, methods: array<string>, params: Lists, sub: Url?, ghost contents: Values)
      requires u.Valid() && contents == Contents(params)
      requires sub != null ==> sub.Valid()
      ensures Valid() && fresh(this)
      ensures footprint == {this, methods} + params.Values + (if sub == null then {} else sub.footprint)
      ensures value == u.value.(methods := methods[..], params := contents,
                                sub := if sub == null then None else Some(sub.value))
    {
      protocol, location, ip, port := u.protocol, u.location, u.ip, u.port;
      primitiveURL, primitiveTS := u.primitiveURL, u.primitiveTS;
      path, username, password := u.path, u.username, u.password;
      this.methods := methods;
      this.params := params;
      attributes := u.attributes;
      subURL := sub;
      footprint := {this, methods} + params.Values + (if sub == null then {} else sub.footprint);
      value := u.value.(methods := methods[..], params := contents,
                        sub := if sub == null then None else Some(sub.value));
    }

    /** The clone of SubURL, if there is one. */
    method CloneSub() returns (sub: Url?)
      requires Valid()
      ensures sub == null <==> subURL == null
      ensures sub != null ==> sub.Valid() && fresh(sub.footprint) && value.sub == Some(sub.value)
      decreases footprint, 0
    {
      sub := null;
      if subURL != null {
        sub := subURL.Clone();
      }
    }

    /**
      `CloneWithFilter`: the filter applies to this URL's parameters only; SubURL
      is cloned whole. Nothing the clone owns existed before.
    */
    method CloneWithFilter(exclude: Option<set<string>>, reserve: seq<string>) returns (clone: Url)
      requires Valid()
      ensures clone.Valid() && fresh(clone.footprint)
      ensures clone.value == value.(params := Kept(value.params, exclude, reserve))
      ensures forall k: string ::
                k in clone.value.params <==>
                k in value.params && (exclude.None? || k !in exclude.value) && (reserve == [] || k in reserve)
      ensures forall k <- clone.value.params :: clone.value.params[k] == value.params[k]
      decreases footprint, 2
    {
      KeptIs(value.params, exclude, reserve);
      clone := CopyKept(exclude, reserve);
    }

    /** The copying. */
    method CopyKept(exclude: Option<set<string>>, reserve: seq<string>) returns (clone: Url)
      requires Valid()
      ensures clone.Valid() && fresh(clone.footprint)
      ensures clone.value == value.(params := Kept(value.params, exclude, reserve))
      decreases footprint, 1
    {
      var sub := CloneSub();
      var names := CopyList(methods);
      var lists := CopyFilteredParams(params, exclude, reserve);
      clone := new Url.CopyOf(this, names, lists, sub, Kept(value.params, exclude, reserve));
    }

    /** `Clone`. */
    method Clone() returns (clone: Url)
      requires Valid()
      ensures clone.Valid() && fresh(clone.footprint)
      ensures clone.value == value
      decreases footprint, 3
    {
      clone := CloneWithFilter(None, []);
      assert Kept(value.params, None, []) == value.params;
    }

    /**
      `MergeURL`: a new URL with the merged value. Neither URL changes, and the
      result shares no list with them.
    */
    method MergeURL(other: Url) returns (merged: Url)
      requires Valid() && other.Valid()
      ensures merged.Valid() && fresh(merged.footprint)
      ensures merged.value == MergedUrl(value, other.value)
      ensures forall key: string | key != "timestamp" && key != "remote.timestamp" ::
                Get(merged.value.params, key) ==
                if Get(value.params, key) == "" then Get(other.value.params, key)
                else if Get(other.value.params, key) != "" && MethodsDecide(other.value.methods, key)
                then Get(other.value.params, key)
                else Get(value.params, key)
    {
      MergedValues(value.params, other.value.params, other.value.methods);
      merged := Clone();
      merged.MergeInto(other);
    }

    /** The part of a merge that works on the clone. */
    method MergeInto(other: Url)
      requires Valid() && other.Valid() && this !in other.footprint
      modifies this
      ensures Valid() && fresh(footprint - old(footprint))
      ensures value == MergedUrl(old(value), other.value)
    {
      var names, lists, attributes, made := MergedParts(other);
      SetParams(lists, MergedParams(value.params, other.value.params, other.value.methods));
      SetMethods(names, attributes);
      assert footprint - old(footprint) <= made;
    }

    /** The parts a merge puts into the clone; `made` is what was made for them. */
    method MergedParts(other: Url)
      returns (names: array<string>, lists: Lists, attributes: map<string, Attribute>, ghost made: set<object>)
      requires Valid() && other.Valid()
      ensures fresh(made) && names in made && lists.Values <= params.Values + made
      ensures names[..] == other.value.methods && attributes == other.attributes + this.attributes
      ensures Contents(lists) == MergedParams(value.params, other.value.params, other.value.methods)
    {
      attributes := MergeAttributes(this.attributes, other.attributes);
      names := CopyList(other.methods);
      lists := MergeParams(params, other.params, other.methods[..]);
      made := {names} + (lists.Values - params.Values);
    }

    /** Assignment of the parameters, which hold `contents`. */
    method SetParams(params: Lists, ghost contents: Values)
      requires Valid() && contents == Contents(params)
      modifies this
      ensures Valid() && value == old(value).(params := contents)
      ensures footprint == old(footprint) + params.Values
      ensures attributes == old(attributes)
    {
      ghost var now := value.(params := contents);
      this.params := params;
      footprint, value := footprint + params.Values, now;
    }

    /** Assignment of the methods and the attributes. */
    method SetMethods(methods: array<string>, attributes: map<string, Attribute>)
      requires Valid()
      modifies this
      ensures Valid() && value == old(value).(methods := methods[..], attributes := attributes)
      ensures footprint == old(footprint) + {methods}
    {
      ghost var now := value.(methods := methods[..], attributes := attributes);
      this.methods, this.attributes := methods, attributes;
      footprint, value := footprint + {methods}, now;
    }
  }

  /** The attribute loop of a merge: existing attributes stay. */
  method MergeAttributes(base: map<string, Attribute>, other: map<string, Attribute>)
    returns (merged: map<string, Attribute>)
    ensures merged == other + base
  {
    merged := base;
    var todo := other.Keys;
    while todo != {}
      invariant todo <= other.Keys
      invariant merged == (map k | k in other.Keys - todo :: other[k]) + base
    {
      var key :| key in todo;
      if key !in merged {
        merged := merged[key := other[key]];
      }
      todo := todo - {key};
    }
  }
}
