/**
  What merging one URL's parameters into another's means, key by key
  (common/url.go, MergeURL). The base is the URL merged into, the other one comes
  from the registry.
*/
module UrlMerge {
  import opened Options
  import opened UrlValues

  /** Keys the other URL overrides, for the service and for each of its methods. */
  const OVERRIDE_KEYS: seq<string> := ["loadbalance", "cluster", "retries", "timeout"]

  /** `key` is one of `keys` or the form one of them takes for the method `name`. */
  ghost predicate AppliesTo(keys: seq<string>, name: string, key: string) {
    exists k <- keys :: key == k || key == MethodKey(name, k)
  }

  /** The other URL's value wins at `key`: it has one, and lists a method the key applies to. */
  ghost predicate Overridden(other: Values, methods: seq<string>, key: string) {
    Get(other, key) != "" && exists name <- methods :: AppliesTo(OVERRIDE_KEYS, name, key)
  }

  /** The list at `key` before timestamps and overrides: a non-empty base value, else the other's list. */
  ghost function FilledParam(base: Values, other: Values, key: string): Option<seq<string>> {
    if Get(base, key) == "" && key in other && other[key] != [] then Some(other[key])
    else Lookup(base, key)
  }

  /** The closed per-key formula of a merge. */
  ghost function MergedParam(base: Values, other: Values, methods: seq<string>, key: string): Option<seq<string>> {
    if Overridden(other, methods, key) then Some([Get(other, key)])
    else if Get(base, TIMESTAMP_KEY) == "" && key == TIMESTAMP_KEY then Some([Get(other, TIMESTAMP_KEY)])
    else if Get(base, TIMESTAMP_KEY) == "" && key == REMOTE_TIMESTAMP_KEY then Some([""])
    else FilledParam(base, other, key)
  }

  ghost function MergedParams(base: Values, other: Values, methods: seq<string>): Values {
    map k | k in base.Keys + other.Keys + {TIMESTAMP_KEY, REMOTE_TIMESTAMP_KEY} &&
            MergedParam(base, other, methods, k).Some? ::
      MergedParam(base, other, methods, k).value
  }

  /** The map of a merge is the formula at every key. */
  lemma MergedParamsAt(base: Values, other: Values, methods: seq<string>, key: string)
    ensures Lookup(MergedParams(base, other, methods), key) == MergedParam(base, other, methods, key)
  {
  }

  /** What a merged URL is. */
  ghost function MergedUrl(base: UrlValue, other: UrlValue): UrlValue {
    base.(params := MergedParams(base.params, other.params, other.methods),
          methods := other.methods,
          attributes := other.attributes + base.attributes)
  }

  /** Override keys start with none of the letters the timestamp keys start with. */
  lemma TimestampsAreNotOverridden(other: Values, methods: seq<string>)
    ensures !Overridden(other, methods, TIMESTAMP_KEY) && !Overridden(other, methods, REMOTE_TIMESTAMP_KEY)
    ensures TIMESTAMP_KEY != REMOTE_TIMESTAMP_KEY
  {
    assert TIMESTAMP_KEY[0] == 't' && REMOTE_TIMESTAMP_KEY[0] == 'r' && TIMESTAMP_KEY[2] == 'm';
    assert REMOTE_TIMESTAMP_KEY[2] == 'm';
    assert forall name: string, k: string :: MethodKey(name, k)[0] == 'm';
    assert OVERRIDE_KEYS[0][0] == 'l' && OVERRIDE_KEYS[1][0] == 'c';
    assert OVERRIDE_KEYS[2][2] == 't' && OVERRIDE_KEYS[3][1] == 'i';
    assert |OVERRIDE_KEYS[0]| == 11 && |OVERRIDE_KEYS[1]| == |OVERRIDE_KEYS[2]| == |OVERRIDE_KEYS[3]| == 7;
    assert |TIMESTAMP_KEY| == 9 && |REMOTE_TIMESTAMP_KEY| == 16;
  }

  /** The merged timestamp is the base's unless that is empty, then the other's. */
  lemma MergedTimestamp(base: Values, other: Values, methods: seq<string>)
    ensures Get(MergedParams(base, other, methods), TIMESTAMP_KEY) ==
            if Get(base, TIMESTAMP_KEY) != "" then Get(base, TIMESTAMP_KEY) else Get(other, TIMESTAMP_KEY)
  {
    TimestampsAreNotOverridden(other, methods);
    MergedParamsAt(base, other, methods, TIMESTAMP_KEY);
  }

  /**
    The merged remote timestamp: empty if the base has no timestamp, else the base's
    own if that is non-empty, else the other's.
  */
  lemma MergedRemoteTimestamp(base: Values, other: Values, methods: seq<string>)
    ensures Get(MergedParams(base, other, methods), REMOTE_TIMESTAMP_KEY) ==
            if Get(base, TIMESTAMP_KEY) == "" then ""
            else if Get(base, REMOTE_TIMESTAMP_KEY) != "" then Get(base, REMOTE_TIMESTAMP_KEY)
            else Get(other, REMOTE_TIMESTAMP_KEY)
  {
    TimestampsAreNotOverridden(other, methods);
    MergedParamsAt(base, other, methods, REMOTE_TIMESTAMP_KEY);
  }

  lemma OverrideKeysAreNotTimestamps()
    ensures TIMESTAMP_KEY !in OVERRIDE_KEYS && REMOTE_TIMESTAMP_KEY !in OVERRIDE_KEYS
  {
    assert |TIMESTAMP_KEY| == 9 && |REMOTE_TIMESTAMP_KEY| == 16;
    assert forall i | 0 <= i < 4 :: |OVERRIDE_KEYS[i]| == if i == 0 then 11 else 7;
  }

  /** The four keys prefer the other URL's value, but only if it lists a method; else the base's. */
  lemma OverridesNeedMethods(base: Values, other: Values, methods: seq<string>, key: string)
    requires key in OVERRIDE_KEYS && Get(base, key) != ""
    ensures Get(MergedParams(base, other, methods), key) ==
            if methods != [] && Get(other, key) != "" then Get(other, key) else Get(base, key)
  {
    MergedParamsAt(base, other, methods, key);
    OverrideKeysAreNotTimestamps();
    if methods != [] {
      assert methods[0] in methods && AppliesTo(OVERRIDE_KEYS, methods[0], key);
    }
  }

  /** `key` is one of the four keys, or one of them for one of the methods. */
  ghost predicate MethodsDecide(methods: seq<string>, key: string) {
    exists name <- methods, k <- ["loadbalance", "cluster", "retries", "timeout"] ::
      key == k || key == "methods." + name + "." + k
  }

  lemma OverriddenIff(other: Values, methods: seq<string>, key: string)
    ensures Overridden(other, methods, key) <==> Get(other, key) != "" && MethodsDecide(methods, key)
  {
    if exists name <- methods :: AppliesTo(OVERRIDE_KEYS, name, key) {
      var name :| name in methods && AppliesTo(OVERRIDE_KEYS, name, key);
      var k :| k in OVERRIDE_KEYS && (key == k || key == MethodKey(name, k));
      assert name in methods && k in ["loadbalance", "cluster", "retries", "timeout"];
    }
    if MethodsDecide(methods, key) {
      var name, k :| name in methods && k in ["loadbalance", "cluster", "retries", "timeout"] &&
                     (key == k || key == "methods." + name + "." + k);
      assert k in OVERRIDE_KEYS && AppliesTo(OVERRIDE_KEYS, name, key);
    }
  }

  /**
    What a merge reads at any key but the two timestamps: the other URL's value where the
    base has none, or where the other has one and its methods decide; else the base's.
  */
  lemma MergedValue(base: Values, other: Values, methods: seq<string>, key: string)
    requires key != "timestamp" && key != "remote.timestamp"
    ensures Get(MergedParams(base, other, methods), key) ==
            if Get(base, key) == "" then Get(other, key)
            else if Get(other, key) != "" && MethodsDecide(methods, key) then Get(other, key)
            else Get(base, key)
  {
    MergedParamsAt(base, other, methods, key);
    OverriddenIff(other, methods, key);
  }

  lemma MergedValues(base: Values, other: Values, methods: seq<string>)
    ensures forall key: string | key != "timestamp" && key != "remote.timestamp" ::
              Get(MergedParams(base, other, methods), key) ==
              if Get(base, key) == "" then Get(other, key)
              else if Get(other, key) != "" && MethodsDecide(methods, key) then Get(other, key)
              else Get(base, key)
  {
    forall key: string | key != "timestamp" && key != "remote.timestamp"
      ensures Get(MergedParams(base, other, methods), key) ==
              if Get(base, key) == "" then Get(other, key)
              else if Get(other, key) != "" && MethodsDecide(methods, key) then Get(other, key)
              else Get(base, key)
    {
      MergedValue(base, other, methods, key);
    }
  }

  /** And the whole list it holds: an override has one value, otherwise one of the two lists is taken as it is. */
  lemma MergedList(base: Values, other: Values, methods: seq<string>, key: string)
    requires key != "timestamp" && key != "remote.timestamp"
    ensures Lookup(MergedParams(base, other, methods), key) ==
            if Get(other, key) != "" && MethodsDecide(methods, key) then Some([Get(other, key)])
            else if Get(base, key) == "" && key in other && other[key] != [] then Some(other[key])
            else Lookup(base, key)
  {
    MergedParamsAt(base, other, methods, key);
    OverriddenIff(other, methods, key);
  }

  /** A merge touches nothing but parameters, methods and attributes; of the attributes the base's win. */
  lemma MergedRest(base: UrlValue, other: UrlValue, key: string)
    ensures var m := MergedUrl(base, other);
            && m.(params := base.params, methods := base.methods, attributes := base.attributes) == base
            && m.methods == other.methods
            && Lookup(m.attributes, key) ==
               if key in base.attributes then Some(base.attributes[key]) else Lookup(other.attributes, key)
  {
  }

  // -------------------------------------------------- the merge, step by step

  ghost function FilledParams(base: Values, other: Values): Values {
    map k | k in base.Keys + other.Keys && FilledParam(base, other, k).Some? :: FilledParam(base, other, k).value
  }

  /** One step of the fill loop. */
  function FillAt(params: Values, other: Values, key: string): Values
    requires key in other
  {
    if Get(params, key) == "" && other[key] != [] then params[key := other[key]] else params
  }

  /** All keys of the other URL but those in `todo` have been filled in. */
  ghost predicate FilledExcept(params: Values, base: Values, other: Values, todo: set<string>) {
    forall key: string ::
      Lookup(params, key) == if key in todo then Lookup(base, key) else FilledParam(base, other, key)
  }

  lemma FillStep(params: Values, base: Values, other: Values, todo: set<string>, key: string)
    requires key in todo && key in other && FilledExcept(params, base, other, todo)
    ensures FilledExcept(FillAt(params, other, key), base, other, todo - {key})
  {
    assert Lookup(params, key) == Lookup(base, key);
    assert Get(params, key) == Get(base, key);
  }

  lemma FillDone(params: Values, base: Values, other: Values)
    requires FilledExcept(params, base, other, {})
    ensures params == FilledParams(base, other)
  {
    SameLookups(params, FilledParams(base, other));
  }

  /** The timestamp step: it acts only when the base has no timestamp. */
  function Stamped(params: Values, baseTimestamp: string, otherTimestamp: string): Values {
    if baseTimestamp != "" then params
    else params[REMOTE_TIMESTAMP_KEY := [baseTimestamp]][TIMESTAMP_KEY := [otherTimestamp]]
  }

  /** One override. */
  function OverrideAt(params: Values, other: Values, key: string): Values {
    if Get(other, key) == "" then params else params[key := [Get(other, key)]]
  }

  /** The overrides for one method, each key before its method form. */
  function OverrideFor(params: Values, other: Values, name: string, keys: seq<string>): Values {
    if keys == [] then params
    else
      var last := keys[|keys| - 1];
      var before := OverrideFor(params, other, name, keys[..|keys| - 1]);
      OverrideAt(OverrideAt(before, other, last), other, MethodKey(name, last))
  }

  /** The overrides for all methods in turn. */
  function OverrideAll(params: Values, other: Values, methods: seq<string>): Values {
    if methods == [] then params
    else OverrideFor(OverrideAll(params, other, methods[..|methods| - 1]), other, methods[|methods| - 1], OVERRIDE_KEYS)
  }

  lemma {:induction false} OverrideForAt(params: Values, other: Values, name: string, keys: seq<string>, key: string)
    ensures Lookup(OverrideFor(params, other, name, keys), key) ==
            if Get(other, key) != "" && AppliesTo(keys, name, key) then Some([Get(other, key)])
            else Lookup(params, key)
    decreases |keys|
  {
    if keys != [] {
      var rest, last := keys[..|keys| - 1], keys[|keys| - 1];
      OverrideForAt(params, other, name, rest, key);
      assert keys == rest + [last];
      AppliesToSplit(rest, last, name, key);
    }
  }

  lemma AppliesToSplit(rest: seq<string>, last: string, name: string, key: string)
    ensures AppliesTo(rest + [last], name, key) <==>
            AppliesTo(rest, name, key) || key == last || key == MethodKey(name, last)
  {
    var keys := rest + [last];
    assert keys[|rest|] == last && last in keys;
    if AppliesTo(keys, name, key) {
      var k :| k in keys && (key == k || key == MethodKey(name, k));
      assert k in rest || k == last;
    }
    if AppliesTo(rest, name, key) {
      var k :| k in rest && (key == k || key == MethodKey(name, k));
      assert k in keys;
    }
  }

  lemma {:induction false} OverrideAllAt(params: Values, other: Values, methods: seq<string>, key: string)
    ensures Lookup(OverrideAll(params, other, methods), key) ==
            if Overridden(other, methods, key) then Some([Get(other, key)]) else Lookup(params, key)
    decreases |methods|
  {
    if methods != [] {
      var rest, last := methods[..|methods| - 1], methods[|methods| - 1];
      OverrideAllAt(params, other, rest, key);
      OverrideForAt(OverrideAll(params, other, rest), other, last, OVERRIDE_KEYS, key);
      assert methods == rest + [last];
      assert forall name: string :: name in methods <==> name in rest || name == last;
    }
  }

  /** Filling, stamping and overriding in turn give the closed formula. */
  lemma StepsGiveFormula(base: Values, other: Values, methods: seq<string>)
    ensures var filled := FilledParams(base, other);
            OverrideAll(Stamped(filled, Get(base, TIMESTAMP_KEY), Get(other, TIMESTAMP_KEY)), other, methods)
            == MergedParams(base, other, methods)
  {
    var stamped := Stamped(FilledParams(base, other), Get(base, TIMESTAMP_KEY), Get(other, TIMESTAMP_KEY));
    var steps := OverrideAll(stamped, other, methods);
    forall key: string
      ensures Lookup(steps, key) == Lookup(MergedParams(base, other, methods), key)
    {
      OverrideAllAt(stamped, other, methods, key);
      StampedAt(base, other, methods, key);
      MergedParamsAt(base, other, methods, key);
    }
    SameLookups(steps, MergedParams(base, other, methods));
  }

  lemma StampedAt(base: Values, other: Values, methods: seq<string>, key: string)
    ensures !Overridden(other, methods, key) ==>
              Lookup(Stamped(FilledParams(base, other), Get(base, TIMESTAMP_KEY), Get(other, TIMESTAMP_KEY)), key)
              == MergedParam(base, other, methods, key)
  {
    TimestampsAreNotOverridden(other, methods);
    assert Lookup(FilledParams(base, other), key) == FilledParam(base, other, key);
  }

  lemma SameLookups(a: Values, b: Values)
    requires forall key: string :: Lookup(a, key) == Lookup(b, key)
    ensures a == b
  {
    assert forall key: string :: Lookup(a, key) == Lookup(b, key) ==> (key in a <==> key in b);
  }

  // ------------------------------------------------------------ merging twice

  /** A second merge of the same URL leaves every key but the remote timestamp alone. */
  lemma SecondMergeAt(base: Values, other: Values, methods: seq<string>, key: string)
    requires key != REMOTE_TIMESTAMP_KEY
    ensures var once := MergedParams(base, other, methods);
            Lookup(MergedParams(once, other, methods), key) == Lookup(once, key)
  {
    var once := MergedParams(base, other, methods);
    MergedTimestamp(base, other, methods);
    MergedParamsAt(base, other, methods, key);
    MergedParamsAt(once, other, methods, key);
  }

  /** When a second merge does bring in the other URL's remote timestamp. */
  ghost predicate SecondMergeRestores(base: Values, other: Values) {
    && Get(base, TIMESTAMP_KEY) == ""
    && Get(other, TIMESTAMP_KEY) != ""
    && REMOTE_TIMESTAMP_KEY in other
    && other[REMOTE_TIMESTAMP_KEY] != [] && other[REMOTE_TIMESTAMP_KEY] != [""]
  }

  /**
    Merging twice is merging once, unless the first merge blanked a remote
    timestamp that the second one fills in again.
  */
  lemma MergeTwice(base: UrlValue, other: UrlValue)
    ensures MergedUrl(MergedUrl(base, other), other) == MergedUrl(base, other) <==>
            !SecondMergeRestores(base.params, other.params)
    ensures MergedUrl(MergedUrl(base, other), other).methods == other.methods
  {
    var methods := other.methods;
    var once := MergedParams(base.params, other.params, methods);
    var twice := MergedParams(once, other.params, methods);
    RemoteTimestampTwice(base.params, other.params, methods);
    forall k: string | k != REMOTE_TIMESTAMP_KEY
      ensures Lookup(twice, k) == Lookup(once, k)
    {
      SecondMergeAt(base.params, other.params, methods, k);
    }
    if !SecondMergeRestores(base.params, other.params) {
      SameLookups(twice, once);
    }
  }

  /** For instance: a base without parameters and another URL with both timestamps. */
  lemma MergeTwiceDiffers(base: UrlValue, other: UrlValue, timestamp: string, remote: string)
    requires base.params == map[] && timestamp != "" && remote != ""
    requires other.params == map[TIMESTAMP_KEY := [timestamp], REMOTE_TIMESTAMP_KEY := [remote]]
    ensures MergedUrl(MergedUrl(base, other), other) != MergedUrl(base, other)
  {
    TimestampsAreNotOverridden(other.params, other.methods);
    assert SecondMergeRestores(base.params, other.params);
    MergeTwice(base, other);
  }

  lemma RemoteTimestampTwice(base: Values, other: Values, methods: seq<string>)
    ensures var once := MergedParams(base, other, methods);
            Lookup(MergedParams(once, other, methods), REMOTE_TIMESTAMP_KEY) == Lookup(once, REMOTE_TIMESTAMP_KEY)
            <==> !SecondMergeRestores(base, other)
  {
    var once := MergedParams(base, other, methods);
    TimestampsAreNotOverridden(other, methods);
    MergedTimestamp(base, other, methods);
    MergedParamsAt(base, other, methods, REMOTE_TIMESTAMP_KEY);
    MergedParamsAt(once, other, methods, REMOTE_TIMESTAMP_KEY);
  }
}
