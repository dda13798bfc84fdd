/**
  Comparing URLs without flattening them (common/url.go). `IsEquals` checks the
  reserved keys one by one and the remaining parameters by a subset test plus a
  count; the flattened view `ToMap` is what it has to agree with.
*/
module UrlEquals {
  import opened Options
  import opened UrlValues

  const RESERVED_KEYS: seq<string> :=
    [PROTOCOL_KEY, USERNAME_KEY, PASSWORD_KEY, HOST_KEY, PORT_KEY, PATH_KEY]

  datatype Verdict = Panic | Equal(yes: bool)

  /** `rawParam`. */
  function RawParam(u: UrlValue, key: string): Option<string> {
    if key in u.params && u.params[key] != [] then Some(u.params[key][0]) else None
  }

  /** `effectiveReserved`: a non-empty field, or a non-empty location, hides the parameter. */
  function EffectiveReserved(u: UrlValue, key: string): Option<string> {
    if key == PROTOCOL_KEY && u.protocol != "" then Some(u.protocol)
    else if key == USERNAME_KEY && u.username != "" then Some(u.username)
    else if key == PASSWORD_KEY && u.password != "" then Some(u.password)
    else if key == PATH_KEY && u.path != "" then Some(u.path)
    else if key == HOST_KEY && u.location != "" then Some(ParseLocation(u.location).0)
    else if key == PORT_KEY && u.location != "" then Some(ParseLocation(u.location).1)
    else RawParam(u, key)
  }

  /** The reserved keys are six different strings. */
  lemma ReservedKeysDiffer()
    ensures forall i, j | 0 <= i < j < |RESERVED_KEYS| :: RESERVED_KEYS[i] != RESERVED_KEYS[j]
  {
    assert PROTOCOL_KEY[0] == 'p' && USERNAME_KEY[0] == 'u' && PASSWORD_KEY[1] == 'a' && PROTOCOL_KEY[1] == 'r';
    assert HOST_KEY[0] == 'h' && PORT_KEY[1] == 'o' && PATH_KEY[1] == 'a' && PORT_KEY[0] == 'p' && PATH_KEY[0] == 'p';
    assert |PROTOCOL_KEY| == |USERNAME_KEY| == |PASSWORD_KEY| == 8 && |HOST_KEY| == |PORT_KEY| == |PATH_KEY| == 4;
  }

  lemma FieldOver(m: map<string, string>, k: string, v: string, key: string)
    ensures Lookup(m + FieldEntry(k, v), key) == if key == k && v != "" then Some(v) else Lookup(m, key)
  {
  }

  lemma LocationOver(m: map<string, string>, location: string, key: string)
    ensures Lookup(m + LocationEntries(location), key) ==
            if location != "" && key == PORT_KEY then Some(ParseLocation(location).1)
            else if location != "" && key == HOST_KEY then Some(ParseLocation(location).0)
            else Lookup(m, key)
  {
  }

  /** What the flattened map holds at any key. */
  lemma FlattenedAt(u: UrlValue, key: string)
    requires HasValues(u.params)
    ensures Lookup(ToMap(u), key) ==
            if key in RESERVED_KEYS then EffectiveReserved(u, key) else RawParam(u, key)
  {
    ReservedKeysDiffer();
    var m0 := map k | k in u.params :: u.params[k][0];
    var m1 := m0 + FieldEntry(PROTOCOL_KEY, u.protocol);
    var m2 := m1 + FieldEntry(USERNAME_KEY, u.username);
    var m3 := m2 + FieldEntry(PASSWORD_KEY, u.password);
    var m4 := m3 + LocationEntries(u.location);
    FieldOver(m0, PROTOCOL_KEY, u.protocol, key);
    FieldOver(m1, USERNAME_KEY, u.username, key);
    FieldOver(m2, PASSWORD_KEY, u.password, key);
    LocationOver(m3, u.location, key);
    FieldOver(m4, PATH_KEY, u.path, key);
  }

  /**
    The flattened map in full: non-empty fields under their keys, host and port out of a
    non-empty location, and the first value of every parameter these leave room for.
  */
  lemma FlattenedFields(u: UrlValue, key: string)
    requires HasValues(u.params)
    ensures var parts := Split(u.location, ':');
            Lookup(ToMap(u), key) ==
            if key == "protocol" && u.protocol != "" then Some(u.protocol)
            else if key == "username" && u.username != "" then Some(u.username)
            else if key == "password" && u.password != "" then Some(u.password)
            else if key == "path" && u.path != "" then Some(u.path)
            else if key == "host" && u.location != "" then Some(parts[0])
            else if key == "port" && u.location != "" then Some(if |parts| == 1 then "0" else parts[1])
            else if key in u.params then Some(u.params[key][0])
            else None
  {
    FlattenedAt(u, key);
    ParseLocationSplits(u.location);
  }

  /** Two URLs agree on everything a comparison may look at. */
  ghost predicate SameView(left: UrlValue, right: UrlValue, excludes: set<string>)
    requires HasValues(left.params) && HasValues(right.params)
  {
    && left.ip == right.ip && left.port == right.port
    && forall k: string | k !in excludes :: Lookup(ToMap(left), k) == Lookup(ToMap(right), k)
  }

  /** Agreement of the flattened maps, split the way the comparison proceeds. */
  lemma ViewByParts(left: UrlValue, right: UrlValue, excludes: set<string>)
    requires HasValues(left.params) && HasValues(right.params)
    ensures SameView(left, right, excludes) <==>
            && left.ip == right.ip && left.port == right.port
            && (forall k | k in RESERVED_KEYS && k !in excludes ::
                  EffectiveReserved(left, k) == EffectiveReserved(right, k))
            && (forall k | k !in RESERVED_KEYS && k !in excludes :: RawParam(left, k) == RawParam(right, k))
  {
    forall k: string
      ensures Lookup(ToMap(left), k) == if k in RESERVED_KEYS then EffectiveReserved(left, k) else RawParam(left, k)
      ensures Lookup(ToMap(right), k) == if k in RESERVED_KEYS then EffectiveReserved(right, k) else RawParam(right, k)
    {
      FlattenedAt(left, k);
      FlattenedAt(right, k);
    }
  }

  /** `equalReservedKeys`. */
  method EqualReservedKeys(left: UrlValue, right: UrlValue, excluded: set<string>) returns (same: bool)
    ensures same <==> forall k | k in RESERVED_KEYS && k !in excluded ::
                        EffectiveReserved(left, k) == EffectiveReserved(right, k)
  {
    for i := 0 to |RESERVED_KEYS|
      invariant forall j | 0 <= j < i && RESERVED_KEYS[j] !in excluded ::
                  EffectiveReserved(left, RESERVED_KEYS[j]) == EffectiveReserved(right, RESERVED_KEYS[j])
    {
      var key := RESERVED_KEYS[i];
      if key in excluded {
        continue;
      }
      var l, r := EffectiveReserved(left, key), EffectiveReserved(right, key);
      if l != r {
        return false;
      }
    }
    same := true;
  }

  /** The first values of the parameters that take part in the comparison. */
  function FirstValues(params: Values, skipped: set<string>): map<string, string>
    requires HasValues(params)
  {
    map k | k in params.Keys - skipped :: params[k][0]
  }

  /** A map is equal to one it contains as soon as their sizes match. */
  lemma ContainedOfSameSize(a: map<string, string>, b: map<string, string>)
    ensures a == b <==> |a| == |b| && forall k <- b :: Lookup(a, k) == Some(b[k])
  {
    if |a| == |b| && forall k <- b :: Lookup(a, k) == Some(b[k]) {
      assert b.Keys + (a.Keys - b.Keys) == a.Keys;
      assert |a.Keys| == |a| && |b.Keys| == |b|;
      assert a.Keys == b.Keys;
    }
  }

  /** The left side's snapshot. */
  method Snapshot(params: Values, skipped: set<string>) returns (first: map<string, string>)
    requires HasValues(params)
    ensures first == FirstValues(params, skipped)
  {
    first := map[];
    var todo := params.Keys;
    while todo != {}
      invariant todo <= params.Keys
      invariant first == map k | k in params.Keys - todo - skipped :: params[k][0]
    {
      var key :| key in todo;
      if key !in skipped {
        first := first[key := params[key][0]];
      }
      todo := todo - {key};
    }
  }

  lemma CountStep(keys: set<string>, todo: set<string>, key: string)
    requires key in todo
    ensures |keys - (todo - {key})| == |keys - todo| + if key in keys then 1 else 0
  {
    if key in keys {
      assert keys - (todo - {key}) == (keys - todo) + {key};
    } else {
      assert keys - (todo - {key}) == keys - todo;
    }
  }

  /** The pass over the right side; it stops at the first key missing or different on the left. */
  method MatchAgainst(first: map<string, string>, params: Values, skipped: set<string>)
    returns (matched: bool, count: nat)
    requires HasValues(params)
    ensures matched <==> forall k <- FirstValues(params, skipped) ::
                           Lookup(first, k) == Some(FirstValues(params, skipped)[k])
    ensures matched ==> count == |FirstValues(params, skipped)|
  {
    ghost var free := FirstValues(params, skipped);
    count, matched := 0, true;
    var todo := params.Keys;
    while todo != {}
      invariant todo <= params.Keys && matched
      invariant count == |free.Keys - todo|
      invariant forall k <- free.Keys - todo :: Lookup(first, k) == Some(free[k])
    {
      var key :| key in todo;
      CountStep(free.Keys, todo, key);
      todo := todo - {key};
      if key !in skipped {
        count := count + 1;
        if key !in first || first[key] != params[key][0] {
          assert key in free && Lookup(first, key) != Some(free[key]);
          return false, count;
        }
      }
    }
    assert free.Keys - {} == free.Keys;
  }

  /**
    `equalParams`: a snapshot of the left side, a pass over the right side, and
    a count. The skipped keys are the reserved and the excluded ones.
  */
  method EqualParams(left: UrlValue, right: UrlValue, skipped: set<string>) returns (same: bool)
    requires HasValues(left.params) && HasValues(right.params)
    ensures same <==> forall k | k !in skipped :: RawParam(left, k) == RawParam(right, k)
  {
    var first := Snapshot(left.params, skipped);
    var matched, count := MatchAgainst(first, right.params, skipped);
    same := matched && count == |first|;
    ContainedOfSameSize(first, FirstValues(right.params, skipped));
    SameFirstValues(left, right, skipped);
  }

  lemma SameFirstValues(left: UrlValue, right: UrlValue, skipped: set<string>)
    requires HasValues(left.params) && HasValues(right.params)
    ensures FirstValues(left.params, skipped) == FirstValues(right.params, skipped) <==>
            forall k | k !in skipped :: RawParam(left, k) == RawParam(right, k)
  {
    var l, r := FirstValues(left.params, skipped), FirstValues(right.params, skipped);
    forall k | k !in skipped
      ensures RawParam(left, k) == Lookup(l, k) && RawParam(right, k) == Lookup(r, k)
    {
    }
    if forall k | k !in skipped :: RawParam(left, k) == RawParam(right, k) {
      forall k: string ensures Lookup(l, k) == Lookup(r, k) {
        assert k !in skipped ==> RawParam(left, k) == RawParam(right, k);
      }
      assert forall k: string :: Lookup(l, k) == Lookup(r, k) ==> (k in l <==> k in r);
      assert l.Keys == r.Keys;
    }
  }

  /**
    `IsEquals`: agrees with the flattened views outside the excluded keys. Two
    nil URLs are not caught by the nil test and dereference nil.
  */
  method IsEquals(left: Option<UrlValue>, right: Option<UrlValue>, excludes: seq<string>) returns (r: Verdict)
    requires left.Some? ==> HasValues(left.value.params)
    requires right.Some? ==> HasValues(right.value.params)
    ensures left.Some? && right.Some? ==>
              r == Equal(SameView(left.value, right.value, set k | k in excludes))
    ensures left.Some? && right.Some? ==>
              (r == Equal(true) <==>
                 && left.value.ip == right.value.ip && left.value.port == right.value.port
                 && forall k: string | k !in excludes ::
                      Lookup(ToMap(left.value), k) == Lookup(ToMap(right.value), k))
    ensures left.Some? != right.Some? ==> r == Equal(false)
    ensures left.None? && right.None? ==> r == Panic
  {
    if left.None? && right.None? {
      return Panic;
    }
    if left.None? || right.None? {
      return Equal(false);
    }
    var l, g := left.value, right.value;
    ViewByParts(l, g, set k | k in excludes);
    if l.ip != g.ip || l.port != g.port {
      return Equal(false);
    }
    var excluded := set k | k in excludes;
    var sameReserved := EqualReservedKeys(l, g, excluded);
    if !sameReserved {
      return Equal(false);
    }
    var sameParams := EqualParams(l, g, excluded + set k | k in RESERVED_KEYS);
    r := Equal(sameParams);
  }

  /** For a fixed set of excluded keys the comparison is an equivalence relation. */
  lemma SameViewIsEquivalence(excludes: set<string>)
    ensures forall u: UrlValue | HasValues(u.params) :: SameView(u, u, excludes)
    ensures forall u: UrlValue, v: UrlValue | HasValues(u.params) && HasValues(v.params) ::
              SameView(u, v, excludes) ==> SameView(v, u, excludes)
    ensures forall u: UrlValue, v: UrlValue, w: UrlValue |
              HasValues(u.params) && HasValues(v.params) && HasValues(w.params) ::
              SameView(u, v, excludes) && SameView(v, w, excludes) ==> SameView(u, w, excludes)
  {
  }
}
