/**
  Printing and parsing of service keys, `group/interface:version` (common/url.go),
  and the two string searches they rest on.
*/
module ServiceKeys {

  const PATH_SEPARATOR := '/'
  const KEY_SEPARATOR := ':'
  const DEFAULT_VERSION := "0.0.0"

  /** Position of the first `c` in `s`, or -1. */
  function IndexOf(s: string, c: char): (r: int)
    ensures -1 <= r < |s|
    ensures r >= 0 ==> s[r] == c
    ensures forall i | 0 <= i < (if r >= 0 then r else |s|) :: s[i] != c
  {
    if s == "" then -1
    else if s[0] == c then 0
    else var r := IndexOf(s[1..], c); if r == -1 then -1 else r + 1
  }

  /** Position of the last `c` in `s`, or -1. */
  function LastIndexOf(s: string, c: char): (r: int)
    ensures -1 <= r < |s|
    ensures r >= 0 ==> s[r] == c
    ensures forall i | r < i < |s| :: s[i] != c
  {
    if s == "" then -1
    else if s[|s| - 1] == c then |s| - 1
    else LastIndexOf(s[..|s| - 1], c)
  }

  datatype ServiceId = ServiceId(intf: string, group: string, version: string)

  /** The version that reaches the key: "0.0.0" reads as none. */
  function EffectiveVersion(version: string): string {
    if version == DEFAULT_VERSION then "" else version
  }

  function GroupPart(group: string): string {
    if group == "" then "" else group + [PATH_SEPARATOR]
  }

  function VersionPart(version: string): string {
    if version == "" then "" else [KEY_SEPARATOR] + version
  }

  /** `ServiceKey`. */
  function ServiceKey(intf: string, group: string, version: string): string {
    if intf == "" then ""
    else GroupPart(group) + intf + VersionPart(EffectiveVersion(version))
  }

  /** What a key looks like: `group/interface:version`, without the parts that are empty or the default. */
  lemma KeyText(intf: string, group: string, version: string)
    ensures intf == "" ==> ServiceKey(intf, group, version) == ""
    ensures intf != "" ==>
              ServiceKey(intf, group, version) ==
              (if group == "" then intf else group + "/" + intf) +
              (if version == "" || version == "0.0.0" then "" else ":" + version)
  {
  }

  /** The group, if any, ends at the first '/'. */
  function SplitGroup(key: string): (string, string) {
    var slash := IndexOf(key, PATH_SEPARATOR);
    if slash == -1 then ("", key) else (key[..slash], key[slash + 1..])
  }

  /** The version, if any, starts after the last ':'. */
  function SplitVersion(rest: string): (string, string) {
    var colon := LastIndexOf(rest, KEY_SEPARATOR);
    if colon == -1 then (rest, "") else (rest[..colon], rest[colon + 1..])
  }

  /** `ParseServiceKey`. */
  function ParseServiceKey(key: string): ServiceId {
    var (group, rest) := SplitGroup(key);
    var (intf, version) := SplitVersion(rest);
    ServiceId(intf, group, version)
  }

  // -------------------------------------------------- splitting at a separator

  /** The first separator is the one that ends a separator-free prefix. */
  lemma SplitFirst(before: string, c: char, after: string)
    requires c !in before
    ensures var s := before + [c] + after;
            IndexOf(s, c) == |before| && s[..|before|] == before && s[|before| + 1..] == after
  {
    var s := before + [c] + after;
    assert s[|before|] == c;
    assert forall i | 0 <= i < |before| :: s[i] == before[i];
  }

  /** The last separator is the one that starts a separator-free suffix. */
  lemma SplitLast(before: string, c: char, after: string)
    requires c !in after
    ensures var s := before + [c] + after;
            LastIndexOf(s, c) == |before| && s[..|before|] == before && s[|before| + 1..] == after
  {
    var s := before + [c] + after;
    assert s[|before|] == c;
    assert forall i | |before| < i < |s| :: s[i] == after[i - |before| - 1];
  }

  /** Cutting the group off loses no character but the separator. */
  lemma GroupCut(key: string)
    ensures var (group, rest) := SplitGroup(key);
            if PATH_SEPARATOR in key then key == group + [PATH_SEPARATOR] + rest && PATH_SEPARATOR !in group
            else group == "" && rest == key
  {
    var slash := IndexOf(key, PATH_SEPARATOR);
    if slash != -1 {
      assert key[slash] in key;
    }
  }

  /** Cutting the version off loses no character but the separator. */
  lemma VersionCut(rest: string)
    ensures var (intf, v) := SplitVersion(rest);
            if KEY_SEPARATOR in rest then rest == intf + [KEY_SEPARATOR] + v && KEY_SEPARATOR !in v
            else v == "" && rest == intf
  {
    var colon := LastIndexOf(rest, KEY_SEPARATOR);
    if colon != -1 {
      assert rest[colon] in rest;
    }
  }

  // -------------------------------------------------- parse after print

  /**
    The parts that survive printing. A group shields '/' in what follows it and
    a version shields ':' in the interface; without them the separators must not
    occur there.
  */
  predicate Recoverable(intf: string, group: string, version: string) {
    var v := EffectiveVersion(version);
    if intf == "" then group == "" && v == ""
    else GroupRecoverable(group, intf + VersionPart(v)) && VersionRecoverable(intf, v)
  }

  predicate GroupRecoverable(group: string, body: string) {
    if group == "" then PATH_SEPARATOR !in body else PATH_SEPARATOR !in group
  }

  predicate VersionRecoverable(intf: string, v: string) {
    if v == "" then KEY_SEPARATOR !in intf else KEY_SEPARATOR !in v
  }

  /** Parsing `group/body` finds the group and the body, or else not both. */
  lemma GroupSplit(group: string, body: string)
    ensures var key := GroupPart(group) + body;
            (SplitGroup(key) == (group, body)) <==> GroupRecoverable(group, body)
  {
    var key := GroupPart(group) + body;
    if group != "" {
      assert key == group + [PATH_SEPARATOR] + body;
      if PATH_SEPARATOR !in group {
        SplitFirst(group, PATH_SEPARATOR, body);
      }
    } else {
      assert key == body;
    }
  }

  /** Parsing `intf:v` finds the interface and the version, or else not both. */
  lemma VersionSplit(intf: string, v: string)
    ensures (SplitVersion(intf + VersionPart(v)) == (intf, v)) <==> VersionRecoverable(intf, v)
  {
    var body := intf + VersionPart(v);
    if v != "" {
      assert body == intf + [KEY_SEPARATOR] + v;
      if KEY_SEPARATOR !in v {
        SplitLast(intf, KEY_SEPARATOR, v);
      }
    } else {
      assert body == intf;
    }
  }

  /** Parsing a printed key gives the parts back for exactly the recoverable parts. */
  lemma ParsePrinted(intf: string, group: string, version: string)
    ensures ParseServiceKey(ServiceKey(intf, group, version)) ==
            ServiceId(intf, group, EffectiveVersion(version)) <==>
            Recoverable(intf, group, version)
  {
    if intf != "" {
      var v := EffectiveVersion(version);
      var body := intf + VersionPart(v);
      var key := ServiceKey(intf, group, version);
      assert key == GroupPart(group) + body;
      GroupSplit(group, body);
      VersionSplit(intf, v);
      GroupCut(key);
      VersionCut(SplitGroup(key).1);
    }
  }

  // -------------------------------------------------- print after parse

  /** The keys that printing can produce again from their parse. */
  predicate Canonical(key: string) {
    var (group, rest) := SplitGroup(key);
    var (intf, version) := SplitVersion(rest);
    key == "" ||
    (&& intf != ""
     && (PATH_SEPARATOR in key ==> group != "")
     && (KEY_SEPARATOR in rest ==> version != "" && version != DEFAULT_VERSION))
  }

  /** Printing the parse of a key gives the key back for exactly the canonical keys. */
  lemma PrintParsed(key: string)
    ensures var id := ParseServiceKey(key);
            ServiceKey(id.intf, id.group, id.version) == key <==> Canonical(key)
  {
    GroupCut(key);
    var (group, rest) := SplitGroup(key);
    VersionCut(rest);
    var (intf, version) := SplitVersion(rest);
    Reassemble(key, group, rest, intf, version);
  }

  /** Printing parts that were cut out of a key. */
  lemma Reassemble(key: string, group: string, rest: string, intf: string, version: string)
    requires if PATH_SEPARATOR in key then key == group + [PATH_SEPARATOR] + rest else group == "" && rest == key
    requires if KEY_SEPARATOR in rest then rest == intf + [KEY_SEPARATOR] + version else version == "" && rest == intf
    ensures ServiceKey(intf, group, version) == key <==>
            || key == ""
            || (&& intf != ""
                && (PATH_SEPARATOR in key ==> group != "")
                && (KEY_SEPARATOR in rest ==> version != "" && version != DEFAULT_VERSION))
  {
    var gp, vp := GroupPart(group), VersionPart(EffectiveVersion(version));
    assert gp + intf + vp == gp + (intf + vp);
    assert |gp + intf + vp| == |gp| + |intf| + |vp|;
    if PATH_SEPARATOR in key ==> group != "" {
      assert key == gp + rest;
    }
  }

  /** Distinct recoverable services never share a key. */
  lemma KeysAreUnique(i1: string, g1: string, v1: string, i2: string, g2: string, v2: string)
    requires Recoverable(i1, g1, v1) && Recoverable(i2, g2, v2)
    requires ServiceKey(i1, g1, v1) == ServiceKey(i2, g2, v2)
    ensures i1 == i2 && g1 == g2 && EffectiveVersion(v1) == EffectiveVersion(v2)
  {
    ParsePrinted(i1, g1, v1);
    ParsePrinted(i2, g2, v2);
  }
}
