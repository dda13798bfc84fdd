/**
  Names under which a service's methods can be called (common/rpc_service.go and
  common/dubboutil/case_invert.go). Every method is routable under its canonical
  name and under that name with the case of its first letter swapped. Reflection
  is replaced by the list of canonical methods it yields.
*/
module WireNames {
  import opened Options

  /** The letter tests and mappings of Go's unicode package. */
  datatype Casing = Casing(isUpper: char -> bool, toLower: char -> char, toUpper: char -> char)

  function SwapRune(c: Casing, r: char): char {
    if c.isUpper(r) then c.toLower(r) else c.toUpper(r)
  }

  /** The meaning of `SwapCaseFirstRune`. */
  function Swap(c: Casing, s: string): string {
    if s == "" then s else [SwapRune(c, s[0])] + s[1..]
  }

  /** `SwapCaseFirstRune`: the first element of a rune slice is rewritten. */
  method SwapCaseFirstRune(c: Casing, s: string) returns (r: string)
    ensures r == Swap(c, s)
    ensures |r| == |s| && (s != "" ==> r[1..] == s[1..])
    ensures s != "" ==> r[0] == if c.isUpper(s[0]) then c.toLower(s[0]) else c.toUpper(s[0])
  {
    if s == "" {
      return s;
    }
    var runes := new char[|s|](i requires 0 <= i < |s| => s[i]);
    assert runes[..] == s;
    if c.isUpper(runes[0]) {
      runes[0] := c.toLower(runes[0]);
    } else {
      runes[0] := c.toUpper(runes[0]);
    }
    r := runes[..];
  }

  /** Swapping a letter twice restores it. */
  ghost predicate Involutive(c: Casing) {
    forall r: char :: SwapRune(c, SwapRune(c, r)) == r
  }

  /** The swap gives a string back when done twice. */
  predicate SwapsBack(c: Casing, s: string) {
    Swap(c, Swap(c, s)) == s
  }

  const ASCII := Casing(
    r => 'A' <= r <= 'Z',
    r => if 'A' <= r <= 'Z' then r - 'A' + 'a' else r,
    r => if 'a' <= r <= 'z' then r - 'a' + 'A' else r)

  lemma AsciiIsInvolutive()
    ensures Involutive(ASCII)
  {
  }

  /** In ASCII capitals become small letters and small letters capitals; all else stays. */
  lemma AsciiSwap(r: char)
    ensures 'A' <= r <= 'Z' ==> SwapRune(ASCII, r) == (r as int + 32) as char
    ensures 'a' <= r <= 'z' ==> SwapRune(ASCII, r) == (r as int - 32) as char
    ensures !('A' <= r <= 'Z') && !('a' <= r <= 'z') ==> SwapRune(ASCII, r) == r
  {
  }

  /** Only the first rune decides whether a string swaps back. */
  lemma SwapTwice(c: Casing, s: string)
    ensures SwapsBack(c, s) <==> s == "" || SwapRune(c, SwapRune(c, s[0])) == s[0]
  {
    if s != "" {
      assert Swap(c, s)[1..] == s[1..];
      assert s == [s[0]] + s[1..];
    }
  }

  /** The casing treats the runes below 128 as ASCII does, as Go's unicode package is defined to. */
  ghost predicate ExtendsAscii(c: Casing) {
    forall r: char | r < '\U{80}' :: SwapRune(c, r) == SwapRune(ASCII, r)
  }

  /** With such a casing every name that starts with an ASCII rune swaps back. */
  lemma AsciiNamesSwapBack(c: Casing, s: string)
    requires ExtendsAscii(c) && (s != "" ==> s[0] < '\U{80}')
    ensures SwapsBack(c, s)
  {
    SwapTwice(c, s);
    AsciiIsInvolutive();
    if s != "" {
      assert SwapRune(c, s[0]) == SwapRune(ASCII, s[0]) < '\U{80}';
    }
  }

  // ------------------------------------------------------------- operations

  /** A method and the name it is advertised under. */
  datatype Method = Method(name: string, goName: string)

  datatype Conflict = Conflict(first: string, second: string, wireName: string)

  /** `MethodWireNames`. */
  function MethodWireNames(c: Casing, canonical: string): seq<string> {
    var alias := Swap(c, canonical);
    if alias == canonical then [canonical] else [canonical, alias]
  }

  /** The names a method is routable under. */
  function Wires(c: Casing, m: Method): set<string> {
    {m.name, Swap(c, m.name)}
  }

  /** What the conflict scan has collected so far. */
  datatype Scan = Scan(owner: map<string, Method>, reported: set<string>, conflicts: seq<Conflict>)

  function PairKey(first: string, second: string): string {
    first + "\0" + second
  }

  /** The scan of one wire name of one method. */
  function ScanName(st: Scan, m: Method, wire: string): Scan {
    if wire in st.owner && st.owner[wire].goName != m.goName then
      var prev := st.owner[wire];
      var pair := PairKey(prev.goName, m.goName);
      if pair in st.reported then st
      else st.(reported := st.reported + {pair},
               conflicts := st.conflicts + [Conflict(prev.goName, m.goName, wire)])
    else st.(owner := st.owner[wire := m])
  }

  function ScanNames(st: Scan, m: Method, wires: seq<string>): Scan {
    if wires == [] then st
    else ScanName(ScanNames(st, m, wires[..|wires| - 1]), m, wires[|wires| - 1])
  }

  function ScanAll(c: Casing, methods: seq<Method>): Scan {
    if methods == [] then Scan(map[], {}, [])
    else
      var m := methods[|methods| - 1];
      ScanNames(ScanAll(c, methods[..|methods| - 1]), m, MethodWireNames(c, m.name))
  }

  function Conflicts(c: Casing, methods: seq<Method>): seq<Conflict> {
    ScanAll(c, methods).conflicts
  }

  /** `MethodNameConflicts`. */
  method MethodNameConflicts(c: Casing, methods: seq<Method>) returns (conflicts: seq<Conflict>)
    ensures conflicts == Conflicts(c, methods)
  {
    var owner: map<string, Method> := map[];
    var reported: set<string> := {};
    conflicts := [];
    for i := 0 to |methods|
      invariant Scan(owner, reported, conflicts) == ScanAll(c, methods[..i])
    {
      var m := methods[i];
      var wires := MethodWireNames(c, m.name);
      for j := 0 to |wires|
        invariant Scan(owner, reported, conflicts) == ScanNames(ScanAll(c, methods[..i]), m, wires[..j])
      {
        var wire := wires[j];
        assert wires[..j + 1][..j] == wires[..j];
        if wire in owner && owner[wire].goName != m.goName {
          var prev := owner[wire];
          var pair := PairKey(prev.goName, m.goName);
          if pair !in reported {
            reported := reported + {pair};
            conflicts := conflicts + [Conflict(prev.goName, m.goName, wire)];
          }
          continue;
        }
        owner := owner[wire := m];
      }
      assert wires[..|wires|] == wires;
      assert methods[..i + 1][..i] == methods[..i];
    }
    assert methods[..|methods|] == methods;
  }

  /** The lookup table a service is served from; later registrations overwrite. */
  function Table(c: Casing, methods: seq<Method>): map<string, Method> {
    if methods == [] then map[]
    else
      var m := methods[|methods| - 1];
      Table(c, methods[..|methods| - 1])[m.name := m][Swap(c, m.name) := m]
  }

  /** The list of names that goes with the table: each method's name, then its other form. */
  function Names(c: Casing, methods: seq<Method>): seq<string> {
    if methods == [] then []
    else
      var m := methods[|methods| - 1];
      Names(c, methods[..|methods| - 1]) + [m.name] + [Swap(c, m.name)]
  }

  lemma {:induction false} NamesAt(c: Casing, methods: seq<Method>, i: int)
    requires 0 <= i < |methods|
    ensures |Names(c, methods)| == 2 * |methods|
    ensures Names(c, methods)[2 * i] == methods[i].name && Names(c, methods)[2 * i + 1] == Swap(c, methods[i].name)
    decreases |methods|
  {
    var rest := methods[..|methods| - 1];
    if rest != [] {
      NamesAt(c, rest, if i < |rest| then i else 0);
    }
  }

  /** The table loop of `suitableMethods`, with the list of names it joins. */
  method SuitableMethods(c: Casing, methods: seq<Method>) returns (names: seq<string>, table: map<string, Method>)
    ensures table == Table(c, methods) && names == Names(c, methods)
    ensures |names| == 2 * |methods|
    ensures forall i | 0 <= i < |methods| ::
              names[2 * i] == methods[i].name && names[2 * i + 1] == Swap(c, methods[i].name)
  {
    names, table := [], map[];
    for i := 0 to |methods|
      invariant table == Table(c, methods[..i]) && names == Names(c, methods[..i])
    {
      assert methods[..i + 1][..i] == methods[..i];
      var m := methods[i];
      table := table[m.name := m];
      names := names + [m.name];
      var alias := SwapCaseFirstRune(c, m.name);
      table := table[alias := m];
      names := names + [alias];
    }
    assert methods[..|methods|] == methods;
    forall i | 0 <= i < |methods|
      ensures |Names(c, methods)| == 2 * |methods|
      ensures Names(c, methods)[2 * i] == methods[i].name && Names(c, methods)[2 * i + 1] == Swap(c, methods[i].name)
    {
      NamesAt(c, methods, i);
    }
  }

  // ------------------------------------------------- owners, first and last

  /** Go method names are distinct within a type. */
  ghost predicate DistinctGoNames(methods: seq<Method>) {
    forall i, j | 0 <= i < j < |methods| :: methods[i].goName != methods[j].goName
  }

  /** The earliest method routable under `w`. */
  function First(c: Casing, methods: seq<Method>, w: string): (r: Option<Method>)
    ensures r.Some? ==> r.value in methods && w in Wires(c, r.value)
    ensures r.None? ==> forall m <- methods :: w !in Wires(c, m)
  {
    if methods == [] then None
    else
      var rest, m := methods[..|methods| - 1], methods[|methods| - 1];
      assert methods == rest + [m];
      var r := First(c, rest, w);
      if r.Some? then r else if w in Wires(c, m) then Some(m) else None
  }

  /** The latest method routable under `w`. */
  function Last(c: Casing, methods: seq<Method>, w: string): (r: Option<Method>)
    ensures r.Some? ==> r.value in methods && w in Wires(c, r.value)
    ensures r.None? ==> forall m <- methods :: w !in Wires(c, m)
  {
    if methods == [] then None
    else
      var rest, m := methods[..|methods| - 1], methods[|methods| - 1];
      assert methods == rest + [m];
      if w in Wires(c, m) then Some(m) else Last(c, rest, w)
  }

  /** A method before which none is routable under `w` is the first. */
  lemma {:induction false} FirstIs(c: Casing, methods: seq<Method>, w: string, i: int)
    requires 0 <= i < |methods| && w in Wires(c, methods[i]) && forall j | 0 <= j < i :: w !in Wires(c, methods[j])
    ensures First(c, methods, w) == Some(methods[i])
    decreases |methods|
  {
    var rest := methods[..|methods| - 1];
    if i < |rest| {
      FirstIs(c, rest, w, i);
    } else {
      assert forall m <- rest :: w !in Wires(c, m);
    }
  }

  /** A method after which none is routable under `w` is the last. */
  lemma {:induction false} LastIs(c: Casing, methods: seq<Method>, w: string, i: int)
    requires 0 <= i < |methods| && w in Wires(c, methods[i])
    requires forall j | i < j < |methods| :: w !in Wires(c, methods[j])
    ensures Last(c, methods, w) == Some(methods[i])
    decreases |methods|
  {
    if i < |methods| - 1 {
      LastIs(c, methods[..|methods| - 1], w, i);
    }
  }

  /** So a call under a name reaches the method that took it last. */
  lemma LatestIsReached(c: Casing, methods: seq<Method>, w: string, i: int)
    requires 0 <= i < |methods| && w in Wires(c, methods[i])
    requires forall j | i < j < |methods| :: w !in Wires(c, methods[j])
    ensures Lookup(Table(c, methods), w) == Some(methods[i])
  {
    TableAt(c, methods, w);
    LastIs(c, methods, w, i);
  }

  /** A method's wire names, listed: the canonical one first, the other if it differs. */
  lemma WireNamesListed(c: Casing, m: Method)
    ensures var names := MethodWireNames(c, m.name);
            && names[0] == m.name && (set w | w in names) == Wires(c, m)
            && |names| == |Wires(c, m)| && Wires(c, m) == {m.name, Swap(c, m.name)}
  {
    var alias := Swap(c, m.name);
    if alias == m.name {
      assert Wires(c, m) == {m.name};
    } else {
      assert |{m.name, alias}| == 2;
    }
  }

  /** A call under `w` lands on the latest method routable under it. */
  lemma {:induction false} TableAt(c: Casing, methods: seq<Method>, w: string)
    ensures Lookup(Table(c, methods), w) == Last(c, methods, w)
    decreases |methods|
  {
    if methods != [] {
      TableAt(c, methods[..|methods| - 1], w);
    }
  }

  lemma DistinctGoNamesPrefix(methods: seq<Method>)
    requires methods != [] && DistinctGoNames(methods)
    ensures DistinctGoNames(methods[..|methods| - 1])
    ensures forall p <- methods[..|methods| - 1] :: p.goName != methods[|methods| - 1].goName
  {
  }

  /** One method's effect on the scan, its two names taken together. */
  lemma ScanStep(c: Casing, st: Scan, m: Method)
    ensures var next := ScanNames(st, m, MethodWireNames(c, m.name));
            next == if Swap(c, m.name) == m.name then ScanName(st, m, m.name)
                    else ScanName(ScanName(st, m, m.name), m, Swap(c, m.name))
  {
    var alias := Swap(c, m.name);
    assert [m.name, alias][..1] == [m.name];
    assert ScanNames(st, m, [m.name]) == ScanName(st, m, m.name) by {
      assert [m.name][..0] == [];
    }
  }

  /** A method comes to own those of its names that no other method owns. */
  lemma OwnerStep(c: Casing, st: Scan, m: Method, w: string)
    requires w in st.owner ==> st.owner[w].goName != m.goName
    ensures var next := ScanNames(st, m, MethodWireNames(c, m.name));
            Lookup(next.owner, w) == if w !in st.owner && w in Wires(c, m) then Some(m) else Lookup(st.owner, w)
  {
    ScanStep(c, st, m);
  }

  /** The scan's owner of a name is the earliest method routable under it. */
  lemma {:induction false} OwnerAt(c: Casing, methods: seq<Method>, w: string)
    requires DistinctGoNames(methods)
    ensures Lookup(ScanAll(c, methods).owner, w) == First(c, methods, w)
    decreases |methods|
  {
    if methods != [] {
      var rest, m := methods[..|methods| - 1], methods[|methods| - 1];
      DistinctGoNamesPrefix(methods);
      OwnerAt(c, rest, w);
      OwnerStep(c, ScanAll(c, rest), m, w);
    }
  }

  // ---------------------------------- conflicts against what can be reached

  /** No two methods share a wire name. */
  ghost predicate Disjoint(c: Casing, methods: seq<Method>) {
    forall i, j | 0 <= i < j < |methods| :: Wires(c, methods[i]) !! Wires(c, methods[j])
  }

  /** Every method answers under all of its wire names. */
  ghost predicate AllReachable(c: Casing, methods: seq<Method>) {
    forall m <- methods, w <- Wires(c, m) :: Lookup(Table(c, methods), w) == Some(m)
  }

  /** The scan reports nothing exactly when no two methods share a name. */
  lemma {:induction false} SilentIffDisjoint(c: Casing, methods: seq<Method>)
    requires DistinctGoNames(methods)
    ensures Conflicts(c, methods) == [] <==> Disjoint(c, methods)
    ensures Conflicts(c, methods) == [] ==> ScanAll(c, methods).reported == {}
    decreases |methods|
  {
    if methods != [] {
      var rest, m := methods[..|methods| - 1], methods[|methods| - 1];
      assert methods == rest + [m];
      DistinctGoNamesPrefix(methods);
      SilentIffDisjoint(c, rest);
      OwnerAt(c, rest, m.name);
      OwnerAt(c, rest, Swap(c, m.name));
      SilentStep(c, ScanAll(c, rest), m);
      DisjointSplit(c, rest, m);
    }
  }

  /** From a silent scan, a method stays silent exactly when its names are free. */
  lemma SilentStep(c: Casing, st: Scan, m: Method)
    requires m.name in st.owner ==> st.owner[m.name].goName != m.goName
    requires Swap(c, m.name) in st.owner ==> st.owner[Swap(c, m.name)].goName != m.goName
    ensures var next := ScanNames(st, m, MethodWireNames(c, m.name));
            && |next.conflicts| >= |st.conflicts|
            && (st.conflicts == [] && st.reported == {} ==>
                  && (next.conflicts == [] <==> m.name !in st.owner && Swap(c, m.name) !in st.owner)
                  && (next.conflicts == [] ==> next.reported == {}))
  {
    ScanStep(c, st, m);
  }

  lemma DisjointSplit(c: Casing, rest: seq<Method>, m: Method)
    ensures Disjoint(c, rest + [m]) <==>
            Disjoint(c, rest) && First(c, rest, m.name).None? && First(c, rest, Swap(c, m.name)).None?
  {
    var methods := rest + [m];
    if Disjoint(c, methods) {
      forall i, j | 0 <= i < j < |rest|
        ensures Wires(c, rest[i]) !! Wires(c, rest[j])
      {
        assert methods[i] == rest[i] && methods[j] == rest[j];
      }
      forall p | p in rest
        ensures Wires(c, p) !! Wires(c, m)
      {
        var i :| 0 <= i < |rest| && rest[i] == p;
        assert methods[i] == p && methods[|rest|] == m;
      }
    }
  }

  lemma ReachableIffDisjoint(c: Casing, methods: seq<Method>)
    requires DistinctGoNames(methods)
    ensures AllReachable(c, methods) <==> Disjoint(c, methods)
  {
    if Disjoint(c, methods) {
      forall m, w | m in methods && w in Wires(c, m)
        ensures Lookup(Table(c, methods), w) == Some(m)
      {
        TableAt(c, methods, w);
        var last := Last(c, methods, w);
        var i :| 0 <= i < |methods| && methods[i] == m;
        var j :| 0 <= j < |methods| && methods[j] == last.value;
        assert i == j;
      }
    }
    if AllReachable(c, methods) {
      forall i, j | 0 <= i < j < |methods|
        ensures Wires(c, methods[i]) !! Wires(c, methods[j])
      {
        if w :| w in Wires(c, methods[i]) && w in Wires(c, methods[j]) {
          assert methods[i] in methods && methods[j] in methods;
          assert Some(methods[i]) == Lookup(Table(c, methods), w) == Some(methods[j]);
        }
      }
    }
  }

  /** The conflict report is empty exactly when every method is reachable under all its names. */
  lemma SilentIffAllReachable(c: Casing, methods: seq<Method>)
    requires DistinctGoNames(methods)
    ensures Conflicts(c, methods) == [] <==> AllReachable(c, methods)
  {
    SilentIffDisjoint(c, methods);
    ReachableIffDisjoint(c, methods);
  }

  /** Reported pairs are all different and all remembered. */
  ghost predicate Remembered(st: Scan) {
    && (forall x <- st.conflicts :: PairKey(x.first, x.second) in st.reported)
    && (forall i, j | 0 <= i < j < |st.conflicts| ::
          (st.conflicts[i].first, st.conflicts[i].second) != (st.conflicts[j].first, st.conflicts[j].second))
  }

  lemma RememberedStep(st: Scan, m: Method, wire: string)
    requires Remembered(st)
    ensures Remembered(ScanName(st, m, wire))
  {
    var next := ScanName(st, m, wire);
    if next.conflicts != st.conflicts {
      var added := next.conflicts[|st.conflicts|];
      assert forall x <- st.conflicts :: PairKey(x.first, x.second) != PairKey(added.first, added.second);
    }
  }

  lemma {:induction false} AllRemembered(c: Casing, methods: seq<Method>)
    ensures Remembered(ScanAll(c, methods))
    decreases |methods|
  {
    if methods != [] {
      var rest, m := methods[..|methods| - 1], methods[|methods| - 1];
      var st := ScanAll(c, rest);
      AllRemembered(c, rest);
      ScanStep(c, st, m);
      RememberedStep(st, m, m.name);
      RememberedStep(ScanName(st, m, m.name), m, Swap(c, m.name));
    }
  }

  /** Method `j` is routable under `w`, which is already taken by method `i`, its earliest owner. */
  ghost predicate Contest(c: Casing, methods: seq<Method>, i: int, j: int, w: string)
    requires 0 <= i < j < |methods|
  {
    w in Wires(c, methods[j]) && First(c, methods[..j], w) == Some(methods[i])
  }

  /** The conflict names two methods, the earlier one first, and a wire name that they contest. */
  ghost predicate IsContest(c: Casing, methods: seq<Method>, x: Conflict) {
    exists i, j | 0 <= i < j < |methods| ::
      methods[i].goName == x.first && methods[j].goName == x.second && Contest(c, methods, i, j, x.wireName)
  }

  /** The conflict is one between the last method and the earliest owner of one of its names. */
  ghost predicate IsNewContest(c: Casing, rest: seq<Method>, m: Method, x: Conflict) {
    && x.second == m.goName && x.wireName in Wires(c, m)
    && First(c, rest, x.wireName).Some? && First(c, rest, x.wireName).value.goName == x.first
  }

  /** One name of a method adds at most a conflict with the name's owner. */
  lemma AddedConflict(st: Scan, m: Method, wire: string, x: Conflict)
    requires x in ScanName(st, m, wire).conflicts
    ensures x in st.conflicts || (wire in st.owner && x == Conflict(st.owner[wire].goName, m.goName, wire))
  {
  }

  /** So does a whole method: its conflicts are with the earliest owners of its names. */
  lemma MethodConflicts(c: Casing, rest: seq<Method>, m: Method, x: Conflict)
    requires DistinctGoNames(rest + [m])
    requires x in ScanNames(ScanAll(c, rest), m, MethodWireNames(c, m.name)).conflicts
    ensures x in Conflicts(c, rest) || IsNewContest(c, rest, m, x)
  {
    var st, methods := ScanAll(c, rest), rest + [m];
    assert methods[..|methods| - 1] == rest;
    DistinctGoNamesPrefix(methods);
    ScanStep(c, st, m);
    OwnerAt(c, rest, m.name);
    OwnerAt(c, rest, Swap(c, m.name));
    var first := ScanName(st, m, m.name);
    if Swap(c, m.name) != m.name {
      AddedConflict(first, m, Swap(c, m.name), x);
    }
    if x in first.conflicts {
      AddedConflict(st, m, m.name, x);
    }
  }

  lemma ContestWith(c: Casing, rest: seq<Method>, m: Method, x: Conflict)
    requires IsContest(c, rest, x) || IsNewContest(c, rest, m, x)
    ensures IsContest(c, rest + [m], x)
  {
    var methods := rest + [m];
    if IsContest(c, rest, x) {
      var i, j :| 0 <= i < j < |rest| && rest[i].goName == x.first && rest[j].goName == x.second &&
                  Contest(c, rest, i, j, x.wireName);
      assert methods[i] == rest[i] && methods[j] == rest[j] && methods[..j] == rest[..j];
      assert Contest(c, methods, i, j, x.wireName);
    } else {
      var p := First(c, rest, x.wireName).value;
      var i :| 0 <= i < |rest| && rest[i] == p;
      assert methods[i] == p && methods[|rest|] == m && methods[..|rest|] == rest;
      assert Contest(c, methods, i, |rest|, x.wireName);
    }
  }

  lemma {:induction false} ConflictsAreContests(c: Casing, methods: seq<Method>, x: Conflict)
    requires DistinctGoNames(methods) && x in Conflicts(c, methods)
    ensures IsContest(c, methods, x)
    decreases |methods|
  {
    if methods != [] {
      var rest, m := methods[..|methods| - 1], methods[|methods| - 1];
      assert methods == rest + [m];
      MethodConflicts(c, rest, m, x);
      if x in Conflicts(c, rest) {
        DistinctGoNamesPrefix(methods);
        ConflictsAreContests(c, rest, x);
      }
      ContestWith(c, rest, m, x);
    }
  }

  /**
    No pair of methods is reported twice, in either order; each report names the earlier
    method first, and a wire name of both that the earlier one was the first to have.
  */
  lemma NoPairTwice(c: Casing, methods: seq<Method>)
    requires DistinctGoNames(methods)
    ensures forall x <- Conflicts(c, methods) :: IsContest(c, methods, x)
    ensures var cs := Conflicts(c, methods);
            forall i, j | 0 <= i < j < |cs| :: {cs[i].first, cs[i].second} != {cs[j].first, cs[j].second}
  {
    var cs := Conflicts(c, methods);
    AllRemembered(c, methods);
    forall x | x in cs
      ensures IsContest(c, methods, x)
    {
      ConflictsAreContests(c, methods, x);
    }
    forall i, j | 0 <= i < j < |cs|
      ensures {cs[i].first, cs[i].second} != {cs[j].first, cs[j].second}
    {
      DifferentPairs(c, methods, cs[i], cs[j]);
    }
  }

  lemma DifferentPairs(c: Casing, methods: seq<Method>, x: Conflict, y: Conflict)
    requires DistinctGoNames(methods) && IsContest(c, methods, x) && IsContest(c, methods, y)
    requires (x.first, x.second) != (y.first, y.second)
    ensures {x.first, x.second} != {y.first, y.second}
  {
    var i, j :| 0 <= i < j < |methods| && methods[i].goName == x.first && methods[j].goName == x.second;
    var k, l :| 0 <= k < l < |methods| && methods[k].goName == y.first && methods[l].goName == y.second;
    assert i != l || j != k;
    assert x.first !in {y.first, y.second} || x.second !in {y.first, y.second};
  }

  // ------------------------------------------------------------ conservation

  /** The separator of a pair key does not occur in a Go identifier. */
  ghost predicate PlainGoNames(methods: seq<Method>) {
    forall m <- methods :: '\0' !in m.goName
  }

  lemma PairKeyUnique(a: string, b: string, x: string, y: string)
    requires '\0' !in a && '\0' !in b && '\0' !in x && '\0' !in y
    requires PairKey(a, b) == PairKey(x, y)
    ensures a == x && b == y
  {
    var k := PairKey(a, b);
    assert k[|a|] == '\0' && k[|x|] == '\0';
    assert forall i | 0 <= i < |a| :: k[i] == a[i];
    assert forall i | 0 <= i < |x| :: k[i] == x[i];
    assert |a| == |x|;
    assert a == k[..|a|] == x;
    assert b == k[|a| + 1..] == y;
  }

  /** Every name of the list swaps back. */
  ghost predicate NamesSwapBack(c: Casing, methods: seq<Method>) {
    forall m <- methods :: SwapsBack(c, m.name)
  }

  /** Methods whose names swap back and that share one name share both. */
  lemma SharedNamesCoincide(c: Casing, m: Method, p: Method, w: string)
    requires SwapsBack(c, m.name) && SwapsBack(c, p.name) && w in Wires(c, m) && w in Wires(c, p)
    ensures Wires(c, m) == Wires(c, p) == {w, Swap(c, w)}
  {
  }

  /** Both forms of a name that swaps back have the same first and the same last owner. */
  lemma {:induction false} OwnersCoincide(c: Casing, methods: seq<Method>, w: string)
    requires NamesSwapBack(c, methods) && SwapsBack(c, w)
    ensures First(c, methods, w) == First(c, methods, Swap(c, w))
    ensures Last(c, methods, w) == Last(c, methods, Swap(c, w))
    decreases |methods|
  {
    if methods != [] {
      var m := methods[|methods| - 1];
      OwnersCoincide(c, methods[..|methods| - 1], w);
      assert m in methods && SwapsBack(c, m.name);
    }
  }

  /** The keys of all pairs of methods of the list. */
  ghost function PairKeys(methods: seq<Method>): set<string> {
    set p, q | p in methods && q in methods :: PairKey(p.goName, q.goName)
  }

  /** Every reported key pairs two methods of the list. */
  lemma {:induction false} ReportedAreMembers(c: Casing, methods: seq<Method>)
    requires DistinctGoNames(methods)
    ensures ScanAll(c, methods).reported <= PairKeys(methods)
    decreases |methods|
  {
    if methods != [] {
      var rest, m := methods[..|methods| - 1], methods[|methods| - 1];
      var st := ScanAll(c, rest);
      DistinctGoNamesPrefix(methods);
      ReportedAreMembers(c, rest);
      PairKeysGrow(rest, m);
      forall w | w in st.owner
        ensures PairKey(st.owner[w].goName, m.goName) in PairKeys(methods)
      {
        OwnerAt(c, rest, w);
        PairKeysHave(methods, st.owner[w], m);
      }
      ReportedStep(c, st, m, PairKeys(methods));
    }
  }

  lemma PairKeysHave(methods: seq<Method>, p: Method, q: Method)
    requires p in methods && q in methods
    ensures PairKey(p.goName, q.goName) in PairKeys(methods)
  {
  }

  lemma PairKeysGrow(rest: seq<Method>, m: Method)
    ensures PairKeys(rest) <= PairKeys(rest + [m])
  {
    assert forall p <- rest :: p in rest + [m];
  }

  lemma ReportedStep(c: Casing, st: Scan, m: Method, keys: set<string>)
    requires st.reported <= keys
    requires forall w <- st.owner :: PairKey(st.owner[w].goName, m.goName) in keys
    ensures ScanNames(st, m, MethodWireNames(c, m.name)).reported <= keys
  {
    ScanStep(c, st, m);
    ReportedName(st, m, m.name, keys);
    if Swap(c, m.name) != m.name {
      ReportedName(ScanName(st, m, m.name), m, Swap(c, m.name), keys);
    }
  }

  lemma ReportedName(st: Scan, m: Method, wire: string, keys: set<string>)
    requires st.reported <= keys
    requires wire in st.owner ==> PairKey(st.owner[wire].goName, m.goName) in keys
    ensures ScanName(st, m, wire).reported <= keys
  {
  }

  lemma NewPairKey(rest: seq<Method>, p: Method, m: Method)
    requires PlainGoNames(rest + [m]) && p in rest
    requires forall q <- rest :: q.goName != m.goName
    ensures PairKey(p.goName, m.goName) !in PairKeys(rest)
  {
    assert (rest + [m])[|rest|] == m;
    assert forall q <- rest :: q in rest + [m];
    forall q, r | q in rest && r in rest
      ensures PairKey(q.goName, r.goName) != PairKey(p.goName, m.goName)
    {
      if PairKey(q.goName, r.goName) == PairKey(p.goName, m.goName) {
        PairKeyUnique(q.goName, r.goName, p.goName, m.goName);
      }
    }
  }

  /** The pair is among the conflicts. */
  ghost predicate Reports(conflicts: seq<Conflict>, first: string, second: string) {
    exists x <- conflicts :: x.first == first && x.second == second
  }

  /** A name owned by another method is reported, unless the pair has been already. */
  lemma ScanReports(st: Scan, m: Method, wire: string)
    requires wire in st.owner && st.owner[wire].goName != m.goName
    requires PairKey(st.owner[wire].goName, m.goName) in st.reported ==>
               Reports(st.conflicts, st.owner[wire].goName, m.goName)
    ensures Reports(ScanName(st, m, wire).conflicts, st.owner[wire].goName, m.goName)
  {
    var next, p := ScanName(st, m, wire), st.owner[wire];
    if PairKey(p.goName, m.goName) !in st.reported {
      assert next.conflicts[|st.conflicts|] == Conflict(p.goName, m.goName, wire);
    }
  }

  lemma ReportsStay(st: Scan, m: Method, wire: string, first: string, second: string)
    requires Reports(st.conflicts, first, second)
    ensures Reports(ScanName(st, m, wire).conflicts, first, second)
  {
    var x :| x in st.conflicts && x.first == first && x.second == second;
    assert x in ScanName(st, m, wire).conflicts;
  }

  /** Every contest of the last method is reported. */
  lemma NewContestReported(c: Casing, rest: seq<Method>, m: Method, w: string)
    requires DistinctGoNames(rest + [m]) && PlainGoNames(rest + [m])
    requires w in Wires(c, m) && First(c, rest, w).Some?
    ensures Reports(Conflicts(c, rest + [m]), First(c, rest, w).value.goName, m.goName)
  {
    var methods, st, p := rest + [m], ScanAll(c, rest), First(c, rest, w).value;
    assert methods[..|methods| - 1] == rest;
    DistinctGoNamesPrefix(methods);
    ScanStep(c, st, m);
    OwnerAt(c, rest, w);
    OwnerAt(c, rest, m.name);
    ReportedAreMembers(c, rest);
    NewPairKey(rest, p, m);
    if w == m.name {
      ScanReports(st, m, w);
      ReportsStay(ScanName(st, m, w), m, Swap(c, m.name), p.goName, m.goName);
    } else {
      SecondName(c, st, m, w, p);
    }
  }

  /** The second name of a method is reported even if the first one was. */
  lemma SecondName(c: Casing, st: Scan, m: Method, w: string, p: Method)
    requires w == Swap(c, m.name) != m.name && w in st.owner && st.owner[w] == p && p.goName != m.goName
    requires '\0' !in p.goName && '\0' !in m.goName
    requires m.name in st.owner ==> st.owner[m.name].goName != m.goName && '\0' !in st.owner[m.name].goName
    requires PairKey(p.goName, m.goName) !in st.reported
    ensures Reports(ScanName(ScanName(st, m, m.name), m, w).conflicts, p.goName, m.goName)
  {
    var first := ScanName(st, m, m.name);
    if PairKey(p.goName, m.goName) in first.reported {
      var q := st.owner[m.name];
      PairKeyUnique(p.goName, m.goName, q.goName, m.goName);
      ScanReports(st, m, m.name);
    }
    ScanReports(first, m, w);
  }

  /** Every contest is reported: the report leaves out no pair of methods that share a name this way. */
  lemma {:induction false} ContestsAreReported(c: Casing, methods: seq<Method>, i: int, j: int, w: string)
    requires DistinctGoNames(methods) && PlainGoNames(methods)
    requires 0 <= i < j < |methods| && Contest(c, methods, i, j, w)
    ensures Reports(Conflicts(c, methods), methods[i].goName, methods[j].goName)
    decreases |methods|
  {
    var rest, m := methods[..|methods| - 1], methods[|methods| - 1];
    assert methods == rest + [m];
    if j == |rest| {
      assert methods[..j] == rest;
      NewContestReported(c, rest, m, w);
    } else {
      assert methods[..j] == rest[..j];
      DistinctGoNamesPrefix(methods);
      ContestsAreReported(c, rest, i, j, w);
      ScanStep(c, ScanAll(c, rest), m);
      ReportsStay(ScanAll(c, rest), m, m.name, methods[i].goName, methods[j].goName);
      ReportsStay(ScanName(ScanAll(c, rest), m, m.name), m, Swap(c, m.name), methods[i].goName, methods[j].goName);
    }
  }

  /** A method adds one conflict when its names are taken, and none when they are free. */
  lemma ConflictStep(c: Casing, methods: seq<Method>)
    requires methods != [] && NamesSwapBack(c, methods) && DistinctGoNames(methods) && PlainGoNames(methods)
    ensures var rest, m := methods[..|methods| - 1], methods[|methods| - 1];
            |Conflicts(c, methods)| == |Conflicts(c, rest)| + if First(c, rest, m.name).Some? then 1 else 0
  {
    var rest, m := methods[..|methods| - 1], methods[|methods| - 1];
    assert methods == rest + [m];
    var st := ScanAll(c, rest);
    DistinctGoNamesPrefix(methods);
    ScanStep(c, st, m);
    OwnerAt(c, rest, m.name);
    OwnerAt(c, rest, Swap(c, m.name));
    OwnersCoincide(c, rest, m.name);
    if First(c, rest, m.name).Some? {
      var p := First(c, rest, m.name).value;
      ReportedAreMembers(c, rest);
      NewPairKey(rest, p, m);
    }
  }

  /** Writing a value at two keys whose previous holder held nothing else. */
  lemma TakeOver<V>(before: map<string, V>, k: string, l: string, v: V)
    requires v !in before.Values
    requires Lookup(before, k) == Lookup(before, l)
    requires k in before ==> forall w <- before :: before[w] == before[k] ==> w == k || w == l
    ensures |before[k := v][l := v].Values| == |before.Values| + if k in before then 0 else 1
  {
    var after := before[k := v][l := v];
    if k in before {
      ValuesAfter(before, after, k, l, v, {before[k]});
      assert |before.Values - {before[k]}| == |before.Values| - 1;
    } else {
      ValuesAfter(before, after, k, l, v, {});
    }
  }

  lemma ValuesAfter<V>(before: map<string, V>, after: map<string, V>, k: string, l: string, v: V, gone: set<V>)
    requires after == before[k := v][l := v]
    requires gone == if k in before then {before[k]} else {}
    requires Lookup(before, k) == Lookup(before, l)
    requires k in before ==> forall w <- before :: before[w] == before[k] ==> w == k || w == l
    requires v !in before.Values
    ensures after.Values == (before.Values - gone) + {v}
  {
    forall p | p in before.Values - gone
      ensures p in after.Values
    {
      var w :| w in before && before[w] == p;
      assert after[w] == p;
    }
    assert after[k] == v;
  }

  /** A method takes over the table entries of the previous holder of its names, if any. */
  lemma ReachStep(c: Casing, methods: seq<Method>)
    requires methods != [] && NamesSwapBack(c, methods) && DistinctGoNames(methods)
    ensures var rest, m := methods[..|methods| - 1], methods[|methods| - 1];
            |Table(c, methods).Values| == |Table(c, rest).Values| + if Last(c, rest, m.name).Some? then 0 else 1
  {
    var rest, m := methods[..|methods| - 1], methods[|methods| - 1];
    var before, alias := Table(c, rest), Swap(c, m.name);
    DistinctGoNamesPrefix(methods);
    OwnersCoincide(c, rest, m.name);
    TableAt(c, rest, m.name);
    TableAt(c, rest, alias);
    forall w | w in before
      ensures before[w] in rest && before[w] != m
      ensures m.name in before && before[w] == before[m.name] ==> w == m.name || w == alias
    {
      TableAt(c, rest, w);
      if m.name in before && before[w] == before[m.name] {
        SharedNamesCoincide(c, before[w], m, m.name);
      }
    }
    TakeOver(before, m.name, alias, m);
  }

  /** Conflicts and distinct reachable methods together account for every method. */
  ghost predicate Balanced(c: Casing, methods: seq<Method>) {
    |Conflicts(c, methods)| + |Table(c, methods).Values| == |methods|
  }

  /** The account balances for every list of names that swap back, whatever the casing does elsewhere. */
  lemma {:induction false} ConflictsPlusReachable(c: Casing, methods: seq<Method>)
    requires NamesSwapBack(c, methods) && DistinctGoNames(methods) && PlainGoNames(methods)
    ensures Balanced(c, methods)
    decreases |methods|
  {
    if methods != [] {
      var rest, m := methods[..|methods| - 1], methods[|methods| - 1];
      DistinctGoNamesPrefix(methods);
      ConflictsPlusReachable(c, rest);
      ConflictStep(c, methods);
      ReachStep(c, methods);
      assert First(c, rest, m.name).Some? <==> Last(c, rest, m.name).Some?;
    }
  }

  /** In particular for names that start with an ASCII rune. */
  lemma BalancedForAsciiNames(c: Casing, methods: seq<Method>)
    requires ExtendsAscii(c) && DistinctGoNames(methods) && PlainGoNames(methods)
    requires forall m <- methods :: m.name != "" ==> m.name[0] < '\U{80}'
    ensures Balanced(c, methods)
  {
    forall m | m in methods
      ensures SwapsBack(c, m.name)
    {
      AsciiNamesSwapBack(c, m.name);
    }
    ConflictsPlusReachable(c, methods);
  }

  /** Two methods that contest one of three spellings of a rune that does not swap back. */
  function Contested(c: Casing, r: char): seq<Method> {
    [Method([r], "A"), Method(Swap(c, [r]), "B")]
  }

  /** Both of them stay reachable. */
  lemma BothReachable(c: Casing, r: char)
    requires SwapRune(c, SwapRune(c, r)) != r
    ensures |Table(c, Contested(c, r)).Values| >= 2
  {
    var methods := Contested(c, r);
    var a, b := methods[0], methods[1];
    var one := Table(c, [a]);
    assert methods[..1] == [a];
    assert [a][..0] == [];
    var two := one[b.name := b][Swap(c, b.name) := b];
    assert two == Table(c, methods);
    assert a.name[0] != b.name[0] && a.name[0] != Swap(c, b.name)[0];
    assert two[a.name] == a && two[Swap(c, b.name)] == b;
    assert {a, b} + (two.Values - {a, b}) == two.Values;
    assert |{a, b}| == 2;
  }

  /** Yet they conflict, so the account does not balance. */
  lemma ContestedIsUnbalanced(c: Casing, r: char)
    requires SwapRune(c, SwapRune(c, r)) != r
    ensures DistinctGoNames(Contested(c, r)) && PlainGoNames(Contested(c, r)) && !Balanced(c, Contested(c, r))
  {
    var methods := Contested(c, r);
    BothReachable(c, r);
    assert methods[1].name in Wires(c, methods[0]) * Wires(c, methods[1]);
    SilentIffDisjoint(c, methods);
  }

  /** For a casing the account balances for all lists of methods exactly if the swap is its own inverse. */
  lemma BalancedIffInvolutive(c: Casing)
    ensures Involutive(c) <==>
            forall methods: seq<Method> | DistinctGoNames(methods) && PlainGoNames(methods) :: Balanced(c, methods)
  {
    if Involutive(c) {
      forall methods: seq<Method> | DistinctGoNames(methods) && PlainGoNames(methods)
        ensures Balanced(c, methods)
      {
        forall m | m in methods
          ensures SwapsBack(c, m.name)
        {
          SwapTwice(c, m.name);
        }
        ConflictsPlusReachable(c, methods);
      }
    } else {
      var r :| SwapRune(c, SwapRune(c, r)) != r;
      ContestedIsUnbalanced(c, r);
    }
  }

  /** A title-case digraph: its upper case is a letter whose lower case is a third one. */
  const DIGRAPH := Casing(
    r => r == '\U{1C4}',
    r => if r == '\U{1C4}' then '\U{1C6}' else r,
    r => if r == '\U{1C5}' || r == '\U{1C6}' then '\U{1C4}' else r)

  /** So the account fails for a casing with digraphs, as Go's is. */
  lemma AccountFailsForDigraphs()
    ensures !Involutive(DIGRAPH)
    ensures !Balanced(DIGRAPH, Contested(DIGRAPH, '\U{1C5}'))
  {
    assert SwapRune(DIGRAPH, SwapRune(DIGRAPH, '\U{1C5}')) == '\U{1C6}';
    ContestedIsUnbalanced(DIGRAPH, '\U{1C5}');
  }
}
