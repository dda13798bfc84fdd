/**
  Hot reload of the configuration file (loader.go). Parsing, merging the active
  profile and flattening are one function from file content to configuration, which
  may panic; building the options from a configuration may fail. Both are given.
*/
module HotReload {
  import opened Options
  import opened ExtensionMerge

  type Bytes = seq<char>
  type Value = string

  /** A parsed configuration: its flattened keys, and its extensions subtree if it has one. */
  datatype Parsed = Parsed(all: map<string, Value>, extensions: Option<Tree>)

  /** What the libraries make of file content: None for a panic in parsing. */
  datatype Library = Library(parse: Bytes -> Option<Parsed>, builds: Bytes -> bool)

  /** The predicates that allow a key to change. */
  datatype Pattern = Contains(text: string) | Prefix(text: string) | Exact(text: string)

  /** The pattern allowed from the start. */
  const LOGGER := Contains(".logger.")

  predicate HasPrefix(s: string, p: string) {
    |p| <= |s| && s[..|p|] == p
  }

  /** strings.Contains. */
  predicate HasSubstring(s: string, p: string) {
    HasPrefix(s, p) || (s != "" && HasSubstring(s[1..], p))
  }

  /** `p` occurs in `s` at position `i`. */
  predicate OccursAt(s: string, p: string, i: int) {
    0 <= i && i + |p| <= |s| && s[i..i + |p|] == p
  }

  lemma {:induction false} HasSubstringIff(s: string, p: string)
    ensures HasSubstring(s, p) <==> exists i: int :: OccursAt(s, p, i)
    decreases |s|
  {
    if HasPrefix(s, p) {
      assert OccursAt(s, p, 0);
    } else if s != "" {
      HasSubstringIff(s[1..], p);
      forall i: int
        ensures OccursAt(s, p, i) ==> i > 0 && OccursAt(s[1..], p, i - 1)
        ensures OccursAt(s[1..], p, i) ==> OccursAt(s, p, i + 1)
      {
        assert 0 <= i && i + |p| <= |s| - 1 ==> s[1..][i..i + |p|] == s[i + 1..i + 1 + |p|];
        assert 1 <= i && i + |p| <= |s| ==> s[1..][i - 1..i - 1 + |p|] == s[i..i + |p|];
        assert OccursAt(s, p, i) ==> i != 0;
      }
      if HasSubstring(s[1..], p) {
        var i: int :| OccursAt(s[1..], p, i);
        assert OccursAt(s, p, i + 1);
      }
      if i: int :| OccursAt(s, p, i) {
        assert OccursAt(s[1..], p, i - 1);
      }
    }
  }

  predicate Matches(p: Pattern, key: string) {
    match p
    case Contains(text) => HasSubstring(key, text)
    case Prefix(text) => HasPrefix(key, text)
    case Exact(text) => key == text
  }

  /** The three kinds of pattern: the text occurs somewhere, or at the front, or is all there is. */
  lemma MatchesIff(p: Pattern, key: string)
    ensures Matches(p, key) <==>
            match p
            case Contains(text) => exists i: int :: OccursAt(key, text, i)
            case Prefix(text) => text <= key
            case Exact(text) => text == key
  {
    HasSubstringIff(key, p.text);
  }

  predicate Allowed(patterns: seq<Pattern>, key: string) {
    exists p <- patterns :: Matches(p, key)
  }

  /** `isAllowedKey`. */
  method IsAllowedKey(patterns: seq<Pattern>, key: string) returns (r: bool)
    ensures r == Allowed(patterns, key)
  {
    for i := 0 to |patterns|
      invariant forall j | 0 <= j < i :: !Matches(patterns[j], key)
    {
      if Matches(patterns[i], key) {
        return true;
      }
    }
    r := false;
  }

  /** Two configurations agree on every key the patterns do not release. */
  ghost predicate SameOutside(a: Parsed, b: Parsed, patterns: seq<Pattern>) {
    forall k: string | !Allowed(patterns, k) :: Lookup(a.all, k) == Lookup(b.all, k)
  }

  /** `safeChanged`: looks at every key of either side that is not allowed to change. */
  method SafeChanged(oldK: Parsed, newK: Parsed, patterns: seq<Pattern>) returns (safe: bool)
    ensures safe <==> SameOutside(oldK, newK, patterns)
  {
    var keys := oldK.all.Keys + newK.all.Keys;
    var todo := keys;
    while todo != {}
      invariant todo <= keys
      invariant forall k <- keys - todo :: !Allowed(patterns, k) ==> Lookup(oldK.all, k) == Lookup(newK.all, k)
    {
      var k :| k in todo;
      todo := todo - {k};
      var allowed := IsAllowedKey(patterns, k);
      if !allowed {
        if (k in oldK.all) != (k in newK.all) {
          return false;
        }
        if k in oldK.all && oldK.all[k] != newK.all[k] {
          return false;
        }
      }
    }
    forall k: string | !Allowed(patterns, k)
      ensures Lookup(oldK.all, k) == Lookup(newK.all, k)
    {
      assert k !in keys ==> k !in oldK.all && k !in newK.all;
    }
    safe := true;
  }

  // ------------------------------------------------------------------ reloads

  datatype Outcome = Reloaded | ReadFailed | Panicked | ExtensionsDenied | KeysDenied | BuildFailed

  /**
    The loader: the accepted bytes, the bytes the running options were built from,
    and the patterns allowed so far.
  */
  datatype Loader = Loader(accepted: Bytes, built: Bytes, patterns: seq<Pattern>)

  /** What one attempt does, given what reading the file returned. */
  ghost function Attempt(lib: Library, s: Loader, file: Option<Bytes>): (Loader, Outcome) {
    if file.None? then (s, ReadFailed)
    else
      var before, after := lib.parse(s.accepted), lib.parse(file.value);
      if before.None? || after.None? then (s, Panicked)
      else if before.value.extensions != after.value.extensions then (s, ExtensionsDenied)
      else if !SameOutside(before.value, after.value, s.patterns) then (s, KeysDenied)
      else if !lib.builds(file.value) then (s.(accepted := file.value), BuildFailed)
      else (s.(accepted := file.value, built := file.value), Reloaded)
  }

  class ConfigLoader {
    const lib: Library
    var accepted: Bytes
    var built: Bytes
    var patterns: seq<Pattern>

    ghost function View(): Loader
      reads this
    {
      Loader(accepted, built, patterns)
    }

    /** The state after a successful `Load` of `bytes`. */
    constructor (lib: Library, bytes: Bytes)
      ensures this.lib == lib && View() == Loader(bytes, bytes, [LOGGER])
    {
      this.lib := lib;
      accepted, built, patterns := bytes, bytes, [LOGGER];
    }

    /** `AllowHotReloadPrefix`, `AllowHotReloadContains` and `AllowHotReloadExact`. */
    method Allow(p: Pattern)
      modifies this
      ensures View() == old(View()).(patterns := old(patterns) + [p])
    {
      patterns := patterns + [p];
    }

    /** `hotUpdateConfig`. */
    method HotUpdateConfig(file: Option<Bytes>) returns (r: Outcome)
      modifies this
      ensures (View(), r) == Attempt(lib, old(View()), file)
      ensures r == Reloaded || r == BuildFailed <==> Passes(lib, old(View()), file)
      ensures r == Reloaded ==> lib.builds(file.value) && accepted == file.value && built == file.value
      ensures r == BuildFailed ==> !lib.builds(file.value) && accepted == file.value && built == old(built)
      ensures r != Reloaded && r != BuildFailed ==> View() == old(View())
    {
      AttemptEffects(lib, View(), file);
      if file.None? {
        return ReadFailed;
      }
      var before, after := lib.parse(accepted), lib.parse(file.value);
      if before.None? || after.None? {
        return Panicked;
      }
      if before.value.extensions != after.value.extensions {
        return ExtensionsDenied;
      }
      var safe := SafeChanged(before.value, after.value, patterns);
      if !safe {
        return KeysDenied;
      }
      accepted := file.value;
      if !lib.builds(file.value) {
        return BuildFailed;
      }
      built := file.value;
      r := Reloaded;
    }
  }

  // --------------------------------------------------------------------- runs

  datatype Op = Reload(file: Option<Bytes>) | AllowMore(p: Pattern)

  ghost function Apply(lib: Library, s: Loader, op: Op): Loader {
    match op
    case Reload(file) => Attempt(lib, s, file).0
    case AllowMore(p) => s.(patterns := s.patterns + [p])
  }

  /** The loader after a load of `initial` and the given operations. */
  ghost function Run(lib: Library, initial: Bytes, ops: seq<Op>): Loader {
    if ops == [] then Loader(initial, initial, [LOGGER])
    else Apply(lib, Run(lib, initial, ops[..|ops| - 1]), ops[|ops| - 1])
  }

  /** `b` parses whenever `a` does, with the same extensions and the same locked keys. */
  ghost predicate Holds(lib: Library, a: Bytes, b: Bytes, patterns: seq<Pattern>) {
    var x, y := lib.parse(a), lib.parse(b);
    || a == b
    || (&& x.Some? && y.Some? && x.value.extensions == y.value.extensions
        && SameOutside(x.value, y.value, patterns))
  }

  lemma AllowedGrows(patterns: seq<Pattern>, p: Pattern, key: string)
    requires Allowed(patterns, key)
    ensures Allowed(patterns + [p], key)
  {
    var q :| q in patterns && Matches(q, key);
    assert q in patterns + [p];
  }

  lemma HoldsWithMore(lib: Library, a: Bytes, b: Bytes, patterns: seq<Pattern>, p: Pattern)
    requires Holds(lib, a, b, patterns)
    ensures Holds(lib, a, b, patterns + [p])
  {
    forall k: string | Allowed(patterns, k)
      ensures Allowed(patterns + [p], k)
    {
      AllowedGrows(patterns, p, k);
    }
  }

  /**
    The file passes the gate: it and the accepted bytes parse, with the same extensions
    and the same value, or absence, at every key that no pattern matches.
  */
  ghost predicate Passes(lib: Library, s: Loader, file: Option<Bytes>) {
    && file.Some? && lib.parse(s.accepted).Some? && lib.parse(file.value).Some?
    && lib.parse(s.accepted).value.extensions == lib.parse(file.value).value.extensions
    && forall k: string | forall p <- s.patterns :: !Matches(p, k) ::
         Lookup(lib.parse(s.accepted).value.all, k) == Lookup(lib.parse(file.value).value.all, k)
  }

  /**
    What an attempt does: a file that passes the gate is accepted, and becomes the running
    options if it builds; anything else changes nothing.
  */
  lemma AttemptEffects(lib: Library, s: Loader, file: Option<Bytes>)
    ensures var (n, r) := Attempt(lib, s, file);
            && n.patterns == s.patterns
            && (r in {Reloaded, BuildFailed} <==> Passes(lib, s, file))
            && (r !in {Reloaded, BuildFailed} ==> n == s)
            && (r in {Reloaded, BuildFailed} ==> n.accepted == file.value)
            && (r == Reloaded ==> lib.builds(file.value) && n.built == file.value)
            && (r == BuildFailed ==> !lib.builds(file.value) && n.built == s.built)
  {
    if file.Some? && lib.parse(s.accepted).Some? && lib.parse(file.value).Some? {
      SameOutsideIff(lib.parse(s.accepted).value, lib.parse(file.value).value, s.patterns);
    }
  }

  lemma SameOutsideIff(a: Parsed, b: Parsed, patterns: seq<Pattern>)
    ensures SameOutside(a, b, patterns) <==>
            forall k: string | forall p <- patterns :: !Matches(p, k) :: Lookup(a.all, k) == Lookup(b.all, k)
  {
    assert forall k: string :: Allowed(patterns, k) <==> !(forall p <- patterns :: !Matches(p, k));
  }

  /** What an attempt that changes nothing reports. */
  lemma DenialsSayWhy(lib: Library, s: Loader, file: Option<Bytes>)
    ensures var r := Attempt(lib, s, file).1;
            && (r == ReadFailed <==> file.None?)
            && (r == Panicked <==> file.Some? && (lib.parse(s.accepted).None? || lib.parse(file.value).None?))
            && (r == ExtensionsDenied <==>
                  && file.Some? && lib.parse(s.accepted).Some? && lib.parse(file.value).Some?
                  && lib.parse(s.accepted).value.extensions != lib.parse(file.value).value.extensions)
  {
  }

  /**
    The gate: after any sequence of reloads and releases, the accepted bytes and
    the bytes the options were built from still have the extensions of the first
    configuration, and its value at every key no current pattern releases.
  */
  lemma {:induction false} LockedKeysStay(lib: Library, initial: Bytes, ops: seq<Op>)
    ensures var s := Run(lib, initial, ops);
            Holds(lib, initial, s.accepted, s.patterns) && Holds(lib, initial, s.built, s.patterns)
    decreases |ops|
  {
    if ops != [] {
      var before, op := ops[..|ops| - 1], ops[|ops| - 1];
      LockedKeysStay(lib, initial, before);
      var s := Run(lib, initial, before);
      if op.AllowMore? {
        HoldsWithMore(lib, initial, s.accepted, s.patterns, op.p);
        HoldsWithMore(lib, initial, s.built, s.patterns, op.p);
      } else {
        AttemptEffects(lib, s, op.file);
      }
    }
  }

  /** A key that changed since the first load is one that some current pattern releases. */
  lemma ChangedKeysAreReleased(lib: Library, initial: Bytes, ops: seq<Op>, key: string)
    requires var s := Run(lib, initial, ops);
             && lib.parse(initial).Some? && lib.parse(s.built).Some?
             && Lookup(lib.parse(initial).value.all, key) != Lookup(lib.parse(s.built).value.all, key)
    ensures Allowed(Run(lib, initial, ops).patterns, key)
  {
    LockedKeysStay(lib, initial, ops);
  }

  /** The first configuration and, in order, the files of the run that passed the gate. */
  ghost function Passed(lib: Library, initial: Bytes, ops: seq<Op>): (r: seq<Bytes>)
    ensures r != []
  {
    if ops == [] then [initial]
    else
      var before, op := ops[..|ops| - 1], ops[|ops| - 1];
      if op.Reload? && Passes(lib, Run(lib, initial, before), op.file)
      then Passed(lib, initial, before) + [op.file.value]
      else Passed(lib, initial, before)
  }

  /** The first configuration and, in order, the files of the run that passed the gate and built. */
  ghost function PassedAndBuilt(lib: Library, initial: Bytes, ops: seq<Op>): (r: seq<Bytes>)
    ensures r != []
  {
    if ops == [] then [initial]
    else
      var before, op := ops[..|ops| - 1], ops[|ops| - 1];
      if op.Reload? && Passes(lib, Run(lib, initial, before), op.file) && lib.builds(op.file.value)
      then PassedAndBuilt(lib, initial, before) + [op.file.value]
      else PassedAndBuilt(lib, initial, before)
  }

  /**
    After any run the accepted bytes are those of the last file that passed the gate, and
    the running options those of the last one that also built.
  */
  lemma {:induction false} LastPassedIsInForce(lib: Library, initial: Bytes, ops: seq<Op>)
    ensures var s := Run(lib, initial, ops);
            var passed, built := Passed(lib, initial, ops), PassedAndBuilt(lib, initial, ops);
            s.accepted == passed[|passed| - 1] && s.built == built[|built| - 1]
    decreases |ops|
  {
    if ops != [] {
      var before, op := ops[..|ops| - 1], ops[|ops| - 1];
      LastPassedIsInForce(lib, initial, before);
      if op.Reload? {
        AttemptEffects(lib, Run(lib, initial, before), op.file);
      }
    }
  }

  /** The patterns in force are the one allowed from the start and those released since. */
  lemma {:induction false} PatternsInForce(lib: Library, initial: Bytes, ops: seq<Op>, p: Pattern)
    ensures p in Run(lib, initial, ops).patterns <==> p == Contains(".logger.") || AllowMore(p) in ops
    decreases |ops|
  {
    if ops != [] {
      var before, op := ops[..|ops| - 1], ops[|ops| - 1];
      assert ops == before + [op];
      PatternsInForce(lib, initial, before, p);
      if op.Reload? {
        AttemptEffects(lib, Run(lib, initial, before), op.file);
      }
    }
  }

  /** The running options fall behind the accepted bytes only when a build fails. */
  lemma {:induction false} OptionsFollowAccepted(lib: Library, initial: Bytes, ops: seq<Op>)
    requires forall op <- ops :: op.Reload? && op.file.Some? ==> lib.builds(op.file.value)
    ensures Run(lib, initial, ops).built == Run(lib, initial, ops).accepted
    decreases |ops|
  {
    if ops != [] {
      var before := ops[..|ops| - 1];
      assert forall op <- before :: op in ops;
      assert ops[|ops| - 1] in ops;
      OptionsFollowAccepted(lib, initial, before);
    }
  }
}
