/**
  The weight of a provider during warm-up (cluster/loadbalance/util.go), read from
  URL parameters (common/url.go). The float64 quotient is taken exactly and integers
  are unbounded; parameters parse as 64-bit decimal integers.
*/
module WarmupWeight {
  import opened Options
  import opened UrlValues
  import opened UrlMerge

  const WEIGHT_KEY := "weight"
  const WARMUP_KEY := "warmup"
  const REGISTRY_LABEL_KEY := "registry.label"
  const REGISTRY_WEIGHT_KEY := "registry.weight"
  const DEFAULT_WEIGHT := 100
  const DEFAULT_WARMUP := 600
  const MIN_INT64 := -0x8000_0000_0000_0000
  const MAX_INT64 := 0x7fff_ffff_ffff_ffff

  // ------------------------------------------------------ reading parameters

  /** The value of a string of decimal digits; None if it holds anything else. */
  function Digits(s: string): (r: Option<int>)
    ensures r.Some? ==> r.value >= 0
  {
    if s == "" then Some(0)
    else
      var c := s[|s| - 1];
      var front := Digits(s[..|s| - 1]);
      if '0' <= c <= '9' && front.Some? then Some(10 * front.value + (c - '0') as int) else None
  }

  /** strconv.ParseInt(s, 10, 64); None for an error. */
  function ParseInt(s: string): (r: Option<int>)
    ensures r.Some? ==> MIN_INT64 <= r.value <= MAX_INT64
    ensures s == "" ==> r == None
  {
    var signed := s != "" && (s[0] == '-' || s[0] == '+');
    var digits := if signed then s[1..] else s;
    if digits == "" || Digits(digits).None? then None
    else
      var n := if signed && s[0] == '-' then -Digits(digits).value else Digits(digits).value;
      if MIN_INT64 <= n <= MAX_INT64 then Some(n) else None
  }

  function FormatNat(n: nat): (s: string)
    ensures s != "" && '0' <= s[0] <= '9'
  {
    var digit := [('0' as int + n % 10) as char];
    if n < 10 then digit else FormatNat(n / 10) + digit
  }

  /** strconv.FormatInt(n, 10). */
  function FormatInt(n: int): string {
    if n < 0 then "-" + FormatNat(-n) else FormatNat(n)
  }

  /** Only decimal digits have a value. */
  lemma {:induction false} DigitsIff(s: string)
    ensures Digits(s).Some? <==> forall c <- s :: '0' <= c <= '9'
    decreases |s|
  {
    if s != "" {
      var front, last := s[..|s| - 1], s[|s| - 1];
      DigitsIff(front);
      assert s == front + [last];
      assert forall c <- front :: c in s;
      assert last in s;
      assert forall c <- s :: c in front || c == last;
    }
  }

  /** What parses: at least one digit and nothing else but a sign, within 64 bits. */
  lemma ParseIntIff(s: string)
    ensures var digits := if s != "" && s[0] in {'+', '-'} then s[1..] else s;
            var limit := 0x8000_0000_0000_0000;
            ParseInt(s).Some? <==>
            && digits != "" && (forall c <- digits :: '0' <= c <= '9') && Digits(digits).Some?
            && (if s[0] == '-' then Digits(digits).value <= limit else Digits(digits).value < limit)
  {
    DigitsIff(if s != "" && s[0] in {'+', '-'} then s[1..] else s);
  }

  lemma {:induction false} DigitsOfFormatted(n: nat)
    ensures Digits(FormatNat(n)) == Some(n)
    decreases n
  {
    var s, digit := FormatNat(n), ('0' as int + n % 10) as char;
    if n < 10 {
      assert s[..0] == "" && s[0] == digit;
    } else {
      DigitsOfFormatted(n / 10);
      assert s[..|s| - 1] == FormatNat(n / 10) && s[|s| - 1] == digit;
    }
  }

  /** A 64-bit integer written as a parameter reads back as itself. */
  lemma ParseFormatted(n: int)
    requires MIN_INT64 <= n <= MAX_INT64
    ensures ParseInt(FormatInt(n)) == Some(n)
  {
    if n < 0 {
      DigitsOfFormatted(-n);
      assert FormatInt(n)[1..] == FormatNat(-n);
    } else {
      DigitsOfFormatted(n);
    }
  }

  /** strconv.ParseBool; None for an error. */
  function ParseBool(s: string): Option<bool> {
    if s in ["1", "t", "T", "true", "TRUE", "True"] then Some(true)
    else if s in ["0", "f", "F", "false", "FALSE", "False"] then Some(false)
    else None
  }

  /** `GetParamInt`. */
  function ParamInt(params: Values, key: string, d: int): int {
    var r := ParseInt(Get(params, key));
    if r.Some? then r.value else d
  }

  /** `GetParamBool`. */
  function ParamBool(params: Values, key: string, d: bool): bool {
    var r := ParseBool(Get(params, key));
    if r.Some? then r.value else d
  }

  /** `GetMethodParamInt64`: the smallest integer stands for "not set". */
  function MethodParamInt(params: Values, name: string, key: string, d: int): int {
    var r := ParamInt(params, MethodKey(name, key), MIN_INT64);
    if r == MIN_INT64 then ParamInt(params, key, d) else r
  }

  /** The weight before warm-up: method or service weight, registry weight, default. */
  function Configured(params: Values, name: string): (w: int)
    ensures w >= 0
  {
    var own := MethodParamInt(params, name, WEIGHT_KEY, -1);
    var w := if own < 0 && ParamBool(params, REGISTRY_LABEL_KEY, false)
             then ParamInt(params, REGISTRY_WEIGHT_KEY, DEFAULT_WEIGHT) else own;
    if w < 0 then DEFAULT_WEIGHT else w
  }

  // --------------------------------------------------------------- the weight

  /** The share of a weight after `uptime` of a warm-up lasting `warmup`. */
  function Share(uptime: int, weight: int, warmup: int): int
    requires 0 < uptime < warmup && weight > 0
  {
    var share := uptime * weight / warmup;
    if share < 1 then 1 else share
  }

  /** The weight at time `now`. */
  function WeightAt(params: Values, name: string, now: int): int {
    var weight := Configured(params, name);
    var uptime := now - ParamInt(params, REMOTE_TIMESTAMP_KEY, now);
    var warmup := ParamInt(params, WARMUP_KEY, DEFAULT_WARMUP);
    if weight > 0 && 0 < uptime < warmup then Share(uptime, weight, warmup) else weight
  }

  /** `GetWeightAt`, overwriting one variable along its branches. */
  method GetWeightAt(params: Values, name: string, now: int) returns (weight: int)
    ensures weight == WeightAt(params, name, now)
  {
    weight := MethodParamInt(params, name, WEIGHT_KEY, -1);
    if weight < 0 && ParamBool(params, REGISTRY_LABEL_KEY, false) {
      weight := ParamInt(params, REGISTRY_WEIGHT_KEY, DEFAULT_WEIGHT);
    }
    if weight < 0 {
      weight := DEFAULT_WEIGHT;
    }
    if weight > 0 {
      var ts := ParamInt(params, REMOTE_TIMESTAMP_KEY, now);
      var uptime := now - ts;
      if uptime > 0 {
        var warm := ParamInt(params, WARMUP_KEY, DEFAULT_WARMUP);
        if uptime < warm {
          var scaled := (uptime * weight) as real / warm as real;
          QuotientFloor(uptime * weight, warm);
          ShareBounds(uptime, weight, warm);
          if scaled < 1.0 {
            weight := 1;
          } else if scaled.Floor <= weight {
            weight := scaled.Floor;
          }
        }
      }
    }
    if weight < 0 {
      weight := 0;
    }
  }

  /** Truncating the exact quotient of non-negative integers is integer division. */
  lemma QuotientFloor(a: nat, b: nat)
    requires b > 0
    ensures (a as real / b as real).Floor == a / b
    ensures a as real / b as real < 1.0 <==> a / b < 1
  {
    var q := a / b;
    assert q * b <= a < (q + 1) * b;
    assert (q * b) as real == q as real * b as real;
    assert ((q + 1) * b) as real == (q + 1) as real * b as real;
    QuotientAtLeast(q as real, a as real, b as real);
    QuotientAtLeast((q + 1) as real, a as real, b as real);
    QuotientAtLeast(1.0, a as real, b as real);
    if q < 1 {
      assert q == 0;
    } else {
      MulMono(1, q, b);
    }
  }

  lemma QuotientAtLeast(q: real, a: real, b: real)
    requires b > 0.0
    ensures q <= a / b <==> q * b <= a
  {
    var x := a / b;
    assert a - q * b == (x - q) * b;
  }

  /** A share is at least one, less than the weight unless the weight is one, and grows with uptime. */
  lemma ShareBounds(uptime: int, weight: int, warmup: int)
    requires 0 < uptime < warmup && weight > 0
    ensures 1 <= Share(uptime, weight, warmup) <= weight
    ensures Share(uptime, weight, warmup) < weight <==> weight >= 2
    ensures uptime * weight / warmup < weight
  {
    var share := uptime * weight / warmup;
    assert share * warmup <= uptime * weight;
    assert uptime * weight < warmup * weight by {
      MulStrict(uptime, warmup, weight);
    }
    if share >= weight {
      MulMono(weight, share, warmup);
    }
  }

  lemma MulStrict(a: int, b: int, k: int)
    requires a < b && k > 0
    ensures a * k < b * k
  {
    assert b * k - a * k == (b - a) * k;
  }

  lemma MulMono(a: int, b: int, k: int)
    requires a <= b && k >= 0
    ensures a * k <= b * k
  {
    assert b * k - a * k == (b - a) * k;
  }

  lemma DivMono(a: int, b: int, k: int)
    requires 0 <= a <= b && k > 0
    ensures a / k <= b / k
  {
    if a / k > b / k {
      MulMono(b / k + 1, a / k, k);
    }
  }

  // ------------------------------------------------------------ the theorems

  /** The weight is zero exactly when configured so, and otherwise between one and the configured weight. */
  lemma WeightBounds(params: Values, name: string, now: int)
    ensures WeightAt(params, name, now) == 0 <==> Configured(params, name) == 0
    ensures Configured(params, name) > 0 ==> 1 <= WeightAt(params, name, now) <= Configured(params, name)
  {
    var weight := Configured(params, name);
    var uptime := now - ParamInt(params, REMOTE_TIMESTAMP_KEY, now);
    var warmup := ParamInt(params, WARMUP_KEY, DEFAULT_WARMUP);
    if weight > 0 && 0 < uptime < warmup {
      ShareBounds(uptime, weight, warmup);
    }
  }

  /**
    During the warm-up the weight is the share of the configured weight that the uptime has
    of the warm-up, rounded down, and one where that rounds to nothing.
  */
  lemma WeightIsShare(params: Values, name: string, now: int, ts: int, warmup: int)
    requires ParseInt(Get(params, "remote.timestamp")) == Some(ts) && Configured(params, name) > 0
    requires warmup == var p := ParseInt(Get(params, "warmup")); if p.Some? then p.value else 600
    requires 0 < now - ts < warmup
    ensures var weight, w := Configured(params, name), WeightAt(params, name, now);
            && (now - ts) * weight < (w + 1) * warmup
            && (w * warmup <= (now - ts) * weight || (w == 1 && (now - ts) * weight < warmup))
  {
    ShareIs(now - ts, Configured(params, name), warmup);
  }

  lemma ShareIs(uptime: int, weight: int, warmup: int)
    requires 0 < uptime < warmup && weight > 0
    ensures var w := Share(uptime, weight, warmup);
            && uptime * weight < (w + 1) * warmup
            && (w * warmup <= uptime * weight || (w == 1 && uptime * weight < warmup))
  {
    QuotientIs(uptime * weight, warmup);
    if uptime * weight / warmup < 1 {
      assert uptime * weight / warmup == 0;
    }
  }

  lemma QuotientIs(a: nat, b: nat)
    requires b > 0
    ensures 0 <= a / b && a / b * b <= a < (a / b + 1) * b
  {
  }

  /** Where the configured weight comes from: the method, the service, the registry, or the default. */
  lemma ConfiguredFrom(params: Values, name: string)
    ensures var m := ParseInt(Get(params, "methods." + name + ".weight"));
            var s := ParseInt(Get(params, "weight"));
            var r := ParseInt(Get(params, "registry.weight"));
            var labelled := Get(params, "registry.label") in {"1", "t", "T", "true", "TRUE", "True"};
            var own := if m.Some? && m.value != MIN_INT64 then m else s;
            Configured(params, name) ==
            if own.Some? && own.value >= 0 then own.value
            else if labelled && r.Some? && r.value >= 0 then r.value
            else 100
  {
    assert MethodKey(name, WEIGHT_KEY) == "methods." + name + ".weight";
    LabelIsTrue(Get(params, "registry.label"));
  }

  lemma LabelIsTrue(text: string)
    ensures ParseBool(text) == Some(true) <==> text in {"1", "t", "T", "true", "TRUE", "True"}
  {
  }

  /** A provider that has been up for the whole warm-up has its full weight. */
  lemma FullAfterWarmup(params: Values, name: string, now: int, ts: int)
    requires ParseInt(Get(params, REMOTE_TIMESTAMP_KEY)) == Some(ts)
    ensures now - ts >= ParamInt(params, WARMUP_KEY, DEFAULT_WARMUP) ==>
              WeightAt(params, name, now) == Configured(params, name)
    ensures now <= ts ==> WeightAt(params, name, now) == Configured(params, name)
  {
  }

  /**
    With a fixed start time the weight never falls as time passes, with one exact
    exception: a weight of two or more drops when the clock passes the start time
    into the warm-up, because a provider not yet up counts in full.
  */
  lemma WeightGrows(params: Values, name: string, t1: int, t2: int, ts: int)
    requires ParseInt(Get(params, REMOTE_TIMESTAMP_KEY)) == Some(ts) && t1 <= t2
    ensures var warmup := ParamInt(params, WARMUP_KEY, DEFAULT_WARMUP);
            WeightAt(params, name, t1) <= WeightAt(params, name, t2) <==>
            !(t1 <= ts < t2 < ts + warmup && Configured(params, name) >= 2)
  {
    var weight, warmup := Configured(params, name), ParamInt(params, WARMUP_KEY, DEFAULT_WARMUP);
    WeightBounds(params, name, t1);
    WeightBounds(params, name, t2);
    if weight > 0 && ts < t2 < ts + warmup {
      ShareBounds(t2 - ts, weight, warmup);
      if ts < t1 {
        MulMono(t1 - ts, t2 - ts, weight);
        DivMono((t1 - ts) * weight, (t2 - ts) * weight, warmup);
      }
    }
  }

  /** Parameters that set nothing but the start time have the default weight and warm-up. */
  lemma OnlyStartTime(params: Values, name: string, ts: int)
    requires MIN_INT64 <= ts <= MAX_INT64 && params == map[REMOTE_TIMESTAMP_KEY := [FormatInt(ts)]]
    ensures ParseInt(Get(params, REMOTE_TIMESTAMP_KEY)) == Some(ts)
    ensures Configured(params, name) == DEFAULT_WEIGHT
    ensures ParamInt(params, WARMUP_KEY, DEFAULT_WARMUP) == DEFAULT_WARMUP
  {
    ParseFormatted(ts);
    assert |REMOTE_TIMESTAMP_KEY| == 16 && |WEIGHT_KEY| == |WARMUP_KEY| == 6;
    assert |REGISTRY_LABEL_KEY| == 14 && |REGISTRY_WEIGHT_KEY| == 15;
    assert REMOTE_TIMESTAMP_KEY[0] == 'r' && MethodKey(name, WEIGHT_KEY)[0] == 'm';
  }

  /** The exception occurs: for every start time, a second into the warm-up the weight is down from 100 to 1. */
  lemma WeightFallsAtStart(params: Values, name: string, ts: int)
    requires MIN_INT64 <= ts <= MAX_INT64 && params == map[REMOTE_TIMESTAMP_KEY := [FormatInt(ts)]]
    ensures WeightAt(params, name, ts) == 100 && WeightAt(params, name, ts + 1) == 1
  {
    OnlyStartTime(params, name, ts);
  }

  /** The whole warm-up of such a provider: a hundredth every six seconds, from 1 to 100. */
  lemma DefaultWarmup(params: Values, name: string, ts: int, uptime: int)
    requires MIN_INT64 <= ts <= MAX_INT64 && params == map[REMOTE_TIMESTAMP_KEY := [FormatInt(ts)]]
    ensures WeightAt(params, name, ts + uptime) ==
            if 0 < uptime < 6 then 1 else if 0 < uptime < 600 then uptime / 6 else 100
  {
    OnlyStartTime(params, name, ts);
    if 0 < uptime < 600 {
      assert uptime * 100 / 600 == uptime / 6;
    }
  }

  /** For positive uptimes it never falls. */
  lemma WeightGrowsWhileUp(params: Values, name: string, t1: int, t2: int, ts: int)
    requires ParseInt(Get(params, REMOTE_TIMESTAMP_KEY)) == Some(ts) && ts < t1 <= t2
    ensures WeightAt(params, name, t1) <= WeightAt(params, name, t2)
  {
    WeightGrows(params, name, t1, t2, ts);
  }

  /**
    A URL has its configured weight at all times exactly if it names no start time that
    parses, or its weight is at most one, or its warm-up ends within a second.
  */
  lemma NeverWarmedUpIff(params: Values, name: string)
    ensures (forall now: int :: WeightAt(params, name, now) == Configured(params, name)) <==>
            || ParseInt(Get(params, REMOTE_TIMESTAMP_KEY)).None?
            || Configured(params, name) <= 1
            || ParamInt(params, WARMUP_KEY, DEFAULT_WARMUP) <= 1
  {
    var start, weight := ParseInt(Get(params, REMOTE_TIMESTAMP_KEY)), Configured(params, name);
    var warmup := ParamInt(params, WARMUP_KEY, DEFAULT_WARMUP);
    if start.Some? && weight >= 2 && warmup >= 2 {
      ShareBounds(1, weight, warmup);
      assert WeightAt(params, name, start.value + 1) < weight;
    } else {
      forall now: int
        ensures WeightAt(params, name, now) == weight
      {
        WeightBounds(params, name, now);
      }
    }
  }

  /**
    Merging blanks the remote timestamp whenever the base has no timestamp, so the
    merged URL is never warmed up: it has its configured weight at all times.
  */
  lemma MergedUrlIsNotWarmedUp(base: Values, other: Values, methods: seq<string>, name: string, now: int)
    requires Get(base, TIMESTAMP_KEY) == ""
    ensures var merged := MergedParams(base, other, methods);
            WeightAt(merged, name, now) == Configured(merged, name)
  {
    MergedRemoteTimestamp(base, other, methods);
    NeverWarmedUpIff(MergedParams(base, other, methods), name);
  }
}
