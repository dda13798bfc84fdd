/**
  How long graceful shutdown takes (graceful_shutdown/shutdown.go). Time is in
  nanoseconds and advances exactly as sleeps and waits ask. Request counts, the
  time of the last request and the callbacks are the environment: arbitrary
  functions of time, or of the attempt; a callback may never return.
*/
module ShutdownTiming {
  import opened Options

  const MILLISECOND := 1_000_000
  const SECOND := 1000 * MILLISECOND
  const POLL := 10 * MILLISECOND

  const DEFAULT_TIMEOUT := 60 * SECOND
  const DEFAULT_STEP_TIMEOUT := 3 * SECOND
  const DEFAULT_NOTIFY_TIMEOUT := 5 * SECOND
  const DEFAULT_UPDATE_WAIT := 3 * SECOND
  const DEFAULT_OFFLINE_WINDOW := 3 * SECOND
  const MAX_RETRIES := 3

  /** Configured durations; None stands for text that does not parse. */
  datatype Config = Config(
    timeout: Option<int>, stepTimeout: Option<int>, notifyTimeout: Option<int>,
    updateWait: Option<int>, offlineWindow: Option<int>)

  /** `parseDuration`. */
  function Parsed(configured: Option<int>, default: int): int {
    if configured.Some? then configured.value else default
  }

  function Max(a: int, b: int): int { if a < b then b else a }

  /** `totalTimeout`: the configured one, but never less than the default of a minute. */
  function TotalTimeout(cfg: Config): (t: int)
    ensures t >= 60_000_000_000
    ensures cfg.timeout.Some? && cfg.timeout.value >= 60_000_000_000 ==> t == cfg.timeout.value
    ensures cfg.timeout.None? || cfg.timeout.value < 60_000_000_000 ==> t == 60_000_000_000
  {
    Max(Parsed(cfg.timeout, DEFAULT_TIMEOUT), DEFAULT_TIMEOUT)
  }

  // -------------------------------------------------------------- polling

  /** `t` is one of the instants at which a loop started at `start` looks again. */
  predicate PollInstant(start: int, t: int) {
    start <= t && (t - start) % POLL == 0
  }

  /** `end` is the first instant at which time is up or there is nothing to wait for. */
  ghost predicate PollEnds(start: int, timeout: int, waiting: int -> bool, end: int) {
    && PollInstant(start, end)
    && (forall t | PollInstant(start, t) && t < end :: t < start + timeout && waiting(t))
    && (end >= start + timeout || !waiting(end))
  }

  lemma PollEndsOnce(start: int, timeout: int, waiting: int -> bool, a: int, b: int)
    requires PollEnds(start, timeout, waiting, a) && PollEnds(start, timeout, waiting, b)
    ensures a == b
  {
    assert PollInstant(start, a) && PollInstant(start, b);
  }

  /**
    The polling loop: sleep and look again while the deadline has not come and
    there is something to wait for.
  */
  method PollUntil(start: int, timeout: int, waiting: int -> bool) returns (end: int)
    ensures PollEnds(start, timeout, waiting, end)
    ensures end == start || end < start + timeout + POLL
  {
    end := start;
    while end < start + timeout && waiting(end)
      invariant PollInstant(start, end)
      invariant forall t | PollInstant(start, t) && t < end :: t < start + timeout && waiting(t)
      invariant end == start || end < start + timeout + POLL
      decreases start + timeout - end
    {
      ghost var before := end;
      end := end + POLL;
      forall t | PollInstant(start, t) && before <= t < end
        ensures t == before
      {
        NoInstantBetween(start, before, t);
      }
    }
  }

  lemma NoInstantBetween(start: int, before: int, t: int)
    requires PollInstant(start, before) && PollInstant(start, t) && before <= t < before + POLL
    ensures t == before
  {
    var a, b := (before - start) / POLL, (t - start) / POLL;
    assert before - start == a * POLL && t - start == b * POLL;
  }

  /** A provider is busy while requests are active or the last one is recent. */
  predicate ProviderBusy(active: int -> int, last: int -> int, window: int, t: int) {
    active(t) > 0 || t < last(t) + window
  }

  /**
    When the provider wait ends: after the pause, at the first polling instant at which the
    step timeout has passed, or no request is active and the last one is a window ago.
  */
  ghost predicate AcceptEnds(start: int, cfg: Config, active: int -> int, last: int -> int, end: int) {
    var from := start + Max(0, Parsed(cfg.updateWait, DEFAULT_UPDATE_WAIT));
    var step := Parsed(cfg.stepTimeout, DEFAULT_STEP_TIMEOUT);
    var window := Parsed(cfg.offlineWindow, DEFAULT_OFFLINE_WINDOW);
    if step < 0 then end == from
    else
      && PollInstant(from, end)
      && (forall t | PollInstant(from, t) && t < end :: t < from + step && (active(t) > 0 || t < last(t) + window))
      && (end < from + step ==> active(end) <= 0 && end >= last(end) + window)
  }

  /** `waitAndAcceptNewRequests`: a pause, then polling unless the step timeout is negative. */
  method AcceptAndWait(start: int, cfg: Config, active: int -> int, last: int -> int) returns (end: int)
    ensures AcceptEnds(start, cfg, active, last, end)
    ensures var wait := Max(0, Parsed(cfg.updateWait, DEFAULT_UPDATE_WAIT));
            start + wait <= end <= start + wait + Max(0, Parsed(cfg.stepTimeout, DEFAULT_STEP_TIMEOUT) + POLL)
  {
    end := start + Max(0, Parsed(cfg.updateWait, DEFAULT_UPDATE_WAIT));
    var step := Parsed(cfg.stepTimeout, DEFAULT_STEP_TIMEOUT);
    if step < 0 {
      return;
    }
    var window := Parsed(cfg.offlineWindow, DEFAULT_OFFLINE_WINDOW);
    end := PollUntil(end, step, t => ProviderBusy(active, last, window, t));
  }

  /** When the consumer wait ends: at the first polling instant with the step timeout over or no request active. */
  ghost predicate DrainEnds(start: int, cfg: Config, active: int -> int, end: int) {
    var step := Parsed(cfg.stepTimeout, DEFAULT_STEP_TIMEOUT);
    if step <= 0 then end == start
    else
      && PollInstant(start, end)
      && (forall t | PollInstant(start, t) && t < end :: t < start + step && active(t) > 0)
      && (end < start + step ==> active(end) <= 0)
  }

  /** `waitForSendingAndReceivingRequests`, after the rejection flag is set. */
  method DrainRequests(start: int, cfg: Config, active: int -> int) returns (end: int)
    ensures DrainEnds(start, cfg, active, end)
    ensures start <= end <= start + Max(0, Parsed(cfg.stepTimeout, DEFAULT_STEP_TIMEOUT) + POLL)
  {
    var step := Parsed(cfg.stepTimeout, DEFAULT_STEP_TIMEOUT);
    if step <= 0 {
      return start;
    }
    end := PollUntil(start, step, t => active(t) > 0);
  }

  // ----------------------------------------------------------- notification

  /** One attempt of a callback: how long it runs, if it returns, and whether it succeeds. */
  datatype Attempt = Attempt(duration: Option<nat>, ok: bool)

  /** How a notification ended, after how many attempts, and whether the last one succeeded. */
  datatype Notice = Notice(end: int, attempts: nat, ok: bool)

  /** `invokeGracefulShutdownCallback`: the callback's own end or the context's, whichever is first. */
  method InvokeCallback(now: int, deadline: int, attempt: Attempt) returns (end: int, ok: bool)
    ensures attempt.duration.Some? && now + attempt.duration.value < deadline ==>
              end == now + attempt.duration.value && ok == attempt.ok
    ensures attempt.duration.None? || now + attempt.duration.value >= deadline ==> end == Max(now, deadline) && !ok
  {
    if attempt.duration.Some? && now + attempt.duration.value < deadline {
      end, ok := now + attempt.duration.value, attempt.ok;
    } else {
      end, ok := Max(now, deadline), false;
    }
  }

  /** The time from the first attempt to the end of attempt `n`, if all of them return. */
  ghost function Elapsed(attempt: nat -> Attempt, pause: nat -> nat, n: nat): Option<nat> {
    if n == 0 then attempt(0).duration
    else
      var before := Elapsed(attempt, pause, n - 1);
      if before.None? || attempt(n).duration.None? then None
      else Some(before.value + pause(n - 1) + attempt(n).duration.value)
  }

  /** Attempt `n` is over in time, and so are those before it. */
  ghost predicate InTime(attempt: nat -> Attempt, pause: nat -> nat, timeout: int, n: nat) {
    Elapsed(attempt, pause, n).Some? && Elapsed(attempt, pause, n).value < timeout
  }

  lemma {:induction false} EarlierInTime(attempt: nat -> Attempt, pause: nat -> nat, timeout: int, m: nat, n: nat)
    requires m <= n && InTime(attempt, pause, timeout, n)
    ensures InTime(attempt, pause, timeout, m)
    decreases n
  {
    if m < n {
      EarlierInTime(attempt, pause, timeout, m, n - 1);
    }
  }

  /** Attempt `n` is the first to succeed, and does so in time. */
  ghost predicate Succeeds(attempt: nat -> Attempt, pause: nat -> nat, timeout: int, n: nat) {
    attempt(n).ok && (forall j: nat | j < n :: !attempt(j).ok) && InTime(attempt, pause, timeout, n)
  }

  /**
    What a notification with that many retries comes to. If some attempt is the first to
    succeed and does so in time, it ends with it; if all fail in time, with the last;
    else at the deadline.
  */
  ghost predicate Concludes(
      start: int, timeout: int, attempt: nat -> Attempt, pause: nat -> nat, retries: nat, r: Notice)
  {
    && 1 <= r.attempts <= 1 + retries
    && (r.ok ==> Succeeds(attempt, pause, timeout, r.attempts - 1) &&
                 r.end == start + Elapsed(attempt, pause, r.attempts - 1).value)
    && (!r.ok ==> forall n: nat | n <= retries :: !Succeeds(attempt, pause, timeout, n))
    && (!r.ok && InTime(attempt, pause, timeout, retries) ==>
          r.attempts == 1 + retries && r.end == start + Elapsed(attempt, pause, retries).value)
    && (!r.ok && !InTime(attempt, pause, timeout, retries) ==> r.end == Max(start, start + timeout))
  }

  /** A notification has one end and one result. */
  lemma ConcludesOnce(
      start: int, timeout: int, attempt: nat -> Attempt, pause: nat -> nat, retries: nat, a: Notice, b: Notice)
    requires Concludes(start, timeout, attempt, pause, retries, a)
    requires Concludes(start, timeout, attempt, pause, retries, b)
    ensures a.ok == b.ok && a.end == b.end
  {
    if a.ok && b.ok {
      assert a.attempts == b.attempts;
    }
  }

  /** The attempts before `n` failed in time, and attempt `n` begins at `now`. */
  ghost predicate Begins(start: int, timeout: int, attempt: nat -> Attempt, pause: nat -> nat, n: nat, now: int) {
    && (forall j: nat | j < n :: !attempt(j).ok)
    && (if n == 0 then now == start
        else
          && InTime(attempt, pause, timeout, n - 1) && now < start + timeout
          && now == start + Elapsed(attempt, pause, n - 1).value + pause(n - 1))
  }

  /** If attempt `n` is not over in time, none is that comes later, and there is no success. */
  lemma NothingAfter(start: int, timeout: int, attempt: nat -> Attempt, pause: nat -> nat, n: nat, retries: nat)
    requires n <= retries && !InTime(attempt, pause, timeout, n) && (forall j: nat | j < n :: !attempt(j).ok)
    ensures !InTime(attempt, pause, timeout, retries)
    ensures forall m: nat | m <= retries :: !Succeeds(attempt, pause, timeout, m)
  {
    forall m: nat | n <= m
      ensures !InTime(attempt, pause, timeout, m)
    {
      if InTime(attempt, pause, timeout, m) {
        EarlierInTime(attempt, pause, timeout, n, m);
      }
    }
  }

  lemma AttemptTakes(start: int, timeout: int, attempt: nat -> Attempt, pause: nat -> nat, n: nat, now: int)
    requires Begins(start, timeout, attempt, pause, n, now)
    ensures var d := attempt(n).duration;
            && (InTime(attempt, pause, timeout, n) <==> d.Some? && now + d.value < start + timeout)
            && (InTime(attempt, pause, timeout, n) ==> now + d.value == start + Elapsed(attempt, pause, n).value)
  {
  }

  /** Attempt `n`, begun at `now`, ends the notification. */
  lemma LastAttempt(
      start: int, timeout: int, attempt: nat -> Attempt, pause: nat -> nat, retries: nat, n: nat, now: int, r: Notice)
    requires Begins(start, timeout, attempt, pause, n, now) && n <= retries && r.attempts == n + 1
    requires attempt(n).duration.Some? && now + attempt(n).duration.value < start + timeout
    requires r.end == now + attempt(n).duration.value && r.ok == attempt(n).ok && (r.ok || n == retries)
    ensures Concludes(start, timeout, attempt, pause, retries, r)
  {
    AttemptTakes(start, timeout, attempt, pause, n, now);
  }

  /** The deadline ends the notification before attempt `m` is over. */
  lemma CutShort(start: int, timeout: int, attempt: nat -> Attempt, pause: nat -> nat, retries: nat, m: nat, r: Notice)
    requires m <= retries && !InTime(attempt, pause, timeout, m) && (forall j: nat | j < m :: !attempt(j).ok)
    requires 1 <= r.attempts <= 1 + retries && !r.ok && r.end == Max(start, start + timeout)
    ensures Concludes(start, timeout, attempt, pause, retries, r)
  {
    NothingAfter(start, timeout, attempt, pause, m, retries);
  }

  /** The retry loop for any number of retries. */
  method Retry(start: int, timeout: int, attempt: nat -> Attempt, pause: nat -> nat, retries: nat) returns (r: Notice)
    ensures Concludes(start, timeout, attempt, pause, retries, r)
    ensures start <= r.end <= start + Max(0, timeout)
  {
    var deadline, now, n := start + timeout, start, 0;
    while true
      invariant n <= retries && start <= now <= start + Max(0, timeout)
      invariant Begins(start, timeout, attempt, pause, n, now)
      decreases retries - n
    {
      AttemptTakes(start, timeout, attempt, pause, n, now);
      var end, ok := InvokeCallback(now, deadline, attempt(n));
      r := Notice(end, n + 1, ok);
      if end >= deadline {
        CutShort(start, timeout, attempt, pause, retries, n, r);
        return;
      }
      if ok || n == retries {
        LastAttempt(start, timeout, attempt, pause, retries, n, now, r);
        return;
      }
      var resume := end + pause(n);
      if resume >= deadline {
        r := Notice(deadline, n + 1, false);
        CutShort(start, timeout, attempt, pause, retries, n + 1, r);
        return;
      }
      now, n := resume, n + 1;
    }
  }

  /**
    `notifyWithRetry`: one attempt and up to three retries, with pauses between
    them, all cut short by the context's deadline.
  */
  method NotifyWithRetry(start: int, timeout: int, attempt: nat -> Attempt, pause: nat -> nat) returns (r: Notice)
    ensures Concludes(start, timeout, attempt, pause, MAX_RETRIES, r)
    ensures start <= r.end <= start + Max(0, timeout) && 1 <= r.attempts <= 4
  {
    r := Retry(start, timeout, attempt, pause, MAX_RETRIES);
  }

  /** The callbacks to be notified: their attempts and the pauses between these, and how many retries they get. */
  datatype Callbacks = Callbacks(attempt: nat -> nat -> Attempt, pause: nat -> nat -> nat, retries: nat)

  /** Notification `i` is concluded as `notices[i]`. */
  ghost predicate AllConclude(start: int, timeout: int, cs: Callbacks, notices: seq<Notice>) {
    forall i | 0 <= i < |notices| :: Concludes(start, timeout, cs.attempt(i), cs.pause(i), cs.retries, notices[i])
  }

  lemma AllConcludeWith(start: int, timeout: int, cs: Callbacks, notices: seq<Notice>, r: Notice)
    requires AllConclude(start, timeout, cs, notices)
    requires Concludes(start, timeout, cs.attempt(|notices|), cs.pause(|notices|), cs.retries, r)
    ensures AllConclude(start, timeout, cs, notices + [r])
  {
  }

  /** `end` is when the last of them is. */
  ghost predicate LastEnds(start: int, notices: seq<Notice>, end: int) {
    && (forall i | 0 <= i < |notices| :: notices[i].end <= end)
    && (if notices == [] then end == start else exists i | 0 <= i < |notices| :: notices[i].end == end)
  }

  lemma LastEndsWith(start: int, notices: seq<Notice>, end: int, r: Notice)
    requires LastEnds(start, notices, end) && r.end >= start
    ensures LastEnds(start, notices + [r], Max(end, r.end))
  {
    var more := notices + [r];
    assert more[|notices|] == r;
    if notices != [] && end >= r.end {
      var i :| 0 <= i < |notices| && notices[i].end == end;
      assert more[i].end == end;
    }
  }

  /** `notifyLongConnectionConsumers`: all callbacks at once, until the last one is through. */
  method NotifyConsumers(start: int, timeout: int, n: nat, cs: Callbacks) returns (end: int, notices: seq<Notice>)
    ensures |notices| == n && AllConclude(start, timeout, cs, notices) && LastEnds(start, notices, end)
    ensures start <= end <= start + Max(0, timeout)
  {
    end, notices := start, [];
    for i := 0 to n
      invariant |notices| == i && start <= end <= start + Max(0, timeout)
      invariant AllConclude(start, timeout, cs, notices)
      invariant LastEnds(start, notices, end)
    {
      var r := Retry(start, timeout, cs.attempt(i), cs.pause(i), cs.retries);
      AllConcludeWith(start, timeout, cs, notices, r);
      LastEndsWith(start, notices, end, r);
      notices := notices + [r];
      end := Max(end, r.end);
    }
  }

  // -------------------------------------------------------- custom callbacks

  /** The time a list of callbacks takes when each is cut off at `limit`. */
  function Spent(durations: seq<Option<nat>>, limit: nat): (total: nat)
    ensures total <= |durations| * limit
  {
    if durations == [] then 0
    else
      var d := durations[|durations| - 1];
      Spent(durations[..|durations| - 1], limit) + (if d.Some? && d.value <= limit then d.value else limit)
  }

  /** One callback takes its own time or the limit, whichever is less; one that never returns, the limit. */
  lemma SpentOnOne(d: Option<nat>, limit: nat)
    ensures d.Some? && d.value <= limit ==> Spent([d], limit) == d.value
    ensures d.None? || d.value >= limit ==> Spent([d], limit) == limit
  {
    assert [d][..0] == [];
  }

  /** Times add up. */
  lemma {:induction false} SpentAdds(a: seq<Option<nat>>, b: seq<Option<nat>>, limit: nat)
    ensures Spent(a + b, limit) == Spent(a, limit) + Spent(b, limit)
    decreases |b|
  {
    if b == [] {
      assert a + b == a;
    } else {
      var front := b[..|b| - 1];
      SpentAdds(a, front, limit);
      assert (a + b)[..|a + b| - 1] == a + front;
    }
  }

  /** `executeCustomShutdownCallbacks`: one after the other, each cut off at the total timeout. */
  method RunCallbacks(start: int, cfg: Config, durations: seq<Option<nat>>) returns (end: int)
    ensures end == start + Spent(durations, TotalTimeout(cfg))
    ensures start <= end <= start + |durations| * TotalTimeout(cfg)
  {
    end := start;
    for i := 0 to |durations|
      invariant end == start + Spent(durations[..i], TotalTimeout(cfg))
    {
      assert durations[..i + 1][..i] == durations[..i];
      var d := durations[i];
      if d.Some? && d.value <= TotalTimeout(cfg) {
        end := end + d.value;
      } else {
        end := end + TotalTimeout(cfg);
      }
    }
    assert durations[..|durations|] == durations;
  }

  // -------------------------------------------------------------- the whole

  /** What surrounds one shutdown. */
  datatype Surroundings = Surroundings(
    unregister: nat, destroy: nat,
    providerActive: int -> int, lastReceived: int -> int, consumerActive: int -> int,
    notified: nat, attempt: nat -> nat -> Attempt, pause: nat -> nat -> nat,
    callbacks: seq<Option<nat>>)
  {
    /** Those to be notified get three retries each. */
    function Notified(): Callbacks { Callbacks(attempt, pause, MAX_RETRIES) }
  }

  /** The instants at which steps two to seven end. */
  datatype Stages = Stages(unregistered: int, notified: int, accepted: int, drained: int, destroyed: int, end: int)

  /**
    `beforeShutdown`: each step starts when the one before it ends. Apart from unregistering
    and destroying, the time is bounded by the configuration and the number of custom
    callbacks alone.
  */
  method BeforeShutdown(start: int, cfg: Config, env: Surroundings) returns (at: Stages, notices: seq<Notice>)
    ensures at.unregistered == start + env.unregister
    ensures |notices| == env.notified && LastEnds(at.unregistered, notices, at.notified)
    ensures AllConclude(at.unregistered, Parsed(cfg.notifyTimeout, DEFAULT_NOTIFY_TIMEOUT), env.Notified(), notices)
    ensures AcceptEnds(at.notified, cfg, env.providerActive, env.lastReceived, at.accepted)
    ensures DrainEnds(at.accepted, cfg, env.consumerActive, at.drained)
    ensures at.destroyed == at.drained + env.destroy
    ensures at.end == at.destroyed + Spent(env.callbacks, TotalTimeout(cfg))
    ensures var notify := Parsed(cfg.notifyTimeout, DEFAULT_NOTIFY_TIMEOUT);
            var wait := Parsed(cfg.updateWait, DEFAULT_UPDATE_WAIT);
            var step := Parsed(cfg.stepTimeout, DEFAULT_STEP_TIMEOUT);
            start + Max(0, wait) <= at.end - env.unregister - env.destroy <=
            start + Max(0, notify) + Max(0, wait) + 2 * Max(0, step + POLL) + |env.callbacks| * TotalTimeout(cfg)
  {
    var unregistered := start + env.unregister;
    var timeout := Parsed(cfg.notifyTimeout, DEFAULT_NOTIFY_TIMEOUT);
    var notified, all := NotifyConsumers(unregistered, timeout, env.notified, env.Notified());
    notices := all;
    var accepted := AcceptAndWait(notified, cfg, env.providerActive, env.lastReceived);
    var drained := DrainRequests(accepted, cfg, env.consumerActive);
    var destroyed := drained + env.destroy;
    var end := RunCallbacks(destroyed, cfg, env.callbacks);
    at := Stages(unregistered, notified, accepted, drained, destroyed, end);
  }

  /** With nothing configured: 5 s to notify, 3 s to wait, twice 3.01 s to drain, a minute for each callback. */
  lemma DefaultBudget(n: nat)
    ensures var cfg := Config(None, None, None, None, None);
            Max(0, Parsed(cfg.notifyTimeout, DEFAULT_NOTIFY_TIMEOUT))
            + Max(0, Parsed(cfg.updateWait, DEFAULT_UPDATE_WAIT))
            + 2 * Max(0, Parsed(cfg.stepTimeout, DEFAULT_STEP_TIMEOUT) + POLL) + n * TotalTimeout(cfg)
            == 14_020_000_000 + n * 60_000_000_000
  {
  }
}
