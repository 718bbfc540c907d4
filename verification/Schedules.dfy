/** Recurring schedules: due runs, their spacing and their idempotency keys. */
module Schedules {
  import opened Common

  /** A schedule row with its definition's interval. */
  datatype Schedule = Schedule(interval: int, enabled: bool, nextRunAt: Option<int>)

  predicate Due(s: Schedule, now: int) {
    s.enabled && (s.nextRunAt.None? || s.nextRunAt.value <= now)
  }

  function Fire(s: Schedule, now: int): Schedule { s.(nextRunAt := Some(now + s.interval)) }

  function Decimal(n: nat): (text: string)
    ensures text != [] && forall i | 0 <= i < |text| :: text[i] != ':'
  {
    if n < 10 then [Digit(n)] else Decimal(n / 10) + [Digit(n % 10)]
  }

  function Digit(d: nat): char
    requires d < 10
  {
    "0123456789"[d]
  }

  lemma {:induction false} DecimalInjective(m: nat, n: nat)
    requires Decimal(m) == Decimal(n)
    ensures m == n
  {
    var x, y := Decimal(m), Decimal(n);
    assert x[|x| - 1] == Digit(m % 10) && y[|y| - 1] == Digit(n % 10);
    if m < 10 || n < 10 {
    } else {
      assert Decimal(m / 10) == x[..|x| - 1] == y[..|y| - 1] == Decimal(n / 10);
      DecimalInjective(m / 10, n / 10);
    }
  }

  /** The key of the run that falls into the interval containing `now`. */
  function RunKey(key: string, interval: int, now: nat): string
    requires interval > 0
  {
    "schedule:" + key + ":" + Decimal(now / interval)
  }

  /** A key tells the schedule and the interval, also among schedules whose names contain colons. */
  lemma RunKeyInjective(a: string, i: int, m: nat, b: string, k: int, n: nat)
    requires i > 0 && k > 0
    requires RunKey(a, i, m) == RunKey(b, k, n)
    ensures a == b && m / i == n / k
  {
    var x, y := Decimal(m / i), Decimal(n / k);
    SplitAtColon(a, x, b, y);
    SplitAtColon(b, y, a, x);
    assert RunKey(a, i, m) == ("schedule:" + a) + (":" + x);
    assert RunKey(b, k, n) == ("schedule:" + b) + (":" + y);
    assert RunKey(a, i, m)[9..9 + |a|] == a && RunKey(b, k, n)[9..9 + |b|] == b;
    assert RunKey(a, i, m)[10 + |a|..] == x && RunKey(b, k, n)[10 + |b|..] == y;
    DecimalInjective(m / i, n / k);
  }

  /** The colon before the digits is the last one. */
  lemma SplitAtColon(a: string, x: string, b: string, y: string)
    requires "schedule:" + a + ":" + x == "schedule:" + b + ":" + y
    requires forall i | 0 <= i < |x| :: x[i] != ':'
    ensures |a| >= |b|
  {
    var s := "schedule:" + a + ":" + x;
    assert s[9 + |b|] == ("schedule:" + b + ":" + y)[9 + |b|] == ':';
    forall i | 10 + |a| <= i < |s| ensures s[i] != ':' { assert s[i] == x[i - 10 - |a|]; }
  }

  // ---------------------------------------------------------------- one schedule over many polls

  /** The schedule row after polling it at the given times, the row being disabled or enabled in
      between as `toggles` says. */
  function After(s: Schedule, polls: seq<nat>, toggles: seq<bool>): Schedule
    requires |toggles| == |polls|
  {
    if polls == [] then s
    else
      var n := |polls| - 1;
      var before := After(s, polls[..n], toggles[..n]).(enabled := toggles[n]);
      if Due(before, polls[n]) then Fire(before, polls[n]) else before
  }

  /** The times at which those polls started a run. */
  function Firings(s: Schedule, polls: seq<nat>, toggles: seq<bool>): seq<nat>
    requires |toggles| == |polls|
  {
    if polls == [] then []
    else
      var n := |polls| - 1;
      var before := After(s, polls[..n], toggles[..n]).(enabled := toggles[n]);
      Firings(s, polls[..n], toggles[..n]) + if Due(before, polls[n]) then [polls[n]] else []
  }

  lemma {:induction false} NextAfterLast(s: Schedule, polls: seq<nat>, toggles: seq<bool>)
    requires |toggles| == |polls|
    ensures After(s, polls, toggles).interval == s.interval
    ensures var fired := Firings(s, polls, toggles);
      fired != [] ==> After(s, polls, toggles).nextRunAt == Some(fired[|fired| - 1] + s.interval)
  {
    if polls == [] {
    } else {
      NextAfterLast(s, polls[..|polls| - 1], toggles[..|polls| - 1]);
    }
  }

  /** Two firings of one schedule are at least an interval apart. */
  lemma {:induction false} FiringsSpaced(s: Schedule, polls: seq<nat>, toggles: seq<bool>, i: nat, k: nat)
    requires |toggles| == |polls| && s.interval > 0
    requires i < k < |Firings(s, polls, toggles)|
    ensures Firings(s, polls, toggles)[k] >= Firings(s, polls, toggles)[i] + s.interval
  {
    var n := |polls| - 1;
    var fired, earlier := Firings(s, polls, toggles), Firings(s, polls[..n], toggles[..n]);
    NextAfterLast(s, polls[..n], toggles[..n]);
    if k < |earlier| {
      FiringsSpaced(s, polls[..n], toggles[..n], i, k);
    } else if i < |earlier| - 1 {
      FiringsSpaced(s, polls[..n], toggles[..n], i, |earlier| - 1);
    }
  }

  /** Since the last of these firings a whole interval has passed; without any, the first run is due. */
  predicate Ripe(s: Schedule, fired: seq<nat>, at: nat) {
    if fired != [] then at >= fired[|fired| - 1] + s.interval
    else s.nextRunAt.None? || at >= s.nextRunAt.value
  }

  /** A poll starts a run exactly when the schedule is enabled and the time has come. */
  lemma FiresWhen(s: Schedule, polls: seq<nat>, toggles: seq<bool>, at: nat, enabled: bool)
    requires |toggles| == |polls|
    ensures var fired := Firings(s, polls, toggles);
      Firings(s, polls + [at], toggles + [enabled]) == if enabled && Ripe(s, fired, at) then fired + [at] else fired
  {
    var before := After(s, polls, toggles).(enabled := enabled);
    var fired := Firings(s, polls, toggles);
    assert (polls + [at])[..|polls|] == polls && (toggles + [enabled])[..|polls|] == toggles;
    assert Firings(s, polls + [at], toggles + [enabled]) == fired + if Due(before, at) then [at] else [];
    hide Firings, After;
    NextAfterLast(s, polls, toggles);
    if fired == [] { NotFired(s, polls, toggles); }
    assert Due(before, at) <==> enabled && Ripe(s, fired, at);
  }

  lemma {:induction false} NotFired(s: Schedule, polls: seq<nat>, toggles: seq<bool>)
    requires |toggles| == |polls| && Firings(s, polls, toggles) == []
    ensures After(s, polls, toggles).nextRunAt == s.nextRunAt
  {
    if polls == [] {
    } else {
      NotFired(s, polls[..|polls| - 1], toggles[..|polls| - 1]);
    }
  }

  lemma QuotientGrows(m: nat, n: nat, interval: int)
    requires interval > 0 && n >= m + interval
    ensures n / interval > m / interval
  {
    var q, p := m / interval, n / interval;
    assert m == q * interval + m % interval;
    assert n == p * interval + n % interval;
    assert (p + 1) * interval > n >= (q + 1) * interval;
    Cancel(p + 1, q + 1, interval);
  }

  lemma Cancel(x: int, y: int, c: int)
    requires c > 0 && x * c > y * c
    ensures x > y
  {
  }

  /** Distinct runs of a schedule carry distinct idempotency keys, with strictly growing counters:
      no due run is swallowed as a repetition of an earlier one. */
  lemma RunKeysDistinct(s: Schedule, key: string, polls: seq<nat>, toggles: seq<bool>, i: nat, k: nat)
    requires |toggles| == |polls| && s.interval > 0
    requires i < k < |Firings(s, polls, toggles)|
    ensures var fired := Firings(s, polls, toggles);
      && fired[i] / s.interval < fired[k] / s.interval
      && RunKey(key, s.interval, fired[i]) != RunKey(key, s.interval, fired[k])
  {
    var fired := Firings(s, polls, toggles);
    FiringsSpaced(s, polls, toggles, i, k);
    QuotientGrows(fired[i], fired[k], s.interval);
    if RunKey(key, s.interval, fired[i]) == RunKey(key, s.interval, fired[k]) {
      RunKeyInjective(key, s.interval, fired[i], key, s.interval, fired[k]);
    }
  }
}
