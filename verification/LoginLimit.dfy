/** The login limiter over any sequence of attempts at non-decreasing times. */
module LoginLimit {
  import opened Prelude
  import opened GateModel

  /** A session that never tried to log in, under a limit that is on. */
  predicate Limited(s: Session, cfg: Config) {
    s.loginWindowStart == None && cfg.loginRateLimitCount > 0 && cfg.loginRateLimitWindow > 0
  }

  ghost predicate NonDecreasing(times: seq<int>) {
    forall i, j | 0 <= i < j < |times| :: times[i] <= times[j]
  }

  /** The session after the first `n` attempts. */
  function Tried(s: Session, cfg: Config, times: seq<int>, n: nat): Session
    requires n <= |times|
  {
    if n == 0 then s else CountLogin(Tried(s, cfg, times, n - 1), cfg, times[n - 1])
  }

  /** Attempt `i` is let through. */
  predicate Accepted(s: Session, cfg: Config, times: seq<int>, i: nat)
    requires i < |times|
  {
    LoginAllowed(Tried(s, cfg, times, i + 1), cfg)
  }

  /** Attempt `i` opens a new window. */
  predicate Opens(s: Session, cfg: Config, times: seq<int>, i: nat)
    requires i < |times|
  {
    var w := Tried(s, cfg, times, i).loginWindowStart;
    w == None || times[i] - w.value > cfg.loginRateLimitWindow
  }

  /** How many of the attempts `i .. j` are let through. */
  function AcceptedIn(s: Session, cfg: Config, times: seq<int>, i: nat, j: nat): nat
    requires i <= j <= |times|
  {
    if i == j then 0 else AcceptedIn(s, cfg, times, i, j - 1) + if Accepted(s, cfg, times, j - 1) then 1 else 0
  }

  /** How many windows the attempts `i .. j` open. */
  function OpenedIn(s: Session, cfg: Config, times: seq<int>, i: nat, j: nat): nat
    requires i <= j <= |times|
  {
    if i == j then 0 else OpenedIn(s, cfg, times, i, j - 1) + if Opens(s, cfg, times, j - 1) then 1 else 0
  }

  /** After an attempt: it is counted in a window that was open by then. */
  lemma {:induction false} Window(s: Session, cfg: Config, times: seq<int>, n: nat)
    requires Limited(s, cfg) && NonDecreasing(times) && 0 < n <= |times|
    ensures var t := Tried(s, cfg, times, n);
            && t.loginAttempts >= 1 && t.loginWindowStart.Some? && t.loginWindowStart.value <= times[n - 1]
            && (t.loginAttempts == 1 <==> Opens(s, cfg, times, n - 1))
            && (Opens(s, cfg, times, n - 1) ==> t.loginWindowStart == Some(times[n - 1]))
            && (!Opens(s, cfg, times, n - 1) ==>
                  && n > 1 && t.loginWindowStart == Tried(s, cfg, times, n - 1).loginWindowStart
                  && t.loginAttempts == Tried(s, cfg, times, n - 1).loginAttempts + 1)
  {
    if n > 1 { Window(s, cfg, times, n - 1); }
  }

  /** Attempt `k` opens the window that attempt `i` is counted in. */
  ghost predicate InWindow(s: Session, cfg: Config, times: seq<int>, k: nat, i: nat)
    requires k <= i < |times|
  {
    Opens(s, cfg, times, k) && forall m | k < m <= i :: !Opens(s, cfg, times, m)
  }

  /** In each window exactly the first attempts, as many as the limit, are let through. */
  lemma {:induction false} AcceptedExactly(s: Session, cfg: Config, times: seq<int>, k: nat, i: nat)
    requires Limited(s, cfg) && NonDecreasing(times) && k <= i < |times| && InWindow(s, cfg, times, k, i)
    ensures Tried(s, cfg, times, i + 1).loginAttempts == i - k + 1
    ensures Tried(s, cfg, times, i + 1).loginWindowStart == Some(times[k])
    ensures Accepted(s, cfg, times, i) <==> i - k < cfg.loginRateLimitCount
  {
    Window(s, cfg, times, i + 1);
    if k < i { AcceptedExactly(s, cfg, times, k, i - 1); }
  }

  /** Every attempt is counted in some window. */
  lemma {:induction false} WindowOf(s: Session, cfg: Config, times: seq<int>, i: nat) returns (k: nat)
    requires Limited(s, cfg) && NonDecreasing(times) && i < |times|
    ensures k <= i && InWindow(s, cfg, times, k, i)
  {
    if Opens(s, cfg, times, i) { return i; }
    Window(s, cfg, times, i + 1);
    k := WindowOf(s, cfg, times, i - 1);
  }

  /** An attempt opens a window exactly if it is the first, or comes later than the window length after the attempt that
      opened the last one. */
  lemma OpensExactly(s: Session, cfg: Config, times: seq<int>, k: nat, i: nat)
    requires Limited(s, cfg) && NonDecreasing(times) && k <= i && i + 1 < |times| && InWindow(s, cfg, times, k, i)
    ensures Opens(s, cfg, times, 0)
    ensures Opens(s, cfg, times, i + 1) <==> times[i + 1] - times[k] > cfg.loginRateLimitWindow
  {
    AcceptedExactly(s, cfg, times, k, i);
  }

  /** Each window lets at most the limit through. */
  lemma {:induction false} AcceptedByWindows(s: Session, cfg: Config, times: seq<int>, i: nat, j: nat)
    requires Limited(s, cfg) && NonDecreasing(times) && i < j <= |times|
    ensures var limit := cfg.loginRateLimitCount;
            AcceptedIn(s, cfg, times, i, j)
            <= limit * OpenedIn(s, cfg, times, i + 1, j)
               + Min(limit, Tried(s, cfg, times, j).loginAttempts)
               - Min(limit, Tried(s, cfg, times, i + 1).loginAttempts - 1)
  {
    Window(s, cfg, times, j);
    if j == i + 1 {
      assert AcceptedIn(s, cfg, times, i, i) == 0;
    } else {
      AcceptedByWindows(s, cfg, times, i, j - 1);
      Window(s, cfg, times, j - 1);
      MulSucc(cfg.loginRateLimitCount, OpenedIn(s, cfg, times, i + 1, j - 1));
    }
  }

  /** Windows opened by the attempts after `i` take more than the window length each, but for the first. */
  lemma {:induction false} OpeningsTakeTime(s: Session, cfg: Config, times: seq<int>, i: nat, j: nat)
    requires Limited(s, cfg) && NonDecreasing(times) && i < j <= |times|
    ensures var windows := OpenedIn(s, cfg, times, i + 1, j);
            var length := cfg.loginRateLimitWindow + 1;
            var start := Tried(s, cfg, times, j).loginWindowStart;
            && start.Some?
            && (windows == 0 ==> start == Tried(s, cfg, times, i + 1).loginWindowStart)
            && (windows > 0 ==> start.value >= times[i] + length * (windows - 1))
            && (Opens(s, cfg, times, i) ==> start.value >= times[i] + length * windows)
  {
    Window(s, cfg, times, i + 1);
    if j > i + 1 {
      OpeningsTakeTime(s, cfg, times, i, j - 1);
      Window(s, cfg, times, j);
      Window(s, cfg, times, j - 1);
      OneMoreOpening(cfg.loginRateLimitWindow + 1, OpenedIn(s, cfg, times, i + 1, j - 1), times[i],
                     Tried(s, cfg, times, j - 1).loginWindowStart.value, times[j - 1]);
    }
  }

  /** A window that opens more than the window length after the one before, which came after `windows` of them. */
  lemma OneMoreOpening(length: int, windows: nat, first: int, start: int, start': int)
    requires start' >= first
    ensures windows > 0 && start >= first + length * (windows - 1) && start' >= start + length ==>
              start' >= first + length * windows
    ensures start >= first + length * windows && start' >= start + length ==> start' >= first + length * (windows + 1)
    ensures windows == 0 ==> start' >= first + length * windows
  {
    MulSucc(length, windows);
    MulSucc(length, windows - 1);
  }

  /** Two windows never open within the window length of each other. */
  lemma OpeningsApart(s: Session, cfg: Config, times: seq<int>, i: nat, j: nat)
    requires Limited(s, cfg) && NonDecreasing(times) && i < j < |times|
    requires Opens(s, cfg, times, i) && Opens(s, cfg, times, j)
    ensures times[j] - times[i] > cfg.loginRateLimitWindow
  {
    OpeningsTakeTime(s, cfg, times, i, j);
    Window(s, cfg, times, j);
    var d := OpenedIn(s, cfg, times, i + 1, j);
    assert (cfg.loginRateLimitWindow + 1) * d >= 0;
  }

  /** Attempts within any interval as long as the window: fewer than twice the limit get through. */
  lemma AcceptedInInterval(s: Session, cfg: Config, times: seq<int>, i: nat, j: nat)
    requires Limited(s, cfg) && NonDecreasing(times) && i < j <= |times|
    requires times[j - 1] - times[i] <= cfg.loginRateLimitWindow
    ensures AcceptedIn(s, cfg, times, i, j) <= 2 * cfg.loginRateLimitCount - 1
  {
    AcceptedByWindows(s, cfg, times, i, j);
    OpeningsTakeTime(s, cfg, times, i, j);
    Window(s, cfg, times, j);
    Window(s, cfg, times, i + 1);
    var d := OpenedIn(s, cfg, times, i + 1, j);
    var length := cfg.loginRateLimitWindow + 1;
    if d > 0 { FewerThanOne(length, d - 1); }
    if Opens(s, cfg, times, i) { FewerThanOne(length, d); }
    assert cfg.loginRateLimitCount * d <= cfg.loginRateLimitCount;
  }

  /** From the first attempt on: at most the limit for each window length begun. */
  lemma AcceptedFromStart(s: Session, cfg: Config, times: seq<int>, j: nat)
    requires Limited(s, cfg) && NonDecreasing(times) && 0 < j <= |times|
    ensures AcceptedIn(s, cfg, times, 0, j)
            <= cfg.loginRateLimitCount * ((times[j - 1] - times[0]) / cfg.loginRateLimitWindow + 1)
  {
    AcceptedByWindows(s, cfg, times, 0, j);
    OpeningsTakeTime(s, cfg, times, 0, j);
    Window(s, cfg, times, j);
    Window(s, cfg, times, 1);
    var d := OpenedIn(s, cfg, times, 1, j);
    WindowsInSpan(cfg.loginRateLimitCount, cfg.loginRateLimitWindow, d, times[j - 1] - times[0]);
  }

  lemma WindowsInSpan(limit: int, w: int, d: nat, span: int)
    requires limit > 0 && w > 0 && (w + 1) * d <= span
    ensures limit * d + limit <= limit * (span / w + 1)
  {
    assert (w + 1) * d == w * d + d;
    FitsIn(w, d, span);
    MulSucc(limit, d);
    MulLe(limit, d + 1, span / w + 1);
  }

  lemma MulSucc(a: int, d: int)
    ensures a * (d + 1) == a * d + a
  {}

  lemma FitsIn(w: int, d: nat, span: int)
    requires w > 0 && w * d <= span
    ensures d <= span / w
  {
    var q := span / w;
    assert w * (d - q) == w * d - w * q;
    FewerThanOne(w, d - q);
  }

  lemma FewerThanOne(w: int, x: int)
    requires w > 0 && w * x < w
    ensures x < 1
  {}

  lemma MulLe(a: int, b: int, c: int)
    requires a >= 0 && b <= c
    ensures a * b <= a * c
  {}
}
