/** The limiters of verification and reset e-mails. Times are ticks of a clock with `ticks` ticks a second;
    the configured limits are whole seconds, and so is the waiting time the limiter reports. */
module RateLimit {

  /** Attempts are counted over the last `window` seconds; once `attempts` is reached the next e-mail has
      to wait `timeLimit` seconds from the last one, otherwise `timeout` seconds. For verification
      e-mails the window is the time limit, for reset e-mails it is the lifetime of the token. */
  datatype Settings = Settings(window: nat, timeLimit: nat, timeout: nat, attempts: nat, ticks: nat)
  {
    predicate Positive() {
      timeLimit > 0 && timeout > 0 && attempts > 0 && ticks > 0
    }
  }

  /** A configured number of seconds on the clock. */
  function InTicks(seconds: nat, ticks: nat): int { seconds * ticks }

  datatype Limit = Limit(leftSeconds: int, leftAttempts: int)

  /** One e-mail: when the limiter was asked and when the token was created. */
  datatype Send = Send(check: int, created: int)

  /** The tokens created no earlier than `since`. */
  function CountSince(history: seq<Send>, since: int): nat {
    if history == [] then 0
    else CountSince(history[..|history| - 1], since) + if history[|history| - 1].created >= since then 1 else 0
  }

  /** The latest creation time. */
  function Latest(history: seq<Send>): (t: int)
    requires history != []
    ensures forall i :: 0 <= i < |history| ==> history[i].created <= t
    ensures exists i :: 0 <= i < |history| && history[i].created == t
  {
    var last := history[|history| - 1].created;
    if |history| == 1 then last
    else
      var before := Latest(history[..|history| - 1]);
      if before > last then before else last
  }

  function Max(a: int, b: int): int { if a > b then a else b }

  function GetLimit(s: Settings, history: seq<Send>, now: int): Limit
    requires s.ticks > 0
  {
    var attempts := CountSince(history, now - InTicks(s.window, s.ticks));
    var next :=
      if history == [] then now
      else if attempts >= s.attempts then Latest(history) + InTicks(s.timeLimit, s.ticks)
      else Latest(history) + InTicks(s.timeout, s.ticks);
    Limit(Max(next - now, 0) / s.ticks, s.attempts - attempts)
  }

  predicate IsThrottled(s: Settings, history: seq<Send>, now: int)
    requires s.ticks > 0
  {
    GetLimit(s, history, now).leftSeconds > 0
  }

  class Mailer {
    const settings: Settings
    var history: seq<Send>

    constructor (settings: Settings)
      ensures this.settings == settings && history == []
    {
      this.settings := settings;
      history := [];
    }

    /** Asks the limiter at `now`, and creates the token at `created` when it lets the e-mail through. */
    method SendEmail(now: int, created: int) returns (sent: bool)
      requires settings.ticks > 0 && Follows(settings, history, now, created)
      modifies this
      ensures sent <==> !IsThrottled(settings, old(history), now)
      ensures history == if sent then old(history) + [Send(now, created)] else old(history)
      ensures Produced(settings, old(history)) ==> Produced(settings, history)
    {
      var limit := GetLimit(settings, history, now);
      if limit.leftSeconds > 0 {
        return false;
      }
      history := history + [Send(now, created)];
      assert history[..|history| - 1] == old(history);
      sent := true;
    }
  }

  /** The clock does not run backwards. */
  predicate Follows(s: Settings, history: seq<Send>, now: int, created: int) {
    (history != [] ==> Latest(history) <= now) && now <= created
  }

  /** The histories the limiter lets happen. */
  predicate Produced(s: Settings, history: seq<Send>)
    requires s.ticks > 0
  {
    history == [] ||
    var init, last := history[..|history| - 1], history[|history| - 1];
    Produced(s, init) && Follows(s, init, last.check, last.created) && !IsThrottled(s, init, last.check)
  }

  // ----- What the limiter says -----

  /** The e-mails of the history that were created no earlier than `since`. */
  function Recent(history: seq<Send>, since: int): set<nat> {
    set i: nat | i < |history| && history[i].created >= since
  }

  lemma {:induction false} CountsTheRecent(history: seq<Send>, since: int)
    ensures CountSince(history, since) == |Recent(history, since)|
  {
    if history != [] {
      var init, n := history[..|history| - 1], |history| - 1;
      CountsTheRecent(init, since);
      assert forall i :: 0 <= i < n ==> init[i] == history[i];
      if history[n].created >= since {
        assert Recent(history, since) == Recent(init, since) + {n};
      } else {
        assert Recent(history, since) == Recent(init, since);
      }
    }
  }

  /** The attempts left are the configured ones less the e-mails in the window. */
  lemma AttemptsLeft(s: Settings, history: seq<Send>, now: int)
    requires s.ticks > 0
    ensures GetLimit(s, history, now).leftAttempts == s.attempts - |Recent(history, now - s.window * s.ticks)|
  {
    CountsTheRecent(history, now - s.window * s.ticks);
  }

  /** When the next e-mail is due: at once after none, otherwise after the time limit or the timeout. */
  function Due(s: Settings, history: seq<Send>, now: int): int {
    if history == [] then now
    else if |Recent(history, now - s.window * s.ticks)| >= s.attempts
    then Latest(history) + s.timeLimit * s.ticks
    else Latest(history) + s.timeout * s.ticks
  }

  /** The seconds left are the whole seconds until then. */
  lemma SecondsLeft(s: Settings, history: seq<Send>, now: int)
    requires s.ticks > 0
    ensures var left := GetLimit(s, history, now).leftSeconds;
      && left >= 0
      && (Due(s, history, now) > now ==> now + left * s.ticks <= Due(s, history, now) < now + (left + 1) * s.ticks)
      && (Due(s, history, now) <= now ==> left == 0)
  {
    hide CountSince, Recent;
    CountsTheRecent(history, now - s.window * s.ticks);
    WholePart(Max(Due(s, history, now) - now, 0), s.ticks);
  }

  lemma WholePart(n: nat, ticks: nat)
    requires ticks > 0
    ensures n / ticks >= 0 && n / ticks * ticks <= n < (n / ticks + 1) * ticks
    ensures n == 0 ==> n / ticks == 0
  {
    assert n == n / ticks * ticks + n % ticks;
    assert (n / ticks + 1) * ticks == n / ticks * ticks + ticks;
  }

  /** While fewer e-mails than allowed lie in the window, the next one is let through as soon as less than a
      second of the timeout is left; afterwards it waits for the time limit in the same way. */
  lemma LetThroughIff(s: Settings, history: seq<Send>, now: int)
    requires s.Positive() && Produced(s, history) && history != []
    ensures !IsThrottled(s, history, now) <==>
      now > history[|history| - 1].created - s.ticks
            + if |Recent(history, now - s.window * s.ticks)| < s.attempts then s.timeout * s.ticks
              else s.timeLimit * s.ticks
  {
    hide CountSince, Recent, IsThrottled, Produced;
    CountsTheRecent(history, now - s.window * s.ticks);
    ThrottledIff(s, history, now);
  }

  // ----- Distances between e-mails -----

  lemma {:induction false} ProducedPrefix(s: Settings, history: seq<Send>, i: nat)
    requires s.ticks > 0 && Produced(s, history) && i <= |history|
    ensures Produced(s, history[..i])
  {
    if i == |history| {
      assert history[..i] == history;
    } else {
      ProducedPrefix(s, history[..|history| - 1], i);
      assert history[..|history| - 1][..i] == history[..i];
    }
  }

  lemma {:induction false} ProducedSorted(s: Settings, history: seq<Send>)
    requires s.ticks > 0 && Produced(s, history)
    ensures forall i, j :: 0 <= i <= j < |history| ==> history[i].created <= history[j].created
    ensures history != [] ==> Latest(history) == history[|history| - 1].created
  {
    if history != [] {
      var init := history[..|history| - 1];
      ProducedSorted(s, init);
      if init != [] {
        assert Latest(init) <= history[|history| - 1].created;
        assert forall i :: 0 <= i < |init| ==> init[i] == history[i];
      }
    }
  }

  /** If the last `n` entries are recent enough they are all counted. */
  lemma {:induction false} CountsRecent(history: seq<Send>, since: int, n: nat)
    requires n <= |history|
    requires forall i :: |history| - n <= i < |history| ==> history[i].created >= since
    ensures CountSince(history, since) >= n
  {
    if n > 0 {
      CountsRecent(history[..|history| - 1], since, n - 1);
    }
  }

  /** A waiting time of zero whole seconds means less than a second is left. */
  lemma WholeSeconds(left: int, ticks: nat)
    requires ticks > 0
    ensures Max(left, 0) / ticks == 0 <==> left < ticks
  {
    if left >= ticks {
      assert left / ticks >= 1;
    }
  }

  /** The shortest distance the timeout leaves between two e-mails. */
  function Spacing(seconds: nat, ticks: nat): int {
    InTicks(seconds, ticks) - ticks + 1
  }

  /** The time that `n` timeouts in a row take at least. */
  function Timeouts(s: Settings, n: int): int {
    n * Spacing(s.timeout, s.ticks)
  }

  lemma OneTimeout(s: Settings, n: int)
    ensures Timeouts(s, n + 1) == Timeouts(s, n) + Spacing(s.timeout, s.ticks)
    ensures Timeouts(s, 0) == 0
  {
    var k := Spacing(s.timeout, s.ticks);
    assert (n + 1) * k == n * k + k;
  }

  /** What the limiter compares, for a history it produced. */
  lemma {:induction false} ThrottledIff(s: Settings, history: seq<Send>, now: int)
    requires s.Positive() && Produced(s, history) && history != []
    ensures var attempts := CountSince(history, now - InTicks(s.window, s.ticks));
      var delay := if attempts >= s.attempts then s.timeLimit else s.timeout;
      IsThrottled(s, history, now) <==> history[|history| - 1].created + InTicks(delay, s.ticks) - now >= s.ticks
  {
    hide InTicks, CountSince;
    ProducedSorted(s, history);
    WholeSeconds(Latest(history) + InTicks(s.timeLimit, s.ticks) - now, s.ticks);
    WholeSeconds(Latest(history) + InTicks(s.timeout, s.ticks) - now, s.ticks);
  }

  lemma StepAllowed(s: Settings, history: seq<Send>, i: nat)
    requires s.Positive() && Produced(s, history) && i < |history|
    ensures Produced(s, history[..i]) && !IsThrottled(s, history[..i], history[i].check)
    ensures history[i].check <= history[i].created
  {
    hide IsThrottled;
    ProducedPrefix(s, history, i + 1);
    assert history[..i + 1][..i] == history[..i];
  }

  /** Each e-mail follows the one before it after the time limit, or after the timeout while the one
      `attempts` before it has left the window. */
  lemma StepDistance(s: Settings, history: seq<Send>, i: nat)
    requires s.Positive() && Produced(s, history) && 0 < i < |history|
    ensures var gap := history[i].created - history[i - 1].created;
      || gap >= Spacing(s.timeLimit, s.ticks)
      || (gap >= Spacing(s.timeout, s.ticks)
          && (i >= s.attempts ==> history[i].created - history[i - s.attempts].created > InTicks(s.window, s.ticks)))
  {
    hide InTicks, IsThrottled, Produced, CountSince;
    var before, now := history[..i], history[i].check;
    var since := now - InTicks(s.window, s.ticks);
    StepAllowed(s, history, i);
    ThrottledIff(s, before, now);
    ProducedSorted(s, before);
    if i >= s.attempts && before[i - s.attempts].created >= since {
      CountsRecent(before, since, s.attempts);
    }
  }

  /** Consecutive e-mails are at least the smaller of the two delays apart, less the fraction of a second
      the limiter truncates. */
  lemma {:induction false} ConsecutiveSends(s: Settings, history: seq<Send>, i: nat)
    requires s.Positive() && Produced(s, history) && 0 < i < |history|
    ensures history[i].created - history[i - 1].created
         >= Spacing(if s.timeout < s.timeLimit then s.timeout else s.timeLimit, s.ticks)
    ensures s.ticks == 1 ==>
      history[i].created - history[i - 1].created >= if s.timeout < s.timeLimit then s.timeout else s.timeLimit
  {
    StepDistance(s, history, i);
    MultiplyMono(s.timeout, s.timeLimit, s.ticks);
    MultiplyMono(s.timeLimit, s.timeout, s.ticks);
  }

  lemma MultiplyMono(a: nat, b: nat, k: nat)
    ensures a <= b ==> a * k <= b * k
  {
  }

  /** Over `n` e-mails either one waited for the time limit or all waited for the timeout. */
  lemma {:induction false} SpreadDistance(s: Settings, history: seq<Send>, i: nat, n: nat)
    requires s.Positive() && Produced(s, history) && n <= i < |history|
    ensures var spread := history[i].created - history[i - n].created;
      spread >= Timeouts(s, n) || (n > 0 && spread >= Spacing(s.timeLimit, s.ticks))
  {
    hide Timeouts, Spacing, Produced, InTicks;
    ProducedSorted(s, history);
    OneTimeout(s, n - 1);
    if n > 0 {
      SpreadDistance(s, history, i, n - 1);
      StepDistance(s, history, i - (n - 1));
    }
  }

  // ----- The rate bound -----

  /** The e-mails created from `from` to `to`, both included. */
  function CountIn(history: seq<Send>, from: int, to: int): nat {
    if history == [] then 0
    else CountIn(history[..|history| - 1], from, to)
         + if from <= history[|history| - 1].created <= to then 1 else 0
  }

  lemma {:induction false} CountSuffix(history: seq<Send>, from: int, to: int, k: nat)
    requires k <= |history| && forall i :: 0 <= i < k ==> !(from <= history[i].created <= to)
    ensures CountIn(history, from, to) <= |history| - k
  {
    if history != [] {
      CountSuffix(history[..|history| - 1], from, to, if k == |history| then k - 1 else k);
    }
  }

  /** If e-mails `n` places apart are further apart than the window is long, it holds at most `n`. */
  lemma {:induction false} CountFromDistance(history: seq<Send>, n: nat, from: int, to: int)
    requires forall i :: n <= i < |history| ==> history[i].created - history[i - n].created > to - from
    requires forall i, j :: 0 <= i <= j < |history| ==> history[i].created <= history[j].created
    ensures CountIn(history, from, to) <= n
  {
    if |history| <= n {
      CountSuffix(history, from, to, 0);
    } else {
      var init, m := history[..|history| - 1], |history| - 1;
      if from <= history[m].created <= to {
        assert history[m].created - history[m - n].created > to - from;
        forall i | 0 <= i < |history| - n ensures history[i].created < from {
          assert history[i].created <= history[m - n].created;
        }
        CountSuffix(history, from, to, |history| - n);
      } else {
        assert forall i :: 0 <= i < |init| ==> init[i] == history[i];
        CountFromDistance(init, n, from, to);
      }
    }
  }

  /** The length of the window that the bound is about: all its ticks lie within `timeLimit` seconds once
      the truncated fraction of a second is taken off. On a whole-second clock the closed window of this
      length is the half-open window of the time limit. */
  function BoundedSpan(s: Settings): int {
    InTicks(s.timeLimit, s.ticks) - s.ticks
  }

  /** The configured settings rule out more than `attempts` e-mails in such a window. */
  predicate SettingsBound(s: Settings) {
    BoundedSpan(s) <= InTicks(s.window, s.ticks) || BoundedSpan(s) < Timeouts(s, s.attempts)
  }

  /** At most `attempts` e-mails fall into the window that starts at `from`. */
  predicate BoundedFrom(s: Settings, history: seq<Send>, from: int) {
    CountIn(history, from, from + BoundedSpan(s)) <= s.attempts
  }

  /** At most `attempts` e-mails fall into any such window of any history. */
  ghost predicate RateBounded(s: Settings)
    requires s.Positive()
  {
    forall history, from :: Produced(s, history) ==> BoundedFrom(s, history, from)
  }

  lemma BoundHolds(s: Settings, history: seq<Send>, from: int)
    requires s.Positive() && SettingsBound(s) && Produced(s, history)
    ensures BoundedFrom(s, history, from)
  {
    hide Timeouts, InTicks, Produced;
    ProducedSorted(s, history);
    forall i | s.attempts <= i < |history|
      ensures history[i].created - history[i - s.attempts].created > BoundedSpan(s)
    {
      StepDistance(s, history, i);
      SpreadDistance(s, history, i, s.attempts);
      assert history[i - s.attempts].created <= history[i - 1].created;
    }
    CountFromDistance(history, s.attempts, from, from + BoundedSpan(s));
  }

  /** `n` e-mails sent one timeout apart. */
  function Burst(s: Settings, n: nat): seq<Send> {
    if n == 0 then []
    else
      var t := Timeouts(s, n - 1);
      Burst(s, n - 1) + [Send(t, t)]
  }

  lemma {:induction false} CountAtMostLength(history: seq<Send>, since: int)
    ensures CountSince(history, since) <= |history|
    ensures history != [] && history[0].created < since ==> CountSince(history, since) < |history|
  {
    if history != [] {
      CountAtMostLength(history[..|history| - 1], since);
    }
  }

  /** An e-mail is let through when fewer than `attempts` are counted and the timeout is over. */
  lemma LetThrough(s: Settings, history: seq<Send>, t: int)
    requires s.Positive() && Produced(s, history) && history != []
    requires CountSince(history, t - InTicks(s.window, s.ticks)) < s.attempts
    requires t - history[|history| - 1].created >= Spacing(s.timeout, s.ticks)
    ensures Produced(s, history + [Send(t, t)])
  {
    MultiplyMono(1, s.timeout, s.ticks);
    assert InTicks(s.timeout, s.ticks) >= s.ticks;
    hide InTicks, IsThrottled, CountSince;
    ProducedSorted(s, history);
    ThrottledIff(s, history, t);
    assert (history + [Send(t, t)])[..|history|] == history;
  }

  lemma {:induction false} BurstProduced(s: Settings, n: nat)
    requires s.Positive() && n <= s.attempts
    ensures |Burst(s, n)| == n && Produced(s, Burst(s, n))
    ensures forall i :: 0 <= i < n ==> Burst(s, n)[i].created == Timeouts(s, i)
  {
    hide InTicks, IsThrottled, CountSince, Produced, Spacing, Timeouts;
    if n == 0 {
      NothingProduced(s);
    } else if n == 1 {
      FirstProduced(s);
      FirstOfBurst(s);
    } else {
      var init, t := Burst(s, n - 1), Timeouts(s, n - 1);
      BurstProduced(s, n - 1);
      CountAtMostLength(init, t - InTicks(s.window, s.ticks));
      OneTimeout(s, n - 2);
      LetThrough(s, init, t);
    }
  }

  lemma NothingProduced(s: Settings)
    requires s.Positive()
    ensures Produced(s, [])
  {
  }

  lemma NothingSentNotThrottled(s: Settings, now: int)
    requires s.Positive()
    ensures !IsThrottled(s, [], now)
  {
    hide InTicks;
    WholeSeconds(now - now, s.ticks);
  }

  lemma FirstProduced(s: Settings)
    requires s.Positive()
    ensures Produced(s, [Send(0, 0)])
  {
    hide IsThrottled;
    assert [Send(0, 0)][..0] == [];
    NothingSentNotThrottled(s, 0);
  }

  lemma FirstOfBurst(s: Settings)
    ensures Burst(s, 1) == [Send(0, 0)] && Timeouts(s, 0) == 0
  {
    hide InTicks;
    assert Burst(s, 0) == [];
  }

  /** A burst of `attempts` e-mails and one more, as early as the timeout and the window allow. */
  lemma LongBurst(s: Settings) returns (history: seq<Send>)
    requires s.Positive()
    ensures Produced(s, history) && |history| == s.attempts + 1
    ensures forall i :: 0 <= i < s.attempts ==> history[i].created == Timeouts(s, i)
    ensures history[s.attempts].created == Max(Timeouts(s, s.attempts), InTicks(s.window, s.ticks) + 1)
  {
    hide InTicks, Produced, IsThrottled, Burst, Spacing, Timeouts;
    var n, burst := s.attempts, Burst(s, s.attempts);
    var t := Max(Timeouts(s, n), InTicks(s.window, s.ticks) + 1);
    BurstProduced(s, n);
    OneTimeout(s, 0);
    OneTimeout(s, n - 1);
    CountAtMostLength(burst, t - InTicks(s.window, s.ticks));
    LetThrough(s, burst, t);
    history := burst + [Send(t, t)];
  }

  lemma TimeoutsIncrease(s: Settings, i: nat, n: nat)
    requires s.Positive() && i <= n
    ensures 0 <= Timeouts(s, i) <= Timeouts(s, n)
  {
    MultiplyMono(1, s.timeout, s.ticks);
    MultiplyMono(i, n, Spacing(s.timeout, s.ticks));
  }

  lemma BurstExceeds(s: Settings)
    requires s.Positive() && !SettingsBound(s)
    ensures !RateBounded(s)
  {
    hide Produced, Timeouts, Spacing, InTicks;
    var history := LongBurst(s);
    forall i | 0 <= i < |history| ensures 0 <= history[i].created <= BoundedSpan(s) {
      TimeoutsIncrease(s, if i < s.attempts then i else s.attempts, s.attempts);
    }
    CountAll(history, 0, BoundedSpan(s));
    assert !BoundedFrom(s, history, 0);
  }

  lemma {:induction false} CountAll(history: seq<Send>, from: int, to: int)
    requires forall i :: 0 <= i < |history| ==> from <= history[i].created <= to
    ensures CountIn(history, from, to) == |history|
  {
    if history != [] {
      CountAll(history[..|history| - 1], from, to);
    }
  }

  /** Over all histories every window of the time limit holds at most the configured number of e-mails if
      and only if attempts are counted over a window that is long enough, or the timeout alone spreads
      that many e-mails far enough. */
  lemma RateBoundedIff(s: Settings)
    requires s.Positive()
    ensures RateBounded(s) <==> SettingsBound(s)
  {
    if SettingsBound(s) {
      forall history, from | Produced(s, history) ensures BoundedFrom(s, history, from)
      {
        BoundHolds(s, history, from);
      }
    } else {
      BurstExceeds(s);
    }
  }

  /** Verification e-mails count attempts over the time limit itself, and reset e-mails over the lifetime
      of the token: both are bounded once that window is no shorter than the time limit. */
  lemma LongWindowsAreBounded(s: Settings)
    requires s.Positive() && s.window >= s.timeLimit
    ensures RateBounded(s)
  {
    MultiplyMono(s.timeLimit, s.window, s.ticks);
    RateBoundedIff(s);
  }

  /** On a whole-second clock the condition reads: the time limit is at most one second longer than the
      counting window, or at most `attempts` timeouts. */
  lemma WholeSecondCondition(s: Settings)
    requires s.Positive() && s.ticks == 1
    ensures RateBounded(s) <==> s.timeLimit <= s.window + 1 || s.timeLimit <= s.attempts * s.timeout
    ensures BoundedSpan(s) == s.timeLimit - 1
  {
    RateBoundedIff(s);
    assert Spacing(s.timeout, s.ticks) == s.timeout;
  }
}
