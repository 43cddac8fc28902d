/** The dual-window admission controller that guards every call to the
    generative-AI backend: a per-minute and a per-hour fixed-window counter,
    lazily rolled over on the next check once their window has ended.

    The specification functions (Decide, Next, ClearExpired, RemainingOf) say
    what one call does to the two trackers; the class RateLimiter carries the
    trackers as mutable fields and its methods are proved against those
    functions. The clock is the parameter `now` (milliseconds). */
module RateLimit {
  import opened Text

  const MinuteLimit: int := 3
  const HourLimit: int := 10
  const MinuteWindow: int := 60 * 1000
  const HourWindow: int := 60 * 60 * 1000

  /** One window's tracker: requests admitted in the current window and the
      instant (in ms) at which the window ends. */
  datatype Entry = Entry(count: int, resetTime: int)

  /** The limiter's whole state: the minute tracker and the hour tracker. */
  datatype Trackers = Trackers(minute: Entry, hour: Entry)

  /** The state a freshly constructed limiter starts in. */
  const Initial: Trackers := Trackers(Entry(0, 0), Entry(0, 0))

  /** What one check decides: admit, or deny because of the minute window
      (wait in whole seconds) or because of the hour window (wait in whole
      minutes); a denial carries the blocking tracker's reset time. */
  datatype Decision =
    | Admitted
    | DeniedMinute(waitSeconds: int, resetTime: int)
    | DeniedHour(waitMinutes: int, resetTime: int)

  /** Neither count is negative or above its limit. */
  predicate Bounded(s: Trackers)
  {
    && 0 <= s.minute.count <= MinuteLimit
    && 0 <= s.hour.count <= HourLimit
  }

  /** Neither window ends later than one window length after `t`: true of
      every state reached by checks made at times up to `t`. */
  predicate OpenedBy(s: Trackers, t: int)
  {
    s.minute.resetTime <= t + MinuteWindow && s.hour.resetTime <= t + HourWindow
  }

  /** `Math.ceil(a / b)` for a positive divisor: the least q with a <= q * b. */
  function CeilDiv(a: int, b: int): (q: int)
    requires b > 0
    ensures (q - 1) * b < a <= q * b
  {
    if a % b == 0 then a / b else a / b + 1
  }

  /** Lazy rollover of one tracker: a window that ended strictly before `now`
      restarts empty and ends one window length after `now`. */
  function Expire(e: Entry, now: int, window: int): Entry
  {
    if now > e.resetTime then Entry(0, now + window) else e
  }

  /** Both trackers after the lazy rollover at the start of a check. */
  function Refreshed(s: Trackers, now: int): Trackers
  {
    Trackers(Expire(s.minute, now, MinuteWindow), Expire(s.hour, now, HourWindow))
  }

  /** The decision `checkLimit` returns at time `now` from state `s`: the minute
      window is tested first, then the hour window. */
  function Decide(s: Trackers, now: int): Decision
  {
    var r := Refreshed(s, now);
    if r.minute.count >= MinuteLimit then
      DeniedMinute(CeilDiv(r.minute.resetTime - now, 1000), r.minute.resetTime)
    else if r.hour.count >= HourLimit then
      DeniedHour(CeilDiv(r.hour.resetTime - now, 60 * 1000), r.hour.resetTime)
    else
      Admitted
  }

  /** The state `checkLimit` leaves behind: the rolled-over trackers, with both
      counts incremented when the call is admitted. */
  function Next(s: Trackers, now: int): Trackers
  {
    var r := Refreshed(s, now);
    if Decide(s, now).Admitted? then
      Trackers(r.minute.(count := r.minute.count + 1), r.hour.(count := r.hour.count + 1))
    else
      r
  }

  /** What `getRemainingRequests` does to the state: an expired window's count
      is zeroed, but its reset time is left as it was. */
  function ClearExpired(s: Trackers, now: int): Trackers
  {
    Trackers(
      if now > s.minute.resetTime then s.minute.(count := 0) else s.minute,
      if now > s.hour.resetTime then s.hour.(count := 0) else s.hour)
  }

  datatype Remaining = Remaining(minute: int, hour: int)

  /** The value `getRemainingRequests` returns. */
  function RemainingOf(s: Trackers, now: int): Remaining
  {
    var c := ClearExpired(s, now);
    Remaining(Max(0, MinuteLimit - c.minute.count), Max(0, HourLimit - c.hour.count))
  }

  // ---------------------------------------------------------------------
  // The result object and its messages

  /** `RateLimitResult`: `error` and `resetTime` are present exactly on denial. */
  datatype CheckResult = CheckResult(allowed: bool, error: Option<string>, resetTime: Option<int>)

  function MinuteMessage(waitSeconds: int): string
  {
    "Rate limit exceeded. You can make " + (IntString(MinuteLimit) + " requests per minute")
      + ". Try again in " + (IntString(waitSeconds) + " seconds") + "."
  }

  function HourMessage(waitMinutes: int): string
  {
    "Hourly rate limit exceeded. You can make " + (IntString(HourLimit) + " requests per hour")
      + ". Try again in " + (IntString(waitMinutes) + " minutes") + "."
  }

  /** The object `checkLimit` returns for a decision. */
  function ToResult(d: Decision): (r: CheckResult)
    ensures r.allowed <==> d.Admitted?
    ensures r.allowed ==> r.error == None && r.resetTime == None
    ensures !r.allowed ==> r.error.Some? && r.resetTime == Some(d.resetTime)
    ensures d.DeniedMinute? ==> r.error == Some(MinuteMessage(d.waitSeconds))
    ensures d.DeniedHour? ==> r.error == Some(HourMessage(d.waitMinutes))
  {
    match d
    case Admitted => CheckResult(true, None, None)
    case DeniedMinute(w, t) => CheckResult(false, Some(MinuteMessage(w)), Some(t))
    case DeniedHour(w, t) => CheckResult(false, Some(HourMessage(w)), Some(t))
  }

  lemma IncludesAt(hay: string, prefix: string, needle: string, suffix: string)
    requires hay == prefix + needle + suffix
    ensures Includes(hay, needle)
  {
    assert hay[|prefix|..|prefix| + |needle|] == needle;
    assert OccursAt(hay, needle, |prefix|);
  }

  /** A minute denial's message names the limit and the wait in seconds. */
  lemma MinuteMessageNamesWait(w: int)
    ensures Includes(MinuteMessage(w), IntString(w) + " seconds")
    ensures Includes(MinuteMessage(w), IntString(MinuteLimit) + " requests per minute")
  {
    var head := "Rate limit exceeded. You can make ";
    var limit := IntString(MinuteLimit) + " requests per minute";
    var mid := ". Try again in ";
    var wait := IntString(w) + " seconds";
    assert MinuteMessage(w) == head + limit + (mid + wait + ".");
    assert MinuteMessage(w) == (head + limit + mid) + wait + ".";
    IncludesAt(MinuteMessage(w), head, limit, mid + wait + ".");
    IncludesAt(MinuteMessage(w), head + limit + mid, wait, ".");
  }

  /** An hour denial's message names the limit and the wait in minutes. */
  lemma HourMessageNamesWait(w: int)
    ensures Includes(HourMessage(w), IntString(w) + " minutes")
    ensures Includes(HourMessage(w), IntString(HourLimit) + " requests per hour")
  {
    var head := "Hourly rate limit exceeded. You can make ";
    var limit := IntString(HourLimit) + " requests per hour";
    var mid := ". Try again in ";
    var wait := IntString(w) + " minutes";
    assert HourMessage(w) == head + limit + (mid + wait + ".");
    assert HourMessage(w) == (head + limit + mid) + wait + ".";
    IncludesAt(HourMessage(w), head, limit, mid + wait + ".");
    IncludesAt(HourMessage(w), head + limit + mid, wait, ".");
  }

  // ---------------------------------------------------------------------
  // Properties of one check

  /** Counts stay within their limits across a check: they are incremented only
      after both capacity tests have passed. */
  lemma CheckPreservesBounds(s: Trackers, now: int)
    requires Bounded(s)
    ensures Bounded(Next(s, now))
  {
  }

  /** Reset happens only on strict expiry. A window that has not ended keeps its
      reset time and grows by at most one; an ended window restarts at
      `now + window` holding at most the current call. */
  lemma LazyRollover(s: Trackers, now: int)
    ensures now <= s.minute.resetTime ==>
      Next(s, now).minute.resetTime == s.minute.resetTime
      && s.minute.count <= Next(s, now).minute.count <= s.minute.count + 1
    ensures now > s.minute.resetTime ==>
      Next(s, now).minute.resetTime == now + MinuteWindow && 0 <= Next(s, now).minute.count <= 1
    ensures now <= s.hour.resetTime ==>
      Next(s, now).hour.resetTime == s.hour.resetTime
      && s.hour.count <= Next(s, now).hour.count <= s.hour.count + 1
    ensures now > s.hour.resetTime ==>
      Next(s, now).hour.resetTime == now + HourWindow && 0 <= Next(s, now).hour.count <= 1
  {
  }

  /** A call is admitted exactly when, after rollover, both windows have
      capacity; admission raises each count by exactly one. */
  lemma AdmissionIff(s: Trackers, now: int)
    ensures Decide(s, now).Admitted? <==>
      Refreshed(s, now).minute.count < MinuteLimit && Refreshed(s, now).hour.count < HourLimit
    ensures Decide(s, now).Admitted? ==>
      && Next(s, now).minute.count == Refreshed(s, now).minute.count + 1
      && Next(s, now).hour.count == Refreshed(s, now).hour.count + 1
      && Next(s, now).minute.resetTime == Refreshed(s, now).minute.resetTime
      && Next(s, now).hour.resetTime == Refreshed(s, now).hour.resetTime
  {
  }

  /** A denial changes nothing but the lazy rollover; with no window expired
      it changes nothing at all. */
  lemma DenialKeepsCounters(s: Trackers, now: int)
    requires !Decide(s, now).Admitted?
    ensures Next(s, now) == Refreshed(s, now)
    ensures now <= s.minute.resetTime && now <= s.hour.resetTime ==> Next(s, now) == s
  {
  }

  /** Repeating a denied check at the same instant gives the same denial, with
      the same reset time, and leaves the state where the first one left it. */
  lemma DenialIsStable(s: Trackers, now: int)
    requires !Decide(s, now).Admitted?
    ensures Decide(Next(s, now), now) == Decide(s, now)
    ensures Next(Next(s, now), now) == Next(s, now)
  {
    assert Refreshed(Refreshed(s, now), now) == Refreshed(s, now);
  }

  /** When both windows are exhausted the minute window is reported, with the
      minute tracker's reset time. */
  lemma MinuteTakesPrecedence(s: Trackers, now: int)
    requires Refreshed(s, now).minute.count >= MinuteLimit
    requires Refreshed(s, now).hour.count >= HourLimit
    ensures Decide(s, now) == DeniedMinute(
      CeilDiv(Refreshed(s, now).minute.resetTime - now, 1000), Refreshed(s, now).minute.resetTime)
  {
  }

  /** Each denial echoes the blocking tracker's reset time, which is never in
      the past, so the wait is never negative, whatever the clock does; when
      the window was opened no later than `now` (a clock that does not run
      backwards) the wait is at most 60 seconds, or 60 minutes. */
  lemma {:induction false} WaitBounds(s: Trackers, now: int)
    ensures Decide(s, now).DeniedMinute? ==>
      && Decide(s, now).resetTime == Refreshed(s, now).minute.resetTime
      && 0 <= Decide(s, now).waitSeconds
      && (OpenedBy(s, now) ==> Decide(s, now).waitSeconds <= 60)
    ensures Decide(s, now).DeniedHour? ==>
      && Decide(s, now).resetTime == Refreshed(s, now).hour.resetTime
      && 0 <= Decide(s, now).waitMinutes
      && (OpenedBy(s, now) ==> Decide(s, now).waitMinutes <= 60)
  {
    var r := Refreshed(s, now);
    assert now <= r.minute.resetTime && now <= r.hour.resetTime;
    assert OpenedBy(s, now) ==> r.minute.resetTime <= now + MinuteWindow && r.hour.resetTime <= now + HourWindow;
    var a := r.minute.resetTime - now;
    var q := CeilDiv(a, 1000);
    assert 0 <= q && (OpenedBy(s, now) ==> q <= 60) by {
      assert (q - 1) * 1000 < a <= q * 1000;
    }
    var b := r.hour.resetTime - now;
    var p := CeilDiv(b, 60 * 1000);
    assert 0 <= p && (OpenedBy(s, now) ==> p <= 60) by {
      assert (p - 1) * 60000 < b <= p * 60000;
    }
  }

  /** A check at `now` opens windows ending no later than one window length
      after `now`, so OpenedBy holds at every later instant. */
  lemma CheckOpensWindows(s: Trackers, t: int, now: int)
    requires OpenedBy(s, t) && t <= now
    ensures OpenedBy(Next(s, now), now)
  {
  }

  /** A fresh limiter admits its first call at any positive time, with both
      windows restarted at that time. */
  lemma FirstCallAdmitted(now: int)
    requires now > 0
    ensures Decide(Initial, now) == Admitted
    ensures Next(Initial, now) == Trackers(Entry(1, now + MinuteWindow), Entry(1, now + HourWindow))
  {
  }

  // ---------------------------------------------------------------------
  // getRemainingRequests

  /** Remaining capacities lie in [0, limit]; expired windows read as full, and
      no reset time is touched. */
  lemma RemainingBounds(s: Trackers, now: int)
    requires Bounded(s)
    ensures Bounded(ClearExpired(s, now))
    ensures 0 <= RemainingOf(s, now).minute <= MinuteLimit
    ensures 0 <= RemainingOf(s, now).hour <= HourLimit
    ensures now > s.minute.resetTime ==> RemainingOf(s, now).minute == MinuteLimit
    ensures now > s.hour.resetTime ==> RemainingOf(s, now).hour == HourLimit
    ensures ClearExpired(s, now).minute.resetTime == s.minute.resetTime
    ensures ClearExpired(s, now).hour.resetTime == s.hour.resetTime
  {
  }

  /** Both remaining capacities are positive exactly when a check at the same
      instant would admit. */
  lemma RemainingPredictsAdmission(s: Trackers, now: int)
    ensures RemainingOf(s, now).minute > 0 && RemainingOf(s, now).hour > 0
      <==> Decide(s, now).Admitted?
  {
  }

  /** Querying the remaining capacity never changes what a check at the same
      instant decides or leaves behind. */
  lemma ClearExpiredIsInvisible(s: Trackers, now: int)
    ensures Decide(ClearExpired(s, now), now) == Decide(s, now)
    ensures Next(ClearExpired(s, now), now) == Next(s, now)
  {
  }

  // ---------------------------------------------------------------------
  // Sequences of checks

  /** The state after checks at the given instants, in order. */
  function Run(s: Trackers, times: seq<int>): Trackers
    decreases |times|
  {
    if times == [] then s else Run(Next(s, times[0]), times[1..])
  }

  /** How many of those checks are admitted. */
  function Admissions(s: Trackers, times: seq<int>): nat
    decreases |times|
  {
    if times == [] then 0
    else (if Decide(s, times[0]).Admitted? then 1 else 0) + Admissions(Next(s, times[0]), times[1..])
  }

  /** Every state reached by checks stays within the limits. */
  lemma {:induction false} RunPreservesBounds(s: Trackers, times: seq<int>)
    requires Bounded(s)
    ensures Bounded(Run(s, times))
    decreases |times|
  {
    if times != [] {
      CheckPreservesBounds(s, times[0]);
      RunPreservesBounds(Next(s, times[0]), times[1..]);
    }
  }

  /** Checks made while the minute window is still open are admitted at most
      as often as the window has capacity left: each admission is one count. */
  lemma {:induction false} MinuteWindowCapsAdmissions(s: Trackers, times: seq<int>)
    requires Bounded(s)
    requires forall i :: 0 <= i < |times| ==> times[i] <= s.minute.resetTime
    ensures Run(s, times).minute.resetTime == s.minute.resetTime
    ensures Admissions(s, times) == Run(s, times).minute.count - s.minute.count
    ensures Admissions(s, times) <= MinuteLimit - s.minute.count
    decreases |times|
  {
    if times != [] {
      CheckPreservesBounds(s, times[0]);
      MinuteWindowCapsAdmissions(Next(s, times[0]), times[1..]);
    }
  }

  /** The same for the hour window: at most ten admissions per hour window. */
  lemma {:induction false} HourWindowCapsAdmissions(s: Trackers, times: seq<int>)
    requires Bounded(s)
    requires forall i :: 0 <= i < |times| ==> times[i] <= s.hour.resetTime
    ensures Run(s, times).hour.resetTime == s.hour.resetTime
    ensures Admissions(s, times) == Run(s, times).hour.count - s.hour.count
    ensures Admissions(s, times) <= HourLimit - s.hour.count
    decreases |times|
  {
    if times != [] {
      CheckPreservesBounds(s, times[0]);
      HourWindowCapsAdmissions(Next(s, times[0]), times[1..]);
    }
  }

  /** Three calls in a fresh window are admitted, the fourth in the same window
      is denied on the minute limit, and a call after the window ended is
      admitted again with the minute count back at one. */
  lemma RolloverScenario()
    ensures
      var s3 := Run(Initial, [1000, 2000, 3000]);
      && Admissions(Initial, [1000, 2000, 3000]) == 3
      && Decide(s3, 4000) == DeniedMinute(57, 61000)
      && Next(s3, 4000) == s3
      && Decide(s3, 62000) == Admitted
      && Next(s3, 62000).minute == Entry(1, 122000)
      && Next(s3, 62000).hour == Entry(4, 3601000)
      && RemainingOf(Run(Initial, [1000, 2000]), 3000) == Remaining(1, 8)
  {
    var s1 := Next(Initial, 1000);
    assert s1 == Trackers(Entry(1, 61000), Entry(1, 3601000));
    var s2 := Next(s1, 2000);
    assert s2 == Trackers(Entry(2, 61000), Entry(2, 3601000));
    var s3 := Next(s2, 3000);
    assert s3 == Trackers(Entry(3, 61000), Entry(3, 3601000));
    assert Run(Initial, [1000, 2000, 3000]) == s3 by {
      assert [1000, 2000, 3000][1..] == [2000, 3000];
      assert [2000, 3000][1..] == [3000];
      assert Run(s3, []) == s3;
    }
    assert Admissions(Initial, [1000, 2000, 3000]) == 3 by {
      assert [1000, 2000, 3000][1..] == [2000, 3000];
      assert [2000, 3000][1..] == [3000];
    }
    assert Run(Initial, [1000, 2000]) == s2 by {
      assert [1000, 2000][1..] == [2000];
    }
  }

  /** With the minute limit used up and the window ending 45 000 ms from now,
      the denial's message tells the caller to wait 45 seconds. */
  lemma WaitMessageScenario()
    ensures
      var s := Trackers(Entry(3, 46000), Entry(3, 3601000));
      && Decide(s, 1000) == DeniedMinute(45, 46000)
      && ToResult(Decide(s, 1000)).resetTime == Some(46000)
      && Includes(ToResult(Decide(s, 1000)).error.value, "45 seconds")
  {
    var s := Trackers(Entry(3, 46000), Entry(3, 3601000));
    assert Refreshed(s, 1000) == s;
    assert CeilDiv(45000, 1000) == 45;
    var d := Decide(s, 1000);
    assert d == DeniedMinute(45, 46000);
    assert ToResult(d).error.value == MinuteMessage(45);
    assert IntString(45) == "45" by {
      assert NatString(4) == "4";
      assert NatString(45) == NatString(4) + [DigitChar(5)];
    }
    MinuteMessageNamesWait(45);
    assert IntString(45) + " seconds" == "45 seconds";
  }

  // ---------------------------------------------------------------------
  // The limiter object

  /** `RateLimiter`: two trackers, reassigned on rollover and incremented in
      place on admission. */
  class RateLimiter {
    var minuteTracker: Entry
    var hourTracker: Entry

    function State(): Trackers
      reads this
    {
      Trackers(minuteTracker, hourTracker)
    }

    ghost predicate Valid()
      reads this
    {
      Bounded(State())
    }

    constructor ()
      ensures Valid() && State() == Initial
    {
      minuteTracker := Entry(0, 0);
      hourTracker := Entry(0, 0);
    }

    /** `checkLimit()`, with the clock reading passed in. */
    method CheckLimit(now: int) returns (d: Decision)
      requires Valid()
      modifies this
      ensures Valid()
      ensures d == Decide(old(State()), now)
      ensures State() == Next(old(State()), now)
      ensures d.Admitted? <==>
        Refreshed(old(State()), now).minute.count < MinuteLimit
        && Refreshed(old(State()), now).hour.count < HourLimit
      ensures !d.Admitted? ==> State() == Refreshed(old(State()), now)
    {
      if now > minuteTracker.resetTime {
        minuteTracker := Entry(0, now + MinuteWindow);
      }
      if now > hourTracker.resetTime {
        hourTracker := Entry(0, now + HourWindow);
      }
      if minuteTracker.count >= MinuteLimit {
        var resetInSeconds := CeilDiv(minuteTracker.resetTime - now, 1000);
        return DeniedMinute(resetInSeconds, minuteTracker.resetTime);
      }
      if hourTracker.count >= HourLimit {
        var resetInMinutes := CeilDiv(hourTracker.resetTime - now, 1000 * 60);
        return DeniedHour(resetInMinutes, hourTracker.resetTime);
      }
      minuteTracker := minuteTracker.(count := minuteTracker.count + 1);
      hourTracker := hourTracker.(count := hourTracker.count + 1);
      return Admitted;
    }

    /** `getRemainingRequests()`, with the clock reading passed in. */
    method GetRemainingRequests(now: int) returns (r: Remaining)
      requires Valid()
      modifies this
      ensures Valid()
      ensures State() == ClearExpired(old(State()), now)
      ensures r == RemainingOf(old(State()), now)
      ensures 0 <= r.minute <= MinuteLimit && 0 <= r.hour <= HourLimit
      ensures r.minute > 0 && r.hour > 0 <==> Decide(old(State()), now).Admitted?
    {
      if now > minuteTracker.resetTime {
        minuteTracker := minuteTracker.(count := 0);
      }
      if now > hourTracker.resetTime {
        hourTracker := hourTracker.(count := 0);
      }
      r := Remaining(Max(0, MinuteLimit - minuteTracker.count), Max(0, HourLimit - hourTracker.count));
    }
  }
}
