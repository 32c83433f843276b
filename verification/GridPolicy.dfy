/** The submission window and the fail-closed verdict on one job.

    Only the first and the last instant of the walltime are looked at.  That is enough
    because walltimes are short against days and nights, and because the clocks change
    in the middle of a weekend.
 */
module GridPolicy {
  import opened Wrappers

  /* ------------------------------------------------------------------- the clock */

  /** An instant in microseconds, counted from the start of a Monday in UTC. */
  type Instant = int

  const SECOND := 1_000_000
  const HOUR := 3600 * SECOND
  const DAY := 24 * HOUR
  const WEEK := 7 * DAY
  const DAYTIME_START := 9 * HOUR
  const DAYTIME_END := 19 * HOUR
  const MAX_WALLTIME_SECONDS := 30 * 60
  const REQUIRED_CORES := 1
  const MAX_CONCURRENT_JOBS := 1
  const MAX_EVIDENCE_AGE_SECONDS := 5 * 60

  /** The offset of local time, for each instant. */
  type Zone = Instant -> int

  /** Central European time: one or two hours ahead, changing only at 01:00 UTC on Sundays. */
  ghost predicate CentralEuropean(zone: Zone)
  {
    && (forall t :: zone(t) == HOUR || zone(t) == 2 * HOUR)
    && (forall t :: zone(t - 1) != zone(t) ==> t % WEEK == 6 * DAY + HOUR)
  }

  function Weekday(local: int): int
  {
    local / DAY % 7
  }

  /** Monday to Friday, 09:00 up to but not including 19:00. */
  predicate LocalDaytime(local: int)
  {
    Weekday(local) < 5 && DAYTIME_START <= local % DAY < DAYTIME_END
  }

  /** Some week has a day from Monday to Friday between whose opening and closing hours the time lies. */
  lemma LocalDaytimeMeaning(local: int)
    ensures LocalDaytime(local) <==> exists week, day :: OpenOn(week, day, local)
  {
    var days := local / DAY;
    assert local == days * DAY + local % DAY && days == 7 * (days / 7) + days % 7;
    if LocalDaytime(local) {
      assert OpenOn(days / 7, days % 7, local);
    }
    if week, day :| OpenOn(week, day, local) {
      assert local / DAY == 7 * week + day;
    }
  }

  /** The time is on that day of that week, Monday being day 0, and from 09:00 on but before 19:00. */
  predicate OpenOn(week: int, day: int, local: int)
  {
    var midnight := (7 * week + day) * 86_400_000_000;
    0 <= day < 5 && midnight + 32_400_000_000 <= local < midnight + 68_400_000_000
  }

  predicate IsWeekdayDaytime(zone: Zone, moment: Instant)
  {
    LocalDaytime(moment + zone(moment))
  }

  /* ------------------------------------------------------------------- verdicts */

  datatype Decision = Allowed | Blocked | Unknown

  datatype Reason =
    | WeekdayDaytime | WalltimeNotPositive | WalltimeTooLong(seconds: int) | CrossesBoundary | WrongCores(cores: int)
    | JobsActive(count: int) | QuotaExhausted
    | JobsUnknown | QuotaUnknown | FreshnessUnknown | NotFresh | UsageUnknown | UsageInvalid
    | Permitted

  datatype Verdict = Verdict(decision: Decision, reasons: seq<Reason>)

  datatype Error = NegativeJobCount

  /** What is asked for and what the preflight commands reported.  `usage` is None when the usage
      policy was not consulted, and otherwise says whether its output could be parsed; `quotaExceeded`
      is None when the quota was not consulted or not understood. */
  datatype Request = Request(
    moment: Instant, walltimeSeconds: int, cores: int, allowDaytime: bool,
    usage: Option<bool>, quotaExceeded: Option<bool>, jobCount: Option<int>,
    capturedAt: Option<Instant>, requireFresh: bool)

  function WindowReasons(zone: Zone, moment: Instant, allowDaytime: bool): seq<Reason>
  {
    if !IsWeekdayDaytime(zone, moment) || allowDaytime then [] else [WeekdayDaytime]
  }

  /** The last instant of a walltime that starts at `moment`. */
  function LastInstant(moment: Instant, walltimeSeconds: int): Instant
  {
    moment + walltimeSeconds * SECOND - 1
  }

  function WalltimeReasons(zone: Zone, walltimeSeconds: int, moment: Instant): seq<Reason>
  {
    if walltimeSeconds <= 0 then [WalltimeNotPositive]
    else if walltimeSeconds > MAX_WALLTIME_SECONDS then [WalltimeTooLong(walltimeSeconds)]
    else if IsWeekdayDaytime(zone, moment) != IsWeekdayDaytime(zone, LastInstant(moment, walltimeSeconds))
    then [CrossesBoundary]
    else []
  }

  function JobReasons(jobCount: Option<int>): (seq<Reason>, seq<Reason>)
  {
    if jobCount.None? then ([], [JobsUnknown])
    else if jobCount.value >= MAX_CONCURRENT_JOBS then ([JobsActive(jobCount.value)], [])
    else ([], [])
  }

  function QuotaReasons(quotaExceeded: Option<bool>): (seq<Reason>, seq<Reason>)
  {
    if quotaExceeded.None? then ([], [QuotaUnknown])
    else if quotaExceeded.value then ([QuotaExhausted], [])
    else ([], [])
  }

  predicate IsFresh(moment: Instant, capturedAt: Instant)
  {
    0 <= moment - capturedAt <= MAX_EVIDENCE_AGE_SECONDS * SECOND
  }

  function FreshnessReasons(r: Request): seq<Reason>
  {
    if !r.requireFresh then []
    else if r.capturedAt.None? then [FreshnessUnknown]
    else if !IsFresh(r.moment, r.capturedAt.value) then [NotFresh]
    else []
  }

  function UsageReasons(usage: Option<bool>): seq<Reason>
  {
    if usage.None? then [UsageUnknown] else if !usage.value then [UsageInvalid] else []
  }

  function CoreReasons(cores: int): seq<Reason>
  {
    if cores != REQUIRED_CORES then [WrongCores(cores)] else []
  }

  /** All reasons that speak against the job. */
  function BlockingReasons(zone: Zone, r: Request): seq<Reason>
  {
    WindowReasons(zone, r.moment, r.allowDaytime) + WalltimeReasons(zone, r.walltimeSeconds, r.moment)
    + CoreReasons(r.cores) + JobReasons(r.jobCount).0 + QuotaReasons(r.quotaExceeded).0
  }

  /** All reasons to doubt. */
  function DoubtingReasons(r: Request): seq<Reason>
  {
    FreshnessReasons(r) + UsageReasons(r.usage) + JobReasons(r.jobCount).1 + QuotaReasons(r.quotaExceeded).1
  }

  /** A list in which every reason is of the given kind. */
  predicate All(kind: Reason -> bool, reasons: seq<Reason>)
  {
    forall reason | reason in reasons :: kind(reason)
  }

  lemma BlockingMeaning(zone: Zone, r: Request)
    requires r.jobCount.Some? ==> r.jobCount.value >= 0
    ensures BlockingReasons(zone, r) != [] <==> MustNotRun(zone, r)
    ensures All(Blocking, BlockingReasons(zone, r))
  {
    assert All(Blocking, WindowReasons(zone, r.moment, r.allowDaytime));
    assert All(Blocking, WalltimeReasons(zone, r.walltimeSeconds, r.moment));
  }

  /** What a reason says of the job. */
  predicate Applies(zone: Zone, r: Request, reason: Reason)
  {
    var daytime, lastDaytime := IsWeekdayDaytime(zone, r.moment), IsWeekdayDaytime(zone, LastOf(r));
    match reason
    case WeekdayDaytime => daytime && !r.allowDaytime
    case WalltimeNotPositive => r.walltimeSeconds <= 0
    case WalltimeTooLong(seconds) => r.walltimeSeconds == seconds > 1800
    case CrossesBoundary => 0 < r.walltimeSeconds <= 1800 && daytime != lastDaytime
    case WrongCores(cores) => r.cores == cores != 1
    case JobsActive(count) => r.jobCount == Some(count) && count > 0
    case QuotaExhausted => r.quotaExceeded == Some(true)
    case JobsUnknown => r.jobCount.None?
    case QuotaUnknown => r.quotaExceeded.None?
    case FreshnessUnknown => r.requireFresh && r.capturedAt.None?
    case NotFresh =>
      r.requireFresh && r.capturedAt.Some? && !(r.moment - 300_000_000 <= r.capturedAt.value <= r.moment)
    case UsageUnknown => r.usage.None?
    case UsageInvalid => r.usage == Some(false)
    case Permitted => false
  }

  /** The last microsecond of the job. */
  function LastOf(r: Request): Instant
  {
    r.moment + r.walltimeSeconds * 1_000_000 - 1
  }

  lemma WalltimeReasonsApply(zone: Zone, r: Request, reason: Reason)
    ensures reason in WalltimeReasons(zone, r.walltimeSeconds, r.moment)
       <==> (reason.WalltimeNotPositive? || reason.WalltimeTooLong? || reason.CrossesBoundary?)
            && Applies(zone, r, reason)
  {
    assert LastOf(r) == LastInstant(r.moment, r.walltimeSeconds);
  }

  /** The blocking reasons given are those that apply. */
  lemma BlockingReasonsApply(zone: Zone, r: Request, reason: Reason)
    requires r.jobCount.Some? ==> r.jobCount.value >= 0
    ensures reason in BlockingReasons(zone, r) <==> Blocking(reason) && Applies(zone, r, reason)
  {
    WalltimeReasonsApply(zone, r, reason);
    ReasonInParts(WindowReasons(zone, r.moment, r.allowDaytime), WalltimeReasons(zone, r.walltimeSeconds, r.moment),
                  CoreReasons(r.cores), JobReasons(r.jobCount).0, QuotaReasons(r.quotaExceeded).0, reason);
  }

  /** The doubting reasons given are those that apply. */
  lemma DoubtingReasonsApply(zone: Zone, r: Request, reason: Reason)
    ensures reason in DoubtingReasons(r) <==> Doubting(reason) && Applies(zone, r, reason)
  {
    ReasonInParts(FreshnessReasons(r), UsageReasons(r.usage), JobReasons(r.jobCount).1,
                  QuotaReasons(r.quotaExceeded).1, [], reason);
  }

  lemma ReasonInParts(
    a: seq<Reason>, b: seq<Reason>, c: seq<Reason>, d: seq<Reason>, e: seq<Reason>, reason: Reason)
    ensures reason in a + b + c + d + e
       <==> (reason in a || reason in b || reason in c || reason in d || reason in e)
  {
  }

  lemma DoubtingMeaning(zone: Zone, r: Request)
    requires (r.jobCount.Some? ==> r.jobCount.value >= 0) && !MustNotRun(zone, r)
    ensures DoubtingReasons(r) == [] <==> MayRun(zone, r)
    ensures All(Doubting, DoubtingReasons(r))
  {
  }

  /** Decide whether the job may be submitted, failing closed on doubt. */
  method EvaluatePolicy(zone: Zone, r: Request) returns (result: Result<Verdict, Error>)
    ensures result.Err? <==> r.jobCount.Some? && r.jobCount.value < 0
    ensures result.Ok? ==> (result.value.decision.Allowed? <==> MayRun(zone, r))
    ensures result.Ok? ==> (result.value.decision.Blocked? <==> MustNotRun(zone, r))
    ensures result.Ok? ==>
              var reasons := result.value.reasons;
              match result.value.decision
              case Allowed => reasons == [Permitted]
              case Blocked => reasons != [] && forall reason ::
                reason in reasons <==> Blocking(reason) && Applies(zone, r, reason)
              case Unknown => reasons != [] && forall reason ::
                reason in reasons <==> Doubting(reason) && Applies(zone, r, reason)
  {
    if r.jobCount.Some? && r.jobCount.value < 0 {
      return Err(NegativeJobCount);
    }
    var blocking := WindowReasons(zone, r.moment, r.allowDaytime);
    blocking := blocking + WalltimeReasons(zone, r.walltimeSeconds, r.moment);
    blocking := blocking + CoreReasons(r.cores);
    var unknowns := FreshnessReasons(r);
    unknowns := unknowns + UsageReasons(r.usage);
    var (jobs, jobUnknowns) := JobReasons(r.jobCount);
    blocking, unknowns := blocking + jobs, unknowns + jobUnknowns;
    var (quota, quotaUnknowns) := QuotaReasons(r.quotaExceeded);
    blocking, unknowns := blocking + quota, unknowns + quotaUnknowns;
    BlockingMeaning(zone, r);
    forall reason
      ensures reason in blocking <==> Blocking(reason) && Applies(zone, r, reason)
      ensures reason in unknowns <==> Doubting(reason) && Applies(zone, r, reason)
    {
      BlockingReasonsApply(zone, r, reason);
      DoubtingReasonsApply(zone, r, reason);
    }
    if blocking != [] {
      return Ok(Verdict(Blocked, blocking));
    }
    DoubtingMeaning(zone, r);
    return Ok(if unknowns != [] then Verdict(Unknown, unknowns) else Verdict(Allowed, [Permitted]));
  }

  predicate Blocking(reason: Reason)
  {
    || reason.WeekdayDaytime? || reason.WalltimeNotPositive? || reason.WalltimeTooLong? || reason.CrossesBoundary?
    || reason.WrongCores? || reason.JobsActive? || reason.QuotaExhausted?
  }

  predicate Doubting(reason: Reason)
  {
    || reason.JobsUnknown? || reason.QuotaUnknown? || reason.FreshnessUnknown? || reason.NotFresh?
    || reason.UsageUnknown? || reason.UsageInvalid?
  }

  /** The instants that the job may run in. */
  predicate Runs(r: Request, t: Instant)
  {
    r.moment <= t < r.moment + r.walltimeSeconds * SECOND
  }

  /** The walltime is in bounds, and at its ends it is day or night alike. */
  predicate WindowLooksFine(zone: Zone, r: Request)
  {
    && 0 < r.walltimeSeconds <= MAX_WALLTIME_SECONDS
    && IsWeekdayDaytime(zone, r.moment) == IsWeekdayDaytime(zone, LastInstant(r.moment, r.walltimeSeconds))
    && (IsWeekdayDaytime(zone, r.moment) ==> r.allowDaytime)
  }

  /** Some evidence speaks against the job. */
  predicate MustNotRun(zone: Zone, r: Request)
  {
    || !WindowLooksFine(zone, r) || r.cores != REQUIRED_CORES
    || (r.jobCount.Some? && r.jobCount.value > 0) || r.quotaExceeded == Some(true)
  }

  /** All evidence is there, and all of it speaks for the job. */
  predicate MayRun(zone: Zone, r: Request)
  {
    && WindowLooksFine(zone, r) && r.cores == REQUIRED_CORES
    && r.jobCount == Some(0) && r.quotaExceeded == Some(false) && r.usage == Some(true)
    && (r.requireFresh ==> r.capturedAt.Some? && IsFresh(r.moment, r.capturedAt.value))
  }

  /* ----------------------------------------------------------- two ends suffice */

  /** On a fixed clock, within half an hour, what is the same at both ends is the same between them. */
  lemma EndsDecideOnFixedClock(first: int, middle: int, last: int)
    requires first <= middle <= last < first + MAX_WALLTIME_SECONDS * SECOND
    requires LocalDaytime(first) == LocalDaytime(last)
    ensures LocalDaytime(middle) == LocalDaytime(first)
  {
    WithinHalfAnHour(first, middle);
    WithinHalfAnHour(middle, last);
    WithinHalfAnHour(first, last);
  }

  /** Two local times less than half an hour apart are on one day, or the day changes between them. */
  lemma WithinHalfAnHour(early: int, late: int)
    requires early <= late < early + MAX_WALLTIME_SECONDS * SECOND
    ensures late / DAY == early / DAY
         || (late / DAY == early / DAY + 1 && late % DAY < HOUR && early % DAY >= DAY - HOUR)
  {
  }

  /** Where two offsets differ, the clocks were changed in between. */
  lemma {:induction false} ClockChange(zone: Zone, s: Instant, t: Instant) returns (change: Instant)
    requires s <= t && zone(s) != zone(t)
    ensures s < change <= t && zone(change - 1) != zone(change)
    decreases t - s
  {
    if zone(t - 1) != zone(t) {
      change := t;
    } else {
      change := ClockChange(zone, s, t - 1);
    }
  }

  /** Half an hour around a change of the clocks is Sunday, on the old clock and on the new. */
  lemma SundayAroundChange(change: Instant, t: Instant, offset: int)
    requires change % WEEK == 6 * DAY + HOUR
    requires change - MAX_WALLTIME_SECONDS * SECOND < t < change + MAX_WALLTIME_SECONDS * SECOND
    requires offset == HOUR || offset == 2 * HOUR
    ensures !LocalDaytime(t + offset)
  {
    var week, rest := change / WEEK, t + offset - (change - HOUR);
    assert t + offset == (7 * week + 6) * DAY + rest && 0 <= rest < DAY;
    assert (t + offset) / DAY == 7 * week + 6;
  }

  /** Within half an hour that spans a change of the clocks it is never weekday daytime. */
  lemma NoDaytimeAcrossChange(zone: Zone, s: Instant, t: Instant, u: Instant)
    requires CentralEuropean(zone) && s <= u <= t < s + MAX_WALLTIME_SECONDS * SECOND && zone(s) != zone(t)
    ensures !IsWeekdayDaytime(zone, u)
  {
    var change := ClockChange(zone, s, t);
    SundayAroundChange(change, u, zone(u));
  }

  /** Within half an hour, what is the same at both ends is the same at every instant between them. */
  lemma EndsDecide(zone: Zone, s: Instant, u: Instant, t: Instant)
    requires CentralEuropean(zone) && s <= u <= t < s + MAX_WALLTIME_SECONDS * SECOND
    requires IsWeekdayDaytime(zone, s) == IsWeekdayDaytime(zone, t)
    ensures IsWeekdayDaytime(zone, u) == IsWeekdayDaytime(zone, s)
  {
    if zone(s) != zone(t) {
      NoDaytimeAcrossChange(zone, s, t, u);
      NoDaytimeAcrossChange(zone, s, t, s);
    } else if zone(s) != zone(u) {
      NoDaytimeAcrossChange(zone, s, u, s);
      NoDaytimeAcrossChange(zone, s, u, u);
    } else {
      EndsDecideOnFixedClock(s + zone(s), u + zone(s), t + zone(s));
    }
  }

  /** The look at two instants is exact: it passes if and only if the whole walltime is in bounds, has the
      status of its start at every instant, and is free of weekday daytime unless that is allowed. */
  lemma TwoInstantsAreEnough(zone: Zone, r: Request)
    requires CentralEuropean(zone)
    ensures WindowLooksFine(zone, r)
       <==> && 0 < r.walltimeSeconds <= MAX_WALLTIME_SECONDS
            && (forall t :: Runs(r, t) ==> IsWeekdayDaytime(zone, t) == IsWeekdayDaytime(zone, r.moment))
            && (forall t :: Runs(r, t) ==> IsWeekdayDaytime(zone, t) ==> r.allowDaytime)
  {
    if 0 < r.walltimeSeconds <= MAX_WALLTIME_SECONDS {
      var last := LastInstant(r.moment, r.walltimeSeconds);
      assert Runs(r, r.moment) && Runs(r, last);
      if WindowLooksFine(zone, r) {
        forall t | Runs(r, t)
          ensures IsWeekdayDaytime(zone, t) == IsWeekdayDaytime(zone, r.moment)
        {
          EndsDecide(zone, r.moment, t, last);
        }
      }
    }
  }

  /** The bound on walltimes is what makes two instants enough: overnight to overnight, a working day
      lies between two instants of the night. */
  lemma LongWalltimesNeedMore(zone: Zone)
    requires forall t :: zone(t) == HOUR
    ensures var start, last := 7 * HOUR, LastInstant(7 * HOUR, 12 * 3600);
            && !IsWeekdayDaytime(zone, start) && !IsWeekdayDaytime(zone, last)
            && IsWeekdayDaytime(zone, start + 2 * HOUR) && start <= start + 2 * HOUR <= last
  {
  }
}
