/** The metrics endpoints: each forwards its query to the service and wraps
    the result, 200 on success and 500 when the service throws; plus the
    dashboard summary over three windows ending at one shared `now`. */
module MetricsController {

  import opened Js
  import opened Text
  import opened Http
  import opened MetricsService

  /** A JSON answer: the status (whose 2xx-ness is the `success` flag) and
      the data, present exactly on success. */
  datatype Answer<T> = Answer(reply: Reply, data: Option<T>)

  /** Wraps a service result: 200 with the data, or 500 without. */
  function Respond<T>(r: Result<T, RecordError>): (a: Answer<T>)
    ensures IsSuccess(a.reply) <==> r.Success?
    ensures r.Success? ==> a == Answer(Ok, Some(r.value))
    ensures r.Failure? ==> a == Answer(ServerError, None)
  {
    match r
    case Success(v) => Answer(Ok, Some(v))
    case Failure(_) => Answer(ServerError, None)
  }

  /** The query of the aggregate endpoints: window bounds already read as
      epoch milliseconds (`None` when absent or empty) and an optional user. */
  datatype MetricsQuery = MetricsQuery(startDate: Option<int>, endDate: Option<int>, userId: Option<Id>)

  function ScopeOf(q: MetricsQuery): Scope {
    Scope(q.startDate, q.endDate, q.userId)
  }

  /** The service call, or the store failing while it runs (`fault`). */
  function Call<T>(fault: bool, v: T): (r: Result<T, RecordError>)
    ensures r.Success? <==> !fault
    ensures r.Success? ==> r.value == v
  {
    if fault then Failure(ValidationError) else Success(v)
  }

  /** `GET /metrics`: the complete metrics for exactly the query's window and user. */
  function GetMetrics(log: Log, q: MetricsQuery, now: int, fault: bool): (a: Answer<CompleteStats>)
    ensures a.reply == (if fault then ServerError else Ok)
    ensures !fault ==> a.data.Some?
                       && a.data.value.falsePositiveRate == FalsePositiveRate(log, Scope(q.startDate, q.endDate, q.userId))
                       && a.data.value.successRate == AuthSuccessRate(log, Scope(q.startDate, q.endDate, q.userId))
                       && a.data.value.responseTime == AverageResponseTime(log, Scope(q.startDate, q.endDate, q.userId))
  {
    Respond(Call(fault, CompleteMetrics(log, ScopeOf(q), now)))
  }

  function GetFalsePositiveRate(log: Log, q: MetricsQuery, fault: bool): (a: Answer<FalsePositiveStats>)
    ensures a.reply == (if fault then ServerError else Ok)
    ensures !fault ==> a.data == Some(FalsePositiveRate(log, Scope(q.startDate, q.endDate, q.userId)))
  {
    Respond(Call(fault, FalsePositiveRate(log, ScopeOf(q))))
  }

  function GetSuccessRate(log: Log, q: MetricsQuery, fault: bool): (a: Answer<SuccessStats>)
    ensures a.reply == (if fault then ServerError else Ok)
    ensures !fault ==> a.data == Some(AuthSuccessRate(log, Scope(q.startDate, q.endDate, q.userId)))
  {
    Respond(Call(fault, AuthSuccessRate(log, ScopeOf(q))))
  }

  function GetResponseTime(log: Log, q: MetricsQuery, fault: bool): (a: Answer<ResponseStats>)
    ensures a.reply == (if fault then ServerError else Ok)
    ensures !fault ==> a.data == Some(AverageResponseTime(log, Scope(q.startDate, q.endDate, q.userId)))
  {
    Respond(Call(fault, AverageResponseTime(log, ScopeOf(q))))
  }

  const DefaultPeriod: string := "daily"
  const DefaultLimit: int := 30

  /** `GET /metrics/period`: period defaults to `daily` and limit to 30; a
      given limit goes through `parseInt`, and a limit that is not a
      positive number makes the service throw (500). */
  function GetMetricsByPeriod(byNewest: Log, period: Option<string>, limit: Option<string>,
                              cal: int -> DateParts): (a: Answer<seq<PeriodGroup>>)
    ensures var n := if limit.Some? then ParseInt(limit.value) else Some(DefaultLimit);
            && (a.reply == Ok <==> n.Some? && n.value > 0)
            && (a.reply != Ok ==> a.reply == ServerError && a.data.None?)
            && (a.reply == Ok ==>
                  a.data.Some?
                  && NewestGroups(Recent(byNewest, n.value), PeriodOf(period.GetOr(DefaultPeriod)),
                                  cal, n.value, a.data.value))
    ensures period.None? && limit.None? ==>
              a == Respond(MetricsByPeriod(byNewest, "daily", Some(30), cal))
  {
    var n := if limit.Some? then ParseInt(limit.value) else Some(DefaultLimit);
    Respond(MetricsByPeriod(byNewest, period.GetOr(DefaultPeriod), n, cal))
  }

  // ---------------------------------------------------------------------
  // getDashboardMetrics

  const DayMs: int := 24 * 60 * 60 * 1000

  datatype Dashboard = Dashboard(
    last24Hours: CompleteStats,
    last7Days: CompleteStats,
    last30Days: CompleteStats,
    recentTrends: seq<PeriodGroup>,
    generatedAt: int)

  /** The window ending at `now` that starts `days` days earlier. */
  function LastDays(now: int, days: nat): (s: Scope)
    ensures s.start == Some(now - days * 86400000) && s.end == Some(now) && s.userId.None?
  {
    Scope(Some(now - days * DayMs), Some(now), None)
  }

  /** `GET /metrics/dashboard`: complete metrics for the last 24 hours, 7
      days and 30 days, all ending at the same `now`, for every user; and the
      daily breakdown limited to 7 groups, read from the same collection
      sorted newest first. */
  function GetDashboardMetrics(log: Log, byNewest: Log, now: int, cal: int -> DateParts, fault: bool)
    : (a: Answer<Dashboard>)
    requires SortedNewestFirst(log, byNewest)
    ensures a.reply == (if fault then ServerError else Ok)
    ensures !fault ==>
              && a.data.Some?
              && a.data.value.last24Hours == CompleteMetrics(log, LastDays(now, 1), now)
              && a.data.value.last7Days == CompleteMetrics(log, LastDays(now, 7), now)
              && a.data.value.last30Days == CompleteMetrics(log, LastDays(now, 30), now)
              && NewestGroups(Recent(byNewest, 7), Daily, cal, 7, a.data.value.recentTrends)
              && a.data.value.generatedAt == now
  {
    var trends := MetricsByPeriod(byNewest, "daily", Some(7), cal);
    Respond(Call(fault, Dashboard(CompleteMetrics(log, LastDays(now, 1), now),
                                  CompleteMetrics(log, LastDays(now, 7), now),
                                  CompleteMetrics(log, LastDays(now, 30), now),
                                  trends.value, now)))
  }

  /** The three dashboard windows are nested: 30 days before `now` is no
      later than 7 days before, which is no later than 24 hours before. So
      every count over a shorter window is at most the count over a longer
      one. */
  lemma {:induction false} DashboardWindowsNested(log: Log, now: int)
    ensures LastDays(now, 30).start.value <= LastDays(now, 7).start.value
            <= LastDays(now, 1).start.value <= now
    ensures |Select(log, AuthAttempts(LastDays(now, 1)))| <= |Select(log, AuthAttempts(LastDays(now, 7)))|
            <= |Select(log, AuthAttempts(LastDays(now, 30)))|
    ensures |Select(log, TwoFaAttempts(LastDays(now, 1)))| <= |Select(log, TwoFaAttempts(LastDays(now, 7)))|
            <= |Select(log, TwoFaAttempts(LastDays(now, 30)))|
  {
    SelectNarrower(log, AuthAttempts(LastDays(now, 7)), AuthAttempts(LastDays(now, 1)));
    SelectNarrower(log, AuthAttempts(LastDays(now, 30)), AuthAttempts(LastDays(now, 7)));
    SelectNarrower(log, TwoFaAttempts(LastDays(now, 7)), TwoFaAttempts(LastDays(now, 1)));
    SelectNarrower(log, TwoFaAttempts(LastDays(now, 30)), TwoFaAttempts(LastDays(now, 7)));
  }
}
